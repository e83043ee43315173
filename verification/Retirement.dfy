/** Retiring text items that others absorbed (src/document_repair.cpp).

    A retired item leaves the arena, its children go to its survivor, every parent drops it, and
    every reference in the document is renumbered: to an item's new place, or, for a retired
    item, to its survivor's. `order` is the order in which the absorptions are visited. */
module Retirement {
  import opened Bytes
  import opened Documents

  function NameOf(texts: seq<Item>, i: nat): Ref
    requires i < |texts|
  {
    if texts[i].selfRef.Some? then texts[i].selfRef.value else At(Texts, i)
  }

  /** The first text of that name among the first n. */
  function Position(texts: seq<Item>, r: Ref, n: nat): Option<nat>
    requires n <= |texts|
  {
    if n == 0 then None
    else
      var before := Position(texts, r, n - 1);
      if before.Some? then before else if NameOf(texts, n - 1) == r then Some(n - 1) else None
  }

  // ----- Adoption.

  /** Who finally absorbs what `r` absorbed, following absorptions a bounded number of times. */
  function Survivor(absorbedBy: map<Ref, Ref>, r: Ref, hops: nat): Ref
    decreases hops
  {
    if hops == 0 || r !in absorbedBy then r else Survivor(absorbedBy, absorbedBy[r], hops - 1)
  }

  /** The children with those not yet listed added behind. */
  function Adopt(into: seq<Ref>, children: seq<Ref>): seq<Ref> {
    if children == [] then into
    else
      var before := Adopt(into, children[..|children| - 1]);
      var c := children[|children| - 1];
      if c in before then before else before + [c]
  }

  function AdoptOne(texts: seq<Item>, absorbedBy: map<Ref, Ref>, r: Ref): seq<Item>
    requires r in absorbedBy
  {
    var survivor := Survivor(absorbedBy, absorbedBy[r], |texts|);
    var from, to := Position(texts, r, |texts|), Position(texts, survivor, |texts|);
    if from.None? || to.None? || from.value >= |texts| || to.value >= |texts| || from == to then texts
    else
      var moving, adopting := texts[from.value], texts[to.value];
      texts[to.value := adopting.(children := Adopt(adopting.children, moving.children))]
           [from.value := moving.(children := [])]
  }

  function AdoptAll(texts: seq<Item>, absorbedBy: map<Ref, Ref>, order: seq<Ref>): seq<Item>
    requires forall r :: r in order ==> r in absorbedBy
  {
    if order == [] then texts
    else AdoptOne(AdoptAll(texts, absorbedBy, order[..|order| - 1]), absorbedBy, order[|order| - 1])
  }

  // ----- Renumbering.

  /** The kept texts among the first n, in order. */
  function Kept(texts: seq<Item>, retired: set<Ref>, n: nat): seq<Item>
    requires n <= |texts|
  {
    if n == 0 then []
    else
      var before := Kept(texts, retired, n - 1);
      if NameOf(texts, n - 1) in retired then before else before + [texts[n - 1]]
  }

  function KeptNames(texts: seq<Item>, retired: set<Ref>, n: nat): map<Ref, Ref>
    requires n <= |texts|
  {
    if n == 0 then map[]
    else
      var before := KeptNames(texts, retired, n - 1);
      var oldRef, newRef := NameOf(texts, n - 1), At(Texts, |Kept(texts, retired, n - 1)|);
      if oldRef in retired || oldRef == newRef then before else before[oldRef := newRef]
  }

  function WithAbsorbed(renumbering: map<Ref, Ref>, absorbedBy: map<Ref, Ref>, order: seq<Ref>): map<Ref, Ref>
    requires forall r :: r in order ==> r in absorbedBy
  {
    if order == [] then renumbering
    else
      var before := WithAbsorbed(renumbering, absorbedBy, order[..|order| - 1]);
      var r := order[|order| - 1];
      before[r := Renamed(before, absorbedBy[r])]
  }

  // ----- Pruning.

  function Without(refs: seq<Ref>, retired: set<Ref>): seq<Ref> {
    if refs == [] then []
    else
      var before := Without(refs[..|refs| - 1], retired);
      if refs[|refs| - 1] in retired then before else before + [refs[|refs| - 1]]
  }

  function PruneItem(item: Item, arena: Arena, retired: set<Ref>, parents: set<Ref>): Item {
    if arena == Groups || (item.selfRef.Some? && item.selfRef.value in parents)
    then item.(children := Without(item.children, retired))
    else item
  }

  function PruneItems(items: seq<Item>, arena: Arena, retired: set<Ref>, parents: set<Ref>): seq<Item> {
    seq(|items|, i requires 0 <= i < |items| => PruneItem(items[i], arena, retired, parents))
  }

  /** The parents the retired texts name. */
  function ParentsOf(texts: seq<Item>, retired: set<Ref>, n: nat): set<Ref>
    requires n <= |texts|
  {
    if n == 0 then {}
    else
      ParentsOf(texts, retired, n - 1) +
      (if NameOf(texts, n - 1) in retired && texts[n - 1].parent.Some? then {texts[n - 1].parent.value} else {})
  }

  // ----- The whole operation.

  ghost predicate IsOrder(order: seq<Ref>, absorbedBy: map<Ref, Ref>) {
    Distinct(order) && forall r :: r in order <==> r in absorbedBy
  }

  ghost function Renumbering(d: Document, absorbedBy: map<Ref, Ref>, order: seq<Ref>): map<Ref, Ref>
    requires IsOrder(order, absorbedBy)
  {
    var texts := d.arenas[Texts];
    WithAbsorbed(KeptNames(texts, absorbedBy.Keys, |texts|), absorbedBy, order)
  }

  /** The document with children adopted, retired texts gone and their listings dropped. */
  ghost function Pruned(d: Document, absorbedBy: map<Ref, Ref>, order: seq<Ref>): Document
    requires IsOrder(order, absorbedBy)
  {
    var retired := absorbedBy.Keys;
    var adopted := AdoptAll(d.arenas[Texts], absorbedBy, order);
    var parents := ParentsOf(d.arenas[Texts], retired, |d.arenas[Texts]|);
    var arenas: Arenas := d.arenas[Texts := Kept(adopted, retired, |adopted|)];
    Document(map a: Arena | a in arenas :: PruneItems(arenas[a], a, retired, parents),
             Without(d.body, retired), Without(d.furniture, retired))
  }

  ghost function Retire(d: Document, absorbedBy: map<Ref, Ref>, order: seq<Ref>): Document
    requires IsOrder(order, absorbedBy)
  {
    RewriteDocument(Renumbering(d, absorbedBy, order), Pruned(d, absorbedBy, order))
  }

  // ----- What the callers provide.

  /** A node whose list of children the pruning reaches. */
  ghost predicate Prunable(d: Document, node: Ref) {
    node.Body? || node.Furniture? ||
    (Resolves(d, node) && (node.arena == Groups || ItemAt(d, node).selfRef.Some?))
  }

  /** Texts absorbed by texts that stay; none of them a child of another one. Direct children of
      the body absorbed by direct children of the body are the case the repairs produce. */
  ghost predicate Absorption(d: Document, absorbedBy: map<Ref, Ref>) {
    forall r: Ref :: r in absorbedBy ==>
      && Resolves(d, r) && r.arena == Texts
      && Resolves(d, absorbedBy[r]) && absorbedBy[r].arena == Texts && absorbedBy[r] !in absorbedBy
      && (ItemAt(d, r).parent.Some? ==>
            ItemAt(d, r).parent.value !in absorbedBy && Prunable(d, ItemAt(d, r).parent.value))
  }

  // ----- Where things end up.

  /** How many of the first n texts stay. */
  ghost function Stay(absorbedBy: map<Ref, Ref>, n: nat): nat {
    if n == 0 then 0 else Stay(absorbedBy, n - 1) + (if At(Texts, n - 1) in absorbedBy then 0 else 1)
  }

  ghost function Slot(absorbedBy: map<Ref, Ref>, r: Ref): Ref {
    if r.At? && r.arena == Texts then At(Texts, Stay(absorbedBy, r.index)) else r
  }

  /** The new name: an item's new place, a retired item's survivor's. */
  ghost function NewRef(absorbedBy: map<Ref, Ref>, r: Ref): Ref {
    Slot(absorbedBy, if r in absorbedBy then absorbedBy[r] else r)
  }

  lemma {:induction false} StayGrows(absorbedBy: map<Ref, Ref>, m: nat, n: nat)
    requires m <= n
    ensures Stay(absorbedBy, m) <= Stay(absorbedBy, n) <= Stay(absorbedBy, m) + (n - m)
    ensures m < n && At(Texts, m) !in absorbedBy ==> Stay(absorbedBy, m) < Stay(absorbedBy, n)
  {
    if m < n {
      StayGrows(absorbedBy, m, n - 1);
    }
  }

  /** Distinct items that stay keep distinct names. */
  lemma SlotInjective(absorbedBy: map<Ref, Ref>, a: Ref, b: Ref)
    requires a !in absorbedBy && b !in absorbedBy && Slot(absorbedBy, a) == Slot(absorbedBy, b)
    ensures a == b
  {
    if a.At? && b.At? && a.arena == Texts && b.arena == Texts && a.index != b.index {
      StayGrows(absorbedBy, Min(a.index, b.index), Max(a.index, b.index));
    }
  }

  lemma {:induction false} SlotSurjective(absorbedBy: map<Ref, Ref>, n: nat, k: nat) returns (i: nat)
    requires k < Stay(absorbedBy, n)
    ensures i < n && At(Texts, i) !in absorbedBy && Stay(absorbedBy, i) == k
  {
    if At(Texts, n - 1) !in absorbedBy && Stay(absorbedBy, n - 1) == k {
      i := n - 1;
    } else {
      i := SlotSurjective(absorbedBy, n - 1, k);
    }
  }

  // ----- The pieces of the program, read that way.

  /** Texts named by their places, as the document's and the adopted ones are. */
  ghost predicate InPlace(texts: seq<Item>) {
    forall i :: 0 <= i < |texts| ==> NameOf(texts, i) == At(Texts, i)
  }

  lemma {:induction false} PositionInPlace(texts: seq<Item>, r: Ref, n: nat)
    requires n <= |texts| && InPlace(texts)
    ensures Position(texts, r, n) == if r.At? && r.arena == Texts && r.index < n then Some(r.index) else None
  {
    if n > 0 {
      PositionInPlace(texts, r, n - 1);
    }
  }

  lemma KeptNext(texts: seq<Item>, absorbedBy: map<Ref, Ref>, n: nat)
    requires n < |texts| && InPlace(texts)
    ensures Kept(texts, absorbedBy.Keys, n + 1) ==
      Kept(texts, absorbedBy.Keys, n) + (if At(Texts, n) in absorbedBy then [] else [texts[n]])
    ensures Stay(absorbedBy, n + 1) == Stay(absorbedBy, n) + (if At(Texts, n) in absorbedBy then 0 else 1)
  {
    assert NameOf(texts, n) == At(Texts, n);
  }

  lemma NoneKept(texts: seq<Item>, absorbedBy: map<Ref, Ref>)
    ensures Kept(texts, absorbedBy.Keys, 0) == [] && Stay(absorbedBy, 0) == 0
  {
  }

  /** The item that stays in slot Stay(i) is item i. */
  lemma {:induction false} KeptAt(texts: seq<Item>, absorbedBy: map<Ref, Ref>, n: nat, i: nat)
    requires n <= |texts| && InPlace(texts)
    ensures |Kept(texts, absorbedBy.Keys, n)| == Stay(absorbedBy, n)
    ensures i < n && At(Texts, i) !in absorbedBy ==>
      Stay(absorbedBy, i) < Stay(absorbedBy, n) && Kept(texts, absorbedBy.Keys, n)[Stay(absorbedBy, i)] == texts[i]
    decreases n
  {
    hide Kept, Stay, InPlace;
    if n == 0 {
      NoneKept(texts, absorbedBy);
    } else {
      KeptAt(texts, absorbedBy, n - 1, i);
      KeptNext(texts, absorbedBy, n - 1);
    }
  }

  ghost function KeptName(absorbedBy: map<Ref, Ref>, n: nat, r: Ref): Ref {
    if r.At? && r.arena == Texts && r.index < n && r !in absorbedBy then Slot(absorbedBy, r) else r
  }

  lemma KeptNamesStep(texts: seq<Item>, absorbedBy: map<Ref, Ref>, n: nat)
    requires n < |texts| && InPlace(texts)
    ensures
      var before, oldRef, newRef := KeptNames(texts, absorbedBy.Keys, n), At(Texts, n), At(Texts, Stay(absorbedBy, n));
      KeptNames(texts, absorbedBy.Keys, n + 1) == if oldRef in absorbedBy || oldRef == newRef then before else before[oldRef := newRef]
  {
    assert NameOf(texts, n) == At(Texts, n);
    KeptAt(texts, absorbedBy, n, 0);
    hide Kept, InPlace, NameOf, Stay;
  }

  lemma KeptNameNext(absorbedBy: map<Ref, Ref>, n: nat, r: Ref, before: map<Ref, Ref>, after: map<Ref, Ref>)
    requires Renamed(before, r) == KeptName(absorbedBy, n, r)
    requires
      var oldRef, newRef := At(Texts, n), At(Texts, Stay(absorbedBy, n));
      after == if oldRef in absorbedBy || oldRef == newRef then before else before[oldRef := newRef]
    ensures Renamed(after, r) == KeptName(absorbedBy, n + 1, r)
  {
    hide Stay;
  }

  lemma NoKeptNames(texts: seq<Item>, absorbedBy: map<Ref, Ref>, r: Ref)
    ensures Renamed(KeptNames(texts, absorbedBy.Keys, 0), r) == KeptName(absorbedBy, 0, r)
  {
    hide Slot;
  }

  lemma {:induction false} KeptNamesAre(texts: seq<Item>, absorbedBy: map<Ref, Ref>, n: nat, r: Ref)
    requires n <= |texts| && InPlace(texts)
    ensures Renamed(KeptNames(texts, absorbedBy.Keys, n), r) == KeptName(absorbedBy, n, r)
    decreases n
  {
    hide KeptNames, InPlace, KeptName, Renamed;
    if n == 0 {
      NoKeptNames(texts, absorbedBy, r);
    } else {
      KeptNamesAre(texts, absorbedBy, n - 1, r);
      KeptNamesStep(texts, absorbedBy, n - 1);
      KeptNameNext(absorbedBy, n - 1, r, KeptNames(texts, absorbedBy.Keys, n - 1), KeptNames(texts, absorbedBy.Keys, n));
    }
  }

  lemma {:induction false} WithAbsorbedNames(names: map<Ref, Ref>, absorbedBy: map<Ref, Ref>, order: seq<Ref>)
    requires forall r :: r in order ==> r in absorbedBy && absorbedBy[r] !in absorbedBy
    ensures forall r: Ref :: Renamed(WithAbsorbed(names, absorbedBy, order), r) == Renamed(names, if r in order then absorbedBy[r] else r)
  {
    if order != [] {
      var before := order[..|order| - 1];
      WithAbsorbedNames(names, absorbedBy, before);
      assert order == before + [order[|order| - 1]];
    }
  }

  lemma TextsInPlace(d: Document)
    requires Named(d)
    ensures InPlace(d.arenas[Texts])
  {
    forall i | 0 <= i < |d.arenas[Texts]| ensures NameOf(d.arenas[Texts], i) == At(Texts, i) {
      assert Resolves(d, At(Texts, i)) && ItemAt(d, At(Texts, i)) == d.arenas[Texts][i];
    }
  }

  /** Every reference of the document takes its new name. */
  lemma RenumberingNames(d: Document, absorbedBy: map<Ref, Ref>, order: seq<Ref>)
    requires Named(d) && Absorption(d, absorbedBy) && IsOrder(order, absorbedBy)
    ensures forall r: Ref :: IsNode(d, r) ==> Renamed(Renumbering(d, absorbedBy, order), r) == NewRef(absorbedBy, r)
  {
    var texts := d.arenas[Texts];
    TextsInPlace(d);
    var names := KeptNames(texts, absorbedBy.Keys, |texts|);
    WithAbsorbedNames(names, absorbedBy, order);
    hide KeptNames, WithAbsorbed, Named, InPlace;
    forall r: Ref | IsNode(d, r) ensures Renamed(Renumbering(d, absorbedBy, order), r) == NewRef(absorbedBy, r) {
      var kept := if r in absorbedBy then absorbedBy[r] else r;
      if r in absorbedBy { assert Resolves(d, absorbedBy[r]); }
      KeptNamesAre(texts, absorbedBy, |texts|, kept);
    }
  }

  lemma {:induction false} WithoutIs(refs: seq<Ref>, retired: set<Ref>)
    ensures forall r: Ref :: r in Without(refs, retired) <==> r in refs && r !in retired
    ensures Distinct(refs) ==> Distinct(Without(refs, retired))
  {
    if refs != [] {
      WithoutIs(refs[..|refs| - 1], retired);
      assert refs == refs[..|refs| - 1] + [refs[|refs| - 1]];
    }
  }

  lemma {:induction false} AdoptIs(into: seq<Ref>, children: seq<Ref>)
    ensures forall r: Ref :: r in Adopt(into, children) <==> r in into || r in children
    ensures Distinct(into) ==> Distinct(Adopt(into, children))
    ensures into <= Adopt(into, children)
  {
    if children != [] {
      AdoptIs(into, children[..|children| - 1]);
      assert children == children[..|children| - 1] + [children[|children| - 1]];
    }
  }

  /** Text i gained child c from one of the texts retired so far. */
  ghost predicate Gained(texts: seq<Item>, absorbedBy: map<Ref, Ref>, done: seq<Ref>, i: nat, c: Ref) {
    exists j: nat :: j < |texts| && At(Texts, j) in done && At(Texts, j) in absorbedBy
      && absorbedBy[At(Texts, j)] == At(Texts, i) && c in texts[j].children
  }

  /** The texts after the absorptions in `order`: only lists of children differ. A retired text lists
      nothing, one that stays lists its own children and those of the texts it absorbed. */
  ghost predicate Adopted(texts: seq<Item>, absorbedBy: map<Ref, Ref>, done: seq<Ref>, after: seq<Item>) {
    |after| == |texts| && forall i: nat :: i < |texts| ==> AdoptedItem(texts, absorbedBy, done, i, after[i])
  }

  ghost predicate AdoptedItem(texts: seq<Item>, absorbedBy: map<Ref, Ref>, done: seq<Ref>, i: nat, item: Item)
    requires i < |texts|
  {
    && item == texts[i].(children := item.children)
    && Distinct(item.children)
    && (if At(Texts, i) in absorbedBy then item.children == if At(Texts, i) in done then [] else texts[i].children
        else forall c: Ref :: c in item.children <==> c in texts[i].children || Gained(texts, absorbedBy, done, i, c))
  }

  ghost predicate TextsOnly(absorbedBy: map<Ref, Ref>, n: nat) {
    forall q: Ref :: q in absorbedBy ==>
      q.At? && q.arena == Texts && q.index < n && absorbedBy[q] !in absorbedBy &&
      absorbedBy[q].At? && absorbedBy[q].arena == Texts && absorbedBy[q].index < n
  }

  lemma AdoptOneMoves(texts: seq<Item>, absorbedBy: map<Ref, Ref>, r: Ref)
    requires InPlace(texts) && TextsOnly(absorbedBy, |texts|) && r in absorbedBy
    ensures
      var from, to := r.index, absorbedBy[r].index;
      from != to && AdoptOne(texts, absorbedBy, r) ==
        texts[to := texts[to].(children := Adopt(texts[to].children, texts[from].children))][from := texts[from].(children := [])]
  {
    PositionInPlace(texts, r, |texts|);
    PositionInPlace(texts, absorbedBy[r], |texts|);
    assert Survivor(absorbedBy, absorbedBy[r], |texts|) == absorbedBy[r];
    hide Position, Survivor, Adopt, InPlace;
  }

  lemma GainedNext(texts: seq<Item>, absorbedBy: map<Ref, Ref>, done: seq<Ref>, r: Ref, i: nat, c: Ref)
    requires TextsOnly(absorbedBy, |texts|) && r in absorbedBy
    ensures Gained(texts, absorbedBy, done + [r], i, c) <==>
            Gained(texts, absorbedBy, done, i, c) || (absorbedBy[r] == At(Texts, i) && c in texts[r.index].children)
  {
    assert r == At(Texts, r.index);
    if absorbedBy[r] == At(Texts, i) && c in texts[r.index].children {
      assert At(Texts, r.index) in done + [r];
    }
  }

  /** One text's list after one absorption. */
  lemma AdoptedAt(texts: seq<Item>, absorbedBy: map<Ref, Ref>, done: seq<Ref>, before: seq<Item>, r: Ref,
                  gained: seq<Ref>, after: seq<Item>, i: nat)
    requires Adopted(texts, absorbedBy, done, before) && TextsOnly(absorbedBy, |texts|) && i < |texts|
    requires r in absorbedBy && r !in done && r.index != absorbedBy[r].index
    requires after == before[absorbedBy[r].index := before[absorbedBy[r].index].(children := gained)]
                            [r.index := before[r.index].(children := [])]
    requires forall c: Ref :: c in gained <==> c in before[absorbedBy[r].index].children || c in before[r.index].children
    requires Distinct(gained)
    ensures AdoptedItem(texts, absorbedBy, done + [r], i, after[i])
  {
    assert r == At(Texts, r.index) && absorbedBy[r] == At(Texts, absorbedBy[r].index);
    assert AdoptedItem(texts, absorbedBy, done, i, before[i]);
    assert AdoptedItem(texts, absorbedBy, done, r.index, before[r.index]);
    forall c: Ref ensures Gained(texts, absorbedBy, done + [r], i, c) <==>
            Gained(texts, absorbedBy, done, i, c) || (absorbedBy[r] == At(Texts, i) && c in texts[r.index].children)
    {
      GainedNext(texts, absorbedBy, done, r, i, c);
    }
    hide Gained, TextsOnly, Adopted;
  }

  lemma AdoptedInPlace(texts: seq<Item>, absorbedBy: map<Ref, Ref>, done: seq<Ref>, before: seq<Item>)
    requires InPlace(texts) && Adopted(texts, absorbedBy, done, before)
    ensures InPlace(before)
  {
    forall i: nat | i < |texts| ensures NameOf(before, i) == At(Texts, i) {
      assert NameOf(texts, i) == At(Texts, i);
      assert AdoptedItem(texts, absorbedBy, done, i, before[i]);
    }
  }

  lemma AdoptOneIs(texts: seq<Item>, absorbedBy: map<Ref, Ref>, done: seq<Ref>, before: seq<Item>, r: Ref)
    requires InPlace(texts) && Adopted(texts, absorbedBy, done, before)
    requires TextsOnly(absorbedBy, |texts|) && r in absorbedBy && r !in done
    ensures Adopted(texts, absorbedBy, done + [r], AdoptOne(before, absorbedBy, r))
  {
    AdoptedInPlace(texts, absorbedBy, done, before);
    AdoptOneMoves(before, absorbedBy, r);
    var to := absorbedBy[r].index;
    assert AdoptedItem(texts, absorbedBy, done, to, before[to]);
    var gained := Adopt(before[to].children, before[r.index].children);
    AdoptIs(before[to].children, before[r.index].children);
    var after := AdoptOne(before, absorbedBy, r);
    hide Adopt, InPlace, AdoptOne, Gained, Distinct, AdoptedItem;
    forall i: nat | i < |texts| ensures AdoptedItem(texts, absorbedBy, done + [r], i, after[i]) {
      AdoptedAt(texts, absorbedBy, done, before, r, gained, after, i);
    }
  }

  lemma {:induction false} AdoptAllIs(d: Document, absorbedBy: map<Ref, Ref>, order: seq<Ref>)
    requires WellFormed(d) && Absorption(d, absorbedBy)
    requires Distinct(order) && forall r :: r in order ==> r in absorbedBy
    ensures Adopted(d.arenas[Texts], absorbedBy, order, AdoptAll(d.arenas[Texts], absorbedBy, order))
  {
    var texts := d.arenas[Texts];
    if order == [] {
      forall i: nat | i < |texts| ensures AdoptedItem(texts, absorbedBy, [], i, texts[i]) {
        assert ChildrenOf(d, At(Texts, i)) == texts[i].children;
      }
    } else {
      TextsInPlace(d);
      assert TextsOnly(absorbedBy, |texts|);
      hide WellFormed, Adopted, InPlace, Absorption, TextsOnly;
      var before, r := order[..|order| - 1], order[|order| - 1];
      assert order == before + [r];
      AdoptAllIs(d, absorbedBy, before);
      assert r !in before;
      AdoptOneIs(texts, absorbedBy, before, AdoptAll(texts, absorbedBy, before), r);
    }
  }

  // ----- The program.

  method FindPosition(texts: seq<Item>, r: Ref) returns (found: Option<nat>)
    ensures found == Position(texts, r, |texts|)
  {
    found := None;
    for i := 0 to |texts|
      invariant found == Position(texts, r, i)
    {
      if found.None? && NameOf(texts, i) == r { found := Some(i); }
    }
  }

  method AdoptChildren(texts: seq<Item>, absorbedBy: map<Ref, Ref>, order: seq<Ref>) returns (adopted: seq<Item>)
    requires forall r :: r in order ==> r in absorbedBy
    ensures adopted == AdoptAll(texts, absorbedBy, order)
  {
    hide Position, Survivor, Adopt;
    adopted := texts;
    for n := 0 to |order|
      invariant adopted == AdoptAll(texts, absorbedBy, order[..n])
    {
      assert order[..n + 1][..n] == order[..n];
      var r := order[n];
      assert r in order;
      var survivor := FollowAbsorptions(absorbedBy, absorbedBy[r], |adopted|);
      var from := FindPosition(adopted, r);
      var to := FindPosition(adopted, survivor);
      if from.Some? && to.Some? && from.value < |adopted| && to.value < |adopted| && from != to {
        var moving := adopted[from.value];
        var children := AddChildren(adopted[to.value].children, moving.children);
        adopted := adopted[to.value := adopted[to.value].(children := children)][from.value := moving.(children := [])];
      }
    }
    assert order[..|order|] == order;
  }

  method FollowAbsorptions(absorbedBy: map<Ref, Ref>, absorber: Ref, limit: nat) returns (survivor: Ref)
    ensures survivor == Survivor(absorbedBy, absorber, limit)
  {
    survivor := absorber;
    var hops := 0;
    while survivor in absorbedBy && hops < limit
      invariant hops <= limit
      invariant Survivor(absorbedBy, survivor, limit - hops) == Survivor(absorbedBy, absorber, limit)
    {
      survivor := absorbedBy[survivor];
      hops := hops + 1;
    }
  }

  method AddChildren(into: seq<Ref>, children: seq<Ref>) returns (listed: seq<Ref>)
    ensures listed == Adopt(into, children)
  {
    listed := into;
    for i := 0 to |children|
      invariant listed == Adopt(into, children[..i])
    {
      assert children[..i + 1][..i] == children[..i];
      if children[i] !in listed { listed := listed + [children[i]]; }
    }
    assert children[..|children|] == children;
  }

  method PruneChildren(children: seq<Ref>, retired: set<Ref>) returns (kept: seq<Ref>)
    ensures kept == Without(children, retired)
  {
    kept := [];
    for i := 0 to |children|
      invariant kept == Without(children[..i], retired)
    {
      assert children[..i + 1][..i] == children[..i];
      if children[i] !in retired { kept := kept + [children[i]]; }
    }
    assert children[..|children|] == children;
  }

  /** The kept texts and the names that change. Adoption leaves every text's own name alone, so the
      names are those of the texts as they were. */
  method KeepTexts(texts: seq<Item>, retired: set<Ref>) returns (kept: seq<Item>, names: map<Ref, Ref>)
    ensures kept == Kept(texts, retired, |texts|)
    ensures names == KeptNames(texts, retired, |texts|)
  {
    kept, names := [], map[];
    for i := 0 to |texts|
      invariant kept == Kept(texts, retired, i) && names == KeptNames(texts, retired, i)
    {
      var oldRef := NameOf(texts, i);
      if oldRef in retired { continue; }
      var newRef := At(Texts, |kept|);
      if oldRef != newRef { names := names[oldRef := newRef]; }
      kept := kept + [texts[i]];
    }
  }

  lemma {:induction false} SameNames(a: seq<Item>, b: seq<Item>, retired: set<Ref>, n: nat)
    requires n <= |a| == |b| && forall i :: 0 <= i < |a| ==> a[i].selfRef == b[i].selfRef
    ensures KeptNames(a, retired, n) == KeptNames(b, retired, n)
    ensures |Kept(a, retired, n)| == |Kept(b, retired, n)|
  {
    if n > 0 {
      SameNames(a, b, retired, n - 1);
      assert NameOf(a, n - 1) == NameOf(b, n - 1);
    }
  }

  lemma {:induction false} AdoptionKeepsNames(texts: seq<Item>, absorbedBy: map<Ref, Ref>, order: seq<Ref>)
    requires forall r :: r in order ==> r in absorbedBy
    ensures |AdoptAll(texts, absorbedBy, order)| == |texts|
    ensures forall i :: 0 <= i < |texts| ==> AdoptAll(texts, absorbedBy, order)[i].selfRef == texts[i].selfRef
  {
    if order != [] {
      AdoptionKeepsNames(texts, absorbedBy, order[..|order| - 1]);
      hide Position, Survivor, Adopt;
    }
  }

  method CollectParents(texts: seq<Item>, retired: set<Ref>) returns (parents: set<Ref>)
    ensures parents == ParentsOf(texts, retired, |texts|)
  {
    parents := {};
    for i := 0 to |texts|
      invariant parents == ParentsOf(texts, retired, i)
    {
      if NameOf(texts, i) in retired && texts[i].parent.Some? {
        parents := parents + {texts[i].parent.value};
      }
    }
  }

  method PruneArena(items: seq<Item>, arena: Arena, retired: set<Ref>, parents: set<Ref>) returns (pruned: seq<Item>)
    ensures pruned == PruneItems(items, arena, retired, parents)
  {
    hide Without;
    pruned := [];
    for i := 0 to |items|
      invariant |pruned| == i && forall k :: 0 <= k < i ==> pruned[k] == PruneItem(items[k], arena, retired, parents)
    {
      var item := items[i];
      if arena == Groups || (item.selfRef.Some? && item.selfRef.value in parents) {
        var children := PruneChildren(item.children, retired);
        item := item.(children := children);
      }
      pruned := pruned + [item];
    }
  }

  method NameAbsorbed(names: map<Ref, Ref>, absorbedBy: map<Ref, Ref>, order: seq<Ref>) returns (renumbering: map<Ref, Ref>)
    requires forall r :: r in order ==> r in absorbedBy
    ensures renumbering == WithAbsorbed(names, absorbedBy, order)
  {
    renumbering := names;
    for n := 0 to |order|
      invariant renumbering == WithAbsorbed(names, absorbedBy, order[..n])
    {
      assert order[..n + 1][..n] == order[..n];
      assert order[n] in order;
      var survivor := absorbedBy[order[n]];
      renumbering := renumbering[order[n] := if survivor in renumbering then renumbering[survivor] else survivor];
    }
    assert order[..|order|] == order;
  }

  method PruneDocument(doc: DocumentObject, retired: set<Ref>, parents: set<Ref>)
    modifies doc
    ensures doc.body == Without(old(doc.body), retired) && doc.furniture == Without(old(doc.furniture), retired)
    ensures forall a: Arena :: doc.arenas[a] == PruneItems(old(doc.arenas)[a], a, retired, parents)
  {
    hide PruneItems, Without;
    doc.body := PruneChildren(doc.body, retired);
    doc.furniture := PruneChildren(doc.furniture, retired);
    for n := 0 to |ARENAS|
      invariant doc.body == Without(old(doc.body), retired) && doc.furniture == Without(old(doc.furniture), retired)
      invariant forall a: Arena :: a in ARENAS[..n] ==> doc.arenas[a] == PruneItems(old(doc.arenas)[a], a, retired, parents)
      invariant forall a: Arena :: a !in ARENAS[..n] ==> doc.arenas[a] == old(doc.arenas)[a]
    {
      assert ARENAS[..n + 1] == ARENAS[..n] + [ARENAS[n]];
      assert ARENAS[n] !in ARENAS[..n];
      var pruned := PruneArena(doc.arenas[ARENAS[n]], ARENAS[n], retired, parents);
      doc.arenas := doc.arenas[ARENAS[n] := pruned];
    }
    EveryArena();
    assert ARENAS[..|ARENAS|] == ARENAS;
  }

  lemma SameArenas(a: Arenas, b: Arenas)
    requires forall x: Arena :: a[x] == b[x]
    ensures a == b
  {
  }

  method RewriteReferences(mapping: map<Ref, Ref>, doc: DocumentObject)
    modifies doc
    ensures doc.Value() == RewriteDocument(mapping, old(doc.Value()))
  {
    for n := 0 to |ARENAS|
      invariant doc.body == old(doc.body) && doc.furniture == old(doc.furniture)
      invariant forall a: Arena :: a in ARENAS[..n] ==> doc.arenas[a] == RewriteItems(mapping, old(doc.arenas)[a])
      invariant forall a: Arena :: a !in ARENAS[..n] ==> doc.arenas[a] == old(doc.arenas)[a]
    {
      hide RewriteItems;
      assert ARENAS[..n + 1] == ARENAS[..n] + [ARENAS[n]];
      assert ARENAS[n] !in ARENAS[..n];
      doc.arenas := doc.arenas[ARENAS[n] := RewriteItems(mapping, doc.arenas[ARENAS[n]])];
    }
    hide RewriteItems;
    EveryArena();
    assert ARENAS[..|ARENAS|] == ARENAS;
    SameArenas(doc.arenas, RewriteDocument(mapping, old(doc.Value())).arenas);
    doc.body := RenamedAll(mapping, doc.body);
    doc.furniture := RenamedAll(mapping, doc.furniture);
  }

  method RetireTextItems(doc: DocumentObject, absorbedBy: map<Ref, Ref>, order: seq<Ref>)
    requires IsOrder(order, absorbedBy)
    modifies doc
    ensures doc.Value() == Retire(old(doc.Value()), absorbedBy, order)
  {
    hide AdoptAll, Kept, KeptNames, ParentsOf, WithAbsorbed, Without, PruneItem, RewriteDocument;
    ghost var d := doc.Value();
    var retired := absorbedBy.Keys;
    var parents := CollectParents(doc.arenas[Texts], retired);
    var adopted := AdoptChildren(doc.arenas[Texts], absorbedBy, order);
    var kept, names := KeepTexts(adopted, retired);
    AdoptionKeepsNames(d.arenas[Texts], absorbedBy, order);
    SameNames(adopted, d.arenas[Texts], retired, |adopted|);
    doc.arenas := doc.arenas[Texts := kept];
    var renumbering := NameAbsorbed(names, absorbedBy, order);
    ghost var compacted := doc.arenas;
    PruneDocument(doc, retired, parents);
    assert doc.arenas == Pruned(d, absorbedBy, order).arenas;
    RewriteReferences(renumbering, doc);
  }
}
