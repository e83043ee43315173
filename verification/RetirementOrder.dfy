/** The order of the children retirement leaves behind (src/document_repair.cpp).

    What stays keeps its order; what a survivor adopts follows its own children, in the order in which the
    absorptions are visited and, within one absorbed text, in the order of that text's list. */
module RetirementOrder {
  import opened Bytes
  import opened Documents
  import opened Retirement
  import opened RetirementKeeps

  /** The node absorbed the text. */
  ghost predicate Absorbs(absorbedBy: map<Ref, Ref>, node: Ref, r: Ref) {
    r in absorbedBy && absorbedBy[r] == node
  }

  ghost predicate Adoptee(d: Document, absorbedBy: map<Ref, Ref>, node: Ref, q: Ref) {
    exists r: Ref :: Absorbs(absorbedBy, node, r) && q in ChildrenOf(d, r)
  }

  ghost predicate InOneAbsorbed(d: Document, absorbedBy: map<Ref, Ref>, node: Ref, p: Ref, q: Ref) {
    exists r: Ref :: Absorbs(absorbedBy, node, r) && Precedes(ChildrenOf(d, r), p, q)
  }

  ghost predicate InTwoAbsorbed(d: Document, absorbedBy: map<Ref, Ref>, order: seq<Ref>, node: Ref, p: Ref, q: Ref) {
    exists r, t: Ref :: Absorbs(absorbedBy, node, r) && Absorbs(absorbedBy, node, t) && Precedes(order, r, t)
      && p in ChildrenOf(d, r) && q in ChildrenOf(d, t)
  }

  /** Among the children a node is to list, p comes before q, by where they stood. */
  ghost predicate Comes(d: Document, absorbedBy: map<Ref, Ref>, order: seq<Ref>, node: Ref, p: Ref, q: Ref) {
    || Precedes(ChildrenOf(d, node), p, q)
    || (p in ChildrenOf(d, node) && Adoptee(d, absorbedBy, node, q))
    || InOneAbsorbed(d, absorbedBy, node, p, q)
    || InTwoAbsorbed(d, absorbedBy, order, node, p, q)
  }

  // ----- Lists.

  /** Dropping items moves no others past each other. */
  lemma {:induction false} WithoutKeepsOrder(refs: seq<Ref>, retired: set<Ref>, p: Ref, q: Ref)
    requires Precedes(refs, p, q) && p !in retired && q !in retired
    ensures Precedes(Without(refs, retired), p, q)
  {
    var before, last := refs[..|refs| - 1], refs[|refs| - 1];
    assert refs == before + [last];
    PrecedesLast(before, last, p, q);
    WithoutIs(before, retired);
    if Precedes(before, p, q) { WithoutKeepsOrder(before, retired, p, q); }
    var kept := Without(before, retired);
    assert Without(refs, retired) == if last in retired then kept else kept + [last];
    hide Without, Precedes;
    PrecedesConcat(kept, [last], p, q);
  }

  lemma {:induction false} AdoptAppends(into: seq<Ref>, children: seq<Ref>)
    requires Distinct(children) && forall c :: c in children ==> c !in into
    ensures Adopt(into, children) == into + children
  {
    if children == [] {
      assert into + children == into;
    } else {
      var before, c := children[..|children| - 1], children[|children| - 1];
      AdoptAppends(into, before);
      assert c !in before;
      assert into + children == into + before + [c];
    }
  }

  // ----- What a survivor lists.

  /** The children the absorptions visited hand to text i. */
  ghost function Handed(texts: seq<Item>, absorbedBy: map<Ref, Ref>, order: seq<Ref>, i: nat): seq<Ref>
    requires forall r :: r in order ==> r in absorbedBy && r.At? && r.index < |texts|
  {
    if order == [] then []
    else
      var r := order[|order| - 1];
      Handed(texts, absorbedBy, order[..|order| - 1], i) + (if absorbedBy[r] == At(Texts, i) then texts[r.index].children else [])
  }

  /** No item is listed by two nodes. */
  lemma ListedByOne(d: Document, a: Ref, b: Ref, c: Ref)
    requires WellFormed(d) && c in ChildrenOf(d, a) && c in ChildrenOf(d, b)
    ensures a == b
  {
    Listed(d, a, c);
    Listed(d, b, c);
  }

  /** What text `to` lists so far and what r hands on have nothing in common. */
  lemma HandsOnNew(d: Document, absorbedBy: map<Ref, Ref>, done: seq<Ref>, before: seq<Item>, r: Ref)
    requires WellFormed(d) && Absorption(d, absorbedBy) && r in absorbedBy && r !in done
    requires Adopted(d.arenas[Texts], absorbedBy, done, before)
    ensures before[r.index].children == d.arenas[Texts][r.index].children && Distinct(before[r.index].children)
    ensures forall c :: c in before[r.index].children ==> c !in before[absorbedBy[r].index].children
  {
    var texts, to := d.arenas[Texts], absorbedBy[r];
    assert r == At(Texts, r.index) && to == At(Texts, to.index) && to !in absorbedBy;
    assert AdoptedItem(texts, absorbedBy, done, r.index, before[r.index]);
    assert AdoptedItem(texts, absorbedBy, done, to.index, before[to.index]);
    hide WellFormed, Absorption, Adopted, Distinct;
    forall c | c in before[r.index].children ensures c !in before[to.index].children {
      assert c in ChildrenOf(d, r);
      if c in texts[to.index].children {
        ListedByOne(d, r, to, c);
      }
      if Gained(texts, absorbedBy, done, to.index, c) {
        var j: nat :| j < |texts| && At(Texts, j) in done && At(Texts, j) in absorbedBy
          && absorbedBy[At(Texts, j)] == to && c in texts[j].children;
        ListedByOne(d, r, At(Texts, j), c);
      }
    }
  }

  /** A survivor's list: its own children, then those handed to it. */
  lemma AbsorbedAreTexts(d: Document, absorbedBy: map<Ref, Ref>, order: seq<Ref>)
    requires Absorption(d, absorbedBy) && forall r :: r in order ==> r in absorbedBy
    ensures forall r :: r in order ==> r in absorbedBy && r.At? && r.index < |d.arenas[Texts]|
  {
  }

  lemma AdoptedNone(texts: seq<Item>, absorbedBy: map<Ref, Ref>, i: nat)
    requires i < |texts|
    ensures AdoptAll(texts, absorbedBy, []) == texts && texts[i].children + Handed(texts, absorbedBy, [], i) == texts[i].children
  {
  }

  lemma {:induction false} AdoptedList(d: Document, absorbedBy: map<Ref, Ref>, order: seq<Ref>, i: nat)
    requires WellFormed(d) && Absorption(d, absorbedBy) && i < |d.arenas[Texts]| && At(Texts, i) !in absorbedBy
    requires Distinct(order) && forall r :: r in order ==> r in absorbedBy
    ensures forall r :: r in order ==> r.At? && r.index < |d.arenas[Texts]|
    ensures |AdoptAll(d.arenas[Texts], absorbedBy, order)| == |d.arenas[Texts]|
    ensures AdoptAll(d.arenas[Texts], absorbedBy, order)[i].children
         == d.arenas[Texts][i].children + Handed(d.arenas[Texts], absorbedBy, order, i)
    decreases |order|
  {
    hide WellFormed, Absorption, Handed, Adopted, AdoptOne;
    var texts := d.arenas[Texts];
    AbsorbedAreTexts(d, absorbedBy, order);
    AdoptionKeepsNames(texts, absorbedBy, order);
    if order == [] {
      AdoptedNone(texts, absorbedBy, i);
    } else {
      var done, r := order[..|order| - 1], order[|order| - 1];
      assert order == done + [r] && r !in done;
      assert AdoptAll(texts, absorbedBy, order) == AdoptOne(AdoptAll(texts, absorbedBy, done), absorbedBy, r);
      hide AdoptAll, Distinct;
      AdoptedList(d, absorbedBy, done, i);
      AdoptAllIs(d, absorbedBy, done);
      AdoptedStep(d, absorbedBy, done, AdoptAll(texts, absorbedBy, done), r, i);
    }
  }

  lemma HandedNext(texts: seq<Item>, absorbedBy: map<Ref, Ref>, done: seq<Ref>, r: Ref, i: nat)
    requires forall q :: q in done + [r] ==> q in absorbedBy && q.At? && q.index < |texts|
    ensures r in done + [r] && Handed(texts, absorbedBy, done + [r], i)
         == Handed(texts, absorbedBy, done, i) + (if absorbedBy[r] == At(Texts, i) then texts[r.index].children else [])
  {
    assert (done + [r])[..|done|] == done && (done + [r])[|done|] == r;
  }

  /** What one absorption does to a survivor's list. */
  lemma AdoptOneAt(d: Document, absorbedBy: map<Ref, Ref>, done: seq<Ref>, before: seq<Item>, r: Ref, i: nat)
    requires WellFormed(d) && Absorption(d, absorbedBy) && i < |d.arenas[Texts]| && At(Texts, i) !in absorbedBy
    requires r in absorbedBy && r !in done && r.At? && r.index < |d.arenas[Texts]| && Adopted(d.arenas[Texts], absorbedBy, done, before)
    ensures |AdoptOne(before, absorbedBy, r)| == |before|
    ensures AdoptOne(before, absorbedBy, r)[i].children
         == before[i].children + (if absorbedBy[r] == At(Texts, i) then d.arenas[Texts][r.index].children else [])
  {
    hide WellFormed, Absorption, Adopted, InPlace, TextsOnly, AdoptOne, Adopt, Distinct;
    HandsOnNew(d, absorbedBy, done, before, r);
    OnlyTexts(d, absorbedBy, r);
    InPlaceStill(d, absorbedBy, done, before);
    AdoptOneMoves(before, absorbedBy, r);
    var to := absorbedBy[r].index;
    AdoptAppends(before[to].children, before[r.index].children);
    if i != to { assert before[i].children + [] == before[i].children; }
  }

  lemma OnlyTexts(d: Document, absorbedBy: map<Ref, Ref>, r: Ref)
    requires Absorption(d, absorbedBy) && r in absorbedBy
    ensures TextsOnly(absorbedBy, |d.arenas[Texts]|)
    ensures r.At? && absorbedBy[r].At? && r == At(Texts, r.index) && absorbedBy[r] == At(Texts, absorbedBy[r].index)
  {
  }

  lemma InPlaceStill(d: Document, absorbedBy: map<Ref, Ref>, done: seq<Ref>, before: seq<Item>)
    requires WellFormed(d) && Adopted(d.arenas[Texts], absorbedBy, done, before)
    ensures InPlace(before) && |before| == |d.arenas[Texts]|
  {
    TextsInPlace(d);
    AdoptedInPlace(d.arenas[Texts], absorbedBy, done, before);
  }

  lemma AdoptedStep(d: Document, absorbedBy: map<Ref, Ref>, done: seq<Ref>, before: seq<Item>, r: Ref, i: nat)
    requires WellFormed(d) && Absorption(d, absorbedBy) && i < |d.arenas[Texts]| && At(Texts, i) !in absorbedBy
    requires r !in done && forall q :: q in done + [r] ==> q in absorbedBy && q.At? && q.index < |d.arenas[Texts]|
    requires Adopted(d.arenas[Texts], absorbedBy, done, before)
    requires before[i].children == d.arenas[Texts][i].children + Handed(d.arenas[Texts], absorbedBy, done, i)
    ensures |AdoptOne(before, absorbedBy, r)| == |before|
    ensures AdoptOne(before, absorbedBy, r)[i].children
         == d.arenas[Texts][i].children + Handed(d.arenas[Texts], absorbedBy, done + [r], i)
  {
    hide WellFormed, Absorption, Adopted, AdoptOne, Handed;
    assert r in done + [r];
    AdoptOneAt(d, absorbedBy, done, before, r, i);
    HandedNext(d.arenas[Texts], absorbedBy, done, r, i);
    var own, handed := d.arenas[Texts][i].children, Handed(d.arenas[Texts], absorbedBy, done, i);
    var given := if absorbedBy[r] == At(Texts, i) then d.arenas[Texts][r.index].children else [];
    assert (own + handed) + given == own + (handed + given);
  }

  lemma {:induction false} HandedHolds(texts: seq<Item>, absorbedBy: map<Ref, Ref>, order: seq<Ref>, i: nat, r: Ref, p: Ref, q: Ref)
    requires forall r :: r in order ==> r in absorbedBy && r.At? && r.index < |texts|
    requires r in order && absorbedBy[r] == At(Texts, i)
    ensures q in texts[r.index].children ==> q in Handed(texts, absorbedBy, order, i)
    ensures Precedes(texts[r.index].children, p, q) ==> Precedes(Handed(texts, absorbedBy, order, i), p, q)
  {
    var before, last := order[..|order| - 1], order[|order| - 1];
    assert order == before + [last];
    var given := if absorbedBy[last] == At(Texts, i) then texts[last.index].children else [];
    if r in before { HandedHolds(texts, absorbedBy, before, i, r, p, q); }
    assert Handed(texts, absorbedBy, order, i) == Handed(texts, absorbedBy, before, i) + given;
    hide Handed, Precedes;
    PrecedesConcat(Handed(texts, absorbedBy, before, i), given, p, q);
  }

  lemma {:induction false} HandedInTurn(texts: seq<Item>, absorbedBy: map<Ref, Ref>, order: seq<Ref>, i: nat, r: Ref, t: Ref, p: Ref, q: Ref)
    requires forall r :: r in order ==> r in absorbedBy && r.At? && r.index < |texts|
    requires Precedes(order, r, t) && r in order && t in order && absorbedBy[r] == At(Texts, i) && absorbedBy[t] == At(Texts, i)
    requires p in texts[r.index].children && q in texts[t.index].children
    ensures Precedes(Handed(texts, absorbedBy, order, i), p, q)
  {
    var before, last := order[..|order| - 1], order[|order| - 1];
    assert order == before + [last];
    PrecedesLast(before, last, r, t);
    var given := if absorbedBy[last] == At(Texts, i) then texts[last.index].children else [];
    if Precedes(before, r, t) {
      HandedInTurn(texts, absorbedBy, before, i, r, t, p, q);
    } else {
      HandedHolds(texts, absorbedBy, before, i, r, q, p);
    }
    assert Handed(texts, absorbedBy, order, i) == Handed(texts, absorbedBy, before, i) + given;
    hide Handed;
    PrecedesConcat(Handed(texts, absorbedBy, before, i), given, p, q);
  }

  /** All that text i absorbed is in the order of the visits. */
  ghost predicate Visits(d: Document, absorbedBy: map<Ref, Ref>, order: seq<Ref>, i: nat) {
    && (forall r :: r in order ==> r in absorbedBy && r.At? && r.index < |d.arenas[Texts]|)
    && (forall r :: Absorbs(absorbedBy, At(Texts, i), r) ==> r in order && ChildrenOf(d, r) == d.arenas[Texts][r.index].children)
  }

  lemma HandedChild(d: Document, absorbedBy: map<Ref, Ref>, order: seq<Ref>, i: nat, q: Ref)
    requires Visits(d, absorbedBy, order, i) && Adoptee(d, absorbedBy, At(Texts, i), q)
    ensures q in Handed(d.arenas[Texts], absorbedBy, order, i)
  {
    hide Handed, ChildrenOf, Precedes;
    var r: Ref :| Absorbs(absorbedBy, At(Texts, i), r) && q in ChildrenOf(d, r);
    HandedHolds(d.arenas[Texts], absorbedBy, order, i, r, q, q);
  }

  lemma HandedFromOne(d: Document, absorbedBy: map<Ref, Ref>, order: seq<Ref>, i: nat, p: Ref, q: Ref)
    requires Visits(d, absorbedBy, order, i) && InOneAbsorbed(d, absorbedBy, At(Texts, i), p, q)
    ensures Precedes(Handed(d.arenas[Texts], absorbedBy, order, i), p, q)
  {
    hide Handed, ChildrenOf, Precedes;
    var r: Ref :| Absorbs(absorbedBy, At(Texts, i), r) && Precedes(ChildrenOf(d, r), p, q);
    HandedHolds(d.arenas[Texts], absorbedBy, order, i, r, p, q);
  }

  lemma HandedFromTwo(d: Document, absorbedBy: map<Ref, Ref>, order: seq<Ref>, i: nat, p: Ref, q: Ref)
    requires Visits(d, absorbedBy, order, i) && InTwoAbsorbed(d, absorbedBy, order, At(Texts, i), p, q)
    ensures Precedes(Handed(d.arenas[Texts], absorbedBy, order, i), p, q)
  {
    hide Handed, ChildrenOf, Precedes;
    var node := At(Texts, i);
    var r, t: Ref :| Absorbs(absorbedBy, node, r) && Absorbs(absorbedBy, node, t) && Precedes(order, r, t)
                     && p in ChildrenOf(d, r) && q in ChildrenOf(d, t);
    HandedInTurn(d.arenas[Texts], absorbedBy, order, i, r, t, p, q);
  }

  lemma AllVisited(d: Document, absorbedBy: map<Ref, Ref>, order: seq<Ref>, i: nat)
    requires Absorption(d, absorbedBy) && IsOrder(order, absorbedBy)
    ensures Visits(d, absorbedBy, order, i)
  {
  }

  /** The adopted list is in the order of `Comes`. */
  lemma AdoptedOrder(d: Document, absorbedBy: map<Ref, Ref>, order: seq<Ref>, i: nat, p: Ref, q: Ref)
    requires WellFormed(d) && Absorption(d, absorbedBy) && IsOrder(order, absorbedBy)
    requires i < |d.arenas[Texts]| && At(Texts, i) !in absorbedBy && Comes(d, absorbedBy, order, At(Texts, i), p, q)
    ensures |AdoptAll(d.arenas[Texts], absorbedBy, order)| == |d.arenas[Texts]|
    ensures Precedes(AdoptAll(d.arenas[Texts], absorbedBy, order)[i].children, p, q)
  {
    AllVisited(d, absorbedBy, order, i);
    AdoptedList(d, absorbedBy, order, i);
    hide WellFormed, Absorption, AdoptAll, Handed, Precedes, IsOrder, Visits, Adoptee, InOneAbsorbed, InTwoAbsorbed;
    var texts, node := d.arenas[Texts], At(Texts, i);
    assert ChildrenOf(d, node) == texts[i].children;
    PrecedesConcat(texts[i].children, Handed(texts, absorbedBy, order, i), p, q);
    if Adoptee(d, absorbedBy, node, q) { HandedChild(d, absorbedBy, order, i, q); }
    if InOneAbsorbed(d, absorbedBy, node, p, q) { HandedFromOne(d, absorbedBy, order, i, p, q); }
    if InTwoAbsorbed(d, absorbedBy, order, node, p, q) { HandedFromTwo(d, absorbedBy, order, i, p, q); }
  }

  // ----- The retired document.

  lemma PruneKeepsOrder(item: Item, arena: Arena, retired: set<Ref>, parents: set<Ref>, p: Ref, q: Ref)
    requires Precedes(item.children, p, q) && p !in retired && q !in retired
    ensures Precedes(PruneItem(item, arena, retired, parents).children, p, q)
  {
    WithoutKeepsOrder(item.children, retired, p, q);
    hide Precedes, Without;
  }

  lemma OwnOnly(d: Document, absorbedBy: map<Ref, Ref>, order: seq<Ref>, node: Ref, p: Ref, q: Ref)
    requires Absorption(d, absorbedBy) && !(node.At? && node.arena == Texts) && Comes(d, absorbedBy, order, node, p, q)
    ensures Precedes(ChildrenOf(d, node), p, q)
  {
    hide Precedes;
    assert forall r :: !Absorbs(absorbedBy, node, r);
  }

  lemma PrunedOrder(d: Document, absorbedBy: map<Ref, Ref>, order: seq<Ref>, node: Ref, p: Ref, q: Ref)
    requires WellFormed(d) && Absorption(d, absorbedBy) && IsOrder(order, absorbedBy)
    requires IsNode(d, node) && node !in absorbedBy && p !in absorbedBy && q !in absorbedBy
    requires Comes(d, absorbedBy, order, node, p, q)
    ensures Precedes(ChildrenOf(Pruned(d, absorbedBy, order), Slot(absorbedBy, node)), p, q)
  {
    hide WellFormed, Absorption, Without, ParentsOf, AdoptAll, Kept, PruneItem, Stay, Precedes, Comes;
    var parents := ParentsOf(d.arenas[Texts], absorbedBy.Keys, |d.arenas[Texts]|);
    if node.At? && node.arena == Texts {
      var adopted := AdoptAll(d.arenas[Texts], absorbedBy, order);
      AdoptedOrder(d, absorbedBy, order, node.index, p, q);
      KeptText(d, absorbedBy, order, node.index);
      PruneKeepsOrder(adopted[node.index], Texts, absorbedBy.Keys, parents, p, q);
    } else {
      OwnOnly(d, absorbedBy, order, node, p, q);
      if node.At? {
        PruneKeepsOrder(ItemAt(d, node), node.arena, absorbedBy.Keys, parents, p, q);
      } else {
        WithoutKeepsOrder(ChildrenOf(d, node), absorbedBy.Keys, p, q);
      }
    }
  }

  /** Two children a node is to list stand in the retired document in the order in which they come. */
  lemma RetiredOrder(d: Document, absorbedBy: map<Ref, Ref>, order: seq<Ref>, node: Ref, p: Ref, q: Ref)
    requires WellFormed(d) && Absorption(d, absorbedBy) && IsOrder(order, absorbedBy)
    requires IsNode(d, node) && node !in absorbedBy && p !in absorbedBy && q !in absorbedBy
    requires Comes(d, absorbedBy, order, node, p, q)
    ensures Precedes(ChildrenOf(Retire(d, absorbedBy, order), Slot(absorbedBy, node)), Slot(absorbedBy, p), Slot(absorbedBy, q))
  {
    PrunedOrder(d, absorbedBy, order, node, p, q);
    var before := RenamedChildren(d, absorbedBy, order, node);
    hide WellFormed, Absorption, IsOrder, Pruned, Retire, Slot, KeptChild, ChildrenOf, Comes;
    var i, j :| 0 <= i < j < |before| && before[i] == p && before[j] == q;
    var after := ChildrenOf(Retire(d, absorbedBy, order), Slot(absorbedBy, node));
    assert after[i] == Slot(absorbedBy, p) && after[j] == Slot(absorbedBy, q);
  }

  lemma PrecedesOneWay<T(!new)>(s: seq<T>, x: T, y: T)
    requires x in s && y in s && x != y
    ensures Precedes(s, x, y) || Precedes(s, y, x)
  {
    var i :| 0 <= i < |s| && s[i] == x;
    var j :| 0 <= j < |s| && s[j] == y;
    if i < j { assert Precedes(s, x, y); } else { assert Precedes(s, y, x); }
  }

  /** Of two children a node is to list one comes first: the order is the whole order. */
  lemma ComesOneWay(d: Document, absorbedBy: map<Ref, Ref>, order: seq<Ref>, node: Ref, p: Ref, q: Ref)
    requires WellFormed(d) && IsOrder(order, absorbedBy) && p != q
    requires KeptChild(d, absorbedBy, node, p) && KeptChild(d, absorbedBy, node, q)
    ensures Comes(d, absorbedBy, order, node, p, q) || Comes(d, absorbedBy, order, node, q, p)
  {
    var r, t := ItemAt(d, p).parent.value, ItemAt(d, q).parent.value;
    LinkedBothWays(d, r, p);
    LinkedBothWays(d, t, q);
    assert r == node || Absorbs(absorbedBy, node, r);
    assert t == node || Absorbs(absorbedBy, node, t);
    hide WellFormed, Precedes, ChildrenOf;
    if r == t {
      PrecedesOneWay(ChildrenOf(d, r), p, q);
    } else if r in absorbedBy && t in absorbedBy {
      PrecedesOneWay(order, r, t);
    }
  }

  // ----- The body.

  /** The body lists the children that stay by their new names, in the order in which they stood. */
  ghost predicate BodyKept(d: Document, e: Document, absorbedBy: map<Ref, Ref>) {
    && (forall c: Ref :: c in e.body <==> exists q: Ref :: q in d.body && q !in absorbedBy && c == Slot(absorbedBy, q))
    && (forall p, q: Ref :: Precedes(d.body, p, q) && p !in absorbedBy && q !in absorbedBy ==>
          Precedes(e.body, Slot(absorbedBy, p), Slot(absorbedBy, q)))
  }

  lemma RetiredBody(d: Document, absorbedBy: map<Ref, Ref>, order: seq<Ref>)
    requires WellFormed(d) && Absorption(d, absorbedBy) && IsOrder(order, absorbedBy)
    ensures BodyKept(d, Retire(d, absorbedBy, order), absorbedBy)
  {
    hide WellFormed, Absorption, IsOrder, Retire, Slot, Precedes, Comes, KeptChild;
    var e := Retire(d, absorbedBy, order);
    BodyHasNoHeir(d, absorbedBy);
    SlotOfBody(absorbedBy);
    forall c: Ref ensures c in e.body <==> exists q: Ref :: q in d.body && q !in absorbedBy && c == Slot(absorbedBy, q) {
      RetiredChildren(d, absorbedBy, order, Body, c);
      forall q: Ref ensures q in d.body && q !in absorbedBy <==> KeptChild(d, absorbedBy, Body, q) { ListHolds(d, absorbedBy, Body, q); }
    }
    forall p, q: Ref | Precedes(d.body, p, q) && p !in absorbedBy && q !in absorbedBy
      ensures Precedes(e.body, Slot(absorbedBy, p), Slot(absorbedBy, q))
    {
      ComesInBody(d, absorbedBy, order, p, q);
      RetiredOrder(d, absorbedBy, order, Body, p, q);
    }
  }

  lemma ComesInBody(d: Document, absorbedBy: map<Ref, Ref>, order: seq<Ref>, p: Ref, q: Ref)
    requires Precedes(d.body, p, q)
    ensures Comes(d, absorbedBy, order, Body, p, q)
  {
    hide Precedes;
  }

  lemma BodyHasNoHeir(d: Document, absorbedBy: map<Ref, Ref>)
    requires Absorption(d, absorbedBy)
    ensures Body !in absorbedBy
  {
    assert Body in absorbedBy ==> Resolves(d, Body);
  }

  lemma SlotOfBody(absorbedBy: map<Ref, Ref>)
    ensures Slot(absorbedBy, Body) == Body
  {
  }

  lemma SameBody(d: Document, mid: Document, e: Document, absorbedBy: map<Ref, Ref>)
    requires d.body == mid.body && BodyKept(mid, e, absorbedBy)
    ensures BodyKept(d, e, absorbedBy)
  {
    hide Precedes, Slot;
  }
}
