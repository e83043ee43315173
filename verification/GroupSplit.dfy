/** Splitting list groups around the floats that sit inside them (src/document_reading_order.cpp). */
module GroupSplit {
  import opened Bytes
  import opened Documents

  /** Where an item sits: its page and its box, measured from the top left. */
  datatype Placement = Placement(page: int, left: real, top: real, right: real, bottom: real)

  /** What the pass reads of texts, tables and pictures; splitting groups changes none of it. */
  datatype Geometry = Geometry(place: Ref -> Option<Placement>, isFloat: Ref -> bool)

  function MinReal(a: real, b: real): real { if a <= b then a else b }

  function MaxReal(a: real, b: real): real { if a >= b then a else b }

  // ----- Where a float splits a group.

  ghost predicate Placed(geo: Geometry, children: seq<Ref>, i: nat) {
    i < |children| && geo.place(children[i]).Some?
  }

  ghost function BoxOf(geo: Geometry, children: seq<Ref>, i: nat): Placement
    requires Placed(geo, children, i)
  {
    geo.place(children[i]).value
  }

  /** Every child is a text and every placed one is on the page. */
  ghost predicate OnPage(geo: Geometry, children: seq<Ref>, page: int, n: nat)
    requires n <= |children|
  {
    && (forall i :: 0 <= i < n ==> IsText(children[i]))
    && (forall i: nat :: i < n && Placed(geo, children, i) ==> BoxOf(geo, children, i).page == page)
  }

  /** The scan for the first placed child at or below the float's top, over the first n children:
      where it stands, and whether a placed child stands above the float before it. */
  ghost predicate Scanned(geo: Geometry, children: seq<Ref>, top: real, n: nat, split: Option<nat>, above: bool) {
    && (split.Some? ==> split.value < n && Placed(geo, children, split.value) && BoxOf(geo, children, split.value).top >= top)
    && (forall i: nat :: i < Reach(n, split) && Placed(geo, children, i) ==> BoxOf(geo, children, i).top < top)
    && (above <==> exists i: nat :: i < Reach(n, split) && Placed(geo, children, i))
  }

  function Reach(n: nat, split: Option<nat>): nat { if split.Some? then split.value else n }

  /** Child o, if any, is the first-met leftmost of the placed ones among the first n; `Rightmost` likewise. */
  ghost predicate Leftmost(geo: Geometry, children: seq<Ref>, n: nat, o: Option<nat>) {
    && (o.None? ==> forall i: nat :: i < n ==> !Placed(geo, children, i))
    && (o.Some? ==> o.value < n && Placed(geo, children, o.value))
    && (o.Some? ==> forall i: nat :: i < n && Placed(geo, children, i) ==> BoxOf(geo, children, o.value).left <= BoxOf(geo, children, i).left)
  }

  ghost predicate Rightmost(geo: Geometry, children: seq<Ref>, n: nat, o: Option<nat>) {
    && (o.None? ==> forall i: nat :: i < n ==> !Placed(geo, children, i))
    && (o.Some? ==> o.value < n && Placed(geo, children, o.value))
    && (o.Some? ==> forall i: nat :: i < n && Placed(geo, children, i) ==> BoxOf(geo, children, i).right <= BoxOf(geo, children, o.value).right)
  }

  /** The hull of the placed children meets the float horizontally. */
  ghost predicate HullMeets(geo: Geometry, children: seq<Ref>, floating: Placement) {
    exists a: nat, b: nat :: Leftmost(geo, children, |children|, Some(a)) && Rightmost(geo, children, |children|, Some(b))
      && Meets(BoxOf(geo, children, a).left, BoxOf(geo, children, b).right, floating)
  }

  predicate Meets(left: real, right: real, floating: Placement) {
    MinReal(right, floating.right) - MaxReal(left, floating.left) > 0.0
  }

  /** The float sits inside the group: its children are texts, the placed ones on the float's page; s is the
      first placed one at or below its top and a placed one lies above; and it meets their hull. */
  ghost predicate SplitsAt(geo: Geometry, children: seq<Ref>, floating: Placement, s: nat) {
    && OnPage(geo, children, floating.page, |children|)
    && Scanned(geo, children, floating.top, |children|, Some(s), true)
    && HullMeets(geo, children, floating)
  }

  lemma ScannedOnce(geo: Geometry, children: seq<Ref>, top: real, s: nat, split: Option<nat>, above: bool)
    requires Scanned(geo, children, top, |children|, Some(s), true)
    requires Scanned(geo, children, top, |children|, split, above)
    ensures split == Some(s) && above
  {
    assert Placed(geo, children, s);
    if split.Some? { assert Placed(geo, children, split.value); }
  }

  lemma HullOnce(geo: Geometry, children: seq<Ref>, floating: Placement, a: nat, b: nat)
    requires Leftmost(geo, children, |children|, Some(a)) && Rightmost(geo, children, |children|, Some(b))
    ensures HullMeets(geo, children, floating) <==> Meets(BoxOf(geo, children, a).left, BoxOf(geo, children, b).right, floating)
  {
    hide Meets;
    forall x: nat | Leftmost(geo, children, |children|, Some(x))
      ensures BoxOf(geo, children, x).left == BoxOf(geo, children, a).left
    {
      assert Placed(geo, children, x) && Placed(geo, children, a);
    }
    forall y: nat | Rightmost(geo, children, |children|, Some(y))
      ensures BoxOf(geo, children, y).right == BoxOf(geo, children, b).right
    {
      assert Placed(geo, children, y) && Placed(geo, children, b);
    }
  }

  lemma ScanStart(geo: Geometry, children: seq<Ref>, top: real)
    ensures Scanned(geo, children, top, 0, None, false)
  {
  }

  /** One step over child n: the scan's branches in the loop's own order. */
  lemma ScanStep(geo: Geometry, children: seq<Ref>, top: real, n: nat, split: Option<nat>, above: bool)
    requires n < |children| && Scanned(geo, children, top, n, split, above)
    ensures split.Some? || !Placed(geo, children, n) ==> Scanned(geo, children, top, n + 1, split, above)
    ensures split.None? && Placed(geo, children, n) && BoxOf(geo, children, n).top >= top ==> Scanned(geo, children, top, n + 1, Some(n), above)
    ensures split.None? && Placed(geo, children, n) && BoxOf(geo, children, n).top < top ==> Scanned(geo, children, top, n + 1, None, true)
  {
  }

  method SplitPosition(geo: Geometry, children: seq<Ref>, floating: Placement) returns (split: Option<nat>)
    ensures split.Some? ==> SplitsAt(geo, children, floating, split.value) && 0 < split.value < |children|
    ensures split.None? ==> forall s: nat :: !SplitsAt(geo, children, floating, s)
  {
    hide Scanned, Meets, HullMeets;
    split := None;
    var above := false;
    var leftmost: Option<nat>, rightmost: Option<nat> := None, None;
    ScanStart(geo, children, floating.top);
    for index := 0 to |children|
      invariant OnPage(geo, children, floating.page, index)
      invariant Scanned(geo, children, floating.top, index, split, above)
      invariant Leftmost(geo, children, index, leftmost) && Rightmost(geo, children, index, rightmost)
    {
      if !IsText(children[index]) { return None; }
      ScanStep(geo, children, floating.top, index, split, above);
      var placement := geo.place(children[index]);
      if placement.None? { continue; }
      assert Placed(geo, children, index);
      if placement.value.page != floating.page { return None; }
      if leftmost.None? || placement.value.left < geo.place(children[leftmost.value]).value.left { leftmost := Some(index); }
      if rightmost.None? || geo.place(children[rightmost.value]).value.right < placement.value.right { rightmost := Some(index); }
      if split.Some? { continue; }
      if placement.value.top >= floating.top { split := Some(index); } else { above := true; }
    }
    forall s: nat | Scanned(geo, children, floating.top, |children|, Some(s), true) ensures split == Some(s) && above {
      ScannedOnce(geo, children, floating.top, s, split, above);
    }
    if split.None? || !above { return None; }
    ScanBounds(geo, children, floating.top, split.value);
    var left, right := geo.place(children[leftmost.value]).value.left, geo.place(children[rightmost.value]).value.right;
    HullOnce(geo, children, floating, leftmost.value, rightmost.value);
    if !Meets(left, right, floating) { return None; }
  }

  lemma ScanBounds(geo: Geometry, children: seq<Ref>, top: real, s: nat)
    requires Scanned(geo, children, top, |children|, Some(s), true)
    ensures 0 < s < |children| && Placed(geo, children, s)
  {
  }

  // ----- One split.

  ghost predicate CanSplit(d: Document, at: nat, g: nat, s: nat) {
    && at < |d.body| && d.body[at] == At(Groups, g) && g < |d.arenas[Groups]|
    && 0 < s < |d.arenas[Groups][g].children|
  }

  ghost function Reparented(texts: seq<Item>, moved: seq<Ref>, parent: Ref): seq<Item> {
    seq(|texts|, i requires 0 <= i < |texts| =>
      if At(Texts, i) in moved && !texts[i].code then texts[i].(parent := Some(parent)) else texts[i])
  }

  /** The children from s on move to a new group, placed in the body right behind the old one. */
  ghost function Split(d: Document, at: nat, g: nat, s: nat): Document
    requires CanSplit(d, at, g, s)
  {
    var groups := d.arenas[Groups];
    var head, fresh_ := groups[g], At(Groups, |groups|);
    var tail := head.(selfRef := Some(fresh_), children := head.children[s..]);
    Document(d.arenas[Groups := groups[g := head.(children := head.children[..s])] + [tail]]
                     [Texts := Reparented(d.arenas[Texts], head.children[s..], fresh_)],
             d.body[..at + 1] + [fresh_] + d.body[at + 1..],
             d.furniture)
  }

  // ----- The body read through its groups.

  ghost function Flat(d: Document, r: Ref): seq<Ref> {
    if r.At? && r.arena == Groups && r.index < |d.arenas[Groups]| then d.arenas[Groups][r.index].children else [r]
  }

  ghost function Flatten(d: Document, refs: seq<Ref>): seq<Ref> {
    if refs == [] then [] else Flat(d, refs[0]) + Flatten(d, refs[1..])
  }

  /** The body lists nothing twice and no group that is not there. */
  ghost predicate BodySound(d: Document) {
    && Distinct(d.body)
    && forall i :: 0 <= i < |d.body| && d.body[i].At? && d.body[i].arena == Groups ==> d.body[i].index < |d.arenas[Groups]|
  }

  lemma {:induction false} FlattenConcat(d: Document, a: seq<Ref>, b: seq<Ref>)
    ensures Flatten(d, a + b) == Flatten(d, a) + Flatten(d, b)
  {
    if a == [] {
      assert a + b == b;
    } else {
      assert (a + b)[1..] == a[1..] + b;
      FlattenConcat(d, a[1..], b);
    }
  }

  lemma {:induction false} FlattenSame(d: Document, e: Document, refs: seq<Ref>)
    requires forall i :: 0 <= i < |refs| ==> Flat(d, refs[i]) == Flat(e, refs[i])
    ensures Flatten(d, refs) == Flatten(e, refs)
  {
    if refs != [] { FlattenSame(d, e, refs[1..]); }
  }

  lemma SplitFlat(d: Document, at: nat, g: nat, s: nat)
    requires BodySound(d) && CanSplit(d, at, g, s)
    ensures
      var e, groups := Split(d, at, g, s), d.arenas[Groups];
      && (forall i :: 0 <= i < |d.body| && i != at ==> Flat(e, d.body[i]) == Flat(d, d.body[i]))
      && Flat(e, At(Groups, g)) == groups[g].children[..s] && Flat(e, At(Groups, |groups|)) == groups[g].children[s..]
  {
    var e, groups := Split(d, at, g, s), d.arenas[Groups];
    assert |e.arenas[Groups]| == |groups| + 1;
    assert forall k: nat :: k < |groups| && k != g ==> e.arenas[Groups][k] == groups[k];
    hide Split, Reparented;
    forall i | 0 <= i < |d.body| && i != at ensures Flat(e, d.body[i]) == Flat(d, d.body[i]) {
      assert d.body[i] != d.body[at];
    }
  }

  lemma SplitSound(d: Document, at: nat, g: nat, s: nat)
    requires BodySound(d) && CanSplit(d, at, g, s)
    ensures BodySound(Split(d, at, g, s))
  {
    var e, fresh_ := Split(d, at, g, s), At(Groups, |d.arenas[Groups]|);
    assert |e.arenas[Groups]| == |d.arenas[Groups]| + 1;
    assert e.body == d.body[..at + 1] + [fresh_] + d.body[at + 1..];
    hide Split, Reparented;
    assert forall k :: 0 <= k < |e.body| ==> e.body[k] == if k <= at then d.body[k] else if k == at + 1 then fresh_ else d.body[k - 1];
  }

  lemma FlattenAround(d: Document, before: seq<Ref>, middle: seq<Ref>, after: seq<Ref>)
    ensures Flatten(d, before + (middle + after)) == Flatten(d, before) + (Flatten(d, middle) + Flatten(d, after))
  {
    FlattenConcat(d, before, middle + after);
    FlattenConcat(d, middle, after);
  }

  lemma FlattenOne(d: Document, r: Ref)
    ensures Flatten(d, [r]) == Flat(d, r)
  {
    hide Flat;
    assert [r][1..] == [];
    assert Flat(d, r) + [] == Flat(d, r);
  }

  /** One entry read as two others, among entries that read as before. */
  lemma FlattenReplaced(d: Document, e: Document, before: seq<Ref>, old_: Ref, fresh_: Ref, after: seq<Ref>)
    requires forall i :: 0 <= i < |before| ==> Flat(d, before[i]) == Flat(e, before[i])
    requires forall i :: 0 <= i < |after| ==> Flat(d, after[i]) == Flat(e, after[i])
    requires Flat(d, old_) == Flat(e, old_) + Flat(e, fresh_)
    ensures Flatten(e, before + ([old_, fresh_] + after)) == Flatten(d, before + ([old_] + after))
  {
    hide Flat, Flatten;
    FlattenSame(d, e, before);
    FlattenSame(d, e, after);
    FlattenAround(d, before, [old_], after);
    FlattenAround(e, before, [old_, fresh_], after);
    FlattenOne(d, old_);
    FlattenPair(e, old_, fresh_);
  }

  /** A split leaves the flattened body as it was, and the body sound. */
  lemma SplitKeepsContent(d: Document, at: nat, g: nat, s: nat)
    requires BodySound(d) && CanSplit(d, at, g, s)
    ensures BodySound(Split(d, at, g, s))
    ensures Flatten(Split(d, at, g, s), Split(d, at, g, s).body) == Flatten(d, d.body)
  {
    SplitSound(d, at, g, s);
    var e := Split(d, at, g, s);
    var before, after := d.body[..at], d.body[at + 1..];
    var old_, fresh_ := At(Groups, g), At(Groups, |d.arenas[Groups]|);
    var children := d.arenas[Groups][g].children;
    assert d.body == before + ([old_] + after);
    assert e.body == before + ([old_, fresh_] + after);
    SplitFlat(d, at, g, s);
    hide Split, Reparented, BodySound, Flat, Flatten;
    SplitFlatOld(d, g);
    assert children[..s] + children[s..] == children;
    FlattenReplaced(d, e, before, old_, fresh_, after);
  }

  lemma SplitFlatOld(d: Document, g: nat)
    requires g < |d.arenas[Groups]|
    ensures Flat(d, At(Groups, g)) == d.arenas[Groups][g].children
  {
  }

  lemma FlattenPair(d: Document, r: Ref, t: Ref)
    ensures Flatten(d, [r, t]) == Flat(d, r) + Flat(d, t)
  {
    assert [r, t][1..] == [t];
    FlattenOne(d, t);
    hide Flat;
  }

  // ----- Termination.

  ghost function Excess(groups: seq<Item>): nat {
    if groups == [] then 0
    else Excess(groups[..|groups| - 1]) + ExcessOf(groups[|groups| - 1])
  }

  ghost function ExcessOf(group: Item): nat {
    if group.children == [] then 0 else |group.children| - 1
  }

  lemma {:induction false} ExcessUpdate(groups: seq<Item>, g: nat, item: Item)
    requires g < |groups|
    ensures Excess(groups[g := item]) == Excess(groups) - ExcessOf(groups[g]) + ExcessOf(item)
  {
    var last := |groups| - 1;
    if g < last {
      assert groups[g := item][..last] == groups[..last][g := item];
      ExcessUpdate(groups[..last], g, item);
    } else {
      assert groups[g := item][..last] == groups[..last];
    }
  }

  /** Each split takes exactly one from the sum of the groups' sizes beyond one. */
  lemma SplitLowersExcess(d: Document, at: nat, g: nat, s: nat)
    requires CanSplit(d, at, g, s)
    ensures Excess(Split(d, at, g, s).arenas[Groups]) == Excess(d.arenas[Groups]) - 1
  {
    var groups := d.arenas[Groups];
    var head := groups[g];
    var tail := head.(selfRef := Some(At(Groups, |groups|)), children := head.children[s..]);
    var shortened := groups[g := head.(children := head.children[..s])];
    ExcessUpdate(groups, g, head.(children := head.children[..s]));
    assert (shortened + [tail])[..|groups|] == shortened;
  }

  // ----- Links.

  /** None of the children that move keeps its fields outside the common base. */
  ghost predicate MovesNoCode(d: Document, g: nat, s: nat)
    requires g < |d.arenas[Groups]| && s <= |d.arenas[Groups][g].children|
  {
    forall c: Ref :: c in d.arenas[Groups][g].children[s..] && Resolves(d, c) && c.arena == Texts ==> !ItemAt(d, c).code
  }

  lemma SplitItems(d: Document, at: nat, g: nat, s: nat, r: Ref)
    requires CanSplit(d, at, g, s)
    ensures
      var e, fresh_ := Split(d, at, g, s), At(Groups, |d.arenas[Groups]|);
      var children := d.arenas[Groups][g].children;
      && (Resolves(e, r) <==> Resolves(d, r) || r == fresh_)
      && (Resolves(d, r) ==>
            ItemAt(e, r) ==
              if r == At(Groups, g) then ItemAt(d, r).(children := children[..s])
              else if IsText(r) && r in children[s..] && !ItemAt(d, r).code then ItemAt(d, r).(parent := Some(fresh_))
              else ItemAt(d, r))
      && (r == fresh_ ==> ItemAt(e, r) == d.arenas[Groups][g].(selfRef := Some(fresh_), children := children[s..]))
  {
    if r.At? { assert r == At(r.arena, r.index); }
  }

  lemma SplitChildren(d: Document, at: nat, g: nat, s: nat, node: Ref)
    requires CanSplit(d, at, g, s)
    ensures
      var e, fresh_ := Split(d, at, g, s), At(Groups, |d.arenas[Groups]|);
      var children := d.arenas[Groups][g].children;
      ChildrenOf(e, node) ==
        if node.Body? then d.body[..at + 1] + [fresh_] + d.body[at + 1..]
        else if node == At(Groups, g) then children[..s]
        else if node == fresh_ then children[s..]
        else ChildrenOf(d, node)
  {
    SplitItems(d, at, g, s, node);
    hide Reparented;
  }

  /** Splitting a group of texts keeps a well-formed document well-formed if and only if no code item
      is among the children that move: those keep naming the old group their parent. */
  lemma SplitWellFormedIff(d: Document, at: nat, g: nat, s: nat)
    requires WellFormed(d) && CanSplit(d, at, g, s)
    requires forall c :: c in d.arenas[Groups][g].children ==> IsText(c)
    ensures WellFormed(Split(d, at, g, s)) <==> MovesNoCode(d, g, s)
  {
    if MovesNoCode(d, g, s) {
      SplitStaysWellFormed(d, at, g, s);
    } else {
      var children := d.arenas[Groups][g].children;
      var c :| c in children[s..] && Resolves(d, c) && c.arena == Texts && ItemAt(d, c).code;
      SplitItems(d, at, g, s, c);
      var fresh_ := At(Groups, |d.arenas[Groups]|);
      SplitChildren(d, at, g, s, fresh_);
      assert c in ChildrenOf(d, At(Groups, g));
      assert ItemAt(d, c).parent == Some(At(Groups, g));
      assert c in ChildrenOf(Split(d, at, g, s), fresh_);
      hide Split;
    }
  }

  /** A group of two texts, the second a code item. */
  ghost function CodeInGroup(): Document {
    Document(EMPTY.arenas[Groups := [Item(Some(At(Groups, 0)), Some(Body), [At(Texts, 0), At(Texts, 1)], [], "", false)]]
                         [Texts := [Item(Some(At(Texts, 0)), Some(At(Groups, 0)), [], [], "", false),
                                    Item(Some(At(Texts, 1)), Some(At(Groups, 0)), [], [], "", true)]],
             [At(Groups, 0)], [])
  }

  lemma CodeInGroupItem(r: Ref)
    requires Resolves(CodeInGroup(), r)
    ensures r in {At(Groups, 0), At(Texts, 0), At(Texts, 1)}
    ensures ItemAt(CodeInGroup(), r).links == [] && ItemAt(CodeInGroup(), r).selfRef == Some(r)
    ensures ItemAt(CodeInGroup(), r).parent == Some(if r == At(Groups, 0) then Body else At(Groups, 0))
  {
    assert r == At(r.arena, r.index);
  }

  lemma CodeInGroupChildren(node: Ref)
    ensures ChildrenOf(CodeInGroup(), node) ==
      if node.Body? then [At(Groups, 0)] else if node == At(Groups, 0) then [At(Texts, 0), At(Texts, 1)] else []
    ensures Resolves(CodeInGroup(), At(Groups, 0)) && Resolves(CodeInGroup(), At(Texts, 0)) && Resolves(CodeInGroup(), At(Texts, 1))
  {
    if Resolves(CodeInGroup(), node) { assert node == At(node.arena, node.index); }
  }

  lemma CodeInGroupWellFormed()
    ensures WellFormed(CodeInGroup())
  {
    hide CodeInGroup, ItemAt, ChildrenOf, Resolves;
    var d := CodeInGroup();
    forall r: Ref | Resolves(d, r)
      ensures ItemAt(d, r).links == [] && ItemAt(d, r).selfRef == Some(r) && ItemAt(d, r).parent in {Some(Body), Some(At(Groups, 0))}
    {
      CodeInGroupItem(r);
    }
    forall node: Ref ensures Distinct(ChildrenOf(d, node)) && forall c: Ref :: c in ChildrenOf(d, node) ==> Resolves(d, c) {
      CodeInGroupChildren(node);
    }
    CodeInGroupChildren(Body);
    forall node, c: Ref | Resolves(d, c) ensures c in ChildrenOf(d, node) <==> ItemAt(d, c).parent == Some(node) {
      CodeInGroupItem(c);
      CodeInGroupChildren(node);
    }
  }

  /** Split before its code item, that document is no longer well-formed. */
  lemma CodeItemIsLeftBehind()
    ensures
      var d := CodeInGroup();
      WellFormed(d) && CanSplit(d, 0, 0, 1) && !WellFormed(Split(d, 0, 0, 1))
  {
    var d := CodeInGroup();
    CodeInGroupWellFormed();
    assert d.arenas[Groups][0].children[1..] == [At(Texts, 1)];
    assert Resolves(d, At(Texts, 1)) && ItemAt(d, At(Texts, 1)).code;
    hide WellFormed, Split;
    SplitWellFormedIff(d, 0, 0, 1);
  }

  lemma GroupFacts(d: Document, at: nat, g: nat, s: nat, node: Ref)
    requires WellFormed(d) && CanSplit(d, at, g, s)
    ensures At(Groups, |d.arenas[Groups]|) !in ChildrenOf(d, node)
    ensures ItemAt(d, At(Groups, g)).parent == Some(Body)
    ensures d.arenas[Groups][g].children == ChildrenOf(d, At(Groups, g)) && Distinct(ChildrenOf(d, At(Groups, g)))
  {
    assert At(Groups, g) in ChildrenOf(d, Body);
    assert !Resolves(d, At(Groups, |d.arenas[Groups]|));
  }

  lemma HalvesOf(children: seq<Ref>, s: nat, c: Ref)
    requires Distinct(children) && s <= |children|
    ensures c in children <==> c in children[..s] || c in children[s..]
    ensures !(c in children[..s] && c in children[s..])
  {
    assert children == children[..s] + children[s..];
  }

  lemma SplitLinks(d: Document, at: nat, g: nat, s: nat, node: Ref, c: Ref)
    requires WellFormed(d) && CanSplit(d, at, g, s) && MovesNoCode(d, g, s)
    requires forall c :: c in d.arenas[Groups][g].children ==> IsText(c)
    requires Resolves(Split(d, at, g, s), c)
    ensures c in ChildrenOf(Split(d, at, g, s), node) <==> ItemAt(Split(d, at, g, s), c).parent == Some(node)
  {
    hide Split, WellFormed, Distinct;
    var fresh_, old_ := At(Groups, |d.arenas[Groups]|), At(Groups, g);
    var children := d.arenas[Groups][g].children;
    SplitItems(d, at, g, s, c);
    SplitChildren(d, at, g, s, node);
    GroupFacts(d, at, g, s, node);
    HalvesOf(children, s, c);
    assert d.body == d.body[..at + 1] + d.body[at + 1..];
    if c != fresh_ {
      LinkedBothWays(d, node, c);
      LinkedBothWays(d, old_, c);
    } else {
      assert fresh_ in d.body[..at + 1] + [fresh_] + d.body[at + 1..];
      assert !IsText(fresh_);
    }
  }

  lemma SplitStaysWellFormed(d: Document, at: nat, g: nat, s: nat)
    requires WellFormed(d) && CanSplit(d, at, g, s) && MovesNoCode(d, g, s)
    requires forall c :: c in d.arenas[Groups][g].children ==> IsText(c)
    ensures WellFormed(Split(d, at, g, s))
  {
    var e := Split(d, at, g, s);
    var fresh_, old_ := At(Groups, |d.arenas[Groups]|), At(Groups, g);
    assert TwoSided(e) by {
      forall node, c: Ref | Resolves(e, c) ensures c in ChildrenOf(e, node) <==> ItemAt(e, c).parent == Some(node) {
        SplitLinks(d, at, g, s, node, c);
      }
    }
    hide Split, MovesNoCode;
    assert Named(e) by {
      forall r: Ref | Resolves(e, r) && ItemAt(e, r).selfRef.Some? ensures ItemAt(e, r).selfRef.value == r {
        SplitItems(d, at, g, s, r);
      }
    }
    assert ListedOnce(e) by {
      forall node: Ref ensures Distinct(ChildrenOf(e, node)) {
        SplitListsOnce(d, at, g, s, node);
      }
    }
    SplitCloses(d, at, g, s);
  }

  lemma SplitListsOnce(d: Document, at: nat, g: nat, s: nat, node: Ref)
    requires WellFormed(d) && CanSplit(d, at, g, s)
    ensures Distinct(ChildrenOf(Split(d, at, g, s), node))
  {
    SplitChildren(d, at, g, s, node);
    hide Split;
    assert Distinct(ChildrenOf(d, node)) && Distinct(ChildrenOf(d, At(Groups, g)));
    if node.Body? {
      forall i | 0 <= i < |d.body| ensures d.body[i] != At(Groups, |d.arenas[Groups]|) {
        assert d.body[i] in ChildrenOf(d, Body);
        assert Resolves(d, d.body[i]);
      }
    }
  }

  lemma SplitCloses(d: Document, at: nat, g: nat, s: nat)
    requires WellFormed(d) && CanSplit(d, at, g, s)
    ensures Closed(Split(d, at, g, s))
  {
    var e := Split(d, at, g, s);
    var fresh_, old_ := At(Groups, |d.arenas[Groups]|), At(Groups, g);
    hide Split;
    forall r: Ref ensures Resolves(d, r) || r == fresh_ ==> Resolves(e, r) { SplitItems(d, at, g, s, r); }
    forall node, c: Ref | c in ChildrenOf(e, node) ensures Resolves(e, c) {
      SplitChildren(d, at, g, s, node);
      if c != fresh_ {
        assert c in ChildrenOf(d, node) || c in ChildrenOf(d, old_);
        assert Resolves(d, c);
      }
    }
    forall r: Ref | Resolves(e, r) && ItemAt(e, r).parent.Some? ensures IsNode(e, ItemAt(e, r).parent.value) {
      SplitItems(d, at, g, s, r);
      var from := if r == fresh_ then old_ else r;
      assert ItemAt(d, from).parent.Some? ==> IsNode(d, ItemAt(d, from).parent.value);
    }
    forall r, l: Ref | Resolves(e, r) && l in ItemAt(e, r).links ensures IsNode(e, l) {
      SplitItems(d, at, g, s, r);
      var from := if r == fresh_ then old_ else r;
      assert l in ItemAt(d, from).links;
      assert IsNode(d, l);
    }
  }

  // ----- The program.

  /** The texts the tail takes name the new group their parent. */
  method MoveChildren(texts: seq<Item>, children: seq<Ref>, s: nat, newRef: Ref) returns (moved: seq<Item>, tail: seq<Ref>)
    requires s <= |children|
    ensures moved == Reparented(texts, children[s..], newRef) && tail == children[s..]
  {
    moved, tail := texts, [];
    for index := s to |children|
      invariant tail == children[s..index] && moved == Reparented(texts, children[s..index], newRef)
    {
      var r := children[index];
      assert children[s..index + 1] == children[s..index] + [r];
      tail := tail + [r];
      if IsText(r) && r.index < |moved| && !moved[r.index].code {
        moved := moved[r.index := moved[r.index].(parent := Some(newRef))];
      }
    }
    assert children[s..|children|] == children[s..];
  }

  /** Appends a reference and swaps it down to right behind a position. */
  method PlaceBehind(refs: seq<Ref>, at: nat, newRef: Ref) returns (placed: seq<Ref>)
    requires at < |refs|
    ensures placed == refs[..at + 1] + [newRef] + refs[at + 1..]
  {
    placed := refs + [newRef];
    var index := |placed| - 1;
    while index > at + 1
      invariant at + 1 <= index < |placed| == |refs| + 1
      invariant placed == refs[..index] + [newRef] + refs[index..]
    {
      placed := placed[index := placed[index - 1]][index - 1 := placed[index]];
      index := index - 1;
    }
  }

  method SplitGroup(doc: DocumentObject, at: nat, g: nat, s: nat)
    requires CanSplit(doc.Value(), at, g, s)
    modifies doc
    ensures doc.Value() == Split(old(doc.Value()), at, g, s)
  {
    hide Reparented;
    var groups := doc.arenas[Groups];
    var head := groups[g];
    var newRef := At(Groups, |groups|);
    var texts, children := MoveChildren(doc.arenas[Texts], head.children, s, newRef);
    var tail := head.(selfRef := Some(newRef), children := children);
    doc.arenas := doc.arenas[Groups := groups[g := head.(children := head.children[..s])] + [tail]][Texts := texts];
    doc.body := PlaceBehind(doc.body, at, newRef);
  }

  ghost predicate NoSplitLeft(geo: Geometry, d: Document, position: nat, candidate: nat) {
    position < |d.body| && candidate < |d.body| ==>
      var r, group := d.body[position], d.body[candidate];
      geo.isFloat(r) && geo.place(r).Some? && group.At? && group.arena == Groups && group.index < |d.arenas[Groups]| ==>
        forall s: nat :: !SplitsAt(geo, d.arenas[Groups][group.index].children, geo.place(r).value, s)
  }

  /** The split made: the float at i sits inside the group at j, first at child s, and no pair before has any. */
  ghost predicate FirstSplit(geo: Geometry, d: Document, e: Document, i: nat, j: nat, s: nat) {
    && i < |d.body| && j < |d.body| && geo.isFloat(d.body[i]) && geo.place(d.body[i]).Some? && d.body[j].At?
    && CanSplit(d, j, d.body[j].index, s) && e == Split(d, j, d.body[j].index, s)
    && SplitsAt(geo, d.arenas[Groups][d.body[j].index].children, geo.place(d.body[i]).value, s)
    && (forall k: nat, m: nat :: k < i ==> NoSplitLeft(geo, d, k, m))
    && (forall m: nat :: m < j ==> NoSplitLeft(geo, d, i, m))
  }

  method SplitOneGroupAroundAFloat(doc: DocumentObject, geo: Geometry) returns (done: bool)
    requires BodySound(doc.Value())
    modifies doc
    ensures BodySound(doc.Value())
    ensures Flatten(doc.Value(), doc.body) == old(Flatten(doc.Value(), doc.body))
    ensures done ==> Excess(doc.arenas[Groups]) == old(Excess(doc.arenas[Groups])) - 1
    ensures done ==> exists i: nat, j: nat, s: nat :: FirstSplit(geo, old(doc.Value()), doc.Value(), i, j, s)
    ensures !done ==> doc.Value() == old(doc.Value())
    ensures !done ==> forall i: nat, j: nat :: NoSplitLeft(geo, doc.Value(), i, j)
  {
    hide SplitsAt, Split, BodySound, Flatten, Excess;
    for position := 0 to |doc.body|
      invariant doc.Value() == old(doc.Value())
      invariant forall i: nat, j: nat :: i < position ==> NoSplitLeft(geo, doc.Value(), i, j)
    {
      var r := doc.body[position];
      if !geo.isFloat(r) { continue; }
      var floating := geo.place(r);
      if floating.None? { continue; }
      for candidate := 0 to |doc.body|
        invariant doc.Value() == old(doc.Value())
        invariant forall j: nat :: j < candidate ==> NoSplitLeft(geo, doc.Value(), position, j)
      {
        var group := doc.body[candidate];
        if !(group.At? && group.arena == Groups) || group.index >= |doc.arenas[Groups]| { continue; }
        var split := SplitPosition(geo, doc.arenas[Groups][group.index].children, floating.value);
        if split.None? { continue; }
        ghost var d := doc.Value();
        SplitKeepsContent(d, candidate, group.index, split.value);
        SplitLowersExcess(d, candidate, group.index, split.value);
        SplitGroup(doc, candidate, group.index, split.value);
        assert FirstSplit(geo, d, doc.Value(), position, candidate, split.value);
        return true;
      }
    }
    return false;
  }

  /** Splits until no float sits inside a group: as many times as the groups' excess falls, with the
      body's flattened content untouched. */
  method SplitGroupsAroundFloats(doc: DocumentObject, geo: Geometry) returns (splits: nat)
    requires BodySound(doc.Value())
    modifies doc
    ensures Flatten(doc.Value(), doc.body) == old(Flatten(doc.Value(), doc.body))
    ensures splits == old(Excess(doc.arenas[Groups])) - Excess(doc.arenas[Groups])
    ensures BodySound(doc.Value()) && forall i: nat, j: nat :: NoSplitLeft(geo, doc.Value(), i, j)
  {
    hide NoSplitLeft, BodySound, Flatten, Excess;
    splits := 0;
    while true
      invariant BodySound(doc.Value())
      invariant Flatten(doc.Value(), doc.body) == old(Flatten(doc.Value(), doc.body))
      invariant splits == old(Excess(doc.arenas[Groups])) - Excess(doc.arenas[Groups])
      decreases Excess(doc.arenas[Groups])
    {
      var done := SplitOneGroupAroundAFloat(doc, geo);
      if !done { return; }
      splits := splits + 1;
    }
  }
}
