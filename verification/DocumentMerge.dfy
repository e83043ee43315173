/** Merging one collector's document into another (src/document_merge.cpp). */
module DocumentMerge {
  import opened Bytes
  import opened Documents

  // ----- The renumbering.

  /** The renumbering of one arena: item i of the source becomes item existing + i. */
  function MapArena(items: seq<Item>, existing: nat, arena: Arena, mapping: map<Ref, Ref>): map<Ref, Ref> {
    if items == [] then mapping
    else
      var i := |items| - 1;
      var before := MapArena(items[..i], existing, arena, mapping);
      before[(if items[i].selfRef.Some? then items[i].selfRef.value else At(arena, i)) := At(arena, existing + i)]
  }

  ghost function MapArenas(source: Document, target: Document, n: nat): map<Ref, Ref>
    requires n <= |ARENAS|
  {
    if n == 0 then map[]
    else
      var arena := ARENAS[n - 1];
      MapArena(source.arenas[arena], |target.arenas[arena]|, arena, MapArenas(source, target, n - 1))
  }

  ghost function Renumbering(source: Document, target: Document): map<Ref, Ref> {
    MapArenas(source, target, |ARENAS|)
  }

  /** The merge: the source's items and children, renumbered, behind the target's. */
  ghost function Merge(target: Document, source: Document): Document {
    var moved := RewriteDocument(Renumbering(source, target), source);
    Document(map a: Arena | a in target.arenas :: target.arenas[a] + moved.arenas[a],
             target.body + moved.body, target.furniture + moved.furniture)
  }

  // ----- For a document whose items sit where their names say, renumbering is a shift.

  ghost function Shift(target: Document, r: Ref): Ref {
    if r.At? then At(r.arena, |target.arenas[r.arena]| + r.index) else r
  }

  /** `m` is `before` with the first n items of one arena renumbered from `existing` on. */
  ghost predicate AddsArena(m: map<Ref, Ref>, before: map<Ref, Ref>, n: nat, existing: nat, arena: Arena) {
    forall r: Ref :: AddsAt(m, before, n, existing, arena, r)
  }

  ghost predicate AddsAt(m: map<Ref, Ref>, before: map<Ref, Ref>, n: nat, existing: nat, arena: Arena, r: Ref) {
    if r.At? && r.arena == arena && r.index < n then r in m && m[r] == At(arena, existing + r.index)
    else (r in m <==> r in before) && (r in m ==> m[r] == before[r])
  }

  lemma AddsOne(m: map<Ref, Ref>, before: map<Ref, Ref>, n: nat, existing: nat, arena: Arena)
    requires AddsArena(m, before, n, existing, arena)
    ensures AddsArena(m[At(arena, n) := At(arena, existing + n)], before, n + 1, existing, arena)
  {
    var more, next := m[At(arena, n) := At(arena, existing + n)], n + 1;
    forall r: Ref ensures AddsAt(more, before, next, existing, arena, r) {
      assert AddsAt(m, before, n, existing, arena, r);
    }
  }

  lemma {:induction false} MapArenaShifts(items: seq<Item>, existing: nat, arena: Arena, mapping: map<Ref, Ref>)
    requires forall i :: 0 <= i < |items| && items[i].selfRef.Some? ==> items[i].selfRef.value == At(arena, i)
    ensures AddsArena(MapArena(items, existing, arena, mapping), mapping, |items|, existing, arena)
  {
    if items != [] {
      var last := |items| - 1;
      var before := MapArena(items[..last], existing, arena, mapping);
      assert MapArena(items, existing, arena, mapping) == before[At(arena, last) := At(arena, existing + last)];
      hide MapArena, AddsArena;
      MapArenaShifts(items[..last], existing, arena, mapping);
      AddsOne(before, mapping, last, existing, arena);
    }
  }

  lemma ArenaIsNamed(d: Document, arena: Arena)
    requires Named(d)
    ensures forall i :: 0 <= i < |d.arenas[arena]| && d.arenas[arena][i].selfRef.Some? ==>
              d.arenas[arena][i].selfRef.value == At(arena, i)
  {
    forall i | 0 <= i < |d.arenas[arena]| && d.arenas[arena][i].selfRef.Some?
      ensures d.arenas[arena][i].selfRef.value == At(arena, i)
    {
      assert Resolves(d, At(arena, i)) && ItemAt(d, At(arena, i)) == d.arenas[arena][i];
    }
  }

  /** `m` renumbers the source's items in the given arenas and nothing else. */
  ghost predicate Moves(m: map<Ref, Ref>, source: Document, target: Document, arenas: seq<Arena>) {
    forall r: Ref ::
      if Resolves(source, r) && r.arena in arenas then r in m && m[r] == Shift(target, r)
      else r !in m
  }

  lemma MovesNext(m: map<Ref, Ref>, before: map<Ref, Ref>, source: Document, target: Document, arenas: seq<Arena>, arena: Arena)
    requires Moves(before, source, target, arenas) && arena !in arenas
    requires AddsArena(m, before, |source.arenas[arena]|, |target.arenas[arena]|, arena)
    ensures Moves(m, source, target, arenas + [arena])
  {
    forall r: Ref ensures if Resolves(source, r) && r.arena in arenas + [arena] then r in m && m[r] == Shift(target, r) else r !in m {
      assert AddsAt(m, before, |source.arenas[arena]|, |target.arenas[arena]|, arena, r);
    }
  }

  lemma {:induction false} MapArenasShifts(source: Document, target: Document, n: nat)
    requires n <= |ARENAS| && Named(source)
    ensures Moves(MapArenas(source, target, n), source, target, ARENAS[..n])
  {
    hide Moves, Named, MapArena, AddsArena;
    if n > 0 {
      var arena := ARENAS[n - 1];
      MapArenasShifts(source, target, n - 1);
      assert MapArenas(source, target, n)
        == MapArena(source.arenas[arena], |target.arenas[arena]|, arena, MapArenas(source, target, n - 1));
      hide MapArenas;
      assert ARENAS[..n] == ARENAS[..n - 1] + [arena];
      ArenaIsNamed(source, arena);
      MapArenaShifts(source.arenas[arena], |target.arenas[arena]|, arena, MapArenas(source, target, n - 1));
      assert arena !in ARENAS[..n - 1];
      MovesNext(MapArenas(source, target, n), MapArenas(source, target, n - 1), source, target, ARENAS[..n - 1], arena);
    } else {
      assert Moves(map[], source, target, []) by { MovesNone(source, target); }
    }
  }

  lemma MovesNone(source: Document, target: Document)
    ensures Moves(map[], source, target, [])
  {
  }

  /** The renumbering moves exactly the source's items, each by the size of the target's arena. */
  lemma RenumberingShifts(source: Document, target: Document)
    requires Named(source)
    ensures forall r: Ref :: Resolves(source, r) ==> Renamed(Renumbering(source, target), r) == Shift(target, r)
    ensures forall r: Ref :: !Resolves(source, r) ==> Renamed(Renumbering(source, target), r) == r
  {
    MapArenasShifts(source, target, |ARENAS|);
    assert ARENAS[..|ARENAS|] == ARENAS;
    EveryArena();
  }

  ghost function ShiftAll(target: Document, refs: seq<Ref>): seq<Ref> {
    seq(|refs|, i requires 0 <= i < |refs| => Shift(target, refs[i]))
  }

  ghost function ShiftItem(target: Document, item: Item): Item {
    item.(selfRef := if item.selfRef.Some? then Some(Shift(target, item.selfRef.value)) else None,
          parent := if item.parent.Some? then Some(Shift(target, item.parent.value)) else None,
          children := ShiftAll(target, item.children),
          links := ShiftAll(target, item.links))
  }

  /** The merge of a closed source, item by item and list by list. */
  lemma MergeShifts(target: Document, source: Document)
    requires Named(source) && Closed(source)
    ensures
      var m := Merge(target, source);
      && (forall a: Arena :: m.arenas[a][..|target.arenas[a]|] == target.arenas[a])
      && (forall a: Arena :: |m.arenas[a]| == |target.arenas[a]| + |source.arenas[a]|)
      && (forall a: Arena, i: nat :: i < |source.arenas[a]| ==>
            m.arenas[a][|target.arenas[a]| + i] == ShiftItem(target, source.arenas[a][i]))
      && m.body == target.body + ShiftAll(target, source.body)
      && m.furniture == target.furniture + ShiftAll(target, source.furniture)
  {
    RenumberingShifts(source, target);
    var mapping := Renumbering(source, target);
    hide Renumbering;
    forall a: Arena, i: nat | i < |source.arenas[a]|
      ensures RewriteItem(mapping, source.arenas[a][i]) == ShiftItem(target, source.arenas[a][i])
    {
      ItemShifts(target, source, mapping, At(a, i));
    }
    RefsShift(target, source, mapping, source.body, Body);
    RefsShift(target, source, mapping, source.furniture, Furniture);
  }

  lemma RefsShift(target: Document, source: Document, mapping: map<Ref, Ref>, refs: seq<Ref>, node: Ref)
    requires forall r: Ref :: Resolves(source, r) ==> Renamed(mapping, r) == Shift(target, r)
    requires Closed(source) && refs == ChildrenOf(source, node)
    ensures RenamedAll(mapping, refs) == ShiftAll(target, refs)
  {
    forall i | 0 <= i < |refs| ensures Resolves(source, refs[i]) {
      assert refs[i] in ChildrenOf(source, node);
    }
  }

  lemma ItemShifts(target: Document, source: Document, mapping: map<Ref, Ref>, r: Ref)
    requires forall r: Ref :: Resolves(source, r) ==> Renamed(mapping, r) == Shift(target, r)
    requires forall r: Ref :: !Resolves(source, r) ==> Renamed(mapping, r) == r
    requires Named(source) && Closed(source) && Resolves(source, r)
    ensures RewriteItem(mapping, ItemAt(source, r)) == ShiftItem(target, ItemAt(source, r))
  {
    var item := ItemAt(source, r);
    RefsShift(target, source, mapping, item.children, r);
    forall i | 0 <= i < |item.links| ensures Renamed(mapping, item.links[i]) == Shift(target, item.links[i]) {
      assert item.links[i] in item.links;
      assert IsNode(source, item.links[i]);
    }
    assert RenamedAll(mapping, item.links) == ShiftAll(target, item.links);
    if item.parent.Some? {
      assert IsNode(source, item.parent.value);
    }
  }

  // ----- What the merge keeps.

  /** Where a reference of the merged document comes from. */
  ghost predicate FromTarget(target: Document, r: Ref) {
    r.At? && r.index < |target.arenas[r.arena]|
  }

  ghost function Unshift(target: Document, r: Ref): Ref {
    if r.At? && !FromTarget(target, r) then At(r.arena, r.index - |target.arenas[r.arena]|) else r
  }

  /** One arena of a merged document: the target's items, then the source's, shifted. */
  ghost predicate Appends(target: Document, source: Document, m: Document, arena: Arena) {
    && |m.arenas[arena]| == |target.arenas[arena]| + |source.arenas[arena]|
    && m.arenas[arena][..|target.arenas[arena]|] == target.arenas[arena]
    && forall i: nat :: i < |source.arenas[arena]| ==>
         m.arenas[arena][|target.arenas[arena]| + i] == ShiftItem(target, source.arenas[arena][i])
  }

  lemma MergeAppends(target: Document, source: Document)
    requires Named(source) && Closed(source)
    ensures
      var m := Merge(target, source);
      && (forall arena: Arena :: Appends(target, source, m, arena))
      && m.body == target.body + ShiftAll(target, source.body)
      && m.furniture == target.furniture + ShiftAll(target, source.furniture)
  {
    hide Merge, Shift, ShiftAll, ShiftItem, Named, Closed;
    MergeShifts(target, source);
  }

  lemma MergedItem(m: Document, target: Document, source: Document, r: Ref)
    requires r.At? && Appends(target, source, m, r.arena)
    ensures Resolves(m, r) <==> FromTarget(target, r) || Resolves(source, Unshift(target, r))
    ensures FromTarget(target, r) ==> ItemAt(m, r) == ItemAt(target, r)
    ensures Resolves(m, r) && !FromTarget(target, r) ==> ItemAt(m, r) == ShiftItem(target, ItemAt(source, Unshift(target, r)))
    ensures Resolves(source, r) ==> Resolves(m, Shift(target, r))
  {
    hide ShiftItem;
    if FromTarget(target, r) {
      assert m.arenas[r.arena][..|target.arenas[r.arena]|][r.index] == m.arenas[r.arena][r.index];
    } else if Resolves(m, r) {
      var i: nat := r.index - |target.arenas[r.arena]|;
      assert m.arenas[r.arena][|target.arenas[r.arena]| + i] == ShiftItem(target, source.arenas[r.arena][i]);
    }
  }

  lemma MergedItems(target: Document, source: Document)
    requires Named(source) && Closed(source)
    ensures
      var m := Merge(target, source);
      && (forall r: Ref :: Resolves(m, r) <==> FromTarget(target, r) || (r.At? && Resolves(source, Unshift(target, r))))
      && (forall r: Ref :: FromTarget(target, r) ==> ItemAt(m, r) == ItemAt(target, r))
      && (forall r: Ref :: Resolves(m, r) && !FromTarget(target, r) ==>
            ItemAt(m, r) == ShiftItem(target, ItemAt(source, Unshift(target, r))))
      && (forall r: Ref :: Resolves(source, r) ==> Resolves(m, Shift(target, r)))
  {
    hide Merge, Appends, ItemAt, ShiftItem, ShiftAll, Closed, Named;
    MergeAppends(target, source);
    var m := Merge(target, source);
    forall r: Ref | r.At?
      ensures Resolves(m, r) <==> FromTarget(target, r) || Resolves(source, Unshift(target, r))
      ensures FromTarget(target, r) ==> ItemAt(m, r) == ItemAt(target, r)
      ensures Resolves(m, r) && !FromTarget(target, r) ==> ItemAt(m, r) == ShiftItem(target, ItemAt(source, Unshift(target, r)))
      ensures Resolves(source, r) ==> Resolves(m, Shift(target, r))
    {
      MergedItem(m, target, source, r);
    }
  }

  /** The children of a node of the merged document. */
  lemma MergedChildren(target: Document, source: Document, node: Ref)
    requires WellFormed(target) && WellFormed(source)
    ensures
      var m := Merge(target, source);
      ChildrenOf(m, node) ==
        if node.Body? || node.Furniture? then ChildrenOf(target, node) + ShiftAll(target, ChildrenOf(source, node))
        else if FromTarget(target, node) then ChildrenOf(target, node)
        else ShiftAll(target, ChildrenOf(source, Unshift(target, node)))
  {
    MergeShifts(target, source);
    MergedItems(target, source);
    hide Merge;
  }

  /** What a reference names, read in the merged document and in the two it came from. */
  lemma MergedParent(target: Document, source: Document, c: Ref)
    requires WellFormed(target) && WellFormed(source) && Resolves(Merge(target, source), c)
    ensures
      var m := Merge(target, source);
      ItemAt(m, c).parent ==
        if FromTarget(target, c) then ItemAt(target, c).parent
        else
          var parent := ItemAt(source, Unshift(target, c)).parent;
          if parent.Some? then Some(Shift(target, parent.value)) else None
  {
    MergedItems(target, source);
    hide Merge;
  }

  lemma ShiftAllContains(target: Document, refs: seq<Ref>, r: Ref)
    ensures r in ShiftAll(target, refs) <==> exists q :: q in refs && Shift(target, q) == r
  {
    if r in ShiftAll(target, refs) {
      var i :| 0 <= i < |refs| && ShiftAll(target, refs)[i] == r;
      assert refs[i] in refs;
    }
    forall q | q in refs && Shift(target, q) == r ensures r in ShiftAll(target, refs) {
      var i :| 0 <= i < |refs| && refs[i] == q;
      assert ShiftAll(target, refs)[i] == r;
    }
  }

  lemma TargetLinks(target: Document, source: Document, node: Ref, c: Ref)
    requires WellFormed(target) && WellFormed(source) && Resolves(Merge(target, source), c) && FromTarget(target, c)
    ensures c in ChildrenOf(Merge(target, source), node) <==> ItemAt(Merge(target, source), c).parent == Some(node)
  {
    MergedChildren(target, source, node);
    MergedParent(target, source, c);
    ShiftAllContains(target, ChildrenOf(source, node), c);
    ShiftAllContains(target, ChildrenOf(source, Unshift(target, node)), c);
    assert forall p :: Shift(target, p) != c;
    assert c in ChildrenOf(target, node) <==> ItemAt(target, c).parent == Some(node);
    assert ItemAt(target, c).parent.Some? ==> IsNode(target, ItemAt(target, c).parent.value);
    hide Merge, WellFormed, Shift, ShiftAll;
  }

  lemma ShiftedIn(target: Document, refs: seq<Ref>, c: Ref)
    requires c.At? && !FromTarget(target, c)
    ensures c in ShiftAll(target, refs) <==> Unshift(target, c) in refs
  {
    ShiftAllContains(target, refs, c);
    assert forall p :: Shift(target, p) == c <==> p == Unshift(target, c);
    hide ShiftAll, Shift;
  }

  /** Who lists an item that came from the source. */
  lemma ListedShifts(target: Document, source: Document, node: Ref, c: Ref)
    requires WellFormed(target) && WellFormed(source) && c.At? && !FromTarget(target, c)
    ensures c in ChildrenOf(Merge(target, source), node)
       <==> !FromTarget(target, node) && Unshift(target, c) in ChildrenOf(source, Unshift(target, node))
  {
    MergedChildren(target, source, node);
    ShiftedIn(target, ChildrenOf(source, Unshift(target, node)), c);
    assert c in ChildrenOf(target, node) ==> Resolves(target, c);
    hide Merge, WellFormed, ShiftAll, Shift;
  }

  /** Whom an item that came from the source names its parent. */
  lemma ParentShifts(target: Document, source: Document, node: Ref, q: Ref)
    requires WellFormed(source) && Resolves(source, q) && ItemAt(source, q).parent.Some?
    ensures Shift(target, ItemAt(source, q).parent.value) == node
       <==> !FromTarget(target, node) && ItemAt(source, q).parent.value == Unshift(target, node)
  {
    assert IsNode(source, ItemAt(source, q).parent.value);
    hide WellFormed;
  }

  lemma SourceLinks(target: Document, source: Document, node: Ref, c: Ref)
    requires WellFormed(target) && WellFormed(source) && Resolves(Merge(target, source), c) && !FromTarget(target, c)
    ensures c in ChildrenOf(Merge(target, source), node) <==> ItemAt(Merge(target, source), c).parent == Some(node)
  {
    MergedItems(target, source);
    MergedParent(target, source, c);
    ListedShifts(target, source, node, c);
    var q, origin := Unshift(target, c), Unshift(target, node);
    assert q in ChildrenOf(source, origin) <==> ItemAt(source, q).parent == Some(origin);
    hide Merge, WellFormed, Shift, Unshift;
    if ItemAt(source, q).parent.Some? { ParentShifts(target, source, node, q); }
  }

  lemma MergeTwoSided(target: Document, source: Document, node: Ref, c: Ref)
    requires WellFormed(target) && WellFormed(source) && Resolves(Merge(target, source), c)
    ensures c in ChildrenOf(Merge(target, source), node) <==> ItemAt(Merge(target, source), c).parent == Some(node)
  {
    hide Merge, WellFormed;
    if FromTarget(target, c) { TargetLinks(target, source, node, c); } else { SourceLinks(target, source, node, c); }
  }

  /** A merge of well-formed documents is well-formed: closed, in place, linked both ways, listed once. */
  lemma MergeParentsClose(target: Document, source: Document, r: Ref)
    requires WellFormed(target) && WellFormed(source)
    requires Resolves(Merge(target, source), r) && ItemAt(Merge(target, source), r).parent.Some?
    ensures IsNode(Merge(target, source), ItemAt(Merge(target, source), r).parent.value)
  {
    MergedItems(target, source);
    hide Merge, TwoSided, ListedOnce, Named;
    if FromTarget(target, r) {
      assert IsNode(target, ItemAt(target, r).parent.value);
    } else {
      assert IsNode(source, ItemAt(source, Unshift(target, r)).parent.value);
    }
  }

  lemma MergeLinksClose(target: Document, source: Document, r: Ref, l: Ref)
    requires WellFormed(target) && WellFormed(source)
    requires Resolves(Merge(target, source), r) && l in ItemAt(Merge(target, source), r).links
    ensures IsNode(Merge(target, source), l)
  {
    MergedItems(target, source);
    hide Merge, TwoSided, ListedOnce, Named;
    if FromTarget(target, r) {
      assert IsNode(target, l);
    } else {
      var links := ItemAt(source, Unshift(target, r)).links;
      ShiftAllContains(target, links, l);
      var q :| q in links && Shift(target, q) == l;
      assert IsNode(source, q);
    }
  }

  lemma MergeNames(target: Document, source: Document)
    requires WellFormed(target) && WellFormed(source)
    ensures Named(Merge(target, source))
  {
    MergedItems(target, source);
    hide Closed, TwoSided, ListedOnce, Merge;
  }

  lemma MergeKeepsWellFormed(target: Document, source: Document)
    requires WellFormed(target) && WellFormed(source)
    ensures WellFormed(Merge(target, source))
  {
    var m := Merge(target, source);
    MergeNames(target, source);
    hide Merge, Named, Resolves, ItemAt, ChildrenOf, IsNode, Distinct;
    assert TwoSided(m) by {
      forall node, c: Ref | Resolves(m, c) ensures c in ChildrenOf(m, node) <==> ItemAt(m, c).parent == Some(node) {
        MergeTwoSided(target, source, node, c);
      }
    }
    assert ListedOnce(m) by {
      forall node: Ref ensures Distinct(ChildrenOf(m, node)) { MergeListsOnce(target, source, node); }
    }
    assert Closed(m) by {
      forall node, c: Ref | c in ChildrenOf(m, node) ensures Resolves(m, c) { MergeCloses(target, source, node, c); }
      forall r: Ref | Resolves(m, r) && ItemAt(m, r).parent.Some? ensures IsNode(m, ItemAt(m, r).parent.value) {
        MergeParentsClose(target, source, r);
      }
      forall r, l: Ref | Resolves(m, r) && l in ItemAt(m, r).links ensures IsNode(m, l) { MergeLinksClose(target, source, r, l); }
    }
  }

  lemma MergeCloses(target: Document, source: Document, node: Ref, c: Ref)
    requires WellFormed(target) && WellFormed(source)
    requires c in ChildrenOf(Merge(target, source), node)
    ensures Resolves(Merge(target, source), c)
  {
    MergedItems(target, source);
    MergedChildren(target, source, node);
    hide Merge;
    if c in ChildrenOf(target, node) {
      assert Resolves(target, c);
    } else {
      var from := if node.Body? || node.Furniture? then node else Unshift(target, node);
      ShiftAllContains(target, ChildrenOf(source, from), c);
      var q :| q in ChildrenOf(source, from) && Shift(target, q) == c;
      assert Resolves(source, q);
    }
  }

  lemma MergeListsOnce(target: Document, source: Document, node: Ref)
    requires WellFormed(target) && WellFormed(source)
    ensures Distinct(ChildrenOf(Merge(target, source), node))
  {
    hide Merge, WellFormed, ChildrenOf, Distinct, ShiftAll;
    MergedChildren(target, source, node);
    var from := if node.Body? || node.Furniture? then node else Unshift(target, node);
    ListSound(target, node);
    ListSound(source, from);
    ListsApart(target, ChildrenOf(target, node), ChildrenOf(source, from));
  }

  lemma ListsApart(target: Document, kept: seq<Ref>, moved: seq<Ref>)
    requires Distinct(kept) && Distinct(moved)
    requires (forall i :: 0 <= i < |kept| ==> Resolves(target, kept[i])) && (forall i :: 0 <= i < |moved| ==> moved[i].At?)
    ensures Distinct(ShiftAll(target, moved)) && Distinct(kept + ShiftAll(target, moved))
  {
    var shifted := ShiftAll(target, moved);
    forall i, j | 0 <= i < j < |moved| ensures shifted[i] != shifted[j] {
      assert moved[i] != moved[j];
    }
    forall i, j | 0 <= i < |kept| && 0 <= j < |shifted| ensures kept[i] != shifted[j] {
      assert Resolves(target, kept[i]) && moved[j].At?;
    }
  }

  // ----- Algebra.

  lemma MergeRightIdentity(d: Document)
    ensures Merge(d, EMPTY) == d
  {
    hide Merge, ShiftItem;
    MergeShifts(d, EMPTY);
    var m := Merge(d, EMPTY);
    forall a: Arena ensures m.arenas[a] == d.arenas[a] {
      assert EMPTY.arenas[a] == [] by { EmptyArena(a); }
      assert m.arenas[a] == m.arenas[a][..|d.arenas[a]|];
    }
  }

  lemma EmptyArena(a: Arena)
    ensures EMPTY.arenas[a] == []
  {
    match a
    case Groups => case Texts => case Pictures => case Tables =>
    case KeyValueItems => case FormItems => case FieldRegions => case FieldItems =>
  }

  lemma NoShift(r: Ref)
    ensures Shift(EMPTY, r) == r
  {
    if r.At? { EmptyArena(r.arena); }
  }

  lemma NoShifts(refs: seq<Ref>)
    ensures ShiftAll(EMPTY, refs) == refs
  {
    hide Shift;
    forall i | 0 <= i < |refs| ensures Shift(EMPTY, refs[i]) == refs[i] { NoShift(refs[i]); }
  }

  lemma NoItemShift(item: Item)
    ensures ShiftItem(EMPTY, item) == item
  {
    hide Shift, ShiftAll;
    if item.selfRef.Some? { NoShift(item.selfRef.value); }
    if item.parent.Some? { NoShift(item.parent.value); }
    NoShifts(item.children);
    NoShifts(item.links);
  }

  lemma MergeLeftIdentity(d: Document)
    requires Named(d) && Closed(d)
    ensures Merge(EMPTY, d) == d
  {
    hide Merge, Named, Closed, Shift, ShiftAll, ShiftItem;
    MergeShifts(EMPTY, d);
    NoShifts(d.body);
    NoShifts(d.furniture);
    var m := Merge(EMPTY, d);
    forall a: Arena ensures m.arenas[a] == d.arenas[a] {
      EmptyArena(a);
      forall i: nat | i < |d.arenas[a]| ensures m.arenas[a][i] == d.arenas[a][i] {
        assert m.arenas[a][|EMPTY.arenas[a]| + i] == ShiftItem(EMPTY, d.arenas[a][i]);
        NoItemShift(d.arenas[a][i]);
      }
    }
  }

  lemma ShiftsCompose(a: Document, b: Document, ab: Document)
    requires forall arena: Arena :: |ab.arenas[arena]| == |a.arenas[arena]| + |b.arenas[arena]|
    ensures forall r: Ref :: Shift(a, Shift(b, r)) == Shift(ab, r)
    ensures forall refs: seq<Ref> :: ShiftAll(a, ShiftAll(b, refs)) == ShiftAll(ab, refs)
    ensures forall refs, more: seq<Ref> :: ShiftAll(a, refs + more) == ShiftAll(a, refs) + ShiftAll(a, more)
  {
    forall refs: seq<Ref> ensures ShiftAll(a, ShiftAll(b, refs)) == ShiftAll(ab, refs) {}
    forall refs, more: seq<Ref> ensures ShiftAll(a, refs + more) == ShiftAll(a, refs) + ShiftAll(a, more) {}
  }

  /** Merging is associative: the order in which collectors' documents are folded in pairs is no matter. */
  lemma MergeAssociative(a: Document, b: Document, c: Document)
    requires WellFormed(b) && WellFormed(c)
    ensures Merge(Merge(a, b), c) == Merge(a, Merge(b, c))
  {
    hide Merge, Named, Closed, TwoSided, ListedOnce, Shift, ShiftAll, ShiftItem, Appends;
    MergeKeepsWellFormed(b, c);
    var ab, bc := Merge(a, b), Merge(b, c);
    MergeAppends(a, b);
    MergeAppends(b, c);
    MergeAppends(ab, c);
    MergeAppends(a, bc);
    var left, right := Merge(ab, c), Merge(a, bc);
    forall arena: Arena ensures |ab.arenas[arena]| == |a.arenas[arena]| + |b.arenas[arena]| {
      AppendsLength(a, b, ab, arena);
    }
    ShiftsCompose(a, b, ab);
    forall arena: Arena ensures left.arenas[arena] == right.arenas[arena] {
      ArenaAssociative(a, b, c, ab, bc, left, right, arena);
    }
    ListAssociative(a, b, ab, a.body, b.body, c.body);
    ListAssociative(a, b, ab, a.furniture, b.furniture, c.furniture);
  }

  lemma AppendsLength(target: Document, source: Document, m: Document, arena: Arena)
    requires Appends(target, source, m, arena)
    ensures |m.arenas[arena]| == |target.arenas[arena]| + |source.arenas[arena]|
  {
  }

  lemma ListAssociative(a: Document, b: Document, ab: Document, x: seq<Ref>, y: seq<Ref>, z: seq<Ref>)
    requires forall refs: seq<Ref> :: ShiftAll(a, ShiftAll(b, refs)) == ShiftAll(ab, refs)
    requires forall refs, more: seq<Ref> :: ShiftAll(a, refs + more) == ShiftAll(a, refs) + ShiftAll(a, more)
    ensures (x + ShiftAll(a, y)) + ShiftAll(ab, z) == x + ShiftAll(a, y + ShiftAll(b, z))
  {
    hide ShiftAll;
    assert ShiftAll(a, y + ShiftAll(b, z)) == ShiftAll(a, y) + ShiftAll(ab, z);
    assert (x + ShiftAll(a, y)) + ShiftAll(ab, z) == x + (ShiftAll(a, y) + ShiftAll(ab, z));
  }

  /** One arena of the two ways to merge three documents. */
  lemma AppendsFirst(target: Document, source: Document, m: Document, arena: Arena, i: nat)
    requires Appends(target, source, m, arena) && i < |target.arenas[arena]|
    ensures i < |m.arenas[arena]| && m.arenas[arena][i] == target.arenas[arena][i]
  {
    assert m.arenas[arena][..|target.arenas[arena]|][i] == m.arenas[arena][i];
  }

  lemma AppendsSecond(target: Document, source: Document, m: Document, arena: Arena, k: nat, i: nat)
    requires Appends(target, source, m, arena) && k < |source.arenas[arena]| && i == |target.arenas[arena]| + k
    ensures i < |m.arenas[arena]| && m.arenas[arena][i] == ShiftItem(target, source.arenas[arena][k])
  {
    hide ShiftItem;
  }

  lemma ItemShiftsCompose(a: Document, b: Document, ab: Document, item: Item)
    requires forall refs: seq<Ref> :: ShiftAll(a, ShiftAll(b, refs)) == ShiftAll(ab, refs)
    requires forall r: Ref :: Shift(a, Shift(b, r)) == Shift(ab, r)
    ensures ShiftItem(a, ShiftItem(b, item)) == ShiftItem(ab, item)
  {
    hide Shift, ShiftAll;
  }

  lemma ArenaAssociative(a: Document, b: Document, c: Document, ab: Document, bc: Document,
                         left: Document, right: Document, arena: Arena)
    requires Appends(a, b, ab, arena) && Appends(b, c, bc, arena) && Appends(ab, c, left, arena) && Appends(a, bc, right, arena)
    requires forall refs: seq<Ref> :: ShiftAll(a, ShiftAll(b, refs)) == ShiftAll(ab, refs)
    requires forall r: Ref :: Shift(a, Shift(b, r)) == Shift(ab, r)
    ensures left.arenas[arena] == right.arenas[arena]
  {
    hide Appends, ShiftItem, Shift, ShiftAll;
    AppendsLength(a, b, ab, arena);
    AppendsLength(b, c, bc, arena);
    AppendsLength(ab, c, left, arena);
    AppendsLength(a, bc, right, arena);
    var na, nb, nc := |a.arenas[arena]|, |b.arenas[arena]|, |c.arenas[arena]|;
    forall i: nat | i < na + nb + nc ensures left.arenas[arena][i] == right.arenas[arena][i] {
      if i < na {
        AppendsFirst(ab, c, left, arena, i);
        AppendsFirst(a, b, ab, arena, i);
        AppendsFirst(a, bc, right, arena, i);
      } else if i < na + nb {
        AppendsFirst(ab, c, left, arena, i);
        AppendsSecond(a, b, ab, arena, i - na, i);
        AppendsFirst(b, c, bc, arena, i - na);
        AppendsSecond(a, bc, right, arena, i - na, i);
      } else {
        var k: nat := i - na - nb;
        AppendsSecond(ab, c, left, arena, k, i);
        AppendsSecond(b, c, bc, arena, k, i - na);
        AppendsSecond(a, bc, right, arena, i - na, i);
        ItemShiftsCompose(a, b, ab, c.arenas[arena][k]);
      }
    }
  }

  // ----- The program.

  method MergeDocuments(source: Document, target: DocumentObject)
    modifies target
    ensures target.Value() == Merge(old(target.Value()), source)
  {
    hide Merge, MapArena, RewriteItems, RenamedAll;
    ghost var before := target.Value();
    var mapping: map<Ref, Ref> := map[];
    for n := 0 to |ARENAS|
      invariant mapping == MapArenas(source, before, n)
      invariant target.Value() == before
    {
      var arena := ARENAS[n];
      mapping := RegisterArena(source.arenas[arena], |target.arenas[arena]|, arena, mapping);
    }
    AppendArenas(source, mapping, target);
    target.body := target.body + RenamedAll(mapping, source.body);
    target.furniture := target.furniture + RenamedAll(mapping, source.furniture);
    MergeIs(before, source, target.Value());
  }

  lemma MergeIs(before: Document, source: Document, after: Document)
    requires forall a: Arena :: after.arenas[a] == before.arenas[a] + RewriteItems(Renumbering(source, before), source.arenas[a])
    requires after.body == before.body + RenamedAll(Renumbering(source, before), source.body)
    requires after.furniture == before.furniture + RenamedAll(Renumbering(source, before), source.furniture)
    ensures after == Merge(before, source)
  {
    hide Renumbering, RewriteItems, RenamedAll;
    assert after.arenas == Merge(before, source).arenas;
  }

  lemma NextArena(n: nat)
    requires n < |ARENAS|
    ensures ARENAS[..n + 1] == ARENAS[..n] + [ARENAS[n]] && ARENAS[n] !in ARENAS[..n]
  {
  }

  method AppendArenas(source: Document, mapping: map<Ref, Ref>, target: DocumentObject)
    modifies target`arenas
    ensures forall a: Arena :: target.arenas[a] == old(target.arenas)[a] + RewriteItems(mapping, source.arenas[a])
  {
    hide RewriteItems;
    for n := 0 to |ARENAS|
      invariant forall a: Arena :: a in ARENAS[..n] ==>
        target.arenas[a] == old(target.arenas)[a] + RewriteItems(mapping, source.arenas[a])
      invariant forall a: Arena :: a !in ARENAS[..n] ==> target.arenas[a] == old(target.arenas)[a]
    {
      var arena := ARENAS[n];
      NextArena(n);
      target.arenas := target.arenas[arena := target.arenas[arena] + RewriteItems(mapping, source.arenas[arena])];
    }
    EveryArena();
    assert ARENAS[..|ARENAS|] == ARENAS;
  }

  method RegisterArena(items: seq<Item>, existing: nat, arena: Arena, mapping: map<Ref, Ref>) returns (extended: map<Ref, Ref>)
    ensures extended == MapArena(items, existing, arena, mapping)
  {
    extended := mapping;
    for i := 0 to |items|
      invariant extended == MapArena(items[..i], existing, arena, mapping)
    {
      var oldRef := if items[i].selfRef.Some? then items[i].selfRef.value else At(arena, i);
      assert items[..i + 1][..i] == items[..i];
      extended := extended[oldRef := At(arena, existing + i)];
    }
    assert items[..|items|] == items;
  }
}
