/** The text block an item of a page belongs to (src/document_repair.cpp). */
module BlockExtents {
  datatype Box = Box(left: real, top: real, right: real, bottom: real)

  function MinReal(a: real, b: real): real { if a <= b then a else b }

  function MaxReal(a: real, b: real): real { if a >= b then a else b }

  /** Two boxes overlap horizontally and stand within the shorter one's height of each other. */
  predicate Near(a: Box, b: Box) {
    && MinReal(a.right, b.right) - MaxReal(a.left, b.left) > 0.0
    && MaxReal(0.0, MaxReal(b.top - a.bottom, a.top - b.bottom)) <= MinReal(a.bottom - a.top, b.bottom - b.top)
  }

  /** Both boxes extend to the right of l and to the left of r. */
  ghost predicate Spanned(a: Box, b: Box, l: real, r: real) {
    l < r && a.left <= l && b.left <= l && r <= a.right && r <= b.right
  }

  /** Neighbours have a stretch of the line in common, and what lies between them, below the one and above the other,
      is no higher than either. */
  lemma NearIff(a: Box, b: Box)
    requires a.top <= a.bottom && b.top <= b.bottom
    ensures Near(a, b) <==>
      && (exists l, r :: Spanned(a, b, l, r))
      && b.top - a.bottom <= a.bottom - a.top && b.top - a.bottom <= b.bottom - b.top
      && a.top - b.bottom <= a.bottom - a.top && a.top - b.bottom <= b.bottom - b.top
  {
    var l, r := MaxReal(a.left, b.left), MinReal(a.right, b.right);
    assert l < r ==> Spanned(a, b, l, r);
  }

  lemma NearSymmetric(a: Box, b: Box)
    ensures Near(a, b) <==> Near(b, a)
  {
  }

  // ----- Reachability through neighbours.

  ghost predicate Linked(items: seq<Box>, path: seq<nat>) {
    && path != []
    && (forall k :: 0 <= k < |path| ==> path[k] < |items|)
    && (forall k :: 0 <= k < |path| - 1 ==> Near(items[path[k]], items[path[k + 1]]))
  }

  ghost predicate Joins(items: seq<Box>, path: seq<nat>, i: nat, j: nat) {
    Linked(items, path) && path[0] == i && path[|path| - 1] == j
  }

  ghost predicate Reaches(items: seq<Box>, i: nat, j: nat) {
    exists path :: Joins(items, path, i, j)
  }

  function Reversed(path: seq<nat>): seq<nat> {
    seq(|path|, k requires 0 <= k < |path| => path[|path| - 1 - k])
  }

  lemma ReachesSelf(items: seq<Box>, i: nat)
    requires i < |items|
    ensures Reaches(items, i, i)
  {
    assert Joins(items, [i], i, i);
  }

  lemma ReachesBack(items: seq<Box>, i: nat, j: nat)
    requires Reaches(items, i, j)
    ensures Reaches(items, j, i)
  {
    var path :| Joins(items, path, i, j);
    var back := Reversed(path);
    forall k | 0 <= k < |back| - 1 ensures Near(items[back[k]], items[back[k + 1]]) {
      var m := |path| - 2 - k;
      assert Near(items[path[m]], items[path[m + 1]]);
      NearSymmetric(items[path[m]], items[path[m + 1]]);
    }
    assert Joins(items, back, j, i);
  }

  lemma ReachesOn(items: seq<Box>, i: nat, j: nat, k: nat)
    requires Reaches(items, i, j) && Reaches(items, j, k)
    ensures Reaches(items, i, k)
  {
    var a :| Joins(items, a, i, j);
    var b :| Joins(items, b, j, k);
    var path := a + b[1..];
    assert forall n :: |a| - 1 <= n < |path| ==> path[n] == b[n - |a| + 1];
    hide Near;
    forall n | 0 <= n < |path| - 1 ensures Near(items[path[n]], items[path[n + 1]]) {
      if n >= |a| - 1 { assert Near(items[b[n - |a| + 1]], items[b[n - |a| + 2]]); }
    }
    assert Joins(items, path, i, k);
  }

  lemma ReachesNext(items: seq<Box>, i: nat, j: nat, k: nat)
    requires Reaches(items, i, j) && j < |items| && k < |items| && Near(items[j], items[k])
    ensures Reaches(items, i, k)
  {
    assert Joins(items, [j, k], j, k);
    ReachesOn(items, i, j, k);
  }

  ghost predicate ClosedUnderNear(items: seq<Box>, s: set<nat>) {
    forall a, b :: a in s && a < |items| && 0 <= b < |items| && Near(items[a], items[b]) ==> b in s
  }

  lemma {:induction false} PathStays(items: seq<Box>, s: set<nat>, path: seq<nat>)
    requires ClosedUnderNear(items, s) && Linked(items, path) && path[0] in s
    ensures path[|path| - 1] in s
  {
    hide Near;
    if |path| > 1 {
      assert Near(items[path[0]], items[path[1]]);
      forall k | 0 <= k < |path[1..]| - 1 ensures Near(items[path[1..][k]], items[path[1..][k + 1]]) {
        assert Near(items[path[k + 1]], items[path[k + 2]]);
      }
      PathStays(items, s, path[1..]);
    }
  }

  lemma ReachStays(items: seq<Box>, s: set<nat>, i: nat, j: nat)
    requires ClosedUnderNear(items, s) && i in s && Reaches(items, i, j)
    ensures j in s
  {
    var path :| Joins(items, path, i, j);
    PathStays(items, s, path);
  }

  // ----- Extents.

  /** The least top and the greatest bottom over the items reachable from item i. */
  ghost predicate IsExtent(items: seq<Box>, i: nat, extent: (real, real)) {
    && (forall j: nat :: j < |items| && Reaches(items, i, j) ==> extent.0 <= items[j].top && items[j].bottom <= extent.1)
    && (exists j: nat :: j < |items| && Reaches(items, i, j) && items[j].top == extent.0)
    && (exists j: nat :: j < |items| && Reaches(items, i, j) && items[j].bottom == extent.1)
  }

  /** The same over an explicit set of members. */
  ghost predicate Spans(items: seq<Box>, members: set<nat>, extent: (real, real)) {
    && (forall j :: j in members && j < |items| ==> extent.0 <= items[j].top && items[j].bottom <= extent.1)
    && (exists j :: j in members && j < |items| && items[j].top == extent.0)
    && (exists j :: j in members && j < |items| && items[j].bottom == extent.1)
  }

  lemma SpansGrow(items: seq<Box>, members: set<nat>, extent: (real, real), x: nat)
    requires Spans(items, members, extent) && x < |items|
    ensures Spans(items, members + {x}, (MinReal(extent.0, items[x].top), MaxReal(extent.1, items[x].bottom)))
  {
    var j :| j in members && j < |items| && items[j].top == extent.0;
    var k :| k in members && k < |items| && items[k].bottom == extent.1;
    assert j in members + {x} && k in members + {x} && x in members + {x};
  }

  /** A component flooded from one seed is the reach of each of its members. */
  lemma ComponentExtent(items: seq<Box>, members: set<nat>, seed: nat, extent: (real, real), m: nat)
    requires ClosedUnderNear(items, members) && seed in members && m in members
    requires forall j :: j in members ==> j < |items| && Reaches(items, seed, j)
    requires Spans(items, members, extent)
    ensures IsExtent(items, m, extent)
  {
    forall j: nat ensures Reaches(items, m, j) <==> j in members {
      if Reaches(items, m, j) {
        ReachStays(items, members, m, j);
      }
      if j in members {
        ReachesBack(items, seed, m);
        ReachesOn(items, m, seed, j);
      }
    }
    hide Reaches, ClosedUnderNear;
  }

  // ----- The flood.

  /** Inside a flood: the members so far, of which the pending ones may have unvisited neighbours. */
  ghost predicate Flooding(items: seq<Box>, seed: nat, before: set<nat>, members: set<nat>, pending: set<nat>, extent: (real, real)) {
    && seed in members && pending <= members
    && (forall j :: j in members ==> j < |items| && j !in before && Reaches(items, seed, j))
    && (forall a, b :: a in members - pending && 0 <= b < |items| && Near(items[a], items[b]) ==> b in members || b in before)
    && Spans(items, members, extent)
  }

  lemma FloodDone(items: seq<Box>, seed: nat, before: set<nat>, members: set<nat>, extent: (real, real))
    requires Flooding(items, seed, before, members, {}, extent) && ClosedUnderNear(items, before)
    requires forall i :: i in before ==> i < |items|
    ensures ClosedUnderNear(items, members) && ClosedUnderNear(items, before + members)
    ensures forall m :: m in members ==> IsExtent(items, m, extent)
  {
    assert members - {} == members;
    forall a, b | a in members && a < |items| && 0 <= b < |items| && Near(items[a], items[b]) ensures b in members {
      NearSymmetric(items[a], items[b]);
      assert b in before ==> a in before;
    }
    hide Near;
    forall m | m in members ensures IsExtent(items, m, extent) {
      ComponentExtent(items, members, seed, extent, m);
    }
  }

  lemma FloodGrows(items: seq<Box>, seed: nat, before: set<nat>, members: set<nat>, pending: set<nat>, extent: (real, real), c: nat, x: nat)
    requires Flooding(items, seed, before, members, pending, extent)
    requires c in members && x < |items| && x !in before && Near(items[c], items[x])
    ensures Flooding(items, seed, before, members + {x}, pending + {x}, (MinReal(extent.0, items[x].top), MaxReal(extent.1, items[x].bottom)))
  {
    ReachesNext(items, seed, c, x);
    SpansGrow(items, members, extent, x);
    hide Near, Reaches, Spans;
  }

  function Indices(s: seq<nat>): set<nat> { set x | x in s }

  function Unmarked(flags: seq<bool>): set<nat> { set k: nat | k < |flags| && !flags[k] }

  function Marked(flags: seq<bool>): set<nat> { set k: nat | k < |flags| && flags[k] }

  /** While item c's neighbours are walked, the first n of them done. */
  ghost predicate Passing(items: seq<Box>, seed: nat, before: set<nat>, c: nat, n: nat, visited: seq<bool>, members: seq<nat>,
      pending: seq<nat>, extent: (real, real))
  {
    && |visited| == |items| && Marked(visited) == before + Indices(members) && c in Indices(members) && c < |items|
    && Flooding(items, seed, before, Indices(members), Indices(pending) + {c}, extent)
    && (forall b :: 0 <= b < n && b < |items| && Near(items[c], items[b]) ==> b in Marked(visited))
  }

  lemma PassOver(items: seq<Box>, seed: nat, before: set<nat>, c: nat, n: nat, visited: seq<bool>, members: seq<nat>,
      pending: seq<nat>, extent: (real, real))
    requires Passing(items, seed, before, c, n, visited, members, pending, extent) && n < |items|
    requires visited[n] || !Near(items[c], items[n])
    ensures Passing(items, seed, before, c, n + 1, visited, members, pending, extent)
  {
    MarkedAt(visited, n);
    hide Near, Flooding, Marked, Indices;
  }

  lemma PassAdd(items: seq<Box>, seed: nat, before: set<nat>, c: nat, n: nat, visited: seq<bool>, members: seq<nat>,
      pending: seq<nat>, extent: (real, real))
    requires Passing(items, seed, before, c, n, visited, members, pending, extent) && n < |items|
    requires !visited[n] && Near(items[c], items[n])
    ensures Passing(items, seed, before, c, n + 1, visited[n := true], members + [n], pending + [n],
                    (MinReal(extent.0, items[n].top), MaxReal(extent.1, items[n].bottom)))
    ensures Marked(visited) <= Marked(visited[n := true]) && visited[n := true] != visited
  {
    MarkedAt(visited, n);
    FloodGrows(items, seed, before, Indices(members), Indices(pending) + {c}, extent, c, n);
    MarkGrows(visited, n);
    IndicesGrow(members, n);
    IndicesGrow(pending, n);
    hide Flooding, Near, MinReal, MaxReal, Indices, Marked;
    assert Indices(pending) + {c} + {n} == Indices(pending + [n]) + {c};
  }

  lemma PassEnds(items: seq<Box>, seed: nat, before: set<nat>, c: nat, visited: seq<bool>, members: seq<nat>,
      pending: seq<nat>, extent: (real, real))
    requires Passing(items, seed, before, c, |items|, visited, members, pending, extent)
    ensures Flooding(items, seed, before, Indices(members), Indices(pending), extent)
  {
    hide Flooding, Near, Indices, Marked;
    FloodPop(items, seed, before, Indices(members), Indices(pending), extent, c);
  }

  /** One pending item's neighbours: each unvisited one is marked, remembered and measured. */
  method VisitNeighbours(items: seq<Box>, ghost seed: nat, ghost before: set<nat>, c: nat, visited: seq<bool>, members: seq<nat>,
      pending: seq<nat>, extent: (real, real)) returns (visited': seq<bool>, members': seq<nat>, pending': seq<nat>, extent': (real, real))
    requires Passing(items, seed, before, c, 0, visited, members, pending, extent)
    ensures Passing(items, seed, before, c, |items|, visited', members', pending', extent')
    ensures Marked(visited) <= Marked(visited') && (visited' != visited || |pending'| == |pending|)
    ensures members <= members'
  {
    visited', members', pending', extent' := visited, members, pending, extent;
    hide Flooding, Indices, Marked;
    for index := 0 to |items|
      invariant Passing(items, seed, before, c, index, visited', members', pending', extent')
      invariant Marked(visited) <= Marked(visited') && (visited' != visited || |pending'| == |pending|)
      invariant members <= members'
    {
      var current, other := items[c], items[index];
      if visited'[index] || MinReal(current.right, other.right) - MaxReal(current.left, other.left) <= 0.0 {
        PassOver(items, seed, before, c, index, visited', members', pending', extent');
        continue;
      }
      var gap := MaxReal(0.0, MaxReal(other.top - current.bottom, current.top - other.bottom));
      if gap > MinReal(current.bottom - current.top, other.bottom - other.top) {
        PassOver(items, seed, before, c, index, visited', members', pending', extent');
        continue;
      }
      PassAdd(items, seed, before, c, index, visited', members', pending', extent');
      hide Passing;
      assert visited'[index := true] != visited by { StillChanged(visited, visited', index); }
      visited' := visited'[index := true];
      pending' := pending' + [index];
      members' := members' + [index];
      extent' := (MinReal(extent'.0, other.top), MaxReal(extent'.1, other.bottom));
    }
  }

  lemma StillChanged(a: seq<bool>, b: seq<bool>, x: nat)
    requires |a| == |b| && x < |b| && !b[x] && Marked(a) <= Marked(b)
    ensures b[x := true] != a
  {
    MarkedAt(a, x);
    MarkedAt(b, x);
    assert b[x := true][x] && !a[x];
  }

  lemma FloodPop(items: seq<Box>, seed: nat, before: set<nat>, members: set<nat>, pending: set<nat>, extent: (real, real), c: nat)
    requires Flooding(items, seed, before, members, pending + {c}, extent)
    requires c < |items| && forall b :: 0 <= b < |items| && Near(items[c], items[b]) ==> b in members || b in before
    ensures Flooding(items, seed, before, members, pending, extent)
  {
    hide Near, Reaches, Spans;
    assert forall a :: a in members - pending ==> a == c || a in members - (pending + {c});
  }

  lemma MarkedAt(flags: seq<bool>, x: nat)
    requires x < |flags|
    ensures x in Marked(flags) <==> flags[x]
  {
  }

  lemma MarkGrows(flags: seq<bool>, x: nat)
    requires x < |flags| && !flags[x]
    ensures Marked(flags[x := true]) == Marked(flags) + {x} && flags[x := true] != flags
  {
    assert flags[x := true][x] != flags[x];
  }

  lemma IndicesGrow(s: seq<nat>, x: nat)
    ensures Indices(s + [x]) == Indices(s) + {x}
  {
  }

  lemma StartFlood(items: seq<Box>, before: set<nat>, seed: nat)
    requires seed < |items| && seed !in before
    ensures Flooding(items, seed, before, {seed}, {seed}, (items[seed].top, items[seed].bottom))
  {
    ReachesSelf(items, seed);
    assert {seed} - {seed} == {};
    assert seed in {seed};
  }

  /** Floods one component from its seed. */
  method Flood(items: seq<Box>, seed: nat, visited: seq<bool>) returns (visited': seq<bool>, members: seq<nat>, extent: (real, real))
    requires |visited| == |items| && seed < |items| && !visited[seed] && ClosedUnderNear(items, Marked(visited))
    ensures |visited'| == |items| && Marked(visited') == Marked(visited) + Indices(members) && seed in members
    ensures ClosedUnderNear(items, Marked(visited'))
    ensures forall m :: m in members ==> m < |items| && IsExtent(items, m, extent)
  {
    ghost var before := Marked(visited);
    hide ClosedUnderNear, IsExtent;
    members := [seed];
    var pending: seq<nat> := [seed];
    StartFlood(items, before, seed);
    MarkGrows(visited, seed);
    visited', extent := visited[seed := true], (items[seed].top, items[seed].bottom);
    assert Indices([seed]) == {seed};
    while pending != []
      invariant |visited'| == |items| && Marked(visited') == before + Indices(members) && seed in members
      invariant Flooding(items, seed, before, Indices(members), Indices(pending), extent)
      decreases Unmarked(visited'), |pending|
    {
      var c := pending[|pending| - 1];
      var rest := pending[..|pending| - 1];
      assert pending == rest + [c];
      IndicesGrow(rest, c);
      assert c in Indices(members) by { assert c in Indices(pending); }
      ghost var was := visited';
      visited', members, pending, extent := VisitNeighbours(items, seed, before, c, visited', members, rest, extent);
      PassEnds(items, seed, before, c, visited', members, pending, extent);
      hide Flooding;
      MarkedSame(was, visited');
    }
    assert Indices(pending) == {};
    assert forall m :: m in members ==> m in Indices(members);
    FloodDone(items, seed, before, Indices(members), extent);
  }

  lemma MarkedSame(a: seq<bool>, b: seq<bool>)
    requires |a| == |b| && Marked(a) <= Marked(b)
    ensures a == b || Unmarked(b) < Unmarked(a)
  {
    forall k: nat | k < |a| && a[k] ensures b[k] {
      assert k in Marked(a) && k in Marked(b);
    }
    if a != b {
      var k :| 0 <= k < |a| && a[k] != b[k];
      assert k in Unmarked(a) && k !in Unmarked(b);
    }
  }

  /** Every item's extent is that of all the items reachable from it, though each component is flooded once. */
  method Extents(items: seq<Box>) returns (extents: seq<(real, real)>)
    ensures |extents| == |items| && forall i: nat :: i < |items| ==> IsExtent(items, i, extents[i])
  {
    hide IsExtent;
    extents := seq(|items|, _ => (0.0, 0.0));
    var visited := seq(|items|, _ => false);
    assert Marked(visited) == {};
    for seed := 0 to |items|
      invariant |visited| == |items| && |extents| == |items| && ClosedUnderNear(items, Marked(visited))
      invariant forall i :: 0 <= i < seed ==> visited[i]
      invariant forall i: nat :: i < |items| && visited[i] ==> IsExtent(items, i, extents[i])
    {
      if visited[seed] { continue; }
      ghost var before := visited;
      var members, extent;
      visited, members, extent := Flood(items, seed, visited);
      hide ClosedUnderNear;
      forall i: nat | i < |items| ensures visited[i] <==> before[i] || i in members {
        assert i in Marked(visited) <==> i in Marked(before) || i in Indices(members);
      }
      ghost var known := extents;
      for n := 0 to |members|
        invariant |extents| == |items|
        invariant forall i: nat :: i < |items| ==> extents[i] == if i in members[..n] then extent else known[i]
      {
        assert members[n] in members;
        assert members[..n + 1] == members[..n] + [members[n]];
        extents := extents[members[n] := extent];
      }
      assert members[..|members|] == members;
    }
  }
}
