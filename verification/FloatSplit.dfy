/** Where a float splits a group and what the split parts (src/document_reading_order.cpp), by the boxes alone. */
module FloatSplit {
  import opened Bytes
  import opened Documents
  import opened GroupSplit

  // ----- The float meets the group's hull.

  ghost predicate StartsBefore(geo: Geometry, children: seq<Ref>, a: nat, x: real) {
    Placed(geo, children, a) && BoxOf(geo, children, a).left < x
  }

  ghost predicate EndsBehind(geo: Geometry, children: seq<Ref>, b: nat, x: real) {
    Placed(geo, children, b) && x < BoxOf(geo, children, b).right
  }

  /** From the leftmost edge of a placed child to the rightmost, some stretch lies beside the float. */
  ghost predicate Beside(geo: Geometry, children: seq<Ref>, floating: Placement) {
    && floating.left < floating.right
    && (exists a: nat :: StartsBefore(geo, children, a, floating.right))
    && (exists b: nat :: EndsBehind(geo, children, b, floating.left))
    && exists a: nat, b: nat :: Crosses(geo, children, a, b)
  }

  ghost predicate Crosses(geo: Geometry, children: seq<Ref>, a: nat, b: nat) {
    Placed(geo, children, a) && EndsBehind(geo, children, b, BoxOf(geo, children, a).left)
  }

  lemma {:induction false} Edges(geo: Geometry, children: seq<Ref>, n: nat) returns (a: Option<nat>, b: Option<nat>)
    requires n <= |children|
    ensures Leftmost(geo, children, n, a) && Rightmost(geo, children, n, b)
  {
    if n == 0 {
      a, b := None, None;
    } else {
      a, b := Edges(geo, children, n - 1);
      if Placed(geo, children, n - 1) {
        var box := BoxOf(geo, children, n - 1);
        if a.None? || box.left < BoxOf(geo, children, a.value).left { a := Some(n - 1); }
        if b.None? || box.right > BoxOf(geo, children, b.value).right { b := Some(n - 1); }
      }
    }
  }

  lemma HullMeetsIff(geo: Geometry, children: seq<Ref>, floating: Placement)
    ensures HullMeets(geo, children, floating) <==> Beside(geo, children, floating)
  {
    hide Leftmost, Rightmost, Meets, Beside;
    var a, b := Edges(geo, children, |children|);
    EdgesTogether(geo, children, a, b);
    if a.Some? && b.Some? {
      HullOnce(geo, children, floating, a.value, b.value);
      MeetsIff(geo, children, floating, a.value, b.value);
    } else {
      NothingPlaced(geo, children, floating, a);
    }
  }

  lemma EdgesTogether(geo: Geometry, children: seq<Ref>, a: Option<nat>, b: Option<nat>)
    requires Leftmost(geo, children, |children|, a) && Rightmost(geo, children, |children|, b)
    ensures a.Some? <==> b.Some?
  {
  }

  lemma NothingPlaced(geo: Geometry, children: seq<Ref>, floating: Placement, a: Option<nat>)
    requires Leftmost(geo, children, |children|, a) && a.None?
    ensures !HullMeets(geo, children, floating) && !Beside(geo, children, floating)
  {
    forall i: nat ensures !Placed(geo, children, i) {}
    hide Rightmost, Meets;
  }

  lemma MeetsIff(geo: Geometry, children: seq<Ref>, floating: Placement, a: nat, b: nat)
    requires Leftmost(geo, children, |children|, Some(a)) && Rightmost(geo, children, |children|, Some(b))
    ensures Meets(BoxOf(geo, children, a).left, BoxOf(geo, children, b).right, floating) <==> Beside(geo, children, floating)
  {
    var left, right := BoxOf(geo, children, a).left, BoxOf(geo, children, b).right;
    assert Meets(left, right, floating) <==> floating.left < floating.right && left < floating.right && floating.left < right && left < right;
    assert left < floating.right <==> StartsBefore(geo, children, a, floating.right);
    assert floating.left < right <==> EndsBehind(geo, children, b, floating.left);
    assert left < right <==> Crosses(geo, children, a, b);
  }

  // ----- Where the group is split.

  /** A placed child that starts above the float. */
  ghost predicate Above(geo: Geometry, children: seq<Ref>, i: nat, floating: Placement) {
    Placed(geo, children, i) && BoxOf(geo, children, i).top < floating.top
  }

  /** A float splits a group at child s exactly when all the children are texts, the placed ones on its page; s is
      placed and does not start above it; every placed child before s does, and there is one; and it stands beside
      the group. */
  lemma SplitsAtIff(geo: Geometry, children: seq<Ref>, floating: Placement, s: nat)
    ensures SplitsAt(geo, children, floating, s) <==>
      && (forall i :: 0 <= i < |children| ==> IsText(children[i]))
      && (forall i: nat :: Placed(geo, children, i) ==> BoxOf(geo, children, i).page == floating.page)
      && Placed(geo, children, s) && !Above(geo, children, s, floating)
      && (forall i: nat :: i < s && Placed(geo, children, i) ==> Above(geo, children, i, floating))
      && (exists i: nat :: i < s && Above(geo, children, i, floating))
      && Beside(geo, children, floating)
  {
    hide HullMeets, Beside;
    HullMeetsIff(geo, children, floating);
    forall i: nat ensures Above(geo, children, i, floating) <==> Placed(geo, children, i) && BoxOf(geo, children, i).top < floating.top {}
    if SplitsAt(geo, children, floating, s) {
      var i: nat :| i < s && Placed(geo, children, i);
      assert Above(geo, children, i, floating);
    }
  }

  /** What a split parts: the old group keeps the children before s, of which the placed ones start above the float
      and one is there; the new group, right behind the old one in the body, starts with a placed child that does
      not; and the two together hold the children in their order. */
  lemma SplitSeparates(geo: Geometry, d: Document, at: nat, g: nat, floating: Placement, s: nat)
    requires CanSplit(d, at, g, s) && SplitsAt(geo, d.arenas[Groups][g].children, floating, s)
    ensures
      var e, fresh_ := Split(d, at, g, s), At(Groups, |d.arenas[Groups]|);
      var head, tail := ChildrenOf(e, At(Groups, g)), ChildrenOf(e, fresh_);
      && head + tail == ChildrenOf(d, At(Groups, g))
      && (forall i: nat :: Placed(geo, head, i) ==> Above(geo, head, i, floating)) && (exists i: nat :: Above(geo, head, i, floating))
      && Placed(geo, tail, 0) && !Above(geo, tail, 0, floating)
      && |e.body| == |d.body| + 1 && e.body[..at + 1] == d.body[..at + 1] && e.body[at + 1] == fresh_ && e.body[at + 2..] == d.body[at + 1..]
  {
    hide Split, Beside, HullMeets, WellFormed;
    SplitsAtIff(geo, d.arenas[Groups][g].children, floating, s);
    hide SplitsAt;
    var children := d.arenas[Groups][g].children;
    SplitChildren(d, at, g, s, Body);
    SplitChildren(d, at, g, s, At(Groups, g));
    SplitChildren(d, at, g, s, At(Groups, |d.arenas[Groups]|));
    assert ChildrenOf(d, At(Groups, g)) == children && children[..s] + children[s..] == children;
    Parted(geo, children, floating, s);
  }

  lemma Parted(geo: Geometry, children: seq<Ref>, floating: Placement, s: nat)
    requires 0 < s < |children| && Placed(geo, children, s) && !Above(geo, children, s, floating)
    requires forall i: nat :: i < s && Placed(geo, children, i) ==> Above(geo, children, i, floating)
    requires exists i: nat :: i < s && Above(geo, children, i, floating)
    ensures forall i: nat :: Placed(geo, children[..s], i) ==> Above(geo, children[..s], i, floating)
    ensures exists i: nat :: Above(geo, children[..s], i, floating)
    ensures Placed(geo, children[s..], 0) && !Above(geo, children[s..], 0, floating)
  {
    var i: nat :| i < s && Above(geo, children, i, floating);
    assert Above(geo, children[..s], i, floating);
    forall k: nat | Placed(geo, children[..s], k) ensures Above(geo, children[..s], k, floating) {
      assert Placed(geo, children, k);
    }
  }
}
