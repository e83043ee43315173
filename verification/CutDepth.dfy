/** When the recursive cut comes to an end (src/reading_order.cpp).

    The program's recursion has no bound of its own. On boxes of any shape it ends exactly when every
    cut it chooses leaves somebody on the near side. */
module CutDepth {
  import opened Bytes
  import opened Sorting
  import opened XyCut

  /** What the recursion returns, when it takes no more than so many nested calls. */
  function OrderWithin(boxes: seq<OrderBox>, members: seq<nat>, policy: Policy, depth: nat): Option<seq<nat>>
    decreases depth
  {
    var cut := CutOf(boxes, members, policy);
    if depth == 0 then None
    else if |members| <= 1 then Some(members)
    else if cut.None? then Some(Sorted(members, KeyOf(boxes, true)))
    else
      var near := OrderWithin(boxes, Near(boxes, members, cut.value), policy, depth - 1);
      var far := OrderWithin(boxes, Far(boxes, members, cut.value), policy, depth - 1);
      if near.Some? && far.Some? then Some(near.value + far.value) else None
  }

  // ----- The far side is never empty.

  lemma {:induction false} GapEndsAtStart(spans: seq<Key>, n: nat)
    requires n <= |spans| && spans != []
    ensures BandEnd(spans, n) >= spans[0].1
    ensures BestGap(spans, n).Some? ==>
      BestGap(spans, n).value.at >= spans[0].1 && exists s :: s in spans && s.0 > BestGap(spans, n).value.at
  {
    if n > 0 {
      GapEndsAtStart(spans, n - 1);
      assert spans[n - 1] in spans;
    }
  }

  /** A gap found, whatever the shapes of the boxes: somebody starts beyond it and somebody ends by it. */
  lemma FoundGap(boxes: seq<OrderBox>, members: seq<nat>, horizontal: bool) returns (ends: nat, starts: nat)
    requires GapOf(boxes, members, horizontal).Some?
    ensures ends in members && Span(boxes, horizontal, ends).1 <= GapOf(boxes, members, horizontal).value.at
    ensures starts in members && Span(boxes, horizontal, starts).0 > GapOf(boxes, members, horizontal).value.at
  {
    var id := (s: Key) => s;
    var raw := Spans(boxes, members, horizontal);
    var spans := Sorted(raw, id);
    SortedPermutes(raw, id);
    hide Sorted, BestGap, BandEnd, Span;
    GapEndsAtStart(spans, |spans|);
    var s :| s in spans && s.0 > BestGap(spans, |spans|).value.at;
    MembersAgree(spans, raw, s);
    MembersAgree(spans, raw, spans[0]);
    var i :| 0 <= i < |raw| && raw[i] == spans[0];
    var j :| 0 <= j < |raw| && raw[j] == s;
    ends, starts := members[i], members[j];
  }

  lemma KeyIsStart(boxes: seq<OrderBox>, horizontal: bool, i: nat)
    ensures KeyOf(boxes, horizontal)(i).0 == Span(boxes, horizontal, i).0
  {
  }

  /** A chosen cut shares the members out and always leaves somebody on the far side. */
  lemma CutShares(boxes: seq<OrderBox>, members: seq<nat>, policy: Policy)
    requires CutOf(boxes, members, policy).Some?
    ensures
      var cut := CutOf(boxes, members, policy).value;
      && Far(boxes, members, cut) != []
      && |Near(boxes, members, cut)| + |Far(boxes, members, cut)| == |members|
  {
    var cut := CutOf(boxes, members, policy).value;
    var key := KeyOf(boxes, cut.horizontal);
    hide GapOf, Side, KeyOf, Span;
    var ends, starts := FoundGap(boxes, members, cut.horizontal);
    KeyIsStart(boxes, cut.horizontal, starts);
    SideIs(members, key, cut.gap.at, false);
    SidesPermute(members, key, cut.gap.at);
    assert starts in Far(boxes, members, cut);
  }

  lemma {:induction false} AllFar(members: seq<nat>, key: nat -> Key, at: real)
    requires forall i :: i in members ==> key(i).0 > at
    ensures Side(members, key, at, true) == [] && Side(members, key, at, false) == members
  {
    if members != [] {
      assert members[0] in members;
      AllFar(members[1..], key, at);
    }
  }

  /** The cut chosen leaves the near side empty exactly when every member starts beyond the gap. Then
      it hands the same members on, and one of them is turned inside out along the axis of the cut. */
  lemma NoProgressIff(boxes: seq<OrderBox>, members: seq<nat>, policy: Policy)
    requires CutOf(boxes, members, policy).Some?
    ensures
      var cut := CutOf(boxes, members, policy).value;
      && (Near(boxes, members, cut) == [] <==> forall i :: i in members ==> Span(boxes, cut.horizontal, i).0 > cut.gap.at)
      && (Near(boxes, members, cut) == [] ==>
            && Far(boxes, members, cut) == members
            && exists i :: i in members && Span(boxes, cut.horizontal, i).1 < Span(boxes, cut.horizontal, i).0)
  {
    var cut := CutOf(boxes, members, policy).value;
    var key := KeyOf(boxes, cut.horizontal);
    hide GapOf, Side, KeyOf, Span;
    forall i: nat ensures key(i).0 == Span(boxes, cut.horizontal, i).0 { KeyIsStart(boxes, cut.horizontal, i); }
    SideIs(members, key, cut.gap.at, true);
    if forall i :: i in members ==> Span(boxes, cut.horizontal, i).0 > cut.gap.at {
      AllFar(members, key, cut.gap.at);
      var ends, starts := FoundGap(boxes, members, cut.horizontal);
      assert ends in members && Span(boxes, cut.horizontal, ends).1 < Span(boxes, cut.horizontal, ends).0;
    } else {
      var i :| i in members && Span(boxes, cut.horizontal, i).0 <= cut.gap.at;
      assert i in Near(boxes, members, cut);
    }
  }

  // ----- When it ends.

  /** Every cut on the way down leaves somebody on the near side. */
  ghost predicate Progresses(boxes: seq<OrderBox>, members: seq<nat>, policy: Policy)
    decreases |members|
  {
    var cut := CutOf(boxes, members, policy);
    |members| <= 1 || cut.None? ||
    (Near(boxes, members, cut.value) != [] &&
     (CutShares(boxes, members, policy);
      Progresses(boxes, Near(boxes, members, cut.value), policy) && Progresses(boxes, Far(boxes, members, cut.value), policy)))
  }

  lemma {:induction false} DeeperIsSame(boxes: seq<OrderBox>, members: seq<nat>, policy: Policy, less: nat, more: nat)
    requires less <= more && OrderWithin(boxes, members, policy, less).Some?
    ensures OrderWithin(boxes, members, policy, more) == OrderWithin(boxes, members, policy, less)
    decreases less
  {
    hide CutOf, Near, Far, Sorted;
    var cut := CutOf(boxes, members, policy);
    if |members| > 1 && cut.Some? {
      DeeperIsSame(boxes, Near(boxes, members, cut.value), policy, less - 1, more - 1);
      DeeperIsSame(boxes, Far(boxes, members, cut.value), policy, less - 1, more - 1);
    }
  }

  lemma {:induction false} EndsThenProgresses(boxes: seq<OrderBox>, members: seq<nat>, policy: Policy, depth: nat)
    requires OrderWithin(boxes, members, policy, depth).Some?
    ensures Progresses(boxes, members, policy)
    decreases depth
  {
    hide CutOf, Near, Far, Sorted;
    var cut := CutOf(boxes, members, policy);
    if |members| > 1 && cut.Some? {
      NoProgressIff(boxes, members, policy);
      EndsThenProgresses(boxes, Near(boxes, members, cut.value), policy, depth - 1);
      EndsThenProgresses(boxes, Far(boxes, members, cut.value), policy, depth - 1);
    }
  }

  lemma {:induction false} ProgressesThenEnds(boxes: seq<OrderBox>, members: seq<nat>, policy: Policy)
    requires Progresses(boxes, members, policy)
    ensures OrderWithin(boxes, members, policy, |members| + 1).Some?
    decreases |members|
  {
    hide CutOf, Near, Far, Sorted;
    var cut := CutOf(boxes, members, policy);
    if |members| > 1 && cut.Some? {
      CutShares(boxes, members, policy);
      var near, far := Near(boxes, members, cut.value), Far(boxes, members, cut.value);
      ProgressesThenEnds(boxes, near, policy);
      ProgressesThenEnds(boxes, far, policy);
      DeeperIsSame(boxes, near, policy, |near| + 1, |members|);
      DeeperIsSame(boxes, far, policy, |far| + 1, |members|);
    }
  }

  /** The recursion ends, in no more nested calls than there are members and one, exactly when every
      cut on the way down leaves somebody on the near side. */
  lemma CutEndsIff(boxes: seq<OrderBox>, members: seq<nat>, policy: Policy)
    ensures (exists depth: nat :: OrderWithin(boxes, members, policy, depth).Some?) <==> Progresses(boxes, members, policy)
    ensures Progresses(boxes, members, policy) ==> OrderWithin(boxes, members, policy, |members| + 1).Some?
  {
    if depth: nat :| OrderWithin(boxes, members, policy, depth).Some? {
      EndsThenProgresses(boxes, members, policy, depth);
    }
    if Progresses(boxes, members, policy) {
      ProgressesThenEnds(boxes, members, policy);
    }
  }

  /** Boxes that are not turned inside out: the recursion ends with the order specified for them. */
  lemma {:induction false} UprightEnds(boxes: seq<OrderBox>, members: seq<nat>, policy: Policy)
    requires Upright(boxes, members)
    ensures OrderWithin(boxes, members, policy, |members| + 1) == Some(Order(boxes, members, policy))
    decreases |members|
  {
    hide CutOf, Near, Far, Sorted;
    var cut := CutOf(boxes, members, policy);
    if |members| > 1 && cut.Some? {
      CutSeparates(boxes, members, policy);
      var near, far := Near(boxes, members, cut.value), Far(boxes, members, cut.value);
      UprightEnds(boxes, near, policy);
      UprightEnds(boxes, far, policy);
      DeeperIsSame(boxes, near, policy, |near| + 1, |members|);
      DeeperIsSame(boxes, far, policy, |far| + 1, |members|);
    }
  }

  // ----- Two inputs.

  lemma SortedTwins(x: Key, key: Key -> Key)
    ensures Sorted([x, x], key) == [x, x]
  {
    assert [x][1..] == [] && [x, x][1..] == [x];
    assert Sorted([x][1..], key) == [];
    assert Sorted([x], key) == [x];
    assert !Less(key(x), key(x));
  }

  /** Two equal boxes whose bottom is above their top: the first cut hands both on, for ever. */
  lemma InvertedPairNeverEnds(policy: Policy, depth: nat)
    ensures
      var boxes := [OrderBox(0.0, 2.0, 1.0, 1.0), OrderBox(0.0, 2.0, 1.0, 1.0)];
      OrderWithin(boxes, [0, 1], policy, depth).None?
  {
    var boxes := [OrderBox(0.0, 2.0, 1.0, 1.0), OrderBox(0.0, 2.0, 1.0, 1.0)];
    var members: seq<nat> := [0, 1];
    var id := (s: Key) => s;
    var down, across := Spans(boxes, members, true), Spans(boxes, members, false);
    assert down == [(2.0, 1.0), (2.0, 1.0)] && across == [(0.0, 1.0), (0.0, 1.0)];
    SortedTwins((2.0, 1.0), id);
    SortedTwins((0.0, 1.0), id);
    hide Sorted, Spans;
    assert BandEnd(down, 0) == 1.0 && BandEnd(down, 1) == 1.0;
    assert BestGap(down, 0) == None && BestGap(down, 1) == Some(Gap(1.0, 1.0)) && BestGap(down, 2) == Some(Gap(1.0, 1.0));
    assert BandEnd(across, 0) == 1.0 && BandEnd(across, 1) == 1.0;
    assert BestGap(across, 0) == None && BestGap(across, 1) == None && BestGap(across, 2) == None;
    var cut := CutOf(boxes, members, policy);
    assert cut == Some(Cut(true, Gap(1.0, 1.0)));
    hide CutOf, BestGap, BandEnd, Near, Far;
    NoProgressIff(boxes, members, policy);
    assert Near(boxes, members, cut.value) == [];
    CutEndsIff(boxes, members, policy);
  }
}
