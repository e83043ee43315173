/** Which gap the recursive cut takes, and what that means for the order (src/reading_order.cpp).

    A column gutter that passes its tests and is wide enough against every gap between rows is read across only
    at its end: all that lies left of it comes first. Otherwise the widest gap between rows divides what lies
    above it from what lies below. Without either, one sort by top and left edge decides. */
module CutChoice {
  import opened Bytes
  import opened Sorting
  import opened XyCut

  /** A gap than which none is wider, the first of its width. */
  ghost predicate Widest(boxes: seq<OrderBox>, members: seq<nat>, horizontal: bool, lo: real, hi: real) {
    var spans := Spans(boxes, members, horizontal);
    && IsGap(spans, lo, hi)
    && (forall a: real, b: real :: IsGap(spans, a, b) ==> b - a < hi - lo || (b - a == hi - lo && lo <= a))
  }

  /** The widest gap between columns, if it counts as a gutter. */
  ghost predicate Gutter(boxes: seq<OrderBox>, members: seq<nat>, policy: Policy, lo: real, hi: real) {
    Widest(boxes, members, false, lo, hi) && policy.gutter(boxes, members, Gap(hi - lo, lo))
  }

  /** The gutter wins over every gap between rows. */
  ghost predicate GutterDivides(boxes: seq<OrderBox>, members: seq<nat>, policy: Policy, lo: real, hi: real) {
    && Gutter(boxes, members, policy, lo, hi)
    && forall a: real, b: real :: IsGap(Spans(boxes, members, true), a, b) ==> b - a < policy.bandOverGutter * (hi - lo)
  }

  /** The widest gap between rows is wide enough against the gutter, if there is one. */
  ghost predicate BandDivides(boxes: seq<OrderBox>, members: seq<nat>, policy: Policy, lo: real, hi: real) {
    && Widest(boxes, members, true, lo, hi)
    && forall a: real, b: real :: Gutter(boxes, members, policy, a, b) ==> hi - lo >= policy.bandOverGutter * (b - a)
  }

  ghost predicate NothingDivides(boxes: seq<OrderBox>, members: seq<nat>, policy: Policy) {
    && (forall a: real, b: real :: !IsGap(Spans(boxes, members, true), a, b))
    && (forall a: real, b: real :: !Gutter(boxes, members, policy, a, b))
  }

  // ----- The gap found is the first of the widest.

  lemma {:induction false} BandEndGrows(spans: seq<Key>, m: nat, n: nat)
    requires m <= n <= |spans| && spans != []
    ensures BandEnd(spans, m) <= BandEnd(spans, n)
  {
    if m < n { BandEndGrows(spans, m, n - 1); }
  }

  /** What is found among the first n spans ends no later than they do. */
  lemma {:induction false} BestGapWithin(spans: seq<Key>, n: nat)
    requires n <= |spans| && spans != []
    ensures BestGap(spans, n).Some? ==> BestGap(spans, n).value.at <= BandEnd(spans, n)
  {
    if n > 0 {
      BestGapWithin(spans, n - 1);
      BandEndGrows(spans, n - 1, n);
    }
  }

  /** A find stays unless something wider turns up. */
  lemma {:induction false} BestGapStays(spans: seq<Key>, m: nat, n: nat)
    requires m <= n <= |spans| && spans != [] && BestGap(spans, m).Some?
    requires BestGap(spans, n).Some? ==> BestGap(spans, n).value.width <= BestGap(spans, m).value.width
    ensures BestGap(spans, n) == BestGap(spans, m)
  {
    if m < n {
      BestGapGrows(spans, m, n - 1);
      BestGapGrows(spans, n - 1, n);
      BestGapStays(spans, m, n - 1);
    }
  }

  /** The sweep finds no gap of that width beyond the first. */
  lemma BestGapIsFirst(spans: seq<Key>, lo: real, hi: real)
    requires Forward(spans) && IsGap(spans, lo, hi)
    requires BestGap(spans, |spans|).Some? && BestGap(spans, |spans|).value.width <= hi - lo
    ensures BestGap(spans, |spans|).value.at <= lo
  {
    var m := GapIsMet(spans, lo, hi);
    hide Forward, IsGap;
    BestGapWithin(spans, m);
    BestGapGrows(spans, m + 1, |spans|);
    var here := BestGap(spans, m + 1);
    assert here.Some? && here.value.width >= hi - lo;
    assert here.value.at <= lo;
    BestGapStays(spans, m + 1, |spans|);
  }

  lemma GapOfIsWidest(boxes: seq<OrderBox>, members: seq<nat>, horizontal: bool, lo: real, hi: real)
    requires Upright(boxes, members) && members != [] && Widest(boxes, members, horizontal, lo, hi)
    ensures GapOf(boxes, members, horizontal) == Some(Gap(hi - lo, lo))
  {
    hide Sorted, Spans, Forward, BestGap, IsGap, Upright;
    var raw := Spans(boxes, members, horizontal);
    var spans := Sorted(raw, (s: Key) => s);
    WidestGapIs(boxes, members, horizontal);
    SpansForward(boxes, members, horizontal);
    SameGap(raw, spans, lo, hi);
    BestGapIsFirst(spans, lo, hi);
  }

  /** Where there is a gap there is a first widest one. */
  lemma SomeWidest(boxes: seq<OrderBox>, members: seq<nat>, horizontal: bool)
    requires Upright(boxes, members) && members != [] && GapOf(boxes, members, horizontal).Some?
    ensures
      var g := GapOf(boxes, members, horizontal).value;
      Widest(boxes, members, horizontal, g.at, g.at + g.width)
  {
    var raw := Spans(boxes, members, horizontal);
    var spans := Sorted(raw, (s: Key) => s);
    var g := GapOf(boxes, members, horizontal).value;
    WidestGapIs(boxes, members, horizontal);
    SpansForward(boxes, members, horizontal);
    assert GapOf(boxes, members, horizontal) == BestGap(spans, |spans|);
    hide Sorted, Spans, Forward, BestGap, IsGap, GapOf;
    forall a: real, b: real | IsGap(raw, a, b) ensures b - a < g.width || (b - a == g.width && g.at <= a) {
      SameGap(raw, spans, a, b);
      if b - a == g.width { BestGapIsFirst(spans, a, b); }
    }
  }

  // ----- The cut taken.

  lemma GutterIsFound(boxes: seq<OrderBox>, members: seq<nat>, policy: Policy)
    requires Upright(boxes, members) && members != []
    ensures
      var wide := GapOf(boxes, members, false);
      if wide.Some? && policy.gutter(boxes, members, wide.value)
      then Gutter(boxes, members, policy, wide.value.at, wide.value.at + wide.value.width)
           && (forall a: real, b: real :: Gutter(boxes, members, policy, a, b) ==> Gap(b - a, a) == wide.value)
      else forall a: real, b: real :: !Gutter(boxes, members, policy, a, b)
  {
    hide GapOf, Widest;
    var wide := GapOf(boxes, members, false);
    if wide.Some? {
      SomeWidest(boxes, members, false);
      var g := wide.value;
      assert Gap(g.at + g.width - g.at, g.at) == g;
    }
    forall a: real, b: real | Widest(boxes, members, false, a, b) ensures wide == Some(Gap(b - a, a)) {
      GapOfIsWidest(boxes, members, false, a, b);
    }
  }

  lemma BandIsFound(boxes: seq<OrderBox>, members: seq<nat>)
    requires Upright(boxes, members) && members != []
    ensures
      var band := GapOf(boxes, members, true);
      && (forall lo: real, hi: real :: Widest(boxes, members, true, lo, hi) ==> band == Some(Gap(hi - lo, lo)))
      && (forall lo: real, hi: real :: IsGap(Spans(boxes, members, true), lo, hi) ==> band.Some?)
      && (band.Some? ==> IsGap(Spans(boxes, members, true), band.value.at, band.value.at + band.value.width))
  {
    WidestGapIs(boxes, members, true);
    hide GapOf, Widest, IsGap, Spans;
    forall lo: real, hi: real | Widest(boxes, members, true, lo, hi) ensures GapOf(boxes, members, true) == Some(Gap(hi - lo, lo)) {
      GapOfIsWidest(boxes, members, true, lo, hi);
    }
  }

  /** The gutter wins: nothing between rows is wide enough. */
  lemma GutterIsCut(boxes: seq<OrderBox>, members: seq<nat>, policy: Policy, lo: real, hi: real)
    requires Upright(boxes, members) && members != [] && GutterDivides(boxes, members, policy, lo, hi)
    ensures CutOf(boxes, members, policy) == Some(Cut(false, Gap(hi - lo, lo)))
  {
    hide GapOf, IsGap, Spans, CutOf;
    GapOfIsWidest(boxes, members, false, lo, hi);
    BandIsFound(boxes, members);
    hide Widest;
    var band := GapOf(boxes, members, true);
    if band.Some? { WidthOf(band.value); }
    GutterTaken(boxes, members, policy, Gap(hi - lo, lo));
  }

  lemma WidthOf(g: Gap)
    ensures g.at + g.width - g.at == g.width
  {
  }

  lemma GutterTaken(boxes: seq<OrderBox>, members: seq<nat>, policy: Policy, g: Gap)
    requires GapOf(boxes, members, false) == Some(g) && policy.gutter(boxes, members, g)
    requires var band := GapOf(boxes, members, true); band.Some? ==> band.value.width < policy.bandOverGutter * g.width
    ensures CutOf(boxes, members, policy) == Some(Cut(false, g))
  {
    hide GapOf;
  }

  lemma BandTaken(boxes: seq<OrderBox>, members: seq<nat>, policy: Policy, g: Gap)
    requires GapOf(boxes, members, true) == Some(g)
    requires
      var wide := GapOf(boxes, members, false);
      wide.Some? && policy.gutter(boxes, members, wide.value) ==> g.width >= policy.bandOverGutter * wide.value.width
    ensures CutOf(boxes, members, policy) == Some(Cut(true, g))
  {
    hide GapOf;
  }

  /** The band wins: it is wide enough against the gutter. */
  lemma BandIsCut(boxes: seq<OrderBox>, members: seq<nat>, policy: Policy, lo: real, hi: real)
    requires Upright(boxes, members) && members != [] && BandDivides(boxes, members, policy, lo, hi)
    ensures CutOf(boxes, members, policy) == Some(Cut(true, Gap(hi - lo, lo)))
  {
    hide GapOf, IsGap, Spans, CutOf, Widest;
    GapOfIsWidest(boxes, members, true, lo, hi);
    GutterIsFound(boxes, members, policy);
    hide Gutter;
    var wide := GapOf(boxes, members, false);
    if wide.Some? && policy.gutter(boxes, members, wide.value) {
      WidthOf(wide.value);
      assert Gutter(boxes, members, policy, wide.value.at, wide.value.at + wide.value.width);
    }
    BandTaken(boxes, members, policy, Gap(hi - lo, lo));
  }

  lemma NothingIsCut(boxes: seq<OrderBox>, members: seq<nat>, policy: Policy)
    requires Upright(boxes, members) && members != [] && NothingDivides(boxes, members, policy)
    ensures CutOf(boxes, members, policy).None?
  {
    hide GapOf, IsGap, Spans, Widest, Gutter;
    GutterIsFound(boxes, members, policy);
    BandIsFound(boxes, members);
  }

  // ----- The order.

  lemma OrderOfCut(boxes: seq<OrderBox>, members: seq<nat>, policy: Policy, cut: Cut)
    requires Upright(boxes, members) && CutOf(boxes, members, policy) == Some(cut)
    ensures Separates(boxes, members, cut)
    ensures Order(boxes, members, policy) == Order(boxes, Near(boxes, members, cut), policy) + Order(boxes, Far(boxes, members, cut), policy)
  {
    CutSeparates(boxes, members, policy);
    hide CutOf, Near, Far, Upright, Sorted;
  }

  /** Two boxes on the two sides of a cut, and any two on one side of it. */
  lemma CutOrders(boxes: seq<OrderBox>, members: seq<nat>, policy: Policy, cut: Cut, p: nat, q: nat)
    requires Upright(boxes, members) && CutOf(boxes, members, policy) == Some(cut)
    ensures Separates(boxes, members, cut)
    ensures p in Near(boxes, members, cut) && q in Far(boxes, members, cut) ==> Precedes(Order(boxes, members, policy), p, q)
    ensures Precedes(Order(boxes, Near(boxes, members, cut), policy), p, q) ==> Precedes(Order(boxes, members, policy), p, q)
    ensures Precedes(Order(boxes, Far(boxes, members, cut), policy), p, q) ==> Precedes(Order(boxes, members, policy), p, q)
  {
    OrderOfCut(boxes, members, policy, cut);
    hide CutOf, Near, Far, Upright, Order;
    var near, far := Near(boxes, members, cut), Far(boxes, members, cut);
    OrderPermutes(boxes, near, policy);
    OrderPermutes(boxes, far, policy);
    MembersAgree(Order(boxes, near, policy), near, p);
    MembersAgree(Order(boxes, far, policy), far, q);
    PrecedesConcat(Order(boxes, near, policy), Order(boxes, far, policy), p, q);
  }

  /** The members that end on this side of the gap, and those that begin beyond it, in the members' order. */
  ghost predicate Sides(boxes: seq<OrderBox>, members: seq<nat>, horizontal: bool, lo: real, hi: real, near: seq<nat>, far: seq<nat>) {
    && multiset(near) + multiset(far) == multiset(members)
    && (forall x :: x in near ==> Span(boxes, horizontal, x).1 <= lo)
    && (forall x :: x in far ==> Span(boxes, horizontal, x).0 >= hi)
    && (forall p, q :: Precedes(near, p, q) || Precedes(far, p, q) ==> Precedes(members, p, q))
  }

  lemma {:induction false} SideInOrder(s: seq<nat>, key: nat -> Key, at: real, before: bool, p: nat, q: nat)
    requires Precedes(Side(s, key, at, before), p, q)
    ensures Precedes(s, p, q)
  {
    if s != [] {
      var first, rest := if (key(s[0]).0 <= at) == before then [s[0]] else [], Side(s[1..], key, at, before);
      assert Side(s, key, at, before) == first + rest;
      SideIs(s[1..], key, at, before);
      PrecedesFirst(first, rest, p, q);
      if Precedes(rest, p, q) { SideInOrder(s[1..], key, at, before, p, q); }
      assert s == [s[0]] + s[1..];
      PrecedesConcat([s[0]], s[1..], p, q);
    }
  }

  lemma PrecedesFirst(first: seq<nat>, rest: seq<nat>, p: nat, q: nat)
    requires |first| <= 1 && Precedes(first + rest, p, q)
    ensures Precedes(rest, p, q) || (first == [p] && q in rest)
  {
    var s := first + rest;
    var i, j :| 0 <= i < j < |s| && s[i] == p && s[j] == q;
    if i >= |first| { assert rest[i - |first|] == p && rest[j - |first|] == q; } else { assert rest[j - |first|] == q; }
  }

  lemma SidesBound(boxes: seq<OrderBox>, members: seq<nat>, cut: Cut, lo: real, hi: real)
    requires Upright(boxes, members) && cut.gap == Gap(hi - lo, lo) && IsGap(Spans(boxes, members, cut.horizontal), lo, hi)
    ensures forall x :: x in Near(boxes, members, cut) ==> Span(boxes, cut.horizontal, x).1 <= lo
    ensures forall x :: x in Far(boxes, members, cut) ==> Span(boxes, cut.horizontal, x).0 >= hi
  {
    SidesOfGap(boxes, members, cut);
    var a, b := GapHasSides(boxes, members, cut.horizontal, cut.gap);
    hide Span, Upright, IsGap, Spans, Near, Far;
  }

  lemma SidesInOrder(boxes: seq<OrderBox>, members: seq<nat>, cut: Cut, p: nat, q: nat)
    ensures Precedes(Near(boxes, members, cut), p, q) || Precedes(Far(boxes, members, cut), p, q) ==> Precedes(members, p, q)
  {
    hide Side, KeyOf, Precedes;
    var key := KeyOf(boxes, cut.horizontal);
    if Precedes(Near(boxes, members, cut), p, q) {
      SideInOrder(members, key, cut.gap.at, true, p, q);
    } else if Precedes(Far(boxes, members, cut), p, q) {
      SideInOrder(members, key, cut.gap.at, false, p, q);
    }
  }

  lemma CutSides(boxes: seq<OrderBox>, members: seq<nat>, horizontal: bool, lo: real, hi: real)
    requires Upright(boxes, members) && IsGap(Spans(boxes, members, horizontal), lo, hi)
    ensures
      var cut := Cut(horizontal, Gap(hi - lo, lo));
      Sides(boxes, members, horizontal, lo, hi, Near(boxes, members, cut), Far(boxes, members, cut))
  {
    var cut := Cut(horizontal, Gap(hi - lo, lo));
    SidesPermute(members, KeyOf(boxes, horizontal), lo);
    assert multiset(Near(boxes, members, cut)) + multiset(Far(boxes, members, cut)) == multiset(members);
    hide Span, Upright, IsGap, Spans, Near, Far, Precedes;
    SidesBound(boxes, members, cut, lo, hi);
    forall p, q ensures Precedes(Near(boxes, members, cut), p, q) || Precedes(Far(boxes, members, cut), p, q) ==> Precedes(members, p, q) {
      SidesInOrder(boxes, members, cut, p, q);
    }
  }

  /** What lies before a gap comes first, and each side is ordered as if it stood alone. */
  ghost predicate DividedAt(boxes: seq<OrderBox>, members: seq<nat>, policy: Policy, horizontal: bool, lo: real, hi: real)
    requires Upright(boxes, members)
  {
    && (forall p, q :: p in members && q in members && Span(boxes, horizontal, p).1 <= lo && Span(boxes, horizontal, q).0 >= hi ==>
          Precedes(Order(boxes, members, policy), p, q))
    && (exists near, far :: Sides(boxes, members, horizontal, lo, hi, near, far) && Upright(boxes, near) && Upright(boxes, far)
          && forall p, q :: Precedes(Order(boxes, near, policy), p, q) || Precedes(Order(boxes, far, policy), p, q) ==>
               Precedes(Order(boxes, members, policy), p, q))
  }

  lemma CutDivides(boxes: seq<OrderBox>, members: seq<nat>, policy: Policy, horizontal: bool, lo: real, hi: real)
    requires Upright(boxes, members) && IsGap(Spans(boxes, members, horizontal), lo, hi)
    requires CutOf(boxes, members, policy) == Some(Cut(horizontal, Gap(hi - lo, lo)))
    ensures DividedAt(boxes, members, policy, horizontal, lo, hi)
  {
    hide CutOf, IsGap, Spans, Near, Far, Order, Precedes, Sides, Span;
    var cut := Cut(horizontal, Gap(hi - lo, lo));
    CutSides(boxes, members, horizontal, lo, hi);
    SidesHold(boxes, members, cut, lo, hi);
    var near, far := Near(boxes, members, cut), Far(boxes, members, cut);
    OrderOfCut(boxes, members, policy, cut);
    forall p, q ensures p in near && q in far ==> Precedes(Order(boxes, members, policy), p, q)
      ensures Precedes(Order(boxes, near, policy), p, q) || Precedes(Order(boxes, far, policy), p, q) ==>
                Precedes(Order(boxes, members, policy), p, q)
    {
      CutOrders(boxes, members, policy, cut, p, q);
    }
  }

  lemma SidesHold(boxes: seq<OrderBox>, members: seq<nat>, cut: Cut, lo: real, hi: real)
    requires Upright(boxes, members) && cut.gap == Gap(hi - lo, lo) && IsGap(Spans(boxes, members, cut.horizontal), lo, hi)
    ensures forall p :: p in members && Span(boxes, cut.horizontal, p).1 <= lo ==> p in Near(boxes, members, cut)
    ensures forall q :: q in members && Span(boxes, cut.horizontal, q).0 >= hi ==> q in Far(boxes, members, cut)
  {
    SidesOfGap(boxes, members, cut);
    hide Span, Upright, Spans, Near, Far;
  }

  /** Columns before bands: where the gutter divides, every box left of it comes before every box right of it. */
  lemma GutterReadsColumns(boxes: seq<OrderBox>, members: seq<nat>, policy: Policy, lo: real, hi: real)
    requires Upright(boxes, members) && members != [] && GutterDivides(boxes, members, policy, lo, hi)
    ensures DividedAt(boxes, members, policy, false, lo, hi)
  {
    GutterIsCut(boxes, members, policy, lo, hi);
    hide CutOf, IsGap, Spans, DividedAt;
    CutDivides(boxes, members, policy, false, lo, hi);
  }

  /** Bands before columns: where the band divides, every box above it comes before every box below it. */
  lemma BandReadsDown(boxes: seq<OrderBox>, members: seq<nat>, policy: Policy, lo: real, hi: real)
    requires Upright(boxes, members) && members != [] && BandDivides(boxes, members, policy, lo, hi)
    ensures DividedAt(boxes, members, policy, true, lo, hi)
  {
    BandIsCut(boxes, members, policy, lo, hi);
    hide CutOf, IsGap, Spans, DividedAt;
    CutDivides(boxes, members, policy, true, lo, hi);
  }

  lemma LesserFirst(members: seq<nat>, key: nat -> Key, i: nat, j: nat)
    requires i < |Sorted(members, key)| && j < |Sorted(members, key)|
    requires Less(key(Sorted(members, key)[i]), key(Sorted(members, key)[j]))
    ensures i < j
  {
    SortedAscends(members, key);
    hide Sorted;
  }

  /** Nothing divides: top edge first, left edge second, ties as they were. */
  lemma UndividedIsSorted(boxes: seq<OrderBox>, members: seq<nat>, policy: Policy, p: nat, q: nat)
    requires Upright(boxes, members) && NothingDivides(boxes, members, policy) && p in members && q in members
    requires Less((boxes[p].top, boxes[p].left), (boxes[q].top, boxes[q].left))
    ensures Precedes(Order(boxes, members, policy), p, q)
  {
    NothingIsCut(boxes, members, policy);
    var key := KeyOf(boxes, true);
    var s := Order(boxes, members, policy);
    OrderPermutes(boxes, members, policy);
    MembersAgree(s, members, p);
    MembersAgree(s, members, q);
    var i :| 0 <= i < |s| && s[i] == p;
    var j :| 0 <= j < |s| && s[j] == q;
    if |members| > 1 {
      assert s == Sorted(members, key);
      hide Sorted, Order, CutOf, NothingDivides;
      LesserFirst(members, key, i, j);
    }
  }

  // ----- The whole order, cut by cut.

  ghost predicate Divides(boxes: seq<OrderBox>, members: seq<nat>, policy: Policy, horizontal: bool, lo: real, hi: real) {
    if horizontal then BandDivides(boxes, members, policy, lo, hi) else GutterDivides(boxes, members, policy, lo, hi)
  }

  /** p lies before the gap and q beyond it. */
  ghost predicate Across(boxes: seq<OrderBox>, members: seq<nat>, horizontal: bool, lo: real, hi: real, p: nat, q: nat) {
    p in members && q in members && Span(boxes, horizontal, p).1 <= lo && Span(boxes, horizontal, q).0 >= hi
  }

  /** By the gaps alone, p is to be read before q: a gap that divides the members divides the two, or both lie
      on one side of it and are to be read so there; or nothing divides and p lies higher, or level and to the left. */
  ghost predicate ComesFirst(boxes: seq<OrderBox>, members: seq<nat>, policy: Policy, p: nat, q: nat)
    decreases |members|
  {
    || (NothingDivides(boxes, members, policy) && p in members && q in members
        && Less(KeyOf(boxes, true)(p), KeyOf(boxes, true)(q)))
    || exists horizontal: bool, lo: real, hi: real :: Divides(boxes, members, policy, horizontal, lo, hi) &&
         var cut := Cut(horizontal, Gap(hi - lo, lo));
         var near, far := Near(boxes, members, cut), Far(boxes, members, cut);
         && |near| < |members| && |far| < |members|
         && (Across(boxes, members, horizontal, lo, hi, p, q)
             || ComesFirst(boxes, near, policy, p, q) || ComesFirst(boxes, far, policy, p, q))
  }

  lemma DividesIsCut(boxes: seq<OrderBox>, members: seq<nat>, policy: Policy, horizontal: bool, lo: real, hi: real)
    requires Upright(boxes, members) && members != [] && Divides(boxes, members, policy, horizontal, lo, hi)
    ensures CutOf(boxes, members, policy) == Some(Cut(horizontal, Gap(hi - lo, lo)))
    ensures IsGap(Spans(boxes, members, horizontal), lo, hi)
  {
    hide CutOf, IsGap, Spans;
    if horizontal { BandIsCut(boxes, members, policy, lo, hi); } else { GutterIsCut(boxes, members, policy, lo, hi); }
  }

  lemma NoGapInNothing(boxes: seq<OrderBox>, policy: Policy, horizontal: bool, lo: real, hi: real)
    ensures !Divides(boxes, [], policy, horizontal, lo, hi)
  {
    assert Spans(boxes, [], horizontal) == [];
  }

  /** The order is the one the gaps call for. */
  lemma {:induction false} OrderIsByGaps(boxes: seq<OrderBox>, members: seq<nat>, policy: Policy, p: nat, q: nat)
    requires Upright(boxes, members) && ComesFirst(boxes, members, policy, p, q)
    ensures Precedes(Order(boxes, members, policy), p, q)
    decreases |members|
  {
    if NothingDivides(boxes, members, policy) && p in members && q in members && Less(KeyOf(boxes, true)(p), KeyOf(boxes, true)(q)) {
      UndividedIsSorted(boxes, members, policy, p, q);
    } else {
      var horizontal: bool, lo: real, hi: real :| Divides(boxes, members, policy, horizontal, lo, hi) &&
         var cut := Cut(horizontal, Gap(hi - lo, lo));
         var near, far := Near(boxes, members, cut), Far(boxes, members, cut);
         && |near| < |members| && |far| < |members|
         && (Across(boxes, members, horizontal, lo, hi, p, q)
             || ComesFirst(boxes, near, policy, p, q) || ComesFirst(boxes, far, policy, p, q));
      var cut := Cut(horizontal, Gap(hi - lo, lo));
      var near, far := Near(boxes, members, cut), Far(boxes, members, cut);
      hide Divides, ComesFirst, NothingDivides, Near, Far, CutOf, Order, Precedes, Upright, IsGap, Spans, KeyOf;
      if members == [] { NoGapInNothing(boxes, policy, horizontal, lo, hi); }
      DividesIsCut(boxes, members, policy, horizontal, lo, hi);
      OrderOfCut(boxes, members, policy, cut);
      CutOrders(boxes, members, policy, cut, p, q);
      if Across(boxes, members, horizontal, lo, hi, p, q) {
        SidesHold(boxes, members, cut, lo, hi);
      } else if ComesFirst(boxes, near, policy, p, q) {
        OrderIsByGaps(boxes, near, policy, p, q);
      } else {
        OrderIsByGaps(boxes, far, policy, p, q);
      }
    }
  }

  // ----- It is the whole order: only boxes with the same top left corner are left to their given order.

  /** The gutter found, none where it fails its tests. */
  ghost function GutterOf(boxes: seq<OrderBox>, members: seq<nat>, policy: Policy): Option<Gap> {
    var wide := GapOf(boxes, members, false);
    if wide.Some? && policy.gutter(boxes, members, wide.value) then wide else None
  }

  lemma CutOfCases(boxes: seq<OrderBox>, members: seq<nat>, policy: Policy)
    ensures
      var (band, gutter) := (GapOf(boxes, members, true), GutterOf(boxes, members, policy));
      CutOf(boxes, members, policy) ==
        if band.Some? && (gutter.None? || band.value.width >= policy.bandOverGutter * gutter.value.width) then Some(Cut(true, band.value))
        else if gutter.Some? then Some(Cut(false, gutter.value))
        else None
  {
    hide GapOf;
  }

  lemma GutterOfIs(boxes: seq<OrderBox>, members: seq<nat>, policy: Policy)
    requires Upright(boxes, members) && members != []
    ensures
      var gutter := GutterOf(boxes, members, policy);
      && (gutter.Some? ==> Gutter(boxes, members, policy, gutter.value.at, gutter.value.at + gutter.value.width))
      && (forall a: real, b: real :: Gutter(boxes, members, policy, a, b) ==> gutter == Some(Gap(b - a, a)))
  {
    GutterIsFound(boxes, members, policy);
    hide GapOf, Gutter;
  }

  lemma BandDoesDivide(boxes: seq<OrderBox>, members: seq<nat>, policy: Policy, g: Gap)
    requires Upright(boxes, members) && members != [] && GapOf(boxes, members, true) == Some(g)
    requires
      var gutter := GutterOf(boxes, members, policy);
      gutter.Some? ==> g.width >= policy.bandOverGutter * gutter.value.width
    ensures BandDivides(boxes, members, policy, g.at, g.at + g.width)
  {
    hide GapOf, Widest, IsGap, Spans, Gutter, GutterOf;
    SomeWidest(boxes, members, true);
    GutterOfIs(boxes, members, policy);
    WidthOf(g);
  }

  lemma GutterDoesDivide(boxes: seq<OrderBox>, members: seq<nat>, policy: Policy, g: Gap)
    requires Upright(boxes, members) && members != [] && GutterOf(boxes, members, policy) == Some(g)
    requires
      var band := GapOf(boxes, members, true);
      band.Some? ==> band.value.width < policy.bandOverGutter * g.width
    ensures GutterDivides(boxes, members, policy, g.at, g.at + g.width)
  {
    hide GapOf, Widest, IsGap, Spans, Gutter, GutterOf;
    WidestGapIs(boxes, members, true);
    GutterOfIs(boxes, members, policy);
    WidthOf(g);
  }

  lemma CutDoesDivide(boxes: seq<OrderBox>, members: seq<nat>, policy: Policy)
    requires Upright(boxes, members) && members != []
    ensures
      var cut := CutOf(boxes, members, policy);
      if cut.None? then NothingDivides(boxes, members, policy)
      else var g := cut.value.gap; Divides(boxes, members, policy, cut.value.horizontal, g.at, g.at + g.width)
  {
    hide GapOf, GutterOf, CutOf, IsGap, Spans, Widest, Gutter, BandDivides, GutterDivides;
    CutOfCases(boxes, members, policy);
    var band, gutter := GapOf(boxes, members, true), GutterOf(boxes, members, policy);
    if band.Some? && (gutter.None? || band.value.width >= policy.bandOverGutter * gutter.value.width) {
      BandDoesDivide(boxes, members, policy, band.value);
    } else if gutter.Some? {
      GutterDoesDivide(boxes, members, policy, gutter.value);
    } else {
      BandIsFound(boxes, members);
      GutterOfIs(boxes, members, policy);
    }
  }

  lemma SomeGapComes(boxes: seq<OrderBox>, members: seq<nat>, policy: Policy, cut: Cut, lo: real, hi: real, p: nat, q: nat)
    requires Divides(boxes, members, policy, cut.horizontal, lo, hi) && cut.gap == Gap(hi - lo, lo)
    requires |Near(boxes, members, cut)| < |members| && |Far(boxes, members, cut)| < |members|
    requires Across(boxes, members, cut.horizontal, lo, hi, p, q)
             || ComesFirst(boxes, Near(boxes, members, cut), policy, p, q) || ComesFirst(boxes, Far(boxes, members, cut), policy, p, q)
    ensures ComesFirst(boxes, members, policy, p, q)
  {
    hide Divides, Across, Near, Far, NothingDivides;
  }

  /** A member of a cut list and where it lies. */
  lemma CutHolds(boxes: seq<OrderBox>, members: seq<nat>, policy: Policy, cut: Cut) returns (lo: real, hi: real)
    requires Upright(boxes, members) && members != [] && CutOf(boxes, members, policy) == Some(cut)
    ensures Divides(boxes, members, policy, cut.horizontal, lo, hi) && cut.gap == Gap(hi - lo, lo)
    ensures IsGap(Spans(boxes, members, cut.horizontal), lo, hi) && Separates(boxes, members, cut)
  {
    hide CutOf, Upright, IsGap, Spans, Divides, Separates;
    lo, hi := cut.gap.at, cut.gap.at + cut.gap.width;
    WidthOf(cut.gap);
    CutDoesDivide(boxes, members, policy);
    DividesIsCut(boxes, members, policy, cut.horizontal, lo, hi);
    CutSeparates(boxes, members, policy);
  }

  lemma SidesSmaller(boxes: seq<OrderBox>, members: seq<nat>, cut: Cut)
    requires Separates(boxes, members, cut)
    ensures |Near(boxes, members, cut)| < |members| && |Far(boxes, members, cut)| < |members|
    ensures Upright(boxes, Near(boxes, members, cut)) && Upright(boxes, Far(boxes, members, cut))
  {
    hide Near, Far, Upright, Span;
  }

  /** Of two members whose top left corners differ, one comes first. */
  lemma {:induction false} ComesOneWay(boxes: seq<OrderBox>, members: seq<nat>, policy: Policy, p: nat, q: nat)
    requires Upright(boxes, members) && p in members && q in members && KeyOf(boxes, true)(p) != KeyOf(boxes, true)(q)
    ensures ComesFirst(boxes, members, policy, p, q) || ComesFirst(boxes, members, policy, q, p)
    decreases |members|
  {
    var found := CutOf(boxes, members, policy);
    if found.None? {
      CutDoesDivide(boxes, members, policy);
    } else {
      hide Divides, ComesFirst, NothingDivides, Near, Far, CutOf, Upright, IsGap, Spans, KeyOf, Span, Separates;
      var cut := found.value;
      var lo, hi := CutHolds(boxes, members, policy, cut);
      SidesSmaller(boxes, members, cut);
      var near, far := Near(boxes, members, cut), Far(boxes, members, cut);
      if p in near && q in near { ComesOneWay(boxes, near, policy, p, q); }
      if p in far && q in far { ComesOneWay(boxes, far, policy, p, q); }
      InSides(boxes, members, cut, lo, hi, p);
      InSides(boxes, members, cut, lo, hi, q);
      if Across(boxes, members, cut.horizontal, lo, hi, p, q) || ComesFirst(boxes, near, policy, p, q) || ComesFirst(boxes, far, policy, p, q) {
        SomeGapComes(boxes, members, policy, cut, lo, hi, p, q);
      } else {
        SomeGapComes(boxes, members, policy, cut, lo, hi, q, p);
      }
    }
  }

  lemma InSides(boxes: seq<OrderBox>, members: seq<nat>, cut: Cut, lo: real, hi: real, p: nat)
    requires Upright(boxes, members) && cut.gap == Gap(hi - lo, lo) && p in members
    requires IsGap(Spans(boxes, members, cut.horizontal), lo, hi)
    ensures (p in Near(boxes, members, cut) && Span(boxes, cut.horizontal, p).1 <= lo)
         || (p in Far(boxes, members, cut) && Span(boxes, cut.horizontal, p).0 >= hi)
  {
    SidesHold(boxes, members, cut, lo, hi);
    var a, b := GapHasSides(boxes, members, cut.horizontal, cut.gap);
    hide Span, Upright, IsGap, Spans, Near, Far;
  }
}
