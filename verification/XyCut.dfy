/** Reading order by recursive XY-cut (src/reading_order.cpp). */
module XyCut {
  import opened Bytes
  import opened Sorting

  datatype OrderBox = OrderBox(left: real, top: real, right: real, bottom: real)

  datatype Gap = Gap(width: real, at: real)

  /** How the cut chooses between the axes; `gutter` stands for the two tests a column gutter has to pass. */
  datatype Policy = Policy(bandOverGutter: real, gutter: (seq<OrderBox>, seq<nat>, Gap) -> bool)

  /** No box is turned inside out: its top is not below its bottom, its left not beyond its right. */
  ghost predicate Upright(boxes: seq<OrderBox>, members: seq<nat>) {
    && (forall i :: i in members ==> i < |boxes|)
    && (forall i :: i in members ==> boxes[i].left <= boxes[i].right && boxes[i].top <= boxes[i].bottom)
  }

  function Span(boxes: seq<OrderBox>, horizontal: bool, i: nat): Key {
    if i >= |boxes| then (0.0, 0.0)
    else if horizontal then (boxes[i].top, boxes[i].bottom) else (boxes[i].left, boxes[i].right)
  }

  function Spans(boxes: seq<OrderBox>, members: seq<nat>, horizontal: bool): seq<Key> {
    seq(|members|, k requires 0 <= k < |members| => Span(boxes, horizontal, members[k]))
  }

  function MaxReal(a: real, b: real): real { if a >= b then a else b }

  // ----- The widest gap.

  /** Nothing crosses from lo to hi, something ends at lo and something starts at hi. */
  ghost predicate IsGap(spans: seq<Key>, lo: real, hi: real) {
    && lo < hi
    && (forall s :: s in spans ==> s.1 <= lo || s.0 >= hi)
    && (exists s :: s in spans && s.1 == lo)
    && (exists s :: s in spans && s.0 == hi)
  }

  function BandEnd(spans: seq<Key>, n: nat): real
    requires n <= |spans| && spans != []
  {
    if n == 0 then spans[0].1 else MaxReal(BandEnd(spans, n - 1), spans[n - 1].1)
  }

  function BestGap(spans: seq<Key>, n: nat): Option<Gap>
    requires n <= |spans| && spans != []
  {
    if n == 0 then None
    else
      var best, end, start := BestGap(spans, n - 1), BandEnd(spans, n - 1), spans[n - 1].0;
      if start > end && (best.None? || start - end > best.value.width) then Some(Gap(start - end, end)) else best
  }

  function GapOf(boxes: seq<OrderBox>, members: seq<nat>, horizontal: bool): Option<Gap> {
    var spans := Sorted(Spans(boxes, members, horizontal), (s: Key) => s);
    if spans == [] then None else BestGap(spans, |spans|)
  }

  ghost predicate Forward(spans: seq<Key>) {
    && spans != []
    && (forall i, j :: 0 <= i < j < |spans| ==> spans[i].0 <= spans[j].0)
    && (forall i :: 0 <= i < |spans| ==> spans[i].0 <= spans[i].1)
  }

  lemma {:induction false} BandEndIsMax(spans: seq<Key>, n: nat)
    requires n <= |spans| && spans != []
    ensures forall i :: 0 <= i < n ==> spans[i].1 <= BandEnd(spans, n)
    ensures exists i :: 0 <= i < |spans| && (i < n || i == 0) && spans[i].1 == BandEnd(spans, n)
  {
    if n == 0 {
      assert spans[0].1 == BandEnd(spans, 0);
    } else {
      BandEndIsMax(spans, n - 1);
      var end := BandEnd(spans, n - 1);
      var i :| 0 <= i < |spans| && (i < n - 1 || i == 0) && spans[i].1 == end;
      assert spans[if spans[n - 1].1 > end then n - 1 else i].1 == BandEnd(spans, n);
    }
  }

  lemma StartsNoEarlier(spans: seq<Key>, n: nat, j: nat)
    requires Forward(spans) && n <= j < |spans|
    ensures spans[n].0 <= spans[j].0
  {
  }

  /** A span that starts beyond the end of all before it, in the order of their starts. */
  lemma StartBeyondIsGap(spans: seq<Key>, n: nat)
    requires n < |spans| && Forward(spans) && spans[n].0 > BandEnd(spans, n)
    ensures IsGap(spans, BandEnd(spans, n), spans[n].0)
  {
    hide Forward, BandEnd, IsGap;
    var end, start := BandEnd(spans, n), spans[n].0;
    BandEndIsMax(spans, n);
    var i :| 0 <= i < |spans| && (i < n || i == 0) && spans[i].1 == end;
    forall j: nat | j < |spans| ensures spans[j].1 <= end || spans[j].0 >= start {
      if j >= n { StartsNoEarlier(spans, n, j); }
    }
    GapAt(spans, end, start, i, n);
  }

  lemma GapAt(spans: seq<Key>, lo: real, hi: real, i: nat, j: nat)
    requires lo < hi && i < |spans| && j < |spans| && spans[i].1 == lo && spans[j].0 == hi
    requires forall k: nat :: k < |spans| ==> spans[k].1 <= lo || spans[k].0 >= hi
    ensures IsGap(spans, lo, hi)
  {
    assert spans[i] in spans && spans[j] in spans;
  }

  lemma {:induction false} BestGapIsGap(spans: seq<Key>, n: nat)
    requires n <= |spans| && Forward(spans)
    ensures BestGap(spans, n).Some? ==>
        var g := BestGap(spans, n).value;
        IsGap(spans, g.at, g.at + g.width)
  {
    hide Forward, IsGap, BandEnd;
    if n > 0 {
      BestGapIsGap(spans, n - 1);
      var end, start := BandEnd(spans, n - 1), spans[n - 1].0;
      if start > end {
        StartBeyondIsGap(spans, n - 1);
        assert end + (start - end) == start;
      }
    }
  }

  lemma {:induction false} BestGapGrows(spans: seq<Key>, m: nat, n: nat)
    requires m <= n <= |spans| && spans != []
    ensures BestGap(spans, m).Some? ==> BestGap(spans, n).Some? && BestGap(spans, n).value.width >= BestGap(spans, m).value.width
  {
    if m < n { BestGapGrows(spans, m, n - 1); }
  }

  lemma {:induction false} FirstFrom(spans: seq<Key>, hi: real, j: nat) returns (m: nat)
    requires j < |spans| && spans[j].0 >= hi
    ensures m <= j && spans[m].0 >= hi && forall k :: 0 <= k < m ==> spans[k].0 < hi
  {
    m := 0;
    while spans[m].0 < hi
      invariant m <= j && forall k :: 0 <= k < m ==> spans[k].0 < hi
      decreases j - m
    {
      m := m + 1;
    }
  }

  /** The first span from hi on, when nothing crosses from lo to hi: all before it end by lo, one of them at lo. */
  lemma GapIsMet(spans: seq<Key>, lo: real, hi: real) returns (m: nat)
    requires Forward(spans) && IsGap(spans, lo, hi)
    ensures 0 < m < |spans| && spans[m].0 == hi && BandEnd(spans, m) == lo
  {
    var s :| s in spans && s.1 == lo;
    var t :| t in spans && t.0 == hi;
    var i :| 0 <= i < |spans| && spans[i] == s;
    var j :| 0 <= j < |spans| && spans[j] == t;
    m := FirstFrom(spans, hi, j);
    assert m == j || spans[m].0 <= spans[j].0;
    assert forall k :: m <= k < |spans| ==> spans[m].0 <= spans[k].0;
    assert i < m;
    forall k | 0 <= k < m ensures spans[k].1 <= lo { assert spans[k] in spans; }
    hide IsGap, Forward;
    BandEndIsMax(spans, m);
  }

  lemma BestGapIsWidest(spans: seq<Key>, lo: real, hi: real)
    requires Forward(spans) && IsGap(spans, lo, hi)
    ensures BestGap(spans, |spans|).Some? && BestGap(spans, |spans|).value.width >= hi - lo
  {
    hide Forward, BandEnd;
    var m := GapIsMet(spans, lo, hi);
    BestGapGrows(spans, m + 1, |spans|);
  }

  lemma SpansForward(boxes: seq<OrderBox>, members: seq<nat>, horizontal: bool)
    requires Upright(boxes, members) && members != []
    ensures Forward(Sorted(Spans(boxes, members, horizontal), (s: Key) => s))
    ensures forall s :: s in Sorted(Spans(boxes, members, horizontal), (s: Key) => s) <==> s in Spans(boxes, members, horizontal)
  {
    var id := (s: Key) => s;
    var raw := Spans(boxes, members, horizontal);
    var spans := Sorted(raw, id);
    SortedPermutes(raw, id);
    SortedAscends(raw, id);
    forall s ensures s in spans <==> s in raw { MembersAgree(spans, raw, s); }
    forall i | 0 <= i < |spans| ensures spans[i].0 <= spans[i].1 {
      assert spans[i] in raw;
      var k :| 0 <= k < |raw| && raw[k] == spans[i];
      assert members[k] in members;
    }
    forall i, j | 0 <= i < j < |spans| ensures spans[i].0 <= spans[j].0 {
      assert !Less(id(spans[j]), id(spans[i]));
    }
  }

  /** The gap found is a gap no box crosses, none is wider, and one is found whenever there is one. */
  lemma WidestGapIs(boxes: seq<OrderBox>, members: seq<nat>, horizontal: bool)
    requires Upright(boxes, members) && members != []
    ensures
      var spans, gap := Spans(boxes, members, horizontal), GapOf(boxes, members, horizontal);
      && (gap.Some? ==> IsGap(spans, gap.value.at, gap.value.at + gap.value.width))
      && (forall lo: real, hi: real :: IsGap(spans, lo, hi) ==> gap.Some? && hi - lo <= gap.value.width)
  {
    var raw := Spans(boxes, members, horizontal);
    var spans := Sorted(raw, (s: Key) => s);
    SpansForward(boxes, members, horizontal);
    hide Sorted, Spans, BestGap, Forward;
    BestGapIsGap(spans, |spans|);
    forall lo: real, hi: real ensures IsGap(raw, lo, hi) <==> IsGap(spans, lo, hi) { SameGap(raw, spans, lo, hi); }
    forall lo: real, hi: real | IsGap(raw, lo, hi)
      ensures BestGap(spans, |spans|).Some? && hi - lo <= BestGap(spans, |spans|).value.width
    {
      BestGapIsWidest(spans, lo, hi);
    }
  }

  lemma SameGap(a: seq<Key>, b: seq<Key>, lo: real, hi: real)
    requires forall s :: s in a <==> s in b
    ensures IsGap(a, lo, hi) <==> IsGap(b, lo, hi)
  {
  }

  // ----- The recursive cut.

  datatype Cut = Cut(horizontal: bool, gap: Gap)

  function CutOf(boxes: seq<OrderBox>, members: seq<nat>, policy: Policy): Option<Cut> {
    var y, wide := GapOf(boxes, members, true), GapOf(boxes, members, false);
    var x := if wide.Some? && !policy.gutter(boxes, members, wide.value) then None else wide;
    if y.Some? && (x.None? || y.value.width >= policy.bandOverGutter * x.value.width) then Some(Cut(true, y.value))
    else if x.Some? then Some(Cut(false, x.value))
    else None
  }

  /** Sorting key of a member: its own axis first, the other axis second. */
  function KeyOf(boxes: seq<OrderBox>, horizontal: bool): nat -> Key {
    (i: nat) => if i >= |boxes| then (0.0, 0.0) else if horizontal then (boxes[i].top, boxes[i].left) else (boxes[i].left, boxes[i].top)
  }

  function Near(boxes: seq<OrderBox>, members: seq<nat>, cut: Cut): seq<nat> {
    Side(members, KeyOf(boxes, cut.horizontal), cut.gap.at, true)
  }

  function Far(boxes: seq<OrderBox>, members: seq<nat>, cut: Cut): seq<nat> {
    Side(members, KeyOf(boxes, cut.horizontal), cut.gap.at, false)
  }

  lemma GapHasSides(boxes: seq<OrderBox>, members: seq<nat>, horizontal: bool, gap: Gap) returns (a: nat, b: nat)
    requires Upright(boxes, members) && IsGap(Spans(boxes, members, horizontal), gap.at, gap.at + gap.width)
    ensures a in members && Span(boxes, horizontal, a).0 <= gap.at
    ensures b in members && Span(boxes, horizontal, b).0 > gap.at
    ensures forall c :: c in members ==> Span(boxes, horizontal, c).1 <= gap.at || Span(boxes, horizontal, c).0 >= gap.at + gap.width
    ensures gap.width > 0.0
  {
    var spans := Spans(boxes, members, horizontal);
    var lo, hi := gap.at, gap.at + gap.width;
    var s :| s in spans && s.1 == lo;
    var t :| t in spans && t.0 == hi;
    var i :| 0 <= i < |spans| && spans[i] == s;
    var j :| 0 <= j < |spans| && spans[j] == t;
    a, b := members[i], members[j];
    assert a in members && b in members;
    forall c | c in members ensures Span(boxes, horizontal, c).1 <= lo || Span(boxes, horizontal, c).0 >= hi {
      var k :| 0 <= k < |members| && members[k] == c;
      assert spans[k] in spans;
    }
  }

  lemma CutIsGap(boxes: seq<OrderBox>, members: seq<nat>, policy: Policy)
    requires Upright(boxes, members) && members != [] && CutOf(boxes, members, policy).Some?
    ensures
      var cut := CutOf(boxes, members, policy).value;
      IsGap(Spans(boxes, members, cut.horizontal), cut.gap.at, cut.gap.at + cut.gap.width)
  {
    var cut := CutOf(boxes, members, policy).value;
    WidestGapIs(boxes, members, cut.horizontal);
    hide GapOf, IsGap;
  }

  lemma NoCutOfNothing(boxes: seq<OrderBox>, policy: Policy)
    ensures CutOf(boxes, [], policy).None?
  {
    assert Spans(boxes, [], true) == [] && Spans(boxes, [], false) == [];
  }

  /** Members by the gap: each on its side, none across. */
  lemma SidesOfGap(boxes: seq<OrderBox>, members: seq<nat>, cut: Cut)
    requires Upright(boxes, members) && IsGap(Spans(boxes, members, cut.horizontal), cut.gap.at, cut.gap.at + cut.gap.width)
    ensures forall x :: x in Near(boxes, members, cut) <==> x in members && Span(boxes, cut.horizontal, x).1 <= cut.gap.at
    ensures forall x :: x in Far(boxes, members, cut) <==> x in members && Span(boxes, cut.horizontal, x).0 > cut.gap.at
    ensures Near(boxes, members, cut) != [] && Far(boxes, members, cut) != []
  {
    hide IsGap, Spans, Side;
    var key := KeyOf(boxes, cut.horizontal);
    var a, b := GapHasSides(boxes, members, cut.horizontal, cut.gap);
    SideIs(members, key, cut.gap.at, true);
    SideIs(members, key, cut.gap.at, false);
    forall x | x in members
      ensures key(x).0 == Span(boxes, cut.horizontal, x).0 <= Span(boxes, cut.horizontal, x).1
    {
    }
    assert a in Near(boxes, members, cut) && b in Far(boxes, members, cut);
  }

  ghost predicate Separates(boxes: seq<OrderBox>, members: seq<nat>, cut: Cut) {
    var near, far := Near(boxes, members, cut), Far(boxes, members, cut);
    && |near| + |far| == |members| && near != [] && far != []
    && Upright(boxes, near) && Upright(boxes, far)
    && (forall a, b :: a in near && b in far ==> Span(boxes, cut.horizontal, a).1 < Span(boxes, cut.horizontal, b).0)
  }

  lemma UprightWithin(boxes: seq<OrderBox>, members: seq<nat>, part: seq<nat>)
    requires Upright(boxes, members) && forall x :: x in part ==> x in members
    ensures Upright(boxes, part)
  {
  }

  lemma GapSeparates(boxes: seq<OrderBox>, members: seq<nat>, cut: Cut)
    requires Upright(boxes, members) && IsGap(Spans(boxes, members, cut.horizontal), cut.gap.at, cut.gap.at + cut.gap.width)
    ensures Separates(boxes, members, cut)
  {
    var near, far := Near(boxes, members, cut), Far(boxes, members, cut);
    hide IsGap, Spans, Span, Side, Upright, KeyOf;
    SidesPermute(members, KeyOf(boxes, cut.horizontal), cut.gap.at);
    SidesOfGap(boxes, members, cut);
    UprightWithin(boxes, members, near);
    UprightWithin(boxes, members, far);
    forall a, b | a in near && b in far ensures Span(boxes, cut.horizontal, a).1 < Span(boxes, cut.horizontal, b).0 {
    }
  }

  /** A cut leaves members on both sides, the near ones ending where the far ones have not begun. */
  lemma CutSeparates(boxes: seq<OrderBox>, members: seq<nat>, policy: Policy)
    requires Upright(boxes, members) && CutOf(boxes, members, policy).Some?
    ensures Separates(boxes, members, CutOf(boxes, members, policy).value)
  {
    if members == [] { NoCutOfNothing(boxes, policy); }
    CutIsGap(boxes, members, policy);
    GapSeparates(boxes, members, CutOf(boxes, members, policy).value);
  }

  function Order(boxes: seq<OrderBox>, members: seq<nat>, policy: Policy): seq<nat>
    requires Upright(boxes, members)
    decreases |members|
  {
    var cut := CutOf(boxes, members, policy);
    if |members| <= 1 then members
    else if cut.None? then Sorted(members, KeyOf(boxes, true))
    else
      CutSeparates(boxes, members, policy);
      Order(boxes, Near(boxes, members, cut.value), policy) + Order(boxes, Far(boxes, members, cut.value), policy)
  }

  lemma {:induction false} OrderPermutes(boxes: seq<OrderBox>, members: seq<nat>, policy: Policy)
    requires Upright(boxes, members)
    ensures multiset(Order(boxes, members, policy)) == multiset(members)
    ensures |Order(boxes, members, policy)| == |members|
    decreases |members|
  {
    var cut := CutOf(boxes, members, policy);
    if |members| <= 1 {
    } else if cut.None? {
      SortedPermutes(members, KeyOf(boxes, true));
    } else {
      CutSeparates(boxes, members, policy);
      SidesPermute(members, KeyOf(boxes, cut.value.horizontal), cut.value.gap.at);
      OrderPermutes(boxes, Near(boxes, members, cut.value), policy);
      OrderPermutes(boxes, Far(boxes, members, cut.value), policy);
    }
  }

  /** Why one box may come before another: it lies wholly above, wholly to the left, or starts no later. */
  predicate MayPrecede(a: OrderBox, b: OrderBox) {
    a.bottom < b.top || a.right < b.left || !Less((b.top, b.left), (a.top, a.left))
  }

  ghost predicate HasReason(boxes: seq<OrderBox>, a: nat, b: nat) {
    a < |boxes| && b < |boxes| && MayPrecede(boxes[a], boxes[b])
  }

  lemma UncutReadsForward(boxes: seq<OrderBox>, members: seq<nat>, i: nat, j: nat)
    requires Upright(boxes, members) && i < j < |Sorted(members, KeyOf(boxes, true))|
    ensures var s := Sorted(members, KeyOf(boxes, true)); HasReason(boxes, s[i], s[j])
  {
    var key := KeyOf(boxes, true);
    var s := Sorted(members, key);
    SortedAscends(members, key);
    SortedPermutes(members, key);
    MembersAgree(s, members, s[i]);
    MembersAgree(s, members, s[j]);
    assert !Less(key(s[j]), key(s[i]));
  }

  lemma AcrossReadsForward(boxes: seq<OrderBox>, members: seq<nat>, policy: Policy, a: nat, b: nat)
    requires Upright(boxes, members) && CutOf(boxes, members, policy).Some?
    requires a in Near(boxes, members, CutOf(boxes, members, policy).value)
    requires b in Far(boxes, members, CutOf(boxes, members, policy).value)
    ensures HasReason(boxes, a, b)
  {
    CutSeparates(boxes, members, policy);
    hide CutOf, Near, Far;
    SeparatedPrecede(boxes, CutOf(boxes, members, policy).value.horizontal, a, b);
  }

  /** Whatever the cuts, a box comes before another only with a reason. */
  lemma {:induction false} OrderReadsForward(boxes: seq<OrderBox>, members: seq<nat>, policy: Policy, i: nat, j: nat)
    requires Upright(boxes, members)
    requires i < j < |Order(boxes, members, policy)|
    ensures HasReason(boxes, Order(boxes, members, policy)[i], Order(boxes, members, policy)[j])
    decreases |members|
  {
    hide CutOf, Near, Far, Upright, HasReason, Sorted;
    var cut := CutOf(boxes, members, policy);
    OrderPermutes(boxes, members, policy);
    if |members| > 1 && cut.None? {
      UncutReadsForward(boxes, members, i, j);
    } else if |members| > 1 {
      CutSeparates(boxes, members, policy);
      var near, far := Near(boxes, members, cut.value), Far(boxes, members, cut.value);
      var first, second := Order(boxes, near, policy), Order(boxes, far, policy);
      assert Order(boxes, members, policy) == first + second;
      hide Order;
      if j < |first| {
        OrderReadsForward(boxes, near, policy, i, j);
      } else if i >= |first| {
        OrderReadsForward(boxes, far, policy, i - |first|, j - |first|);
      } else {
        OrderPermutes(boxes, near, policy);
        OrderPermutes(boxes, far, policy);
        MembersAgree(first, near, first[i]);
        MembersAgree(second, far, second[j - |first|]);
        AcrossReadsForward(boxes, members, policy, first[i], second[j - |first|]);
      }
    }
  }

  lemma SeparatedPrecede(boxes: seq<OrderBox>, horizontal: bool, a: nat, b: nat)
    requires a < |boxes| && b < |boxes| && Span(boxes, horizontal, a).1 < Span(boxes, horizontal, b).0
    ensures MayPrecede(boxes[a], boxes[b])
  {
  }

  function UpTo(n: nat): (r: seq<nat>)
    ensures |r| == n && forall k :: 0 <= k < n ==> r[k] == k
  {
    seq(n, k => k)
  }

  ghost predicate AllUpright(boxes: seq<OrderBox>) {
    forall i :: 0 <= i < |boxes| ==> boxes[i].left <= boxes[i].right && boxes[i].top <= boxes[i].bottom
  }

  lemma AllAreUpright(boxes: seq<OrderBox>)
    requires AllUpright(boxes)
    ensures Upright(boxes, UpTo(|boxes|))
  {
  }

  function XyCutOrder(boxes: seq<OrderBox>, policy: Policy): seq<nat>
    requires AllUpright(boxes)
  {
    AllAreUpright(boxes);
    Order(boxes, UpTo(|boxes|), policy)
  }

  /** Every box exactly once, and nothing is read before a box that starts above it and overlaps it
      horizontally: within one column the order is downward, however the page was cut. */
  lemma ReadsDownColumns(boxes: seq<OrderBox>, policy: Policy)
    requires AllUpright(boxes)
    ensures
      var order := XyCutOrder(boxes, policy);
      && multiset(order) == multiset(UpTo(|boxes|))
      && (forall i :: 0 <= i < |order| ==> order[i] < |boxes|)
      && (forall i, j :: 0 <= i < j < |order| ==> !ReadsAgainst(boxes[order[i]], boxes[order[j]]))
  {
    var order := XyCutOrder(boxes, policy);
    AllAreUpright(boxes);
    OrderPermutes(boxes, UpTo(|boxes|), policy);
    forall i | 0 <= i < |order| ensures order[i] < |boxes| { MembersAgree(order, UpTo(|boxes|), order[i]); }
    forall i, j | 0 <= i < j < |order| ensures !ReadsAgainst(boxes[order[i]], boxes[order[j]]) {
      OrderReadsForward(boxes, UpTo(|boxes|), policy, i, j);
    }
  }

  /** b starts strictly above a and the two overlap horizontally. */
  predicate ReadsAgainst(a: OrderBox, b: OrderBox) {
    b.top < a.top && b.left <= a.right && a.left <= b.right
  }

  /** Where no gap counts as a gutter, all the cutting comes to one stable sort by top, then left. */
  lemma {:induction false} GutterlessIsSort(boxes: seq<OrderBox>, members: seq<nat>, policy: Policy)
    requires Upright(boxes, members)
    requires forall m, g :: !policy.gutter(boxes, m, g)
    ensures Order(boxes, members, policy) == Sorted(members, KeyOf(boxes, true))
    decreases |members|
  {
    var cut := CutOf(boxes, members, policy);
    if |members| <= 1 {
      if members != [] { assert members[1..] == []; }
    } else if cut.Some? {
      CutSeparates(boxes, members, policy);
      GutterlessIsSort(boxes, Near(boxes, members, cut.value), policy);
      GutterlessIsSort(boxes, Far(boxes, members, cut.value), policy);
      SortedBySides(members, KeyOf(boxes, true), cut.value.gap.at);
    }
  }

  // ----- The program.

  lemma SortedLength<T>(s: seq<T>, key: T -> Key)
    ensures |Sorted(s, key)| == |s|
  {
    SortedPermutes(s, key);
    assert |multiset(Sorted(s, key))| == |multiset(s)|;
  }

  method WidestGap(boxes: seq<OrderBox>, members: seq<nat>, horizontal: bool) returns (best: Option<Gap>)
    requires members != []
    ensures best == GapOf(boxes, members, horizontal)
  {
    hide Sorted, Span;
    var raw := Spans(boxes, members, horizontal);
    var spans := Sorted(raw, (s: Key) => s);
    SortedLength(raw, (s: Key) => s);
    best := None;
    var bandEnd := spans[0].1;
    for n := 0 to |spans|
      invariant best == BestGap(spans, n) && bandEnd == BandEnd(spans, n)
    {
      var (start, finish) := spans[n];
      if start > bandEnd && (best.None? || start - bandEnd > best.value.width) {
        best := Some(Gap(start - bandEnd, bandEnd));
      }
      bandEnd := MaxReal(bandEnd, finish);
    }
  }

  method OrderMembers(boxes: seq<OrderBox>, members: seq<nat>, policy: Policy, ordered: seq<nat>) returns (out: seq<nat>)
    requires Upright(boxes, members)
    ensures out == ordered + Order(boxes, members, policy)
    decreases |members|
  {
    hide GapOf, Sorted, Near, Far, Span, KeyOf, Upright;
    if |members| <= 1 { return ordered + members; }
    var yGap := WidestGap(boxes, members, true);
    var xGap := WidestGap(boxes, members, false);
    if xGap.Some? && !policy.gutter(boxes, members, xGap.value) { xGap := None; }
    var horizontal := yGap.Some? && (xGap.None? || yGap.value.width >= policy.bandOverGutter * xGap.value.width);
    var gap := if horizontal then yGap else xGap;
    if gap.Some? {
      var cut := Cut(horizontal, gap.value);
      assert CutOf(boxes, members, policy) == Some(cut);
      CutSeparates(boxes, members, policy);
      var before, after := SplitMembers(boxes, members, cut);
      out := OrderMembers(boxes, before, policy, ordered);
      out := OrderMembers(boxes, after, policy, out);
      return;
    }
    return ordered + Sorted(members, KeyOf(boxes, true));
  }

  method SplitMembers(boxes: seq<OrderBox>, members: seq<nat>, cut: Cut) returns (before: seq<nat>, after: seq<nat>)
    ensures before == Near(boxes, members, cut) && after == Far(boxes, members, cut)
  {
    before, after := [], [];
    var key := KeyOf(boxes, cut.horizontal);
    for n := 0 to |members|
      invariant before == Side(members[..n], key, cut.gap.at, true)
      invariant after == Side(members[..n], key, cut.gap.at, false)
    {
      assert members[..n + 1] == members[..n] + [members[n]];
      SideGrows(members[..n], members[n], key, cut.gap.at, true);
      SideGrows(members[..n], members[n], key, cut.gap.at, false);
      if key(members[n]).0 <= cut.gap.at { before := before + [members[n]]; } else { after := after + [members[n]]; }
    }
    assert members[..|members|] == members;
  }
}
