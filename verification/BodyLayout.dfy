/** body_reading_order as a whole (src/document_reading_order.cpp). */
module BodyLayout {
  import opened Bytes
  import opened Sorting
  import opened XyCut
  import opened BodyChains
  import opened BodyOrder

  // ----- Chains by page.

  function OnPage(chains: seq<Chain>, page: int): nat -> bool {
    (c: nat) => c < |chains| && PageOf(chains[c]) == page
  }

  function MembersOf(chains: seq<Chain>, page: int): seq<nat> {
    Select(UpTo(|chains|), OnPage(chains, page))
  }

  function ItemsIn(chains: seq<Chain>, members: seq<nat>): nat {
    if members == [] then 0
    else (if members[0] < |chains| then |chains[members[0]].positions| else 0) + ItemsIn(chains, members[1..])
  }

  /** Enough of a page's items have a box for the cut to mean anything. */
  predicate EnoughGeometry(chains: seq<Chain>, members: seq<nat>) {
    var items, placed := ItemsIn(chains, members), |Select(members, IsPlaced(chains))|;
    items > 0 && placed as real >= MINIMUM_PLACED_SHARE * items as real
  }

  function IsPlaced(chains: seq<Chain>): nat -> bool {
    (c: nat) => c < |chains| && chains[c].place.Some?
  }

  ghost function PlacedAmong(chains: seq<Chain>, members: seq<nat>): nat {
    if members == [] then 0
    else (if members[0] < |chains| && chains[members[0]].place.Some? then 1 else 0) + PlacedAmong(chains, members[1..])
  }

  lemma {:induction false} CountsAre(chains: seq<Chain>, members: seq<nat>)
    ensures |Select(members, IsPlaced(chains))| == PlacedAmong(chains, members)
    ensures ItemsIn(chains, members) == |Gather(chains, members)|
  {
    if members != [] { CountsAre(chains, members[1..]); }
  }

  /** There is enough geometry when the chains have items, and at least half as many boxes as items. */
  lemma EnoughIff(chains: seq<Chain>, members: seq<nat>)
    ensures EnoughGeometry(chains, members) <==>
      Gather(chains, members) != [] && 2 * PlacedAmong(chains, members) >= |Gather(chains, members)|
  {
    CountsAre(chains, members);
    hide Gather, PlacedAmong, ItemsIn, Select;
  }

  lemma PagePlaced(chains: seq<Chain>, page: int)
    requires AllSound(chains) && page != 0
    ensures Placed(chains, MembersOf(chains, page))
  {
    SelectIs(UpTo(|chains|), OnPage(chains, page));
  }

  /** A page's chains: cut where there is enough geometry, left in body order otherwise. */
  function PageResult(chains: seq<Chain>, page: int, gutter: Gutter): seq<nat>
    requires AllSound(chains)
  {
    var members := MembersOf(chains, page);
    if page != 0 && EnoughGeometry(chains, members) then PagePlaced(chains, page); PageOrder(chains, members, gutter) else members
  }

  function Laid(chains: seq<Chain>, pages: seq<int>, gutter: Gutter): seq<nat>
    requires AllSound(chains)
  {
    if pages == [] then [] else PageResult(chains, pages[0], gutter) + Laid(chains, pages[1..], gutter)
  }

  ghost predicate Ascending(pages: seq<int>) {
    forall i, j :: 0 <= i < j < |pages| ==> pages[i] < pages[j]
  }

  lemma {:induction false} UpToCounts(n: nat, x: nat)
    ensures multiset(UpTo(n))[x] == if x < n then 1 else 0
  {
    if n > 0 {
      UpToCounts(n - 1, x);
      assert UpTo(n) == UpTo(n - 1) + [n - 1];
    }
  }

  lemma MemberCounts(chains: seq<Chain>, page: int, x: nat)
    ensures multiset(MembersOf(chains, page))[x] == if OnPage(chains, page)(x) then 1 else 0
  {
    SelectCounts(UpTo(|chains|), OnPage(chains, page), x);
    UpToCounts(|chains|, x);
  }

  lemma PageCounts(chains: seq<Chain>, page: int, gutter: Gutter, x: nat)
    requires AllSound(chains)
    ensures multiset(PageResult(chains, page, gutter))[x] == if OnPage(chains, page)(x) then 1 else 0
  {
    var members := MembersOf(chains, page);
    MemberCounts(chains, page, x);
    if page != 0 && EnoughGeometry(chains, members) {
      PagePlaced(chains, page);
      forall y: nat { MemberCounts(chains, page, y); }
      PagePermutes(chains, members, gutter);
    }
  }

  lemma {:induction false} LaidCounts(chains: seq<Chain>, pages: seq<int>, gutter: Gutter, x: nat)
    requires AllSound(chains) && Ascending(pages)
    ensures multiset(Laid(chains, pages, gutter))[x] == if x < |chains| && PageOf(chains[x]) in pages then 1 else 0
  {
    hide PageResult, PageOf, AllSound;
    if pages != [] {
      LaidCounts(chains, pages[1..], gutter, x);
      PageCounts(chains, pages[0], gutter, x);
      assert pages == [pages[0]] + pages[1..];
    }
  }

  /** The pages that have chains, ascending. */
  ghost predicate ListsPages(chains: seq<Chain>, pages: seq<int>) {
    Ascending(pages) && forall c :: 0 <= c < |chains| ==> PageOf(chains[c]) in pages
  }

  lemma LaidPermutes(chains: seq<Chain>, pages: seq<int>, gutter: Gutter)
    requires AllSound(chains) && ListsPages(chains, pages)
    ensures multiset(Laid(chains, pages, gutter)) == multiset(UpTo(|chains|))
  {
    forall x: nat ensures multiset(Laid(chains, pages, gutter))[x] == multiset(UpTo(|chains|))[x] {
      LaidCounts(chains, pages, gutter, x);
      UpToCounts(|chains|, x);
    }
  }

  lemma LaidKnown(chains: seq<Chain>, pages: seq<int>, gutter: Gutter, i: nat)
    requires AllSound(chains) && Ascending(pages) && i < |Laid(chains, pages, gutter)|
    ensures var c := Laid(chains, pages, gutter)[i]; c < |chains| && PageOf(chains[c]) in pages
  {
    hide Ascending, PageOf;
    var c := Laid(chains, pages, gutter)[i];
    assert c in multiset(Laid(chains, pages, gutter));
    LaidCounts(chains, pages, gutter, c);
  }

  lemma FirstPage(chains: seq<Chain>, page: int, gutter: Gutter, i: nat)
    requires AllSound(chains) && i < |PageResult(chains, page, gutter)|
    ensures OnPage(chains, page)(PageResult(chains, page, gutter)[i])
  {
    var c := PageResult(chains, page, gutter)[i];
    PageCounts(chains, page, gutter, c);
    hide PageResult;
    assert c in multiset(PageResult(chains, page, gutter));
  }

  lemma {:induction false} LaidAscends(chains: seq<Chain>, pages: seq<int>, gutter: Gutter, i: nat, j: nat)
    requires AllSound(chains) && Ascending(pages)
    requires i <= j < |Laid(chains, pages, gutter)|
    requires Laid(chains, pages, gutter)[i] < |chains| && Laid(chains, pages, gutter)[j] < |chains|
    ensures PageOf(chains[Laid(chains, pages, gutter)[i]]) <= PageOf(chains[Laid(chains, pages, gutter)[j]])
  {
    hide AllSound, PageResult;
    var first := PageResult(chains, pages[0], gutter);
    LaidKnown(chains, pages, gutter, j);
    if i < |first| {
      FirstPage(chains, pages[0], gutter, i);
    } else {
      LaidAscends(chains, pages[1..], gutter, i - |first|, j - |first|);
    }
  }

  // ----- Positions chain by chain.

  function PositionsOf(chains: seq<Chain>, c: nat): seq<nat> {
    if c < |chains| then chains[c].positions else []
  }

  lemma {:induction false} GatherConcat(chains: seq<Chain>, a: seq<nat>, b: seq<nat>)
    ensures Gather(chains, a + b) == Gather(chains, a) + Gather(chains, b)
  {
    if a == [] {
      assert a + b == b;
    } else {
      assert (a + b)[1..] == a[1..] + b;
      GatherConcat(chains, a[1..], b);
    }
  }

  lemma GatherWithout(chains: seq<Chain>, s: seq<nat>, k: nat)
    requires k < |s|
    ensures multiset(Gather(chains, s)) == multiset(PositionsOf(chains, s[k])) + multiset(Gather(chains, Without(s, k)))
  {
    assert s == s[..k] + ([s[k]] + s[k + 1..]);
    GatherConcat(chains, s[..k], [s[k]] + s[k + 1..]);
    GatherConcat(chains, [s[k]], s[k + 1..]);
    GatherConcat(chains, s[..k], s[k + 1..]);
    assert [s[k]][1..] == [];
    assert Gather(chains, [s[k]]) == PositionsOf(chains, s[k]);
    hide Gather;
  }

  lemma {:induction false} GatherPermutes(chains: seq<Chain>, a: seq<nat>, b: seq<nat>)
    requires multiset(a) == multiset(b)
    ensures multiset(Gather(chains, a)) == multiset(Gather(chains, b))
    decreases |a|
  {
    if a == [] {
      assert |multiset(b)| == 0;
      assert b == [];
    } else {
      MembersAgree(a, b, a[0]);
      var k :| 0 <= k < |b| && b[k] == a[0];
      WithoutOne(a, 0);
      WithoutOne(b, k);
      WithoutShorter(a, 0);
      GatherWithout(chains, a, 0);
      GatherWithout(chains, b, k);
      hide Without, Gather;
      assert multiset(Without(a, 0)) == multiset(a) - multiset{a[0]};
      assert multiset(Without(b, k)) == multiset(b) - multiset{a[0]};
      GatherPermutes(chains, Without(a, 0), Without(b, k));
    }
  }

  lemma GatherOne(chains: seq<Chain>, c: nat)
    requires c < |chains|
    ensures Gather(chains, [c]) == chains[c].positions
  {
    assert [c][1..] == [];
    assert Gather(chains, []) == [];
  }

  lemma {:induction false} GatherAll(chains: seq<Chain>, n: nat)
    requires n <= |chains|
    ensures Gather(chains, UpTo(n)) == Flat(chains[..n])
  {
    if n == 0 {
      assert UpTo(0) == [] && chains[..0] == [];
    } else {
      assert chains[..n][..n - 1] == chains[..n - 1];
      hide Gather;
      assert UpTo(n) == UpTo(n - 1) + [n - 1];
      GatherAll(chains, n - 1);
      GatherConcat(chains, UpTo(n - 1), [n - 1]);
      GatherOne(chains, n - 1);
    }
  }

  /** Where position i of the gathered sequence comes from: a place in the order and one in that chain. */
  function Locate(chains: seq<Chain>, order: seq<nat>, i: nat): (r: (nat, nat))
    requires i < |Gather(chains, order)|
    ensures r.0 < |order| && order[r.0] < |chains| && r.1 < |chains[order[r.0]].positions|
    ensures Gather(chains, order)[i] == chains[order[r.0]].positions[r.1]
  {
    var first := PositionsOf(chains, order[0]);
    if i < |first| then (0, i)
    else var r := Locate(chains, order[1..], i - |first|); (r.0 + 1, r.1)
  }

  lemma GatherHead(chains: seq<Chain>, order: seq<nat>)
    requires order != []
    ensures Gather(chains, order) == PositionsOf(chains, order[0]) + Gather(chains, order[1..])
  {
  }

  lemma LocateStep(chains: seq<Chain>, order: seq<nat>, i: nat)
    requires i < |Gather(chains, order)|
    ensures order != [] && Gather(chains, order) == PositionsOf(chains, order[0]) + Gather(chains, order[1..])
    ensures
      var n := |PositionsOf(chains, order[0])|;
      if i < n then Locate(chains, order, i) == (0, i)
      else var r := Locate(chains, order[1..], i - n); Locate(chains, order, i) == (r.0 + 1, r.1)
  {
    assert order != [] by { assert Gather(chains, []) == []; }
    GatherHead(chains, order);
  }

  lemma {:induction false} LocateForward(chains: seq<Chain>, order: seq<nat>, i: nat, j: nat)
    requires i <= j < |Gather(chains, order)|
    ensures Locate(chains, order, i).0 <= Locate(chains, order, j).0
    decreases |order|
  {
    hide Gather, Locate, PositionsOf;
    LocateStep(chains, order, i);
    LocateStep(chains, order, j);
    var n := |PositionsOf(chains, order[0])|;
    if i >= n { LocateForward(chains, order[1..], i - n, j - n); }
  }

  lemma {:induction false} LocateBack(chains: seq<Chain>, order: seq<nat>, i: nat)
    requires i < |Gather(chains, order)| && Locate(chains, order, i).1 > 0
    ensures i > 0 && Gather(chains, order)[i - 1] == chains[order[Locate(chains, order, i).0]].positions[Locate(chains, order, i).1 - 1]
  {
    hide Gather, Locate, PositionsOf;
    LocateStep(chains, order, i);
    var first := PositionsOf(chains, order[0]);
    if i >= |first| {
      LocateBack(chains, order[1..], i - |first|);
      LocateStep(chains, order, i - 1);
    } else {
      FirstOfChain(chains, order, i);
    }
  }

  lemma FirstOfChain(chains: seq<Chain>, order: seq<nat>, i: nat)
    requires 0 < i < |Gather(chains, order)| && order != [] && i < |PositionsOf(chains, order[0])|
    ensures Locate(chains, order, i) == (0, i) && order[0] < |chains|
    ensures Gather(chains, order)[i - 1] == chains[order[0]].positions[i - 1]
  {
  }

  // ----- The whole order.

  ghost predicate AllPlacesSound(entries: seq<Entry>) {
    forall i :: 0 <= i < |entries| ==> Sound(entries[i].place)
  }

  /** The page a position belongs to: its head's, or 0 where the head has no place. */
  function PageAt(entries: seq<Entry>, p: nat): int
    requires p < |entries|
  {
    var e := entries[HeadOf(entries, p)];
    if e.place.Some? then e.place.value.page else 0
  }

  /** The order runs page by page, and each riding item stands right behind another of its chain, in body order. */
  ghost predicate InPageOrder(entries: seq<Entry>, order: seq<nat>) {
    && (forall i :: 0 <= i < |order| ==> order[i] < |entries|)
    && (forall i, j :: 0 <= i < j < |order| ==> PageAt(entries, order[i]) <= PageAt(entries, order[j]))
    && (forall i :: 0 <= i < |order| && HeadOf(entries, order[i]) != order[i] ==>
          i > 0 && order[i - 1] < order[i] && HeadOf(entries, order[i - 1]) == HeadOf(entries, order[i]))
  }

  ghost predicate IsLayout(entries: seq<Entry>, chains: seq<Chain>, pages: seq<int>) {
    Chained(entries, |entries|, chains) && multiset(Flat(chains)) == multiset(UpTo(|entries|)) && ListsPages(chains, pages)
  }

  lemma ChainsSound(entries: seq<Entry>, chains: seq<Chain>)
    requires AllPlacesSound(entries) && Chained(entries, |entries|, chains)
    ensures AllSound(chains)
  {
    forall c | 0 <= c < |chains| ensures Sound(chains[c].place) && chains[c].positions != [] {
      assert IsChain(entries, |entries|, chains[c]);
      assert chains[c].positions[0] < |entries|;
    }
  }

  lemma LayoutPermutes(entries: seq<Entry>, chains: seq<Chain>, pages: seq<int>, gutter: Gutter)
    requires AllSound(chains) && IsLayout(entries, chains, pages)
    ensures multiset(Gather(chains, Laid(chains, pages, gutter))) == multiset(UpTo(|entries|))
  {
    LaidPermutes(chains, pages, gutter);
    GatherPermutes(chains, Laid(chains, pages, gutter), UpTo(|chains|));
    GatherAll(chains, |chains|);
    assert chains[..|chains|] == chains;
  }

  lemma ChainAt(entries: seq<Entry>, chains: seq<Chain>, c: nat, k: nat)
    requires Chained(entries, |entries|, chains) && c < |chains| && k < |chains[c].positions|
    ensures
      var p := chains[c].positions[k];
      && p < |entries| && PageAt(entries, p) == PageOf(chains[c]) && HeadOf(entries, p) == chains[c].positions[0]
      && (k > 0 ==> chains[c].positions[k - 1] < p)
  {
    assert IsChain(entries, |entries|, chains[c]);
  }

  lemma GatheredAt(entries: seq<Entry>, chains: seq<Chain>, laid: seq<nat>, i: nat)
    requires Chained(entries, |entries|, chains) && i < |Gather(chains, laid)|
    ensures
      var (p, r) := (Gather(chains, laid)[i], Locate(chains, laid, i));
      p < |entries| && PageAt(entries, p) == PageOf(chains[laid[r.0]])
  {
    var (a, k) := Locate(chains, laid, i);
    hide Chained, Gather, Locate;
    ChainAt(entries, chains, laid[a], k);
  }

  lemma GatheredRider(entries: seq<Entry>, chains: seq<Chain>, laid: seq<nat>, i: nat)
    requires Chained(entries, |entries|, chains) && i < |Gather(chains, laid)|
    requires Gather(chains, laid)[i] < |entries| && HeadOf(entries, Gather(chains, laid)[i]) != Gather(chains, laid)[i]
    ensures i > 0 && Gather(chains, laid)[i - 1] < Gather(chains, laid)[i]
    ensures HeadOf(entries, Gather(chains, laid)[i - 1]) == HeadOf(entries, Gather(chains, laid)[i])
  {
    var (a, k) := Locate(chains, laid, i);
    hide Chained, HeadOf, PageAt;
    ChainAt(entries, chains, laid[a], k);
    LocateBack(chains, laid, i);
    ChainAt(entries, chains, laid[a], k - 1);
  }

  lemma GatheredForward(entries: seq<Entry>, chains: seq<Chain>, pages: seq<int>, gutter: Gutter, i: nat, j: nat)
    requires AllSound(chains) && IsLayout(entries, chains, pages)
    requires i < j < |Gather(chains, Laid(chains, pages, gutter))|
    requires Gather(chains, Laid(chains, pages, gutter))[i] < |entries| && Gather(chains, Laid(chains, pages, gutter))[j] < |entries|
    ensures PageAt(entries, Gather(chains, Laid(chains, pages, gutter))[i]) <= PageAt(entries, Gather(chains, Laid(chains, pages, gutter))[j])
  {
    var laid := Laid(chains, pages, gutter);
    GatheredAt(entries, chains, laid, i);
    GatheredAt(entries, chains, laid, j);
    LocateForward(chains, laid, i, j);
    hide AllSound, Chained, Gather, Laid, PageAt, PageOf, Flat;
    LaidAscends(chains, pages, gutter, Locate(chains, laid, i).0, Locate(chains, laid, j).0);
  }

  lemma RidersFollow(entries: seq<Entry>, chains: seq<Chain>, laid: seq<nat>)
    requires Chained(entries, |entries|, chains)
    requires forall i :: 0 <= i < |Gather(chains, laid)| ==> Gather(chains, laid)[i] < |entries|
    ensures
      var order := Gather(chains, laid);
      forall i :: 0 <= i < |order| && HeadOf(entries, order[i]) != order[i] ==>
        i > 0 && order[i - 1] < order[i] && HeadOf(entries, order[i - 1]) == HeadOf(entries, order[i])
  {
    var order := Gather(chains, laid);
    hide Chained, Gather, HeadOf;
    forall i | 0 <= i < |order| && HeadOf(entries, order[i]) != order[i]
      ensures i > 0 && order[i - 1] < order[i] && HeadOf(entries, order[i - 1]) == HeadOf(entries, order[i])
    {
      GatheredRider(entries, chains, laid, i);
    }
  }

  lemma LayoutInPageOrder(entries: seq<Entry>, chains: seq<Chain>, pages: seq<int>, gutter: Gutter)
    requires AllSound(chains) && IsLayout(entries, chains, pages)
    ensures InPageOrder(entries, Gather(chains, Laid(chains, pages, gutter)))
  {
    hide AllSound, Chained, Gather, Laid, HeadOf, PageAt, Flat, ListsPages, IsLayout;
    var laid := Laid(chains, pages, gutter);
    LayoutAscends(entries, chains, pages, gutter, laid);
    LayoutChained(entries, chains, pages);
    RidersFollow(entries, chains, laid);
  }

  lemma LayoutChained(entries: seq<Entry>, chains: seq<Chain>, pages: seq<int>)
    requires IsLayout(entries, chains, pages)
    ensures Chained(entries, |entries|, chains)
  {
    hide Chained, Flat, ListsPages;
  }

  lemma LayoutAscends(entries: seq<Entry>, chains: seq<Chain>, pages: seq<int>, gutter: Gutter, laid: seq<nat>)
    requires AllSound(chains) && IsLayout(entries, chains, pages) && laid == Laid(chains, pages, gutter)
    ensures forall i :: 0 <= i < |Gather(chains, laid)| ==> Gather(chains, laid)[i] < |entries|
    ensures forall i, j :: 0 <= i < j < |Gather(chains, laid)| ==>
      PageAt(entries, Gather(chains, laid)[i]) <= PageAt(entries, Gather(chains, laid)[j])
  {
    hide AllSound, Chained, Gather, Laid, HeadOf, PageAt, Locate, PageOf, Ascending, Flat, ListsPages, IsLayout;
    LayoutChained(entries, chains, pages);
    var order := Gather(chains, laid);
    forall i | 0 <= i < |order| ensures order[i] < |entries| {
      GatheredAt(entries, chains, laid, i);
    }
    forall i, j | 0 <= i < j < |order| ensures PageAt(entries, order[i]) <= PageAt(entries, order[j]) {
      GatheredForward(entries, chains, pages, gutter, i, j);
    }
  }

  // ----- The layout stands as the gaps call for.

  /** On its page c is to be read before e: by the gaps where the page is cut, by body order where it is not. */
  ghost predicate ReadsBefore(chains: seq<Chain>, page: int, gutter: Gutter, c: nat, e: nat) {
    var members := MembersOf(chains, page);
    if page != 0 && EnoughGeometry(chains, members) then PartReads(chains, members, gutter, c, e)
    else c in members && e in members && c < e
  }

  lemma {:induction false} SelectInOrder(s: seq<nat>, p: nat -> bool, x: nat, y: nat)
    requires Precedes(s, x, y) && p(x) && p(y)
    ensures Precedes(Select(s, p), x, y)
  {
    var i, j :| 0 <= i < j < |s| && s[i] == x && s[j] == y;
    var first, rest := if p(s[0]) then [s[0]] else [], Select(s[1..], p);
    assert Select(s, p) == first + rest;
    SelectIs(s[1..], p);
    if i == 0 {
      assert s[1..][j - 1] == y;
    } else {
      assert s[1..][i - 1] == x && s[1..][j - 1] == y;
      SelectInOrder(s[1..], p, x, y);
    }
    hide Select, Precedes;
    PrecedesConcat(first, rest, x, y);
  }

  lemma PageResultReads(chains: seq<Chain>, page: int, gutter: Gutter, c: nat, e: nat)
    requires AllSound(chains) && ReadsBefore(chains, page, gutter, c, e)
    ensures Precedes(PageResult(chains, page, gutter), c, e)
  {
    hide Select, Precedes, PartReads, PageOrder, EnoughGeometry;
    var members := MembersOf(chains, page);
    if page != 0 && EnoughGeometry(chains, members) {
      PagePlaced(chains, page);
      PageByGaps(chains, members, gutter, c, e);
    } else {
      SelectIs(UpTo(|chains|), OnPage(chains, page));
      UpToInOrder(|chains|, c, e);
      SelectInOrder(UpTo(|chains|), OnPage(chains, page), c, e);
    }
  }

  lemma UpToInOrder(n: nat, c: nat, e: nat)
    requires c in UpTo(n) && e in UpTo(n) && c < e
    ensures Precedes(UpTo(n), c, e)
  {
    assert UpTo(n)[c] == c && UpTo(n)[e] == e;
  }

  lemma {:induction false} LaidReads(chains: seq<Chain>, pages: seq<int>, gutter: Gutter, page: int, c: nat, e: nat)
    requires AllSound(chains) && page in pages && ReadsBefore(chains, page, gutter, c, e)
    ensures Precedes(Laid(chains, pages, gutter), c, e)
  {
    hide PageResult, ReadsBefore, Precedes;
    PrecedesConcat(PageResult(chains, pages[0], gutter), Laid(chains, pages[1..], gutter), c, e);
    if page == pages[0] {
      PageResultReads(chains, page, gutter, c, e);
    } else {
      LaidReads(chains, pages[1..], gutter, page, c, e);
    }
  }

  /** What is gathered from a chain that stands before another stands before what is gathered from that one. */
  lemma {:induction false} GatherInOrder(chains: seq<Chain>, order: seq<nat>, c: nat, e: nat, x: nat, y: nat)
    requires Precedes(order, c, e) && x in PositionsOf(chains, c) && y in PositionsOf(chains, e)
    ensures Precedes(Gather(chains, order), x, y)
    decreases |order|
  {
    var i, j :| 0 <= i < j < |order| && order[i] == c && order[j] == e;
    GatherHead(chains, order);
    var first, rest := PositionsOf(chains, order[0]), Gather(chains, order[1..]);
    if i == 0 {
      assert order[1..][j - 1] == e;
      GatherHolds(chains, order[1..], e, y);
    } else {
      assert order[1..][i - 1] == c && order[1..][j - 1] == e;
      GatherInOrder(chains, order[1..], c, e, x, y);
    }
    hide Gather, Precedes, PositionsOf;
    PrecedesConcat(first, rest, x, y);
  }

  lemma {:induction false} GatherHolds(chains: seq<Chain>, order: seq<nat>, e: nat, y: nat)
    requires e in order && y in PositionsOf(chains, e)
    ensures y in Gather(chains, order)
  {
    GatherHead(chains, order);
    if order[0] != e {
      assert order == [order[0]] + order[1..];
      GatherHolds(chains, order[1..], e, y);
    }
  }

  /** Every item of c comes before every item of e where c is to be read before e. */
  ghost predicate LaidByGaps(chains: seq<Chain>, pages: seq<int>, gutter: Gutter, order: seq<nat>) {
    forall page, c, e :: page in pages && ReadsBefore(chains, page, gutter, c, e) ==>
      forall x, y :: x in PositionsOf(chains, c) && y in PositionsOf(chains, e) ==> Precedes(order, x, y)
  }

  lemma LayoutByGaps(chains: seq<Chain>, pages: seq<int>, gutter: Gutter)
    requires AllSound(chains)
    ensures LaidByGaps(chains, pages, gutter, Gather(chains, Laid(chains, pages, gutter)))
  {
    hide AllSound, Gather, Laid, ReadsBefore, PositionsOf, Precedes;
    var laid := Laid(chains, pages, gutter);
    forall page, c, e | page in pages && ReadsBefore(chains, page, gutter, c, e)
      ensures forall x, y :: x in PositionsOf(chains, c) && y in PositionsOf(chains, e) ==> Precedes(Gather(chains, laid), x, y)
    {
      LaidReads(chains, pages, gutter, page, c, e);
      forall x, y | x in PositionsOf(chains, c) && y in PositionsOf(chains, e) ensures Precedes(Gather(chains, laid), x, y) {
        GatherInOrder(chains, laid, c, e, x, y);
      }
    }
  }

  // ----- The program.

  ghost predicate Grouped(chains: seq<Chain>, n: nat, pages: map<int, seq<nat>>)
    requires n <= |chains|
  {
    && (forall p :: p in pages ==> pages[p] == Select(UpTo(n), OnPage(chains, p)))
    && (forall p :: p !in pages ==> Select(UpTo(n), OnPage(chains, p)) == [])
    && (forall c :: 0 <= c < n ==> PageOf(chains[c]) in pages)
  }

  lemma GroupStep(chains: seq<Chain>, n: nat, pages: map<int, seq<nat>>)
    requires n < |chains| && Grouped(chains, n, pages)
    ensures
      var p := PageOf(chains[n]);
      Grouped(chains, n + 1, pages[p := (if p in pages then pages[p] else []) + [n]])
  {
    hide Select, OnPage, UpTo, PageOf;
    forall p ensures Select(UpTo(n + 1), OnPage(chains, p)) == Select(UpTo(n), OnPage(chains, p)) + (if PageOf(chains[n]) == p then [n] else []) {
      MembersGrow(chains, n, p);
    }
  }

  lemma MembersGrow(chains: seq<Chain>, n: nat, p: int)
    requires n < |chains|
    ensures Select(UpTo(n + 1), OnPage(chains, p)) == Select(UpTo(n), OnPage(chains, p)) + (if PageOf(chains[n]) == p then [n] else [])
  {
    assert UpTo(n + 1) == UpTo(n) + [n];
    SelectGrows(UpTo(n), n, OnPage(chains, p));
    hide Select;
  }

  method GroupByPage(chains: seq<Chain>) returns (pages: map<int, seq<nat>>)
    ensures Grouped(chains, |chains|, pages)
  {
    pages := map[];
    assert UpTo(0) == [];
    for n := 0 to |chains|
      invariant Grouped(chains, n, pages)
    {
      GroupStep(chains, n, pages);
      hide Grouped;
      var p := PageOf(chains[n]);
      pages := pages[p := (if p in pages then pages[p] else []) + [n]];
    }
  }

  method CountItems(chains: seq<Chain>, members: seq<nat>) returns (enough: bool)
    requires forall c :: c in members ==> c < |chains|
    ensures enough <==> EnoughGeometry(chains, members)
  {
    var items, placed := 0, 0;
    for n := 0 to |members|
      invariant items + ItemsIn(chains, members[n..]) == ItemsIn(chains, members)
      invariant placed + |Select(members[n..], IsPlaced(chains))| == |Select(members, IsPlaced(chains))|
    {
      assert members[n..][1..] == members[n + 1..];
      assert members[n] in members;
      items := items + |chains[members[n]].positions|;
      if chains[members[n]].place.Some? { placed := placed + 1; }
    }
    enough := items > 0 && placed as real >= MINIMUM_PLACED_SHARE * items as real;
  }

  method OnePage(chains: seq<Chain>, page: int, members: seq<nat>, gutter: Gutter) returns (ordered: seq<nat>)
    requires AllSound(chains) && members == MembersOf(chains, page)
    ensures ordered == PageResult(chains, page, gutter)
  {
    SelectIs(UpTo(|chains|), OnPage(chains, page));
    hide EnoughGeometry, PageOrder;
    var enough := CountItems(chains, members);
    if page != 0 && enough {
      PagePlaced(chains, page);
      ordered := OrderPage(chains, members, gutter);
    } else {
      ordered := members;
    }
  }

  lemma {:induction false} LaidGrows(chains: seq<Chain>, pages: seq<int>, page: int, gutter: Gutter)
    requires AllSound(chains)
    ensures Laid(chains, pages + [page], gutter) == Laid(chains, pages, gutter) + PageResult(chains, page, gutter)
  {
    hide PageResult, AllSound;
    if pages == [] {
      assert pages + [page] == [page] && [page][1..] == [];
    } else {
      assert (pages + [page])[1..] == pages[1..] + [page];
      LaidGrows(chains, pages[1..], page, gutter);
    }
  }

  method GatherPositions(chains: seq<Chain>, order: seq<nat>, positions: seq<nat>) returns (out: seq<nat>)
    requires forall c :: c in order ==> c < |chains|
    ensures out == positions + Gather(chains, order)
  {
    out := positions;
    for n := 0 to |order|
      invariant out + Gather(chains, order[n..]) == positions + Gather(chains, order)
    {
      assert order[n..][1..] == order[n + 1..];
      assert order[n] in order;
      out := out + chains[order[n]].positions;
    }
  }

  /** Every body position once, page by page in ascending order, riders behind what they ride with, and each
      page laid out by its own cut. */
  method BodyReadingOrder(entries: seq<Entry>, gutter: Gutter) returns (order: seq<nat>)
    requires AllPlacesSound(entries)
    ensures multiset(order) == multiset(UpTo(|entries|)) && InPageOrder(entries, order)
    ensures exists chains, pages ::
        IsLayout(entries, chains, pages) && AllSound(chains) && order == Gather(chains, Laid(chains, pages, gutter))
        && LaidByGaps(chains, pages, gutter, order)
  {
    hide Gather, Laid, Chained, AllSound, InPageOrder, LaidByGaps, Ascending, Flat, OnPage, Select, PageResult, PageOf, UpTo;
    var chains := BuildChains(entries);
    ChainsSound(entries, chains);
    var groups := GroupByPage(chains);
    var left := groups.Keys;
    ghost var pages := [];
    order := [];
    NothingLaid(chains, gutter);
    while left != {}
      invariant left <= groups.Keys && Ascending(pages)
      invariant forall p :: p in groups.Keys <==> p in left || p in pages
      invariant forall p, q :: p in pages && q in left ==> p < q
      invariant order == Gather(chains, Laid(chains, pages, gutter))
      decreases |left|
    {
      var least := LeastOf(left);
      var page :| page in left && forall k :: k in left ==> page <= k;
      assert groups[page] == MembersOf(chains, page);
      var ordered := OnePage(chains, page, groups[page], gutter);
      PageInRange(chains, page, gutter);
      order := GatherPositions(chains, ordered, order);
      LaidGrows(chains, pages, page, gutter);
      GatherConcat(chains, Laid(chains, pages, gutter), ordered);
      AscendingGrows(pages, page);
      pages := pages + [page];
      left := left - {page};
    }
    assert IsLayout(entries, chains, pages);
    LayoutPermutes(entries, chains, pages, gutter);
    LayoutInPageOrder(entries, chains, pages, gutter);
    LayoutByGaps(chains, pages, gutter);
  }

  lemma NothingLaid(chains: seq<Chain>, gutter: Gutter)
    requires AllSound(chains)
    ensures Laid(chains, [], gutter) == [] && Gather(chains, []) == [] && Ascending([])
  {
  }

  lemma PageInRange(chains: seq<Chain>, page: int, gutter: Gutter)
    requires AllSound(chains)
    ensures forall c :: c in PageResult(chains, page, gutter) ==> c < |chains|
  {
    var s := PageResult(chains, page, gutter);
    forall c | c in s ensures c < |chains| {
      var i :| 0 <= i < |s| && s[i] == c;
      FirstPage(chains, page, gutter, i);
    }
  }

  lemma AscendingGrows(pages: seq<int>, page: int)
    requires Ascending(pages) && forall p :: p in pages ==> p < page
    ensures Ascending(pages + [page])
  {
    forall i | 0 <= i < |pages| ensures pages[i] < page {
      assert pages[i] in pages;
    }
  }
}
