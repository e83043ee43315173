/** The reading order of a page's lines, by the layout units they stand in (src/reading_order.cpp). */
module LineOrder {
  import opened Bytes
  import opened OcrPages
  import opened Sorting
  import opened XyCut
  import opened CutChoice
  import opened BodyChains
  import opened BodyLayout
  import opened TableLines

  /** A region's lines, or one line that no region holds, with the hull of their boxes. */
  datatype Unit = Unit(box: Box, lines: seq<nat>)

  ghost predicate OnRaster(page: Page) {
    forall i :: 0 <= i < |page.lines| ==> Coordinates(page.lines[i].polygon)
  }

  // ----- The units.

  function BoxAt(page: Page, i: nat): Box {
    if i < |page.lines| then BoundingBox(page.lines[i].polygon) else Box(0, 0, 0, 0)
  }

  function Grown(unit: Unit, box: Box, i: nat): Unit {
    Unit(if unit.lines == [] then box else Widened(unit.box, box), unit.lines + [i])
  }

  function AddLine(page: Page, units: seq<Unit>, i: nat): seq<Unit> {
    var home := Bound(page, i);
    if !Readable(page, i) then units
    else if home.Some? && home.value < |units| then units[home.value := Grown(units[home.value], BoxAt(page, i), i)]
    else units + [Unit(BoxAt(page, i), [i])]
  }

  /** One unit per region, then one per line outside all regions, after the first n lines. */
  function Units(page: Page, n: nat): (units: seq<Unit>)
    ensures |units| >= |page.regions|
  {
    if n == 0 then seq(|page.regions|, r requires 0 <= r < |page.regions| => Unit(page.regions[r].box, []))
    else AddLine(page, Units(page, n - 1), n - 1)
  }

  function LinesIn(units: seq<Unit>): seq<nat> {
    if units == [] then [] else LinesIn(units[..|units| - 1]) + units[|units| - 1].lines
  }

  lemma {:induction false} NoLines(units: seq<Unit>)
    requires forall u :: 0 <= u < |units| ==> units[u].lines == []
    ensures LinesIn(units) == []
  {
    if units != [] { NoLines(units[..|units| - 1]); }
  }

  lemma {:induction false} LinesInGrow(units: seq<Unit>, u: nat, grown: Unit, i: nat)
    requires u < |units| && grown.lines == units[u].lines + [i]
    ensures multiset(LinesIn(units[u := grown])) == multiset(LinesIn(units)) + multiset{i}
  {
    var last := |units| - 1;
    var before, updated := units[..last], units[u := grown];
    assert LinesIn(updated) == LinesIn(updated[..last]) + updated[last].lines;
    assert LinesIn(units) == LinesIn(before) + units[last].lines;
    hide LinesIn;
    if u < last {
      assert updated[..last] == before[u := grown];
      LinesInGrow(before, u, grown, i);
    } else {
      assert updated[..last] == before;
    }
  }

  lemma LinesInAppend(units: seq<Unit>, unit: Unit)
    ensures LinesIn(units + [unit]) == LinesIn(units) + unit.lines
  {
    assert (units + [unit])[..|units|] == units;
  }

  /** Every readable line is in the units once, and no other is. */
  lemma {:induction false} UnitsHoldLines(page: Page, n: nat, i: nat)
    ensures multiset(LinesIn(Units(page, n)))[i] == if i < n && Readable(page, i) then 1 else 0
  {
    hide Readable, Bound, Grown, LinesIn;
    if n == 0 {
      NoLines(Units(page, 0));
    } else {
      var units := Units(page, n - 1);
      UnitsHoldLines(page, n - 1, i);
      AddedLine(page, units, n - 1);
    }
  }

  lemma AddedLine(page: Page, units: seq<Unit>, i: nat)
    ensures multiset(LinesIn(AddLine(page, units, i))) == multiset(LinesIn(units)) + (if Readable(page, i) then multiset{i} else multiset{})
  {
    var home := Bound(page, i);
    hide Readable, Bound, LinesIn;
    if Readable(page, i) {
      if home.Some? && home.value < |units| {
        LinesInGrow(units, home.value, Grown(units[home.value], BoxAt(page, i), i), i);
      } else {
        LinesInAppend(units, Unit(BoxAt(page, i), [i]));
      }
    }
  }

  /** What a unit with lines holds: lines of one region, or one line of none; and the box that the lines'
      boxes span. */
  ghost predicate IsUnit(page: Page, unit: Unit, u: nat) {
    && (forall k :: 0 <= k < |unit.lines| ==> Readable(page, unit.lines[k]))
    && (forall k :: 0 <= k < |unit.lines| ==> Bound(page, unit.lines[k]) == if u < |page.regions| then Some(u) else None)
    && (u >= |page.regions| ==> |unit.lines| == 1)
    && (unit.lines != [] ==> unit.box == Hull(page, unit.lines))
  }

  function Hull(page: Page, lines: seq<nat>): Box
    requires lines != []
  {
    if |lines| == 1 then BoxAt(page, lines[0])
    else Widened(Hull(page, lines[..|lines| - 1]), BoxAt(page, lines[|lines| - 1]))
  }

  lemma {:induction false} UnitsAre(page: Page, n: nat)
    ensures forall u :: 0 <= u < |Units(page, n)| ==> IsUnit(page, Units(page, n)[u], u)
    decreases n
  {
    if n > 0 {
      hide IsUnit, AddLine;
      UnitsAre(page, n - 1);
      AddedUnits(page, Units(page, n - 1), n - 1);
    }
  }

  lemma AddedUnits(page: Page, units: seq<Unit>, i: nat)
    requires |units| >= |page.regions| && forall u :: 0 <= u < |units| ==> IsUnit(page, units[u], u)
    ensures forall u :: 0 <= u < |AddLine(page, units, i)| ==> IsUnit(page, AddLine(page, units, i)[u], u)
  {
    hide IsUnit, Readable, Bound, BoxAt, Grown;
    var home := Bound(page, i);
    if Readable(page, i) {
      if home.Some? {
        GrownIsUnit(page, units[home.value], home.value, i);
      } else {
        SingleIsUnit(page, |units|, i);
      }
    }
  }

  lemma GrownIsUnit(page: Page, unit: Unit, u: nat, i: nat)
    requires u < |page.regions| && IsUnit(page, unit, u) && Readable(page, i) && Bound(page, i) == Some(u)
    ensures IsUnit(page, Grown(unit, BoxAt(page, i), i), u)
  {
    hide Readable, Bound, BoxAt;
    assert (unit.lines + [i])[..|unit.lines|] == unit.lines;
  }

  lemma SingleIsUnit(page: Page, u: nat, i: nat)
    requires u >= |page.regions| && Readable(page, i) && Bound(page, i).None?
    ensures IsUnit(page, Unit(BoxAt(page, i), [i]), u)
  {
  }

  lemma {:induction false} HullUpright(page: Page, lines: seq<nat>)
    requires lines != [] && forall k :: 0 <= k < |lines| ==> Readable(page, lines[k])
    ensures Hull(page, lines).left <= Hull(page, lines).right && Hull(page, lines).top <= Hull(page, lines).bottom
  {
    if |lines| > 1 { HullUpright(page, lines[..|lines| - 1]); }
  }

  // ----- The units that carry text.

  function WithLines(units: seq<Unit>): seq<Unit> {
    if units == [] then []
    else WithLines(units[..|units| - 1]) + (if units[|units| - 1].lines == [] then [] else [units[|units| - 1]])
  }

  lemma {:induction false} WithLinesKeeps(units: seq<Unit>)
    ensures LinesIn(WithLines(units)) == LinesIn(units)
  {
    if units != [] {
      var before, last := units[..|units| - 1], units[|units| - 1];
      WithLinesKeeps(before);
      LinesInAppend(WithLines(before), last);
      assert LinesIn(units) == LinesIn(before) + last.lines;
      assert WithLines(units) == WithLines(before) + (if last.lines == [] then [] else [last]);
      hide LinesIn, WithLines;
      if last.lines == [] {
        assert WithLines(before) + [] == WithLines(before) && LinesIn(before) + [] == LinesIn(before);
      }
    }
  }

  lemma {:induction false} WithLinesFrom(units: seq<Unit>, u: nat) returns (from: nat)
    requires u < |WithLines(units)|
    ensures WithLines(units)[u].lines != [] && from < |units| && WithLines(units)[u] == units[from]
  {
    var last := |units| - 1;
    if u < |WithLines(units[..last])| {
      from := WithLinesFrom(units[..last], u);
    } else {
      from := last;
    }
  }

  function TextUnits(page: Page): seq<Unit> { WithLines(Units(page, |page.lines|)) }

  function OrderBoxOf(box: Box): OrderBox {
    OrderBox(box.left as real, box.top as real, box.right as real, box.bottom as real)
  }

  function BoxesOf(units: seq<Unit>): seq<OrderBox> {
    seq(|units|, u requires 0 <= u < |units| => OrderBoxOf(units[u].box))
  }

  lemma TextUnitIs(page: Page, u: nat)
    requires u < |TextUnits(page)|
    ensures
      var unit := TextUnits(page)[u];
      && unit.lines != [] && (forall k :: 0 <= k < |unit.lines| ==> Readable(page, unit.lines[k]))
      && unit.box == Hull(page, unit.lines)
      && (page.regions == [] ==> |unit.lines| == 1)
  {
    var units := Units(page, |page.lines|);
    var k := WithLinesFrom(units, u);
    UnitsAre(page, |page.lines|);
    assert IsUnit(page, units[k], k);
    hide Units, WithLines, Readable, Bound, Hull;
  }

  lemma TextUnitsUpright(page: Page)
    ensures AllUpright(BoxesOf(TextUnits(page)))
  {
    var units := TextUnits(page);
    forall u: nat | u < |units| ensures units[u].box.left <= units[u].box.right && units[u].box.top <= units[u].box.bottom {
      TextUnitIs(page, u);
      HullUpright(page, units[u].lines);
    }
    hide TextUnits;
  }

  // ----- The order.

  function Emission(i: nat): Key { (i as real, 0.0) }

  /** A unit's place when the source's own order is trusted: its first line's. */
  function FirstLine(units: seq<Unit>): nat -> Key {
    (u: nat) => if u < |units| && units[u].lines != [] then Emission(units[u].lines[0]) else (0.0, 0.0)
  }

  function LineKey(page: Page, trusted: bool): nat -> Key {
    if trusted then ((i: nat) => Emission(i)) else Place(page)
  }

  function UnitOrder(page: Page, policy: Policy, trusted: bool): seq<nat> {
    var units := TextUnits(page);
    if trusted then Sorted(UpTo(|units|), FirstLine(units))
    else
      TextUnitsUpright(page);
      XyCutOrder(BoxesOf(units), policy)
  }

  /** Each unit's lines in their own order, as a chain that the order of the units moves as one. */
  function LineChains(page: Page, trusted: bool): seq<Chain> {
    var units := TextUnits(page);
    seq(|units|, u requires 0 <= u < |units| => Chain(None, Plain, Sorted(units[u].lines, LineKey(page, trusted))))
  }

  function ReadingOrder(page: Page, policy: Policy, trusted: bool): seq<nat> {
    Gather(LineChains(page, trusted), UnitOrder(page, policy, trusted))
  }

  lemma UnitOrderPermutes(page: Page, policy: Policy, trusted: bool)
    ensures multiset(UnitOrder(page, policy, trusted)) == multiset(UpTo(|TextUnits(page)|))
  {
    var units := TextUnits(page);
    if trusted {
      SortedPermutes(UpTo(|units|), FirstLine(units));
    } else {
      TextUnitsUpright(page);
      ReadsDownColumns(BoxesOf(units), policy);
    }
    hide TextUnits;
  }

  lemma {:induction false} ChainsHoldLines(units: seq<Unit>, chains: seq<Chain>)
    requires |chains| == |units| && forall u :: 0 <= u < |units| ==> multiset(chains[u].positions) == multiset(units[u].lines)
    ensures multiset(BodyChains.Flat(chains)) == multiset(LinesIn(units))
  {
    if units != [] {
      var n := |units| - 1;
      ChainsHoldLines(units[..n], chains[..n]);
      assert BodyChains.Flat(chains) == BodyChains.Flat(chains[..n]) + chains[n].positions;
    }
  }

  /** The reading order lists every line with text and a place once, and nothing else. */
  lemma ReadingOrderListsLines(page: Page, policy: Policy, trusted: bool)
    ensures OrdersLines(page, ReadingOrder(page, policy, trusted))
  {
    var units, chains := TextUnits(page), LineChains(page, trusted);
    var order := UnitOrder(page, policy, trusted);
    forall u: nat | u < |units| ensures multiset(chains[u].positions) == multiset(units[u].lines) {
      SortedPermutes(units[u].lines, LineKey(page, trusted));
    }
    ChainsHoldLines(units, chains);
    UnitOrderPermutes(page, policy, trusted);
    GatherPermutes(chains, order, UpTo(|chains|));
    GatherAll(chains, |chains|);
    assert chains[..|chains|] == chains;
    WithLinesKeeps(Units(page, |page.lines|));
    hide LineChains, UnitOrder, Gather, Units, Readable, LinesIn, BodyChains.Flat;
    forall i: nat ensures multiset(ReadingOrder(page, policy, trusted))[i] == if Readable(page, i) then 1 else 0 {
      UnitsHoldLines(page, |page.lines|, i);
      NotReadablePast(page, i);
    }
  }

  lemma NotReadablePast(page: Page, i: nat)
    ensures i >= |page.lines| ==> !Readable(page, i)
  {
  }

  // ----- How it reads.

  lemma {:induction false} LocateWithin(chains: seq<Chain>, order: seq<nat>, i: nat, j: nat)
    requires i < j < |Gather(chains, order)| && Locate(chains, order, i).0 == Locate(chains, order, j).0
    ensures Locate(chains, order, i).1 < Locate(chains, order, j).1
    decreases |order|
  {
    hide Gather, Locate, PositionsOf;
    LocateStep(chains, order, i);
    LocateStep(chains, order, j);
    var n := |PositionsOf(chains, order[0])|;
    if i >= n { LocateWithin(chains, order[1..], i - n, j - n); }
  }

  /** Line b may be read behind line a: in a's unit and not sorted before it, or in a unit that may follow. */
  ghost predicate ReadsOn(page: Page, policy: Policy, trusted: bool, a: nat, b: nat, u: nat, v: nat) {
    var units, key := TextUnits(page), LineKey(page, trusted);
    && u < |units| && v < |units| && a in units[u].lines && b in units[v].lines
    && (u == v ==> !Less(key(b), key(a)))
    && (u != v && trusted ==> units[u].lines[0] <= units[v].lines[0])
    && (u != v && !trusted ==> !ReadsAgainst(OrderBoxOf(units[u].box), OrderBoxOf(units[v].box)))
  }

  lemma UnitOrderAt(page: Page, policy: Policy, trusted: bool, k: nat)
    requires k < |UnitOrder(page, policy, trusted)|
    ensures UnitOrder(page, policy, trusted)[k] < |TextUnits(page)|
  {
    var order, all := UnitOrder(page, policy, trusted), UpTo(|TextUnits(page)|);
    UnitOrderPermutes(page, policy, trusted);
    hide UnitOrder, TextUnits;
    MembersAgree(order, all, order[k]);
  }

  lemma UnitsReadOn(page: Page, policy: Policy, trusted: bool, k: nat, m: nat)
    requires k < m < |UnitOrder(page, policy, trusted)|
    ensures
      var units, order := TextUnits(page), UnitOrder(page, policy, trusted);
      var u, v := order[k], order[m];
      && u < |units| && v < |units|
      && (trusted ==> units[u].lines != [] && units[v].lines != [] && units[u].lines[0] <= units[v].lines[0])
      && (!trusted ==> !ReadsAgainst(OrderBoxOf(units[u].box), OrderBoxOf(units[v].box)))
  {
    var units, order := TextUnits(page), UnitOrder(page, policy, trusted);
    UnitOrderAt(page, policy, trusted, k);
    UnitOrderAt(page, policy, trusted, m);
    TextUnitIs(page, order[k]);
    TextUnitIs(page, order[m]);
    if trusted {
      SortedAscends(UpTo(|units|), FirstLine(units));
      hide TextUnits, Readable, Hull;
      assert !Less(FirstLine(units)(order[m]), FirstLine(units)(order[k]));
    } else {
      TextUnitsUpright(page);
      ReadsDownColumns(BoxesOf(units), policy);
      hide TextUnits, Readable, Hull, XyCutOrder;
      assert BoxesOf(units)[order[k]] == OrderBoxOf(units[order[k]].box);
    }
  }

  lemma ChainPositions(page: Page, trusted: bool, u: nat, k: nat)
    requires u < |TextUnits(page)| && k < |LineChains(page, trusted)[u].positions|
    ensures
      var lines, sorted := TextUnits(page)[u].lines, LineChains(page, trusted)[u].positions;
      && sorted[k] in lines
      && (forall m :: k < m < |sorted| ==> !Less(LineKey(page, trusted)(sorted[m]), LineKey(page, trusted)(sorted[k])))
  {
    var lines, key := TextUnits(page)[u].lines, LineKey(page, trusted);
    hide TextUnits;
    SortedPermutes(lines, key);
    SortedAscends(lines, key);
    hide Sorted, LineKey;
    MembersAgree(Sorted(lines, key), lines, Sorted(lines, key)[k]);
  }

  /** Of two lines in the order, the second is in the first's unit and not above it, nor level and to its
      left; or its unit does not start above the first's and overlap it horizontally. With the source's
      order trusted it is emission that counts, of the lines in a unit and of the units' first lines. */
  lemma ReadingOrderReadsOn(page: Page, policy: Policy, trusted: bool, i: nat, j: nat) returns (u: nat, v: nat)
    requires i < j < |ReadingOrder(page, policy, trusted)|
    ensures ReadsOn(page, policy, trusted, ReadingOrder(page, policy, trusted)[i], ReadingOrder(page, policy, trusted)[j], u, v)
  {
    var chains, order := LineChains(page, trusted), UnitOrder(page, policy, trusted);
    var at, on := Locate(chains, order, i), Locate(chains, order, j);
    LocateForward(chains, order, i, j);
    u, v := order[at.0], order[on.0];
    if at.0 < on.0 {
      DistinctUnits(page, policy, trusted, at.0, on.0);
      UnitsReadOn(page, policy, trusted, at.0, on.0);
    } else {
      LocateWithin(chains, order, i, j);
    }
    hide TextUnits, Gather, Locate, LineKey, UnitOrder, LineChains;
    ChainPositions(page, trusted, u, at.1);
    ChainPositions(page, trusted, v, on.1);
  }

  /** Where the gaps between two units' boxes call for the first before the second, each line of the first
      comes before each line of the second. */
  lemma ReadingOrderByGaps(page: Page, policy: Policy, u: nat, v: nat, l: nat, m: nat)
    requires u < |TextUnits(page)| && v < |TextUnits(page)| && l in TextUnits(page)[u].lines && m in TextUnits(page)[v].lines
    requires ComesFirst(BoxesOf(TextUnits(page)), UpTo(|TextUnits(page)|), policy, u, v)
    ensures Precedes(ReadingOrder(page, policy, false), l, m)
  {
    TextUnitsUpright(page);
    hide TextUnits, ComesFirst, Order, Precedes, Gather;
    var boxes := BoxesOf(TextUnits(page));
    AllAreUpright(boxes);
    OrderIsByGaps(boxes, UpTo(|boxes|), policy, u, v);
    ChainHolds(page, false, u, l);
    ChainHolds(page, false, v, m);
    GatherInOrder(LineChains(page, false), UnitOrder(page, policy, false), u, v, l, m);
  }

  lemma ChainHolds(page: Page, trusted: bool, u: nat, l: nat)
    requires u < |TextUnits(page)| && l in TextUnits(page)[u].lines
    ensures l in PositionsOf(LineChains(page, trusted), u)
  {
    hide TextUnits, Sorted;
    var lines := TextUnits(page)[u].lines;
    SortedPermutes(lines, LineKey(page, trusted));
    MembersAgree(Sorted(lines, LineKey(page, trusted)), lines, l);
  }

  lemma DistinctUnits(page: Page, policy: Policy, trusted: bool, k: nat, m: nat)
    requires k < m < |UnitOrder(page, policy, trusted)|
    ensures UnitOrder(page, policy, trusted)[k] != UnitOrder(page, policy, trusted)[m]
  {
    var order, n := UnitOrder(page, policy, trusted), |TextUnits(page)|;
    UnitOrderPermutes(page, policy, trusted);
    UpToCounts(n, order[k]);
    hide UnitOrder, TextUnits;
    if order[k] == order[m] { TwiceCounts(order, k, m); }
  }

  lemma TwiceCounts(s: seq<nat>, k: nat, m: nat)
    requires k < m < |s| && s[k] == s[m]
    ensures multiset(s)[s[k]] >= 2
  {
    assert s == s[..m] + s[m..] && s[..m][k] == s[k] && s[m..][0] == s[m];
    assert s[k] in s[..m] && s[m] in s[m..];
  }

  // ----- The program.

  method BuildUnits(page: Page) returns (units: seq<Unit>)
    requires OnRaster(page)
    ensures units == Units(page, |page.lines|)
  {
    units := seq(|page.regions|, r requires 0 <= r < |page.regions| => Unit(page.regions[r].box, []));
    for i: nat := 0 to |page.lines|
      invariant units == Units(page, i) && |units| >= |page.regions|
    {
      if page.lines[i].text == "" || page.lines[i].polygon == [] { continue; }
      var box := MeasureLine(page.lines[i].polygon);
      var home := RegionForLine(page, i);
      if home.Some? {
        units := units[home.value := Grown(units[home.value], box, i)];
      } else {
        units := units + [Unit(box, [i])];
      }
    }
  }

  method CarryText(units: seq<Unit>) returns (withLines: seq<Unit>, boxes: seq<OrderBox>)
    ensures withLines == WithLines(units) && boxes == BoxesOf(withLines)
  {
    withLines, boxes := [], [];
    for u := 0 to |units|
      invariant withLines == WithLines(units[..u]) && boxes == BoxesOf(withLines)
    {
      assert units[..u + 1][..u] == units[..u];
      if units[u].lines == [] { continue; }
      withLines := withLines + [units[u]];
      boxes := boxes + [OrderBoxOf(units[u].box)];
    }
    assert units[..|units|] == units;
  }

  method OrderLines(page: Page, policy: Policy, trusted: bool) returns (result: seq<nat>)
    requires OnRaster(page)
    ensures result == ReadingOrder(page, policy, trusted)
  {
    hide Units, WithLines, Sorted;
    var all := BuildUnits(page);
    var units, boxes := CarryText(all);
    assert units == TextUnits(page);
    var order;
    if trusted {
      order := Sorted(UpTo(|units|), FirstLine(units));
    } else {
      TextUnitsUpright(page);
      AllAreUpright(boxes);
      order := OrderMembers(boxes, UpTo(|boxes|), policy, []);
      assert [] + Order(boxes, UpTo(|boxes|), policy) == Order(boxes, UpTo(|boxes|), policy);
    }
    assert order == UnitOrder(page, policy, trusted);
    result := LayLines(page, trusted, units, order);
  }

  /** The units' lines, sorted, one unit after the other. */
  method LayLines(page: Page, trusted: bool, units: seq<Unit>, order: seq<nat>) returns (result: seq<nat>)
    requires units == TextUnits(page)
    ensures result == Gather(LineChains(page, trusted), order)
  {
    ghost var chains := LineChains(page, trusted);
    result := [];
    for n := 0 to |order|
      invariant result == Gather(chains, order[..n])
    {
      hide TextUnits, Gather;
      assert order[..n + 1] == order[..n] + [order[n]];
      GatherConcat(chains, order[..n], [order[n]]);
      GatherOne(chains, order[n]);
      if order[n] < |units| {
        var lines := Sorted(units[order[n]].lines, LineKey(page, trusted));
        result := result + lines;
      }
    }
    assert order[..|order|] == order;
  }

  lemma GatherOne(chains: seq<Chain>, c: nat)
    ensures Gather(chains, [c]) == PositionsOf(chains, c)
  {
    assert [c][1..] == [];
  }

  /** The page's blocks, from its lines and regions alone. */
  method PageBlocks(page: Page, policy: Policy, trusted: bool) returns (blocks: seq<Block>)
    requires OnRaster(page)
    ensures TableLines.Flat(blocks) == ReadingOrder(page, policy, trusted) && Built(page, blocks)
  {
    hide ReadingOrder, Built, TableLines.Flat;
    var order := OrderLines(page, policy, trusted);
    ReadingOrderListsLines(page, policy, trusted);
    blocks := BuildTextBlocks(page, order);
  }

  /** A line with text and a place stands in one of those blocks, once. */
  lemma PageBlocksHoldEach(page: Page, policy: Policy, trusted: bool, blocks: seq<Block>, i: nat) returns (home: nat)
    requires TableLines.Flat(blocks) == ReadingOrder(page, policy, trusted) && Readable(page, i)
    ensures home < |blocks| && multiset(blocks[home].lines)[i] == 1
    ensures forall b :: 0 <= b < |blocks| && i in blocks[b].lines ==> b == home
  {
    hide ReadingOrder, TableLines.Flat, Readable;
    ReadingOrderListsLines(page, policy, trusted);
    home := OneBlockEach(page, ReadingOrder(page, policy, trusted), blocks, i);
  }
}
