/** How two lines of a page follow one another (src/reading_order.cpp), by their points and places alone. */
module LineRules {
  import opened Bytes
  import opened OcrPages
  import opened Sorting
  import opened XyCut
  import opened TableLines
  import opened LineOrder

  /** Line a starts above line b, or level with it and not to its right. */
  ghost predicate NotBehind(page: Page, a: nat, b: nat) {
    var p, q := BoxAt(page, a), BoxAt(page, b);
    p.top < q.top || (p.top == q.top && p.left <= q.left)
  }

  /** One box starts below the other's start, or stands clear of it on one side. */
  ghost predicate MayFollow(first: Box, second: Box) {
    first.top <= second.top || second.right < first.left || first.right < second.left
  }

  /** What may stand behind what: in one unit by place, of two units by their boxes; on a trusted page in one unit by
      emission, of two units by their first lines. */
  ghost predicate Follows(page: Page, trusted: bool, unit: Unit, other: Unit, a: nat, b: nat) {
    if unit == other then (if trusted then a <= b else NotBehind(page, a, b))
    else if trusted then unit.lines != [] && other.lines != [] && unit.lines[0] <= other.lines[0]
    else MayFollow(unit.box, other.box)
  }

  lemma KeyIs(page: Page, trusted: bool, a: nat, b: nat)
    requires a < |page.lines| && b < |page.lines|
    ensures !Less(LineKey(page, trusted)(b), LineKey(page, trusted)(a)) <==> if trusted then a <= b else NotBehind(page, a, b)
  {
  }

  lemma FollowIs(first: Box, second: Box)
    ensures !ReadsAgainst(OrderBoxOf(first), OrderBoxOf(second)) <==> MayFollow(first, second)
  {
  }

  /** Two lines of the reading order: each is in a unit that holds its region's lines or it alone, and the second may
      stand behind the first. */
  lemma OrderFollows(page: Page, policy: Policy, trusted: bool, i: nat, j: nat) returns (u: nat, v: nat)
    requires i < j < |ReadingOrder(page, policy, trusted)|
    ensures
      var units, order := TextUnits(page), ReadingOrder(page, policy, trusted);
      && u < |units| && v < |units| && order[i] in units[u].lines && order[j] in units[v].lines
      && Follows(page, trusted, units[u], units[v], order[i], order[j])
  {
    hide ReadingOrder, LineKey, TextUnits, ReadsAgainst, OrderBoxOf, NotBehind, MayFollow, Less;
    u, v := ReadingOrderReadsOn(page, policy, trusted, i, j);
    var units, order := TextUnits(page), ReadingOrder(page, policy, trusted);
    LineThere(page, u, order[i]);
    LineThere(page, v, order[j]);
    KeyIs(page, trusted, order[i], order[j]);
    FollowIs(units[u].box, units[v].box);
    if u != v { UnitsDiffer(page, u, v, order[i]); }
    TextUnitIs(page, u);
    TextUnitIs(page, v);
  }

  lemma LineThere(page: Page, u: nat, l: nat)
    requires u < |TextUnits(page)| && l in TextUnits(page)[u].lines
    ensures l < |page.lines|
  {
    TextUnitIs(page, u);
    hide TextUnits, Hull;
  }

  lemma {:induction false} HoldsOnce(units: seq<Unit>, u: nat, v: nat, l: nat)
    requires u < v < |units| && l in units[u].lines && l in units[v].lines
    ensures multiset(LinesIn(units))[l] >= 2
    decreases |units|
  {
    var last := |units| - 1;
    assert LinesIn(units) == LinesIn(units[..last]) + units[last].lines;
    if v < last {
      HoldsOnce(units[..last], u, v, l);
    } else {
      InLines(units[..last], u, l);
      hide LinesIn;
    }
  }

  lemma {:induction false} InLines(units: seq<Unit>, u: nat, l: nat)
    requires u < |units| && l in units[u].lines
    ensures l in LinesIn(units)
  {
    if u < |units| - 1 { InLines(units[..|units| - 1], u, l); }
  }

  /** Two units have no line in common. */
  lemma UnitsDiffer(page: Page, u: nat, v: nat, l: nat)
    requires u < |TextUnits(page)| && v < |TextUnits(page)| && u != v && l in TextUnits(page)[u].lines
    ensures TextUnits(page)[u] != TextUnits(page)[v]
  {
    hide LinesIn, Units, WithLines, Readable;
    UnitsHoldLines(page, |page.lines|, l);
    WithLinesKeeps(Units(page, |page.lines|));
    if l in TextUnits(page)[v].lines {
      HoldsOnce(TextUnits(page), if u < v then u else v, if u < v then v else u, l);
    }
  }
}
