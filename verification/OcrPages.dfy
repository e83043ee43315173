/** A recognized page: its lines, its layout regions, and which region a line belongs to
    (src/text_geometry.cpp, src/region_geometry.cpp). */
module OcrPages {
  import opened Bytes

  datatype Point = Point(x: int, y: int)

  datatype Box = Box(left: int, top: int, right: int, bottom: int)

  datatype Line = Line(text: string, polygon: seq<Point>)

  datatype Cell = Cell(row: nat, col: nat, rowSpan: nat, colSpan: nat, left: int, top: int, right: int, bottom: int)

  /** `grid` holds the lines a table without recognized cells clusters by geometry. */
  datatype Region = Region(name: string, box: Box, confidence: real, cells: seq<Cell>, grid: set<nat>)

  /** `continues` tells whether a list line goes on reading the visual line that a block's lines ended on. */
  datatype Page = Page(lines: seq<Line>, regions: seq<Region>, continues: (seq<nat>, nat) -> bool)

  predicate Readable(page: Page, i: nat) {
    i < |page.lines| && page.lines[i].text != "" && page.lines[i].polygon != []
  }

  // ----- The box of a line.

  const INT_MIN := -0x8000_0000
  const INT_MAX := 0x7FFF_FFFF

  /** Coordinates are 32-bit integers. */
  ghost predicate Coordinates(points: seq<Point>) {
    forall k :: 0 <= k < |points| ==> INT_MIN <= points[k].x <= INT_MAX && INT_MIN <= points[k].y <= INT_MAX
  }

  function Widened(box: Box, other: Box): Box {
    Box(Min(box.left, other.left), Min(box.top, other.top),
        Max(box.right, other.right), Max(box.bottom, other.bottom))
  }

  function PointBox(p: Point): Box { Box(p.x, p.y, p.x, p.y) }

  function BoundingBox(points: seq<Point>): (box: Box)
    ensures points != [] ==> box.left <= box.right && box.top <= box.bottom
  {
    if points == [] then Box(0, 0, 0, 0)
    else if |points| == 1 then PointBox(points[0])
    else Widened(BoundingBox(points[..|points| - 1]), PointBox(points[|points| - 1]))
  }

  /** Every point lies in the box, and each of its sides holds one. */
  lemma {:induction false} BoundingBoxIsHull(points: seq<Point>)
    requires points != []
    ensures
      var box := BoundingBox(points);
      && (forall k :: 0 <= k < |points| ==> box.left <= points[k].x <= box.right && box.top <= points[k].y <= box.bottom)
      && (exists k :: 0 <= k < |points| && points[k].x == box.left) && (exists k :: 0 <= k < |points| && points[k].x == box.right)
      && (exists k :: 0 <= k < |points| && points[k].y == box.top) && (exists k :: 0 <= k < |points| && points[k].y == box.bottom)
  {
    var n := |points| - 1;
    if n > 0 {
      var before, box := BoundingBox(points[..n]), BoundingBox(points);
      BoundingBoxIsHull(points[..n]);
      var a :| 0 <= a < n && points[..n][a].x == before.left;
      var b :| 0 <= b < n && points[..n][b].x == before.right;
      var c :| 0 <= c < n && points[..n][c].y == before.top;
      var d :| 0 <= d < n && points[..n][d].y == before.bottom;
      assert points[if points[n].x < before.left then n else a].x == box.left;
      assert points[if points[n].x > before.right then n else b].x == box.right;
      assert points[if points[n].y < before.top then n else c].y == box.top;
      assert points[if points[n].y > before.bottom then n else d].y == box.bottom;
      forall k | 0 <= k < |points| ensures box.left <= points[k].x <= box.right && box.top <= points[k].y <= box.bottom {
        if k < n { assert points[..n][k] == points[k]; }
      }
    }
  }

  method MeasureLine(points: seq<Point>) returns (box: Box)
    requires Coordinates(points)
    ensures box == BoundingBox(points)
  {
    box := Box(INT_MAX, INT_MAX, INT_MIN, INT_MIN);
    for k := 0 to |points|
      invariant k == 0 ==> box == Box(INT_MAX, INT_MAX, INT_MIN, INT_MIN)
      invariant k > 0 ==> box == BoundingBox(points[..k])
    {
      assert k > 0 ==> points[..k + 1][..k] == points[..k];
      box := Widened(box, PointBox(points[k]));
    }
    assert points[..|points|] == points;
    if points == [] { box := Box(0, 0, 0, 0); }
  }

  /** Half an integer, rounded toward zero. */
  function Half(n: int): int { if n >= 0 then n / 2 else -((-n) / 2) }

  function Center(box: Box): Point { Point(Half(box.left + box.right), Half(box.top + box.bottom)) }

  predicate Contains(box: Box, p: Point) { box.left <= p.x <= box.right && box.top <= p.y <= box.bottom }

  /** Half of a sum, the half left over dropped toward zero. */
  ghost predicate IsHalf(sum: int, h: int) {
    if sum >= 0 then 2 * h <= sum < 2 * h + 2 else 2 * h - 2 < sum <= 2 * h
  }

  /** The center lies halfway between the sides, and a box holds a point exactly when taking the point in would not
      widen it. */
  lemma CenterIs(box: Box, p: Point)
    ensures IsHalf(box.left + box.right, Center(box).x) && IsHalf(box.top + box.bottom, Center(box).y)
    ensures Contains(box, p) <==> Widened(box, PointBox(p)) == box
  {
  }

  // ----- The region of a line.

  /** The first of greatest confidence among the first n regions that hold the point. */
  ghost predicate IsBest(regions: seq<Region>, p: Point, n: nat, best: Option<nat>)
    requires n <= |regions|
  {
    && (best.None? ==> forall k :: 0 <= k < n ==> !Contains(regions[k].box, p))
    && (best.Some? ==> best.value < n && Contains(regions[best.value].box, p))
    && (best.Some? ==> forall k :: 0 <= k < n && Contains(regions[k].box, p) ==>
          && regions[k].confidence <= regions[best.value].confidence
          && (k < best.value ==> regions[k].confidence < regions[best.value].confidence))
  }

  function BestRegion(regions: seq<Region>, p: Point, n: nat): (best: Option<nat>)
    requires n <= |regions|
    ensures IsBest(regions, p, n, best)
  {
    if n == 0 then None
    else
      var before := BestRegion(regions, p, n - 1);
      if Contains(regions[n - 1].box, p) && (before.None? || regions[n - 1].confidence > regions[before.value].confidence)
      then Some(n - 1) else before
  }

  /** The region a line is bound to: of those that hold the center of its box, the surest. */
  function Bound(page: Page, i: nat): (r: Option<nat>)
    ensures r.Some? ==> r.value < |page.regions|
  {
    if i < |page.lines| && page.lines[i].polygon != []
    then BestRegion(page.regions, Center(BoundingBox(page.lines[i].polygon)), |page.regions|)
    else None
  }

  method RegionForLine(page: Page, i: nat) returns (best: Option<nat>)
    requires i < |page.lines| && Coordinates(page.lines[i].polygon)
    ensures best == Bound(page, i)
  {
    if page.regions == [] || page.lines[i].polygon == [] { return None; }
    var box := MeasureLine(page.lines[i].polygon);
    var center := Center(box);
    best := None;
    for k: nat := 0 to |page.regions|
      invariant best == BestRegion(page.regions, center, k)
    {
      var region := page.regions[k];
      if Contains(region.box, center) && (best.None? || region.confidence > page.regions[best.value].confidence) {
        best := Some(k);
      }
    }
  }
}
