/** Heading levels taken from the document's outline (src/heading_hierarchy.cpp).

    The reference is a full comparison: among the outline entries a heading may match, the
    first one of greatest similarity decides, if it reaches the threshold. The program looks
    equal titles up in an index and gives every other comparison a distance limit that
    shrinks as better matches turn up; both are proved to change nothing. */
module BookmarkLevels {
  import opened Bytes
  import opened EditDistance
  import opened Titles

  const CELL_BUDGET: nat := 128_000_000

  datatype OutlineEntry = OutlineEntry(title: Text, level: int, page: Option<int>)

  datatype HeaderHeight = HeaderHeight(selfRef: string, text: Text, page: int)

  predicate PageCompatible(entry: OutlineEntry, header: HeaderHeight) {
    !(entry.page.Some? && entry.page.value > 0 && header.page > 0 && entry.page.value != header.page)
  }

  predicate Eligible(entry: OutlineEntry, header: HeaderHeight) {
    entry.level > 0 && PageCompatible(entry, header)
  }

  // ----- The reference.

  ghost function Match(entry: OutlineEntry, header: HeaderHeight): real {
    Similarity(Normalized(header.text), Normalized(entry.title))
  }

  /** Entry k is the first of greatest similarity among the first n the header may match. */
  ghost predicate FirstBestAmong(outline: seq<OutlineEntry>, header: HeaderHeight, n: nat, k: nat)
    requires n <= |outline|
  {
    && k < n
    && Eligible(outline[k], header)
    && forall j: nat :: j < n && Eligible(outline[j], header) ==>
      && Match(outline[j], header) <= Match(outline[k], header)
      && (j < k ==> Match(outline[j], header) < Match(outline[k], header))
  }

  ghost predicate FirstBest(outline: seq<OutlineEntry>, header: HeaderHeight, k: nat) {
    FirstBestAmong(outline, header, |outline|, k)
  }

  ghost predicate Decides(outline: seq<OutlineEntry>, header: HeaderHeight, threshold: real, k: nat) {
    FirstBest(outline, header, k) && Match(outline[k], header) >= threshold
  }

  ghost function LevelOf(outline: seq<OutlineEntry>, header: HeaderHeight, threshold: real): Option<int> {
    if k: nat :| Decides(outline, header, threshold, k) then Some(outline[k].level) else None
  }

  lemma LevelIsDetermined(outline: seq<OutlineEntry>, header: HeaderHeight, threshold: real, k: nat)
    requires Decides(outline, header, threshold, k)
    ensures LevelOf(outline, header, threshold) == Some(outline[k].level)
  {
  }

  /** Every heading's level by the reference, a later heading of the same name winning. */
  ghost function ReferenceLevels(outline: seq<OutlineEntry>, headers: seq<HeaderHeight>, threshold: real, ceiling: int)
    : map<string, int>
  {
    if headers == [] then map[]
    else
      var before := ReferenceLevels(outline, headers[..|headers| - 1], threshold, ceiling);
      var header := headers[|headers| - 1];
      var level := LevelOf(outline, header, threshold);
      if level.Some? then before[header.selfRef := Min(ceiling, level.value)] else before
  }

  /** The entry has a level, and its page, where both are known, is the heading's. */
  ghost predicate MayMatch(entry: OutlineEntry, header: HeaderHeight) {
    entry.level >= 1 && (entry.page.None? || entry.page.value <= 0 || header.page <= 0 || entry.page.value == header.page)
  }

  /** Of the entries that may match, entry k is the most alike, the first of several, and alike enough. */
  ghost predicate Wins(outline: seq<OutlineEntry>, header: HeaderHeight, threshold: real, k: nat) {
    && k < |outline| && MayMatch(outline[k], header) && Match(outline[k], header) >= threshold
    && (forall j :: 0 <= j < |outline| && MayMatch(outline[j], header) ==> Match(outline[j], header) <= Match(outline[k], header))
    && (forall j :: 0 <= j < k && MayMatch(outline[j], header) ==> Match(outline[j], header) < Match(outline[k], header))
  }

  /** Heading h is the last of its name that some entry wins. */
  ghost predicate LastGiven(outline: seq<OutlineEntry>, headers: seq<HeaderHeight>, threshold: real, h: nat, k: nat) {
    && h < |headers| && Wins(outline, headers[h], threshold, k)
    && forall g, m: nat :: h < g < |headers| && headers[g].selfRef == headers[h].selfRef ==> !Wins(outline, headers[g], threshold, m)
  }

  lemma WinsIs(outline: seq<OutlineEntry>, header: HeaderHeight, threshold: real, k: nat)
    ensures Wins(outline, header, threshold, k) <==> Decides(outline, header, threshold, k)
  {
    hide Match;
    forall j | 0 <= j < |outline| ensures MayMatch(outline[j], header) <==> Eligible(outline[j], header) {}
  }

  /** A level is given to the name of a heading exactly where an entry wins it, the entry's, and no more than the
      ceiling. */
  lemma {:induction false} ReferenceIs(outline: seq<OutlineEntry>, headers: seq<HeaderHeight>, threshold: real, ceiling: int, h: nat, k: nat)
    requires LastGiven(outline, headers, threshold, h, k)
    ensures
      var levels, name := ReferenceLevels(outline, headers, threshold, ceiling), headers[h].selfRef;
      name in levels && levels[name] == if outline[k].level <= ceiling then outline[k].level else ceiling
  {
    hide Wins, Decides;
    var last := |headers| - 1;
    if h < last {
      assert LastGiven(outline, headers[..last], threshold, h, k) by { hide ReferenceLevels; }
      ReferenceIs(outline, headers[..last], threshold, ceiling, h, k);
      if headers[last].selfRef == headers[h].selfRef { NoneWins(outline, headers[last], threshold); }
    } else {
      WinsIs(outline, headers[h], threshold, k);
      LevelIsDetermined(outline, headers[h], threshold, k);
    }
  }

  lemma NoneWins(outline: seq<OutlineEntry>, header: HeaderHeight, threshold: real)
    requires forall k: nat :: !Wins(outline, header, threshold, k)
    ensures LevelOf(outline, header, threshold).None?
  {
    hide Wins, Decides;
    forall k: nat ensures !Decides(outline, header, threshold, k) { WinsIs(outline, header, threshold, k); }
  }

  /** And no other name has one. */
  lemma {:induction false} ReferenceNames(outline: seq<OutlineEntry>, headers: seq<HeaderHeight>, threshold: real, ceiling: int, name: string)
      returns (h: nat, k: nat)
    requires name in ReferenceLevels(outline, headers, threshold, ceiling)
    ensures LastGiven(outline, headers, threshold, h, k) && headers[h].selfRef == name
  {
    hide Wins, Decides;
    var last := |headers| - 1;
    if LevelOf(outline, headers[last], threshold).Some? && headers[last].selfRef == name {
      var m: nat :| Decides(outline, headers[last], threshold, m);
      WinsIs(outline, headers[last], threshold, m);
      h, k := last, m;
    } else {
      h, k := ReferenceNames(outline, headers[..last], threshold, ceiling, name);
      if headers[last].selfRef == name { NoneDecides(outline, headers[last], threshold); }
      hide ReferenceLevels;
    }
  }

  lemma NoneDecides(outline: seq<OutlineEntry>, header: HeaderHeight, threshold: real)
    requires LevelOf(outline, header, threshold).None?
    ensures forall k: nat :: !Wins(outline, header, threshold, k)
  {
    hide Wins, Decides;
    forall k: nat ensures !Wins(outline, header, threshold, k) { WinsIs(outline, header, threshold, k); }
  }

  // ----- A plain scan finds the first best.

  ghost function ScanBest(outline: seq<OutlineEntry>, header: HeaderHeight, n: nat): Option<nat>
    requires n <= |outline|
  {
    if n == 0 then None
    else
      var best := ScanBest(outline, header, n - 1);
      if !Eligible(outline[n - 1], header) then best
      else if best.None? then Some(n - 1)
      else if best.value >= n then best
      else if Match(outline[n - 1], header) > Match(outline[best.value], header) then Some(n - 1)
      else best
  }

  lemma {:induction false} ScanFindsFirstBest(outline: seq<OutlineEntry>, header: HeaderHeight, n: nat)
    requires n <= |outline|
    ensures ScanBest(outline, header, n).Some? ==> FirstBestAmong(outline, header, n, ScanBest(outline, header, n).value)
    ensures ScanBest(outline, header, n).None? ==> forall j: nat :: j < n ==> !Eligible(outline[j], header)
  {
    hide Match, Eligible;
    if n > 0 {
      ScanFindsFirstBest(outline, header, n - 1);
    }
  }

  // ----- The distance limit.

  /** The largest distance that can still matter: 1e-9 absorbs rounding, to the safe side. */
  function DistanceLimit(floorSimilarity: real, longer: nat): (limit: nat)
    requires floorSimilarity <= 1.0 && longer > 0
  {
    ProductNonNegative(1.0 - floorSimilarity, longer as real);
    ((1.0 - floorSimilarity) * longer as real + 0.000000001).Floor
  }

  /** A comparison cut off by the limit could not have reached the floor. */
  lemma CutOffIsBelowFloor(distance: nat, floorSimilarity: real, longer: nat)
    requires floorSimilarity <= 1.0 && longer > 0
    requires distance > DistanceLimit(floorSimilarity, longer)
    ensures Share(distance, longer) < floorSimilarity
  {
    var l, d := longer as real, distance as real;
    var product := (1.0 - floorSimilarity) * l;
    assert d > product;
    var share := d / l;
    QuotientTimes(d, l);
    ProductReflects(1.0 - floorSimilarity, share, l);
  }

  lemma ScaleStrict(a: real, b: real, l: real)
    requires a < b && l > 0.0
    ensures a * l < b * l
  {
    var gap := b - a;
    assert gap * l > 0.0;
  }

  /** The limit is no larger than that takes: a distance within it reaches the floor, up to the rounding it absorbs. */
  lemma WithinLimitReachesFloor(distance: nat, floorSimilarity: real, longer: nat)
    requires floorSimilarity <= 1.0 && longer > 0
    ensures distance <= DistanceLimit(floorSimilarity, longer) <==>
      Share(distance, longer) + 0.000000001 / longer as real >= floorSimilarity
  {
    var l, d := longer as real, distance as real;
    var share, slack := d / l, 0.000000001 / l;
    QuotientTimes(d, l);
    QuotientTimes(0.000000001, l);
    var allowed := 1.0 - floorSimilarity + slack;
    assert allowed * l == (1.0 - floorSimilarity) * l + slack * l;
    assert distance <= DistanceLimit(floorSimilarity, longer) <==> d <= allowed * l;
    if allowed < share { ScaleStrict(allowed, share, l); } else { ScaleOrder(share, allowed, l); }
  }

  /** The comparison is not cut off by a floor: both titles are not empty and close enough, or one is empty. */
  ghost predicate ComparedInFull(text: Text, title: Text, floorSimilarity: real) {
    text == [] || title == [] ||
    (floorSimilarity <= 1.0 && Levenshtein(text, title) <= DistanceLimit(floorSimilarity, Max(|text|, |title|)))
  }

  lemma ScaleOrder(a: real, b: real, l: real)
    requires a <= b && l >= 0.0
    ensures a * l <= b * l
  {
    ProductNonNegative(b - a, l);
  }

  lemma FloorOrder(a: real, b: real)
    requires a <= b
    ensures a.Floor <= b.Floor
  {
  }

  lemma LimitShrinks(lower: real, floorSimilarity: real, longer: nat)
    requires lower <= floorSimilarity <= 1.0 && longer > 0
    ensures DistanceLimit(floorSimilarity, longer) <= DistanceLimit(lower, longer)
  {
    var l := longer as real;
    ScaleOrder(1.0 - floorSimilarity, 1.0 - lower, l);
    FloorOrder((1.0 - floorSimilarity) * l + 0.000000001, (1.0 - lower) * l + 0.000000001);
  }

  lemma FloorBelow(text: Text, title: Text, floorSimilarity: real, lower: real)
    requires lower <= floorSimilarity && ComparedInFull(text, title, floorSimilarity)
    ensures ComparedInFull(text, title, lower)
  {
    hide Levenshtein, DistanceLimit;
    if text != [] && title != [] { LimitShrinks(lower, floorSimilarity, Max(|text|, |title|)); }
  }

  function MaxReal(a: real, b: real): real {
    if a >= b then a else b
  }

  /** What the scan holds after n entries, against the best a plain scan holds. */
  ghost predicate Tracks(outline: seq<OutlineEntry>, header: HeaderHeight, threshold: real, n: nat, best: real, bestLevel: int)
    requires n <= |outline|
  {
    match ScanBest(outline, header, n)
    case None => best == -1.0 && bestLevel == 0
    case Some(k) =>
      k < n && Eligible(outline[k], header) &&
      var similarity := Match(outline[k], header);
      if similarity >= threshold then best == similarity && bestLevel == outline[k].level
      else best <= similarity && best < threshold
  }

  /** The held match, if there is one, is a real entry's. */
  ghost predicate Witnessed(outline: seq<OutlineEntry>, header: HeaderHeight, best: real, bestLevel: int) {
    bestLevel > 0 ==>
      exists k: nat :: k < |outline| && Eligible(outline[k], header) && Match(outline[k], header) == best && outline[k].level == bestLevel
  }

  /** One entry of the scan: compared in full, or cut off because it is below the floor. */
  lemma TracksNext(outline: seq<OutlineEntry>, header: HeaderHeight, threshold: real, n: nat,
                   best: real, bestLevel: int, compared: bool)
    requires n < |outline| && Tracks(outline, header, threshold, n, best, bestLevel)
    requires Eligible(outline[n], header)
    requires !compared ==> Match(outline[n], header) < MaxReal(threshold, best)
    ensures
      var similarity := Match(outline[n], header);
      if compared && similarity > best then Tracks(outline, header, threshold, n + 1, similarity, outline[n].level)
      else Tracks(outline, header, threshold, n + 1, best, bestLevel)
  {
    SimilarityRange(Normalized(header.text), Normalized(outline[n].title));
    hide Similarity, Normalized;
  }

  /** The outcome of one header: the level it takes, if any. */
  function Accepted(best: real, bestLevel: int, threshold: real): Option<int> {
    if best >= threshold && bestLevel > 0 then Some(bestLevel) else None
  }

  lemma TracksToTheEnd(outline: seq<OutlineEntry>, header: HeaderHeight, threshold: real, best: real, bestLevel: int)
    requires Tracks(outline, header, threshold, |outline|, best, bestLevel)
    ensures Accepted(best, bestLevel, threshold) == LevelOf(outline, header, threshold)
  {
    ScanFindsFirstBest(outline, header, |outline|);
    var found := ScanBest(outline, header, |outline|);
    hide ScanBest, Match;
    if found.Some? {
      assert FirstBest(outline, header, found.value);
      if Decides(outline, header, threshold, found.value) {
        LevelIsDetermined(outline, header, threshold, found.value);
      }
    }
  }

  // ----- What the comparisons cost.

  /** The cells of one comparison under a floor. */
  ghost function ComparisonCells(text: Text, title: Text, floorSimilarity: real): nat {
    if text == [] || title == [] || floorSimilarity > 1.0 then 0
    else CellsOf(text, title, DistanceLimit(floorSimilarity, Max(|text|, |title|)))
  }

  /** The floor entry n is compared under: the threshold, or the best similarity of the entries before it. */
  ghost function FloorAt(outline: seq<OutlineEntry>, header: HeaderHeight, threshold: real, n: nat): real
    requires n <= |outline|
  {
    match ScanBest(outline, header, n)
    case None => MaxReal(threshold, -1.0)
    case Some(k) => if k < n then MaxReal(threshold, Match(outline[k], header)) else threshold
  }

  ghost function EntryCells(outline: seq<OutlineEntry>, header: HeaderHeight, threshold: real, n: nat): nat
    requires n < |outline|
  {
    if !Eligible(outline[n], header) then 0
    else ComparisonCells(Normalized(header.text), Normalized(outline[n].title), FloorAt(outline, header, threshold, n))
  }

  /** The cells of a scan of the first n entries. */
  ghost function ScanCells(outline: seq<OutlineEntry>, header: HeaderHeight, threshold: real, n: nat): nat
    requires n <= |outline|
  {
    if n == 0 then 0 else ScanCells(outline, header, threshold, n - 1) + EntryCells(outline, header, threshold, n - 1)
  }

  /** Some entry the heading may match has its very title. */
  ghost predicate HasExact(outline: seq<OutlineEntry>, header: HeaderHeight) {
    exists k: nat :: k < |outline| && Eligible(outline[k], header) && Normalized(outline[k].title) == Normalized(header.text)
  }

  ghost function HeaderCells(outline: seq<OutlineEntry>, header: HeaderHeight, threshold: real): nat {
    if HasExact(outline, header) then 0 else ScanCells(outline, header, threshold, |outline|)
  }

  /** The cells of the whole pass, were there no budget. */
  ghost function PassCells(outline: seq<OutlineEntry>, headers: seq<HeaderHeight>, threshold: real): nat {
    if headers == [] then 0
    else PassCells(outline, headers[..|headers| - 1], threshold) + HeaderCells(outline, headers[|headers| - 1], threshold)
  }

  /** The floor the program holds is the reference's. */
  lemma FloorTracks(outline: seq<OutlineEntry>, header: HeaderHeight, threshold: real, n: nat, best: real, bestLevel: int)
    requires n <= |outline| && Tracks(outline, header, threshold, n, best, bestLevel)
    ensures MaxReal(threshold, best) == FloorAt(outline, header, threshold, n)
  {
    hide Match, ScanBest, Eligible;
  }

  // ----- At most a band of cells for every heading and entry.

  /** The band of one heading's text against one entry's title, as wide as the threshold allows. */
  ghost function PairBound(text: Text, title: Text, threshold: real): nat {
    if text == [] || title == [] || threshold > 1.0 then 0
    else BandCells(Min(|text|, |title|), DistanceLimit(threshold, Max(|text|, |title|)))
  }

  ghost function HeaderBound(outline: seq<OutlineEntry>, header: HeaderHeight, threshold: real, n: nat): nat
    requires n <= |outline|
  {
    if n == 0 then 0
    else HeaderBound(outline, header, threshold, n - 1) + PairBound(Normalized(header.text), Normalized(outline[n - 1].title), threshold)
  }

  ghost function PassBound(outline: seq<OutlineEntry>, headers: seq<HeaderHeight>, threshold: real): nat {
    if headers == [] then 0
    else PassBound(outline, headers[..|headers| - 1], threshold) + HeaderBound(outline, headers[|headers| - 1], threshold, |outline|)
  }

  lemma PairBounds(text: Text, title: Text, threshold: real, floorSimilarity: real)
    requires threshold <= floorSimilarity
    ensures ComparisonCells(text, title, floorSimilarity) <= PairBound(text, title, threshold)
  {
    hide CellsOf, BandCells, DistanceLimit;
    if text != [] && title != [] && floorSimilarity <= 1.0 {
      var longer := Max(|text|, |title|);
      LimitShrinks(threshold, floorSimilarity, longer);
      CellsAtMost(text, title, DistanceLimit(floorSimilarity, longer));
      BandCellsWiden(Min(|text|, |title|), DistanceLimit(floorSimilarity, longer), DistanceLimit(threshold, longer));
    }
  }

  lemma {:induction false} HeaderBounds(outline: seq<OutlineEntry>, header: HeaderHeight, threshold: real, n: nat)
    requires n <= |outline|
    ensures ScanCells(outline, header, threshold, n) <= HeaderBound(outline, header, threshold, n)
  {
    hide ComparisonCells, PairBound, Normalized, Match, ScanBest;
    if n > 0 {
      HeaderBounds(outline, header, threshold, n - 1);
      PairBounds(Normalized(header.text), Normalized(outline[n - 1].title), threshold, FloorAt(outline, header, threshold, n - 1));
    }
  }

  /** What the pass computes is bounded by its inputs. */
  lemma {:induction false} PassBounds(outline: seq<OutlineEntry>, headers: seq<HeaderHeight>, threshold: real)
    ensures PassCells(outline, headers, threshold) <= PassBound(outline, headers, threshold)
  {
    hide ScanCells, HeaderBound, HasExact;
    if headers != [] {
      PassBounds(outline, headers[..|headers| - 1], threshold);
      HeaderBounds(outline, headers[|headers| - 1], threshold, |outline|);
    }
  }

  /** The similarity the scan computes, cut off by the distance limit. */
  method CompareWithin(text: Text, title: Text, floorSimilarity: real, cells: nat)
    returns (similarity: Option<real>, cells': nat)
    ensures similarity.Some? ==> similarity.value == Similarity(text, title)
    ensures similarity.None? ==> Similarity(text, title) < floorSimilarity
    ensures similarity.Some? <==> ComparedInFull(text, title, floorSimilarity)
    ensures cells' == cells + ComparisonCells(text, title, floorSimilarity)
  {
    hide CellsOf;
    SimilarityRange(text, title);
    cells' := cells;
    if text == [] || title == [] {
      return Some(if text == [] && title == [] then 1.0 else 0.0), cells';
    }
    if floorSimilarity > 1.0 { return None, cells'; }
    var longer := Max(|text|, |title|);
    var limit := DistanceLimit(floorSimilarity, longer);
    var distance, spent := BoundedEditDistance(text, title, limit);
    cells' := cells + spent;
    if distance > limit {
      CutOffIsBelowFloor(Levenshtein(text, title), floorSimilarity, longer);
      return None, cells';
    }
    similarity := Some(Share(distance, longer));
  }

  /** The fuzzy scan of the outline for one header. A comparison cut off goes on to the next entry
      without asking for the budget, so only one made in full can be the last. */
  method ScanOutline(outline: seq<OutlineEntry>, titles: seq<Text>, header: HeaderHeight, text: Text,
                     threshold: real, spent: nat)
    returns (best: real, bestLevel: int, cells: nat, ghost read: nat)
    requires |titles| == |outline| && forall i :: 0 <= i < |outline| ==> titles[i] == Normalized(outline[i].title)
    requires text == Normalized(header.text)
    ensures read <= |outline| && cells == spent + ScanCells(outline, header, threshold, read)
    ensures Witnessed(outline, header, best, bestLevel)
    ensures read <= |outline| && Tracks(outline, header, threshold, read, best, bestLevel)
    ensures read < |outline| ==> cells > CELL_BUDGET && read > 0 && ComparedInFull(text, titles[read - 1], threshold)
  {
    hide Similarity, Normalized, ScanBest, ComparedInFull, ComparisonCells, FloorAt;
    best, bestLevel, cells, read := -1.0, 0, spent, |outline|;
    ScanStart(outline, header, threshold);
    for index := 0 to |outline|
      invariant cells == spent + ScanCells(outline, header, threshold, index)
      invariant Witnessed(outline, header, best, bestLevel)
      invariant Tracks(outline, header, threshold, index, best, bestLevel)
    {
      if !Eligible(outline[index], header) {
        TracksSkips(outline, header, threshold, index, best, bestLevel);
        continue;
      }
      FloorTracks(outline, header, threshold, index, best, bestLevel);
      var similarity;
      similarity, cells := CompareWithin(text, titles[index], MaxReal(threshold, best), cells);
      TracksNext(outline, header, threshold, index, best, bestLevel, similarity.Some?);
      if similarity.None? { continue; }
      FloorBelow(text, titles[index], MaxReal(threshold, best), threshold);
      if similarity.value > best {
        best, bestLevel := similarity.value, outline[index].level;
      }
      if cells > CELL_BUDGET {
        read := index + 1;
        return;
      }
    }
  }

  lemma ScanStart(outline: seq<OutlineEntry>, header: HeaderHeight, threshold: real)
    ensures Tracks(outline, header, threshold, 0, -1.0, 0)
  {
  }

  lemma TracksSkips(outline: seq<OutlineEntry>, header: HeaderHeight, threshold: real, n: nat, best: real, bestLevel: int)
    requires n < |outline| && Tracks(outline, header, threshold, n, best, bestLevel)
    requires !Eligible(outline[n], header)
    ensures Tracks(outline, header, threshold, n + 1, best, bestLevel)
  {
    hide Match;
  }

  // ----- The exact-title index.

  /** The entries of positive level under a normalized title, in order. */
  ghost function Positions(outline: seq<OutlineEntry>, title: Text, n: nat): seq<nat>
    requires n <= |outline|
  {
    if n == 0 then []
    else Positions(outline, title, n - 1) +
         (if outline[n - 1].level > 0 && Normalized(outline[n - 1].title) == title then [n - 1] else [])
  }

  lemma {:induction false} PositionsAreAll(outline: seq<OutlineEntry>, title: Text, n: nat)
    requires n <= |outline|
    ensures forall i :: 0 <= i < |Positions(outline, title, n)| ==> Positions(outline, title, n)[i] < n
    ensures forall i, j :: 0 <= i < j < |Positions(outline, title, n)| ==> Positions(outline, title, n)[i] < Positions(outline, title, n)[j]
    ensures forall k: nat :: k in Positions(outline, title, n) <==>
      k < n && outline[k].level > 0 && Normalized(outline[k].title) == title
  {
    if n > 0 {
      PositionsAreAll(outline, title, n - 1);
    }
  }

  ghost function Indexed(byTitle: map<Text, seq<nat>>, title: Text): seq<nat> {
    if title in byTitle then byTitle[title] else []
  }

  method IndexTitles(outline: seq<OutlineEntry>) returns (titles: seq<Text>, byTitle: map<Text, seq<nat>>)
    ensures |titles| == |outline| && forall i :: 0 <= i < |outline| ==> titles[i] == Normalized(outline[i].title)
    ensures forall t: Text :: Indexed(byTitle, t) == Positions(outline, t, |outline|)
  {
    hide Normalized;
    titles, byTitle := [], map[];
    for index := 0 to |outline|
      invariant |titles| == index && forall i :: 0 <= i < index ==> titles[i] == Normalized(outline[i].title)
      invariant forall t: Text :: Indexed(byTitle, t) == Positions(outline, t, index)
    {
      var title := NormalizeTitle(outline[index].title);
      titles := titles + [title];
      ghost var before := byTitle;
      if outline[index].level > 0 {
        var listed := if title in byTitle then byTitle[title] else [];
        byTitle := byTitle[title := listed + [index]];
      }
      forall t: Text ensures Indexed(byTitle, t) == Positions(outline, t, index + 1) {
        assert Indexed(before, t) == Positions(outline, t, index);
        if t != title { assert Positions(outline, t, index) + [] == Positions(outline, t, index); }
      }
    }
  }

  /** The first page-compatible entry of an equal title is the first best, whatever comes before it. */
  lemma ExactIsFirstBest(outline: seq<OutlineEntry>, header: HeaderHeight, k: nat)
    requires k < |outline| && Eligible(outline[k], header)
    requires Normalized(outline[k].title) == Normalized(header.text)
    requires forall j: nat :: j < k && Eligible(outline[j], header) ==> Normalized(outline[j].title) != Normalized(header.text)
    ensures FirstBest(outline, header, k) && Match(outline[k], header) == 1.0
  {
    forall j: nat | j < |outline| ensures 0.0 <= Match(outline[j], header) <= 1.0
      && (Match(outline[j], header) == 1.0 <==> Normalized(outline[j].title) == Normalized(header.text))
    {
      SimilarityRange(Normalized(header.text), Normalized(outline[j].title));
    }
    hide Match;
  }

  method FindExact(outline: seq<OutlineEntry>, listed: seq<nat>, header: HeaderHeight) returns (found: Option<nat>)
    requires listed == Positions(outline, Normalized(header.text), |outline|)
    ensures found.Some? ==> FirstBest(outline, header, found.value) && Match(outline[found.value], header) == 1.0
    ensures found.Some? <==> HasExact(outline, header)
  {
    ghost var text := Normalized(header.text);
    PositionsAreAll(outline, text, |outline|);
    hide Normalized, Match, Positions;
    found := None;
    for i := 0 to |listed|
      invariant forall j :: 0 <= j < i ==> !PageCompatible(outline[listed[j]], header)
    {
      var index := listed[i];
      assert index in listed;
      if PageCompatible(outline[index], header) {
        forall j: nat | j < index && j in listed ensures !PageCompatible(outline[j], header) {
          var at :| 0 <= at < |listed| && listed[at] == j;
          assert at < i;
        }
        ExactIsFirstBest(outline, header, index);
        return Some(index);
      }
    }
  }

  // ----- The whole pass.

  method MatchHeader(outline: seq<OutlineEntry>, titles: seq<Text>, byTitle: map<Text, seq<nat>>,
                     header: HeaderHeight, threshold: real, spent: nat)
    returns (best: real, bestLevel: int, cells: nat)
    requires |titles| == |outline| && forall i :: 0 <= i < |outline| ==> titles[i] == Normalized(outline[i].title)
    requires forall t: Text :: Indexed(byTitle, t) == Positions(outline, t, |outline|)
    ensures Witnessed(outline, header, best, bestLevel)
    ensures spent + HeaderCells(outline, header, threshold) <= CELL_BUDGET ==> cells == spent + HeaderCells(outline, header, threshold)
    ensures spent + HeaderCells(outline, header, threshold) > CELL_BUDGET ==> cells > CELL_BUDGET
    ensures spent + HeaderCells(outline, header, threshold) <= CELL_BUDGET || HasExact(outline, header) ==>
      Accepted(best, bestLevel, threshold) == LevelOf(outline, header, threshold)
  {
    best, bestLevel, cells := -1.0, 0, spent;
    var text := NormalizeTitle(header.text);
    hide Normalized, Match, ScanBest, HasExact, ScanCells;
    if text !in byTitle { NoneListed(outline, header, byTitle); }
    if text in byTitle {
      assert Indexed(byTitle, text) == byTitle[text];
      var exact := FindExact(outline, byTitle[text], header);
      if exact.Some? {
        best, bestLevel := 1.0, outline[exact.value].level;
        ExactDecides(outline, header, threshold, exact.value);
      }
    }
    if best < 1.0 && cells <= CELL_BUDGET {
      ghost var read;
      best, bestLevel, cells, read := ScanOutline(outline, titles, header, text, threshold, cells);
      ScanCellsGrow(outline, header, threshold, read, |outline|);
      if cells <= CELL_BUDGET { TracksToTheEnd(outline, header, threshold, best, bestLevel); }
    }
  }

  lemma {:induction false} ScanCellsGrow(outline: seq<OutlineEntry>, header: HeaderHeight, threshold: real, m: nat, n: nat)
    requires m <= n <= |outline|
    ensures ScanCells(outline, header, threshold, m) <= ScanCells(outline, header, threshold, n)
  {
    hide EntryCells;
    if m < n { ScanCellsGrow(outline, header, threshold, m, n - 1); }
  }

  lemma NoneListed(outline: seq<OutlineEntry>, header: HeaderHeight, byTitle: map<Text, seq<nat>>)
    requires Normalized(header.text) !in byTitle
    requires Indexed(byTitle, Normalized(header.text)) == Positions(outline, Normalized(header.text), |outline|)
    ensures !HasExact(outline, header)
  {
    hide Positions;
    PositionsAreAll(outline, Normalized(header.text), |outline|);
    hide Normalized;
    forall k: nat | k < |outline| && Normalized(outline[k].title) == Normalized(header.text) ensures !Eligible(outline[k], header) {
      assert k !in Positions(outline, Normalized(header.text), |outline|);
    }
  }

  lemma ExactDecides(outline: seq<OutlineEntry>, header: HeaderHeight, threshold: real, k: nat)
    requires FirstBest(outline, header, k) && Match(outline[k], header) == 1.0
    ensures Accepted(1.0, outline[k].level, threshold) == LevelOf(outline, header, threshold)
  {
    hide Match;
    if 1.0 >= threshold {
      assert Decides(outline, header, threshold, k);
      LevelIsDetermined(outline, header, threshold, k);
    } else {
      forall j: nat ensures !Decides(outline, header, threshold, j) {
        if j < |outline| && FirstBest(outline, header, j) {
          assert Match(outline[j], header) <= Match(outline[k], header);
        }
      }
    }
  }

  /** A level was taken from an entry the heading may match and whose title reaches the threshold. */
  ghost predicate Justified(outline: seq<OutlineEntry>, headers: seq<HeaderHeight>, threshold: real, ceiling: int,
                            ref: string, level: int)
  {
    exists h: nat, k: nat :: h < |headers| && k < |outline| && headers[h].selfRef == ref
      && Eligible(outline[k], headers[h]) && Match(outline[k], headers[h]) >= threshold
      && level == Min(ceiling, outline[k].level)
  }

  /** A heading whose very title is in the outline has the reference's level, budget or not, unless a
      later one of the first n goes by the same name. */
  ghost predicate ExactKept(outline: seq<OutlineEntry>, headers: seq<HeaderHeight>, n: nat, threshold: real, ceiling: int,
                            levels: map<string, int>, h: nat)
    requires h < n <= |headers|
  {
    var ref, level := headers[h].selfRef, LevelOf(outline, headers[h], threshold);
    HasExact(outline, headers[h]) && level.Some? && (forall j :: h < j < n ==> headers[j].selfRef != ref) ==>
      ref in levels && levels[ref] == Min(ceiling, level.value)
  }

  /** The levels with what one heading takes, if it takes one. */
  function Taken(levels: map<string, int>, ref: string, level: Option<int>, ceiling: int): map<string, int> {
    if level.Some? then levels[ref := Min(ceiling, level.value)] else levels
  }

  /** Within the budget, all of it exact; past it, at least that it is past. */
  ghost predicate WithinBudget(outline: seq<OutlineEntry>, headers: seq<HeaderHeight>, threshold: real, ceiling: int,
                               levels: map<string, int>, cells: nat)
  {
    var needed := PassCells(outline, headers, threshold);
    if needed <= CELL_BUDGET then levels == ReferenceLevels(outline, headers, threshold, ceiling) && cells == needed
    else cells > CELL_BUDGET
  }

  lemma BudgetNext(outline: seq<OutlineEntry>, headers: seq<HeaderHeight>, threshold: real, ceiling: int,
                   levels: map<string, int>, cells: nat, taken: Option<int>, cells': nat)
    requires headers != [] && WithinBudget(outline, headers[..|headers| - 1], threshold, ceiling, levels, cells)
    requires
      var header := headers[|headers| - 1];
      var needed := cells + HeaderCells(outline, header, threshold);
      if needed <= CELL_BUDGET then cells' == needed && taken == LevelOf(outline, header, threshold) else cells' > CELL_BUDGET
    ensures WithinBudget(outline, headers, threshold, ceiling, Taken(levels, headers[|headers| - 1].selfRef, taken, ceiling), cells')
  {
    hide LevelOf, HeaderCells;
  }

  lemma ExactNext(outline: seq<OutlineEntry>, headers: seq<HeaderHeight>, n: nat, threshold: real, ceiling: int,
                  levels: map<string, int>, taken: Option<int>, h: nat)
    requires h <= n < |headers| && (h < n ==> ExactKept(outline, headers, n, threshold, ceiling, levels, h))
    requires HasExact(outline, headers[n]) ==> taken == LevelOf(outline, headers[n], threshold)
    ensures ExactKept(outline, headers, n + 1, threshold, ceiling, Taken(levels, headers[n].selfRef, taken, ceiling), h)
  {
    hide LevelOf, HasExact;
  }

  ghost predicate AllJustified(outline: seq<OutlineEntry>, headers: seq<HeaderHeight>, threshold: real, ceiling: int, levels: map<string, int>) {
    forall ref :: ref in levels ==> Justified(outline, headers, threshold, ceiling, ref, levels[ref])
  }

  lemma JustifiedNext(outline: seq<OutlineEntry>, headers: seq<HeaderHeight>, n: nat, threshold: real, ceiling: int,
                      levels: map<string, int>, best: real, bestLevel: int)
    requires n < |headers| && Witnessed(outline, headers[n], best, bestLevel)
    requires AllJustified(outline, headers, threshold, ceiling, levels)
    ensures AllJustified(outline, headers, threshold, ceiling, Taken(levels, headers[n].selfRef, Accepted(best, bestLevel, threshold), ceiling))
  {
    hide Match;
    if best >= threshold && bestLevel > 0 {
      assert Justified(outline, headers, threshold, ceiling, headers[n].selfRef, Min(ceiling, bestLevel));
    }
  }

  /** The levels and what they cost: the reference's for what the pass costs without a budget, when that is
      within it; for which a bound computed from the inputs is enough. */
  method LevelsFromOutline(headers: seq<HeaderHeight>, outline: seq<OutlineEntry>, useBookmarks: bool,
                           threshold: real, ceiling: int)
    returns (levels: map<string, int>, cells: nat)
    ensures !useBookmarks || outline == [] ==> levels == map[]
    ensures useBookmarks && PassCells(outline, headers, threshold) <= CELL_BUDGET ==>
      levels == ReferenceLevels(outline, headers, threshold, ceiling) && cells == PassCells(outline, headers, threshold)
    ensures useBookmarks && PassCells(outline, headers, threshold) > CELL_BUDGET ==> cells > CELL_BUDGET
    ensures useBookmarks && PassBound(outline, headers, threshold) <= CELL_BUDGET ==>
      levels == ReferenceLevels(outline, headers, threshold, ceiling)
    ensures AllJustified(outline, headers, threshold, ceiling, levels)
    ensures useBookmarks ==> forall h: nat :: h < |headers| ==> ExactKept(outline, headers, |headers|, threshold, ceiling, levels, h)
  {
    hide Normalized, Match, LevelOf, HeaderCells, HasExact, PassBound, WithinBudget, ExactKept, Justified;
    PassBounds(outline, headers, threshold);
    levels, cells := map[], 0;
    if !useBookmarks { return; }
    NothingSpent(outline, threshold, ceiling);
    if outline == [] {
      NoOutlineNoLevels(headers, threshold, ceiling);
      NothingExact(headers, threshold, ceiling);
      return;
    }
    var titles, byTitle := IndexTitles(outline);
    for h: nat := 0 to |headers|
      invariant WithinBudget(outline, headers[..h], threshold, ceiling, levels, cells)
      invariant forall j: nat :: j < h ==> ExactKept(outline, headers, h, threshold, ceiling, levels, j)
      invariant AllJustified(outline, headers, threshold, ceiling, levels)
    {
      ghost var before, spent := levels, cells;
      var best, bestLevel;
      best, bestLevel, cells := MatchHeader(outline, titles, byTitle, headers[h], threshold, cells);
      ghost var taken := Accepted(best, bestLevel, threshold);
      assert headers[..h + 1][..h] == headers[..h] && headers[..h + 1][h] == headers[h];
      BudgetNext(outline, headers[..h + 1], threshold, ceiling, before, spent, taken, cells);
      ghost var n, after := h + 1, Taken(before, headers[h].selfRef, taken, ceiling);
      forall j: nat | j < n ensures ExactKept(outline, headers, n, threshold, ceiling, after, j) {
        ExactNext(outline, headers, h, threshold, ceiling, before, taken, j);
      }
      JustifiedNext(outline, headers, h, threshold, ceiling, before, best, bestLevel);
      if best >= threshold && bestLevel > 0 { levels := levels[headers[h].selfRef := Min(ceiling, bestLevel)]; }
    }
    assert headers[..|headers|] == headers;
    BudgetMeans(outline, headers, threshold, ceiling, levels, cells);
  }

  lemma NothingSpent(outline: seq<OutlineEntry>, threshold: real, ceiling: int)
    ensures WithinBudget(outline, [], threshold, ceiling, map[], 0)
  {
  }

  lemma NothingExact(headers: seq<HeaderHeight>, threshold: real, ceiling: int)
    ensures forall h: nat :: h < |headers| ==> ExactKept([], headers, |headers|, threshold, ceiling, map[], h)
  {
  }

  lemma BudgetMeans(outline: seq<OutlineEntry>, headers: seq<HeaderHeight>, threshold: real, ceiling: int,
                    levels: map<string, int>, cells: nat)
    requires WithinBudget(outline, headers, threshold, ceiling, levels, cells)
    ensures PassCells(outline, headers, threshold) <= CELL_BUDGET ==>
      levels == ReferenceLevels(outline, headers, threshold, ceiling) && cells == PassCells(outline, headers, threshold)
    ensures PassCells(outline, headers, threshold) > CELL_BUDGET ==> cells > CELL_BUDGET
  {
    hide ReferenceLevels, PassCells;
  }

  lemma {:induction false} NoOutlineNoLevels(headers: seq<HeaderHeight>, threshold: real, ceiling: int)
    ensures ReferenceLevels([], headers, threshold, ceiling) == map[] && PassCells([], headers, threshold) == 0
    ensures forall header :: !HasExact([], header)
  {
    if headers != [] {
      NoOutlineNoLevels(headers[..|headers| - 1], threshold, ceiling);
    }
  }
}
