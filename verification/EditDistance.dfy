/** Edit distance of heading titles (src/heading_hierarchy.cpp).

    `Distance` is the textbook recurrence over prefixes. Its meaning does not rest on the
    recurrence: `DistanceIsLeastScript` ties it to edit scripts, the least cost at which one
    string can be turned into the other. The two programs that compute it, the banded
    early-exit one and the single-row one, are methods proved against it. */
module EditDistance {
  import opened Bytes

  /** The Levenshtein distance between x[..i] and y[..j]. */
  ghost function Distance(x: Text, i: nat, y: Text, j: nat): nat
    requires i <= |x| && j <= |y|
    decreases i + j
  {
    if i == 0 then j
    else if j == 0 then i
    else Least(Distance(x, i - 1, y, j) + 1,
               Distance(x, i, y, j - 1) + 1,
               Distance(x, i - 1, y, j - 1) + Mismatch(x[i - 1], y[j - 1]))
  }

  ghost function Levenshtein(x: Text, y: Text): nat {
    Distance(x, |x|, y, |y|)
  }

  function Mismatch(a: Byte, b: Byte): nat {
    if a == b then 0 else 1
  }

  function Least(a: nat, b: nat, c: nat): nat {
    Min(a, Min(b, c))
  }

  // ----- What the distance means: the least cost of an edit script.

  datatype Edit = Copy | Replace(put: Byte) | Insert(what: Byte) | Delete

  /** What a script leaves of x, when it consumes x exactly. */
  ghost function Apply(script: seq<Edit>, x: Text): Option<Text> {
    if script == [] then
      if x == [] then Some([]) else None
    else
      var last := script[|script| - 1];
      var rest := script[..|script| - 1];
      if last.Insert? then
        Extend(Apply(rest, x), [last.what])
      else if x == [] then None
      else
        var prefix := Apply(rest, x[..|x| - 1]);
        match last
        case Copy => Extend(prefix, [x[|x| - 1]])
        case Replace(put) => Extend(prefix, [put])
        case _ => prefix
  }

  ghost function Extend(text: Option<Text>, more: Text): Option<Text> {
    if text.Some? then Some(text.value + more) else None
  }

  ghost function Cost(script: seq<Edit>): nat {
    if script == [] then 0
    else Cost(script[..|script| - 1]) + (if script[|script| - 1].Copy? then 0 else 1)
  }

  function Front(t: Text): Text
    requires t != []
  {
    t[..|t| - 1]
  }

  /** What the end of a script does, undone. */
  lemma ScriptEnds(script: seq<Edit>, x: Text, y: Text)
    requires script != [] && Apply(script, x) == Some(y)
    ensures
      var last, rest := script[|script| - 1], script[..|script| - 1];
      && Cost(script) == Cost(rest) + (if last.Copy? then 0 else 1)
      && (!last.Insert? ==> x != [])
      && (!last.Delete? ==> y != [])
      && Apply(rest, if last.Insert? then x else Front(x)) == Some(if last.Delete? then y else Front(y))
      && (last.Copy? ==> x[|x| - 1] == y[|y| - 1])
  {
  }

  lemma {:induction false} ScriptCostsAtLeastDistance(script: seq<Edit>, x: Text, y: Text)
    requires Apply(script, x) == Some(y)
    ensures Levenshtein(x, y) <= Cost(script)
    decreases |script|
  {
    hide Apply, Cost, Levenshtein;
    if script == [] {
      EmptyCosts(x, y);
    } else {
      var last, rest := script[|script| - 1], script[..|script| - 1];
      ScriptEnds(script, x, y);
      ScriptCostsAtLeastDistance(rest, if last.Insert? then x else Front(x), if last.Delete? then y else Front(y));
      FrontDistances(x, y);
    }
  }

  lemma EmptyCosts(x: Text, y: Text)
    requires Apply([], x) == Some(y)
    ensures Levenshtein(x, y) == 0 && Cost([]) == 0
  {
  }

  /** One more edit at the end costs at most its own. */
  lemma FrontDistances(x: Text, y: Text)
    ensures x != [] ==> Levenshtein(x, y) <= Levenshtein(Front(x), y) + 1
    ensures y != [] ==> Levenshtein(x, y) <= Levenshtein(x, Front(y)) + 1
    ensures x != [] && y != [] ==> Levenshtein(x, y) <= Levenshtein(Front(x), Front(y)) + Mismatch(x[|x| - 1], y[|y| - 1])
  {
    hide Distance;
    DistanceStep(x, |x|, y, |y|);
    if x != [] { DistanceOfPrefixes(x, |x| - 1, Front(x), y, |y|, y); }
    if y != [] { DistanceOfPrefixes(x, |x|, x, y, |y| - 1, Front(y)); }
    if x != [] && y != [] {
      DistanceOfPrefixes(x, |x| - 1, Front(x), y, |y| - 1, Front(y));
      DistanceUnfolds(x, |x|, y, |y|);
    }
  }

  /** A single deletion or insertion costs at most one, also at the edges. */
  lemma DistanceStep(x: Text, i: nat, y: Text, j: nat)
    requires i <= |x| && j <= |y|
    ensures i > 0 ==> Distance(x, i, y, j) <= Distance(x, i - 1, y, j) + 1
    ensures j > 0 ==> Distance(x, i, y, j) <= Distance(x, i, y, j - 1) + 1
  {
  }

  /** One more edit at the end of a script. */
  lemma ScriptEndsWith(before: seq<Edit>, last: Edit, x: Text, y: Text)
    requires last.Insert? ==> Apply(before, x) == Some(y)
    requires !last.Insert? ==> x != [] && Apply(before, x[..|x| - 1]) == Some(y)
    ensures Cost(before + [last]) == Cost(before) + (if last.Copy? then 0 else 1)
    ensures Apply(before + [last], x) ==
            Some(y + match last
                     case Copy => [x[|x| - 1]]
                     case Replace(put) => [put]
                     case Insert(what) => [what]
                     case Delete => [])
  {
    var script := before + [last];
    assert script[..|script| - 1] == before;
    assert y + [] == y;
  }

  /** The least of the three ways to end a script is the distance. */
  lemma LastEdit(x: Text, y: Text)
    requires x != [] || y != []
    ensures
      || (x != [] && Levenshtein(x, y) == Levenshtein(Front(x), y) + 1)
      || (y != [] && Levenshtein(x, y) == Levenshtein(x, Front(y)) + 1)
      || (x != [] && y != [] && Levenshtein(x, y) == Levenshtein(Front(x), Front(y)) + Mismatch(x[|x| - 1], y[|y| - 1]))
  {
    hide Distance;
    if x != [] { DistanceOfPrefixes(x, |x| - 1, Front(x), y, |y|, y); }
    if y != [] { DistanceOfPrefixes(x, |x|, x, y, |y| - 1, Front(y)); }
    if x == [] || y == [] {
      DistanceEdge(x, |x|, y, |y|);
      if x != [] { DistanceEdge(x, |x| - 1, y, |y|); } else { DistanceEdge(x, |x|, y, |y| - 1); }
    } else {
      DistanceOfPrefixes(x, |x| - 1, Front(x), y, |y| - 1, Front(y));
      DistanceUnfolds(x, |x|, y, |y|);
    }
  }

  lemma EmptyScript()
    ensures Apply([], []) == Some([]) && Cost([]) == 0 && Levenshtein([], []) == 0
  {
  }

  lemma {:induction false} BestScript(x: Text, y: Text) returns (script: seq<Edit>)
    ensures Apply(script, x) == Some(y)
    ensures Cost(script) == Levenshtein(x, y)
    decreases |x| + |y|
  {
    hide Apply, Cost, Levenshtein;
    if x == [] && y == [] {
      script := [];
      EmptyScript();
      return;
    }
    LastEdit(x, y);
    var before: seq<Edit>, last: Edit, end: Text;
    if x != [] && Levenshtein(x, y) == Levenshtein(Front(x), y) + 1 {
      before := BestScript(Front(x), y);
      last, end := Delete, y;
    } else if y != [] && Levenshtein(x, y) == Levenshtein(x, Front(y)) + 1 {
      before := BestScript(x, Front(y));
      last, end := Insert(y[|y| - 1]), Front(y);
    } else {
      before := BestScript(Front(x), Front(y));
      end := Front(y);
      last := if x[|x| - 1] == y[|y| - 1] then Copy else Replace(y[|y| - 1]);
    }
    ScriptEndsWith(before, last, x, end);
    script := before + [last];
    assert y + [] == y && (y != [] ==> Front(y) + [y[|y| - 1]] == y);
  }

  /** The distance is exactly the least cost of a script turning x into y. */
  lemma DistanceIsLeastScript(x: Text, y: Text)
    ensures exists script :: Apply(script, x) == Some(y) && Cost(script) == Levenshtein(x, y)
    ensures forall script :: Apply(script, x) == Some(y) ==> Levenshtein(x, y) <= Cost(script)
  {
    var best := BestScript(x, y);
    forall script | Apply(script, x) == Some(y) ensures Levenshtein(x, y) <= Cost(script) {
      ScriptCostsAtLeastDistance(script, x, y);
    }
  }

  // ----- Facts about the recurrence.

  /** The distance of prefixes depends on the prefixes alone. */
  lemma {:induction false} DistanceOfPrefixes(x: Text, i: nat, x': Text, y: Text, j: nat, y': Text)
    requires i <= |x| && j <= |y| && i <= |x'| && j <= |y'|
    requires x[..i] == x'[..i] && y[..j] == y'[..j]
    ensures Distance(x, i, y, j) == Distance(x', i, y', j)
    decreases i + j
  {
    if i != 0 && j != 0 {
      assert x[..i - 1] == x[..i][..i - 1] == x'[..i - 1];
      assert y[..j - 1] == y[..j][..j - 1] == y'[..j - 1];
      assert x[i - 1] == x[..i][i - 1] == x'[i - 1];
      assert y[j - 1] == y[..j][j - 1] == y'[j - 1];
      DistanceOfPrefixes(x, i - 1, x', y, j, y');
      DistanceOfPrefixes(x, i, x', y, j - 1, y');
      DistanceOfPrefixes(x, i - 1, x', y, j - 1, y');
    }
  }

  /** The recurrence, as one step of rewriting. */
  lemma DistanceUnfolds(x: Text, i: nat, y: Text, j: nat)
    requires 0 < i <= |x| && 0 < j <= |y|
    ensures Distance(x, i, y, j) == Least(Distance(x, i - 1, y, j) + 1,
                                          Distance(x, i, y, j - 1) + 1,
                                          Distance(x, i - 1, y, j - 1) + Mismatch(x[i - 1], y[j - 1]))
  {
  }

  lemma DistanceEdge(x: Text, i: nat, y: Text, j: nat)
    requires i <= |x| && j <= |y| && (i == 0 || j == 0)
    ensures Distance(x, i, y, j) == i + j
  {
  }

  lemma {:induction false} DistanceSymmetric(x: Text, i: nat, y: Text, j: nat)
    requires i <= |x| && j <= |y|
    ensures Distance(x, i, y, j) == Distance(y, j, x, i)
    decreases i + j
  {
    hide Distance;
    if i == 0 || j == 0 {
      DistanceEdge(x, i, y, j);
      DistanceEdge(y, j, x, i);
    } else {
      DistanceSymmetric(x, i - 1, y, j);
      DistanceSymmetric(x, i, y, j - 1);
      DistanceSymmetric(x, i - 1, y, j - 1);
      SymmetricStep(x, i, y, j);
    }
  }

  lemma SymmetricStep(x: Text, i: nat, y: Text, j: nat)
    requires 0 < i <= |x| && 0 < j <= |y|
    requires Distance(x, i - 1, y, j) == Distance(y, j, x, i - 1)
    requires Distance(x, i, y, j - 1) == Distance(y, j - 1, x, i)
    requires Distance(x, i - 1, y, j - 1) == Distance(y, j - 1, x, i - 1)
    ensures Distance(x, i, y, j) == Distance(y, j, x, i)
  {
    hide Distance;
    DistanceUnfolds(x, i, y, j);
    DistanceUnfolds(y, j, x, i);
  }

  /** The distance is at least the difference in length and at most the longer length. */
  lemma {:induction false} DistanceBounds(x: Text, i: nat, y: Text, j: nat)
    requires i <= |x| && j <= |y|
    ensures i - j <= Distance(x, i, y, j) && j - i <= Distance(x, i, y, j)
    ensures Distance(x, i, y, j) <= Max(i, j)
    decreases i + j
  {
    hide Distance;
    if i == 0 || j == 0 {
      DistanceEdge(x, i, y, j);
    } else {
      DistanceUnfolds(x, i, y, j);
      DistanceBounds(x, i - 1, y, j);
      DistanceBounds(x, i, y, j - 1);
      DistanceBounds(x, i - 1, y, j - 1);
    }
  }

  /** Zero distance is equality. */
  lemma {:induction false} DistanceZero(x: Text, i: nat, y: Text, j: nat)
    requires i <= |x| && j <= |y|
    ensures Distance(x, i, y, j) == 0 <==> x[..i] == y[..j]
    decreases i + j
  {
    if i != 0 && j != 0 {
      DistanceZero(x, i - 1, y, j - 1);
      DistanceBounds(x, i, y, j);
      if x[i - 1] == y[j - 1] && x[..i - 1] == y[..j - 1] {
        assert x[..i] == x[..i - 1] + [x[i - 1]] == y[..j - 1] + [y[j - 1]] == y[..j];
      }
      if x[..i] == y[..j] {
        assert x[i - 1] == x[..i][i - 1] == y[..j][i - 1];
        assert x[..i - 1] == x[..i][..i - 1] == y[..j][..j - 1] == y[..j - 1];
      }
    }
  }

  /** A cell is no less than one of its three neighbours. */
  lemma DistanceComesFrom(x: Text, i: nat, y: Text, j: nat)
    requires 0 < i <= |x| && 0 < j <= |y|
    ensures
      || Distance(x, i - 1, y, j) <= Distance(x, i, y, j)
      || Distance(x, i, y, j - 1) <= Distance(x, i, y, j)
      || Distance(x, i - 1, y, j - 1) <= Distance(x, i, y, j)
  {
    DistanceUnfolds(x, i, y, j);
    hide Distance;
  }

  /** Every path to a later cell passes row i at no greater cost. */
  lemma {:induction false} RowBelow(x: Text, i: nat, i': nat, y: Text, j': nat) returns (j: nat)
    requires i <= i' <= |x| && j' <= |y|
    ensures j <= j' && Distance(x, i, y, j) <= Distance(x, i', y, j')
    decreases i' + j'
  {
    hide Distance;
    if i == i' {
      j := j';
    } else if j' == 0 {
      j := 0;
      DistanceEdge(x, i, y, 0);
      DistanceEdge(x, i', y, 0);
    } else {
      DistanceComesFrom(x, i', y, j');
      if Distance(x, i' - 1, y, j') <= Distance(x, i', y, j') {
        j := RowBelow(x, i, i' - 1, y, j');
      } else if Distance(x, i', y, j' - 1) <= Distance(x, i', y, j') {
        j := RowBelow(x, i, i', y, j' - 1);
      } else {
        j := RowBelow(x, i, i' - 1, y, j' - 1);
      }
    }
  }

  // ----- The cells the banded program computes.

  /** No cell of row i in the band is within the limit. */
  ghost predicate RowOver(x: Text, i: nat, y: Text, limit: nat)
    requires i <= |x|
  {
    forall j: nat :: j <= |y| && InBand(i, j, limit) ==> Distance(x, i, y, j) > limit
  }

  /** The row the program stops at: the first one over the limit from row i on, the last one when there is none. */
  ghost function LastRow(x: Text, i: nat, y: Text, limit: nat): (last: nat)
    requires i <= |x|
    ensures i <= last <= |x|
    ensures last == |x| || RowOver(x, last, y, limit)
    ensures forall k: nat :: i <= k < last ==> !RowOver(x, k, y, limit)
    decreases |x| - i
  {
    if i == |x| || RowOver(x, i, y, limit) then i else LastRow(x, i + 1, y, limit)
  }

  /** The cells of the first rows in the band; row 0 and column 0 are given. */
  ghost function Band(rows: nat, columns: nat, limit: nat): set<(nat, nat)> {
    set i: nat, j: nat | 1 <= i <= rows && 1 <= j <= columns && InBand(i, j, limit) :: (i, j)
  }

  /** The cells a comparison computes: none when the lengths alone decide, else the band down to the row the program stops at. */
  ghost function CellsOf(a: Text, b: Text, limit: nat): nat {
    var x, y := if |a| > |b| then b else a, if |a| > |b| then a else b;
    if |y| - |x| > limit then 0 else |Band(LastRow(x, 0, y, limit), |y|, limit)|
  }

  lemma BandGrows(i: nat, columns: nat, limit: nat, low: nat, high: nat)
    requires 1 <= i <= columns
    requires low == (if i > limit then i - limit else 1) && high == Min(columns, i + limit)
    ensures |Band(i, columns, limit)| == |Band(i - 1, columns, limit)| + (high - low + 1)
  {
    var row := RowCells(i, low, high);
    RowCount(i, low, high);
    assert Band(i, columns, limit) == Band(i - 1, columns, limit) + row;
    assert Band(i - 1, columns, limit) !! row;
  }

  ghost function RowCells(i: nat, low: nat, high: nat): set<(nat, nat)> {
    set j: nat | low <= j <= high :: (i, j)
  }

  lemma {:induction false} RowCount(i: nat, low: nat, high: nat)
    requires low <= high + 1
    ensures |RowCells(i, low, high)| == high - low + 1
    decreases high + 1 - low
  {
    if low == high + 1 {
      assert RowCells(i, low, high) == {};
    } else {
      RowCount(i, low + 1, high);
      assert RowCells(i, low, high) == RowCells(i, low + 1, high) + {(i, low)};
    }
  }

  /** The most cells `rows` rows of the band can hold. */
  ghost function BandCells(rows: nat, limit: nat): nat {
    rows * (2 * limit + 1)
  }

  lemma BandCellsGrow(rows: nat, more: nat, limit: nat)
    ensures BandCells(rows + 1, limit) == BandCells(rows, limit) + 2 * limit + 1
    ensures BandCells(rows, limit) <= BandCells(rows + more, limit)
  {
    assert rows * (2 * limit + 1) <= (rows + more) * (2 * limit + 1);
  }

  lemma BandCellsWiden(rows: nat, limit: nat, wider: nat)
    requires limit <= wider
    ensures BandCells(rows, limit) <= BandCells(rows, wider)
  {
    ProductGrows(rows, 2 * limit + 1, 2 * wider + 1);
  }

  lemma ProductGrows(a: nat, b: nat, c: nat)
    requires b <= c
    ensures a * b <= a * c
  {
  }

  lemma {:induction false} BandIsNarrow(rows: nat, columns: nat, limit: nat)
    requires rows <= columns
    ensures |Band(rows, columns, limit)| <= BandCells(rows, limit)
  {
    hide Band, BandCells;
    if rows == 0 {
      NoCells(columns, limit);
    } else {
      BandIsNarrow(rows - 1, columns, limit);
      BandGrows(rows, columns, limit, if rows > limit then rows - limit else 1, Min(columns, rows + limit));
      BandCellsGrow(rows - 1, 0, limit);
    }
  }

  lemma NoCells(columns: nat, limit: nat)
    ensures Band(0, columns, limit) == {}
  {
  }

  /** A comparison computes at most the whole band of its shorter text. */
  lemma CellsAtMost(a: Text, b: Text, limit: nat)
    ensures CellsOf(a, b, limit) <= BandCells(Min(|a|, |b|), limit)
  {
    hide Band, BandCells, LastRow;
    var x, y := if |a| > |b| then b else a, if |a| > |b| then a else b;
    if |y| - |x| <= limit {
      var last := LastRow(x, 0, y, limit);
      BandIsNarrow(last, |y|, limit);
      BandCellsGrow(last, |x| - last, limit);
    }
  }

  // ----- The banded program.

  /** The cell (i, j) lies on the diagonal band of half-width `limit`. */
  predicate InBand(i: nat, j: nat, limit: nat) {
    i - limit <= j <= i + limit
  }

  /** When a whole row of the band exceeds the limit, so does the final distance. */
  lemma RowExceeds(x: Text, i: nat, y: Text, limit: nat)
    requires i <= |x|
    requires forall j: nat :: j <= |y| && InBand(i, j, limit) ==> Distance(x, i, y, j) > limit
    ensures Levenshtein(x, y) > limit
  {
    var j := RowBelow(x, i, |x|, y, |y|);
    if !InBand(i, j, limit) {
      DistanceBounds(x, i, y, j);
    }
  }

  /** The value a DP cell stores: distances past the limit are all alike. */
  ghost function Capped(x: Text, i: nat, y: Text, j: nat, limit: nat): nat
    requires i <= |x| && j <= |y|
  {
    Min(Distance(x, i, y, j), limit + 1)
  }

  /** The cells of row i that the next row, or the final answer, may read. */
  ghost predicate RowDone(row: seq<nat>, x: Text, i: nat, y: Text, limit: nat)
    requires i <= |x| && |row| == |y| + 1
  {
    forall j: nat :: j <= |y| && i - limit - 1 <= j <= i + limit + 1 ==> row[j] == Capped(x, i, y, j, limit)
  }

  /** A cell of the recurrence from capped neighbours. */
  lemma CappedStep(x: Text, i: nat, y: Text, j: nat, limit: nat)
    requires 1 <= i <= |x| && 1 <= j <= |y|
    ensures Capped(x, i, y, j, limit) ==
            Min(Least(Capped(x, i - 1, y, j, limit) + 1,
                      Capped(x, i, y, j - 1, limit) + 1,
                      Capped(x, i - 1, y, j - 1, limit) + Mismatch(x[i - 1], y[j - 1])), limit + 1)
  {
  }

  /** Just outside the band every distance is over the limit. */
  lemma CappedOutside(x: Text, i: nat, y: Text, j: nat, limit: nat)
    requires i <= |x| && j <= |y| && !InBand(i, j, limit)
    ensures Capped(x, i, y, j, limit) == limit + 1
  {
    DistanceBounds(x, i, y, j);
  }

  lemma CappedFirst(x: Text, i: nat, y: Text, j: nat, limit: nat)
    requires i <= |x| && j <= |y|
    ensures Capped(x, i, y, 0, limit) == Min(i, limit + 1)
    ensures Capped(x, 0, y, j, limit) == Min(j, limit + 1)
  {
  }

  lemma CappedLast(x: Text, y: Text, limit: nat)
    ensures Capped(x, |x|, y, |y|, limit) == Min(Levenshtein(x, y), limit + 1)
  {
  }

  lemma RowAllOver(x: Text, i: nat, y: Text, limit: nat, low: nat, high: nat)
    requires 1 <= i <= |x|
    requires low == (if i > limit then i - limit else 1) && high == Min(|y|, i + limit)
    requires forall k: nat :: low - 1 <= k <= high ==> limit < Capped(x, i, y, k, limit)
    ensures Levenshtein(x, y) > limit
  {
    forall k: nat | k <= |y| && InBand(i, k, limit) ensures Distance(x, i, y, k) > limit {
      assert limit < Capped(x, i, y, k, limit);
    }
    RowExceeds(x, i, y, limit);
  }

  /** The cells of row i from `from` up to `to`, none less than the minimum. */
  ghost predicate CellsDone(row: seq<nat>, x: Text, i: nat, y: Text, limit: nat, from: nat, to: nat, least: nat)
    requires i <= |x| && |row| == |y| + 1
  {
    forall k: nat :: from <= k < to && k <= |y| ==> row[k] == Capped(x, i, y, k, limit) && least <= Capped(x, i, y, k, limit)
  }

  /** One of the cells is as small as the minimum. */
  ghost predicate LeastMet(x: Text, i: nat, y: Text, limit: nat, from: nat, to: nat, least: nat)
    requires i <= |x|
  {
    exists k: nat :: from <= k < to && k <= |y| && Capped(x, i, y, k, limit) == least
  }

  lemma LeastNext(x: Text, i: nat, y: Text, limit: nat, from: nat, j: nat, least: nat)
    requires i <= |x| && from <= j <= |y| && LeastMet(x, i, y, limit, from, j, least)
    ensures LeastMet(x, i, y, limit, from, j + 1, Min(least, Capped(x, i, y, j, limit)))
  {
    hide Capped;
  }

  /** The minimum of a row tells whether the row is over the limit. */
  lemma MinimumTells(x: Text, i: nat, y: Text, limit: nat, low: nat, high: nat, least: nat)
    requires 1 <= i <= |x|
    requires low == (if i > limit then i - limit else 1) && high == Min(|y|, i + limit)
    requires forall k: nat :: low - 1 <= k <= high ==> least <= Capped(x, i, y, k, limit)
    requires LeastMet(x, i, y, limit, low - 1, high + 1, least)
    ensures least > limit <==> RowOver(x, i, y, limit)
  {
    if least > limit {
      forall k: nat | k <= |y| && InBand(i, k, limit) ensures Distance(x, i, y, k) > limit {
        assert least <= Capped(x, i, y, k, limit);
      }
    } else {
      var k: nat :| low - 1 <= k < high + 1 && k <= |y| && Capped(x, i, y, k, limit) == least;
      if !InBand(i, k, limit) { CappedOutside(x, i, y, k, limit); }
    }
  }

  lemma CellsNext(row: seq<nat>, x: Text, i: nat, y: Text, limit: nat, from: nat, j: nat, least: nat)
    requires i <= |x| && |row| == |y| + 1 && j <= |y|
    requires CellsDone(row, x, i, y, limit, from, j, least)
    ensures CellsDone(row[j := Capped(x, i, y, j, limit)], x, i, y, limit, from, j + 1, Min(least, Capped(x, i, y, j, limit)))
  {
    hide Capped;
  }

  /** A cell of the band from the stored ones beside and above it. */
  lemma CellIs(before: seq<nat>, x: Text, i: nat, y: Text, j: nat, limit: nat, left: nat)
    requires 1 <= i <= |x| && 1 <= j <= |y| && |before| == |y| + 1 && InBand(i, j, limit)
    requires RowDone(before, x, i - 1, y, limit) && left == Capped(x, i, y, j - 1, limit)
    ensures Capped(x, i, y, j, limit) == Min(Least(before[j] + 1, left + 1, before[j - 1] + Mismatch(x[i - 1], y[j - 1])), limit + 1)
  {
    CappedStep(x, i, y, j, limit);
    hide Capped;
  }

  lemma BandIsRow(row: seq<nat>, x: Text, i: nat, y: Text, limit: nat, low: nat, high: nat, least: nat)
    requires 1 <= i <= |x| && |row| == |y| + 1
    requires low == (if i > limit then i - limit else 1) && high == Min(|y|, i + limit)
    requires CellsDone(row, x, i, y, limit, low - 1, high + 1, least)
    requires high < |y| ==> row[high + 1] == limit + 1
    ensures RowDone(row, x, i, y, limit)
    ensures forall k: nat :: low - 1 <= k <= high ==> least <= Capped(x, i, y, k, limit)
  {
    if high < |y| { CappedOutside(x, i, y, high + 1, limit); }
    hide Capped;
  }

  /** One row of the band, from the row before it. */
  method FillRow(x: Text, i: nat, y: Text, limit: nat, previous: array<nat>, current: array<nat>, low: nat, high: nat)
    returns (rowMinimum: nat)
    requires 1 <= i <= |x| <= |y| <= |x| + limit
    requires low == (if i > limit then i - limit else 1) && high == Min(|y|, i + limit)
    requires previous != current && previous.Length == current.Length == |y| + 1
    requires RowDone(previous[..], x, i - 1, y, limit)
    modifies current
    ensures RowDone(current[..], x, i, y, limit)
    ensures forall k: nat :: low - 1 <= k <= high ==> rowMinimum <= Capped(x, i, y, k, limit)
    ensures rowMinimum > limit <==> RowOver(x, i, y, limit)
  {
    hide Distance, Capped, CellsDone, RowDone, LeastMet, RowOver;
    var over: nat := limit + 1;
    ghost var before := previous[..];
    current[low - 1] := if low == 1 && i <= limit then i else over;
    rowMinimum := current[low - 1];
    FirstCell(current[..], x, i, y, limit, low);
    var j := low;
    while j <= high
      invariant low <= j <= high + 1
      invariant previous[..] == before
      invariant current[j - 1] == Capped(x, i, y, j - 1, limit)
      invariant CellsDone(current[..], x, i, y, limit, low - 1, j, rowMinimum)
      invariant LeastMet(x, i, y, limit, low - 1, j, rowMinimum)
    {
      ghost var row := current[..];
      LeastNext(x, i, y, limit, low - 1, j, rowMinimum);
      CellIs(before, x, i, y, j, limit, current[j - 1]);
      CellsNext(row, x, i, y, limit, low - 1, j, rowMinimum);
      var substitution := previous[j - 1] + Mismatch(x[i - 1], y[j - 1]);
      var value := Least(previous[j] + 1, current[j - 1] + 1, substitution);
      current[j] := Min(value, over);
      rowMinimum := Min(rowMinimum, current[j]);
      assert current[..] == row[j := current[j]];
      j := j + 1;
    }
    ghost var row := current[..];
    if high < |y| {
      current[high + 1] := over;
      assert current[..] == row[high + 1 := over];
      BeyondBand(row, x, i, y, limit, low - 1, high + 1, rowMinimum, over);
    }
    BandIsRow(current[..], x, i, y, limit, low, high, rowMinimum);
    MinimumTells(x, i, y, limit, low, high, rowMinimum);
  }

  lemma FirstCell(row: seq<nat>, x: Text, i: nat, y: Text, limit: nat, low: nat)
    requires 1 <= i <= |x| && |row| == |y| + 1
    requires low == (if i > limit then i - limit else 1) && low <= |row|
    requires row[low - 1] == (if low == 1 && i <= limit then i else limit + 1)
    ensures row[low - 1] == Capped(x, i, y, low - 1, limit)
    ensures CellsDone(row, x, i, y, limit, low - 1, low, row[low - 1])
    ensures LeastMet(x, i, y, limit, low - 1, low, row[low - 1])
  {
    if low == 1 {
      CappedFirst(x, i, y, 0, limit);
    } else {
      CappedOutside(x, i, y, low - 1, limit);
    }
    hide Capped;
  }

  lemma BeyondBand(row: seq<nat>, x: Text, i: nat, y: Text, limit: nat, from: nat, to: nat, least: nat, value: nat)
    requires i <= |x| && |row| == |y| + 1 && to <= |y|
    requires CellsDone(row, x, i, y, limit, from, to, least)
    ensures CellsDone(row[to := value], x, i, y, limit, from, to, least)
  {
    hide Capped;
  }

  lemma NoRows(x: Text, y: Text, limit: nat)
    ensures Band(0, |y|, limit) == {} && !RowOver(x, 0, y, limit)
  {
    assert Distance(x, 0, y, 0) == 0;
  }

  lemma LastIs(x: Text, y: Text, limit: nat, i: nat)
    requires i <= |x| && (i == |x| || RowOver(x, i, y, limit))
    requires forall k: nat :: k < i ==> !RowOver(x, k, y, limit)
    ensures LastRow(x, 0, y, limit) == i
  {
    hide RowOver;
  }

  method BandedDistance(x: Text, y: Text, limit: nat) returns (distance: nat, cells: nat)
    requires |x| <= |y| <= |x| + limit
    ensures distance == Min(Levenshtein(x, y), limit + 1)
    ensures cells == |Band(LastRow(x, 0, y, limit), |y|, limit)|
  {
    hide Distance, Capped, Levenshtein, Band, RowOver;
    var n, m := |x|, |y|;
    var over: nat := limit + 1;
    cells := 0;
    NoRows(x, y, limit);
    var previous := new nat[m + 1](_ => over);
    var current := new nat[m + 1](_ => over);
    for j := 0 to Min(m, limit) + 1
      invariant forall k :: 0 <= k < j ==> previous[k] == k
      invariant forall k :: j <= k <= m ==> previous[k] == over
    {
      previous[j] := j;
    }
    forall j: nat | j <= m ensures previous[j] == Capped(x, 0, y, j, limit) {
      CappedFirst(x, 0, y, j, limit);
    }
    var i := 1;
    while i <= n
      invariant 1 <= i <= n + 1
      invariant previous != current && previous.Length == current.Length == m + 1
      invariant RowDone(previous[..], x, i - 1, y, limit)
      invariant cells == |Band(i - 1, m, limit)|
      invariant forall k: nat :: k < i ==> !RowOver(x, k, y, limit)
      invariant fresh(previous) && fresh(current)
    {
      var low := if i > limit then i - limit else 1;
      var high := Min(m, i + limit);
      var rowMinimum := FillRow(x, i, y, limit, previous, current, low, high);
      BandGrows(i, m, limit, low, high);
      cells := cells + (high - low + 1);
      if rowMinimum > limit {
        RowAllOver(x, i, y, limit, low, high);
        LastIs(x, y, limit, i);
        return over, cells;
      }
      previous, current := current, previous;
      i := i + 1;
    }
    LastIs(x, y, limit, n);
    assert previous[..][m] == Capped(x, n, y, m, limit);
    CappedLast(x, y, limit);
    distance := Min(previous[m], over);
  }

  /** The distance when it is at most the limit, limit + 1 otherwise, whichever operand is longer. */
  method BoundedEditDistance(a: Text, b: Text, limit: nat) returns (distance: nat, cells: nat)
    ensures distance == Min(Levenshtein(a, b), limit + 1)
    ensures cells == CellsOf(a, b, limit)
  {
    hide Band;
    var x, y := a, b;
    if |x| > |y| {
      x, y := y, x;
      DistanceSymmetric(a, |a|, b, |b|);
    }
    if |y| - |x| > limit {
      DistanceBounds(x, |x|, y, |y|);
      return limit + 1, 0;
    }
    distance, cells := BandedDistance(x, y, limit);
  }

  // ----- The single-row program.

  /** Row i of the full table. */
  ghost predicate RowIs(row: seq<nat>, x: Text, i: nat, y: Text, from: nat, to: nat)
    requires i <= |x| && |row| == |y| + 1
  {
    forall j: nat :: from <= j < to <= |y| + 1 ==> row[j] == Distance(x, i, y, j)
  }

  method EditDistanceByRow(x: Text, y: Text) returns (distance: nat)
    ensures distance == Levenshtein(x, y)
  {
    var row := new nat[|y| + 1](j => j);
    for i := 1 to |x| + 1
      invariant RowIs(row[..], x, i - 1, y, 0, |y| + 1)
    {
      NextRow(x, i, y, row);
    }
    distance := row[|y|];
  }

  /** Overwrites row i - 1 by row i, remembering the one cell still needed on the diagonal. */
  method NextRow(x: Text, i: nat, y: Text, row: array<nat>)
    requires 1 <= i <= |x| && row.Length == |y| + 1
    requires RowIs(row[..], x, i - 1, y, 0, |y| + 1)
    modifies row
    ensures RowIs(row[..], x, i, y, 0, |y| + 1)
  {
    hide Distance;
    var diagonal := row[0];
    DistanceEdge(x, i, y, 0);
    DistanceEdge(x, i - 1, y, 0);
    row[0] := i;
    for j := 1 to |y| + 1
      invariant diagonal == Distance(x, i - 1, y, j - 1)
      invariant RowIs(row[..], x, i, y, 0, j)
      invariant RowIs(row[..], x, i - 1, y, j, |y| + 1)
    {
      var above := row[j];
      DistanceUnfolds(x, i, y, j);
      row[j] := Least(row[j] + 1, row[j - 1] + 1, diagonal + Mismatch(x[i - 1], y[j - 1]));
      diagonal := above;
    }
  }
}
