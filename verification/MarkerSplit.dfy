/** Finding a list marker and taking it off its text (src/list_marker.cpp). */
module MarkerSplit {
  import opened Bytes
  import opened LeadBytes
  import opened Utf8
  import opened ListMarker

  const GROUP: Regex := Cat(Lit(DOT), DIGITS)

  // ----- The dotted outline, whose optional closing dot needs the separator behind it.

  lemma GroupIs(s: Text, i: nat, j: nat)
    requires Length(Digit, s, j) == 0
    ensures Matches(GROUP, s, i, j) <==> HasChar(s, i, DOT) && Run(Digit, s, i + 1) == Some(j)
  {
    OneThen(Char(DOT), DIGITS, s, i, j);
    RunIsPlus(Digit, s, i + 1, j);
    RunForward(Digit, s, i + 1);
    hide Matches, RunEnd;
  }

  lemma DotNoDigit(s: Text, i: nat)
    requires HasChar(s, i, DOT)
    ensures Length(Digit, s, i) == 0
  {
    AsciiExcludes(s, Char(DOT));
    assert Length(Char(DOT), s, i) > 0;
  }

  lemma {:induction false} GroupsHead(s: Text, i: nat, j: nat)
    requires Matches(Plus(GROUP), s, i, j)
    ensures HasChar(s, i, DOT)
  {
    if Matches(GROUP, s, i, j) {
      OneThen(Char(DOT), DIGITS, s, i, j);
    } else {
      var m: nat :| i < m < j && Matches(GROUP, s, i, m) && Matches(Plus(GROUP), s, m, j);
      OneThen(Char(DOT), DIGITS, s, i, m);
    }
  }

  /** Groups that end where no further group and no digit follows are the greedy ones. */
  lemma {:induction false} GroupsAreGreedy(s: Text, i: nat, j: nat)
    requires Matches(Plus(GROUP), s, i, j)
    requires Length(Digit, s, j) == 0 && !(HasChar(s, j, DOT) && Length(Digit, s, j + 1) > 0)
    ensures GroupsEnd(s, i) == j && i < j
    decreases j - i
  {
    hide Length, RunEnd;
    if Matches(GROUP, s, i, j) {
      GroupIs(s, i, j);
      RunForward(Digit, s, i + 1);
    } else {
      var m: nat :| i < m < j && Matches(GROUP, s, i, m) && Matches(Plus(GROUP), s, m, j);
      hide Matches;
      GroupsHead(s, m, j);
      DotNoDigit(s, m);
      GroupIs(s, i, m);
      GroupsAreGreedy(s, m, j);
    }
  }

  lemma {:induction false} GreedyGroups(s: Text, i: nat)
    ensures GroupsEnd(s, i) > i ==> Matches(Plus(GROUP), s, i, GroupsEnd(s, i)) && Length(Digit, s, GroupsEnd(s, i)) == 0
    ensures !(HasChar(s, GroupsEnd(s, i), DOT) && Length(Digit, s, GroupsEnd(s, i) + 1) > 0)
    decreases |s| - i
  {
    hide Length, RunEnd;
    if HasChar(s, i, DOT) && Length(Digit, s, i + 1) > 0 {
      var m := RunEnd(Digit, s, i + 1);
      RunForward(Digit, s, i + 1);
      RunEndCovers(Digit, s, i + 1);
      GroupIs(s, i, m);
      GreedyGroups(s, m);
      if GroupsEnd(s, m) > m {
        assert Matches(GROUP, s, i, m) && Matches(Plus(GROUP), s, m, GroupsEnd(s, m));
      }
    }
  }

  lemma SeparatedStops(s: Text, e: nat)
    requires Separated(s, e)
    ensures Length(Digit, s, e) == 0 && !HasChar(s, e, DOT)
  {
    SpacesNoDecimals(DecodeAt(s, e).value);
    hide IsDecimal;
    if HasChar(s, e, DOT) { AsciiAt(s, e); }
  }

  lemma OptDot(s: Text, m: nat, e: nat)
    ensures Matches(Opt(Lit(DOT)), s, m, e) <==> e == m || (HasChar(s, m, DOT) && e == m + 1)
  {
  }

  lemma OutlineFound(s: Text, m: nat, n: nat, e: nat)
    requires Separated(s, e) && m <= n <= e
    requires Matches(DIGITS, s, 0, m) && Matches(Plus(GROUP), s, m, n) && Matches(Opt(Lit(DOT)), s, n, e)
    ensures DottedOutline(s) == Some(e)
  {
    hide Length, Matches, Run, GroupsEnd, Separated, HasChar;
    SeparatedStops(s, e);
    OptDot(s, n, e);
    GroupsHead(s, m, n);
    DotNoDigit(s, m);
    if n != e { DotNoDigit(s, n); }
    assert HasChar(s, n, DOT) ==> e == n + 1;
    OutlineEnds(s, m, n);
  }

  lemma OutlineEnds(s: Text, m: nat, n: nat)
    requires Matches(DIGITS, s, 0, m) && Matches(Plus(GROUP), s, m, n) && Length(Digit, s, m) == 0
    requires Length(Digit, s, n) == 0 && !(HasChar(s, n, DOT) && Length(Digit, s, n + 1) > 0)
    ensures Run(Digit, s, 0) == Some(m) && GroupsEnd(s, m) == n && m < n
  {
    hide Length, Matches, RunEnd, GroupsEnd;
    GroupsAreGreedy(s, m, n);
    RunIsPlus(Digit, s, 0, m);
  }

  lemma OutlineMatches(s: Text, e: nat)
    requires DottedOutline(s) == Some(e)
    ensures Matches(Cat(DIGITS, Cat(Plus(GROUP), Opt(Lit(DOT)))), s, 0, e)
  {
    var at := Run(Digit, s, 0).value;
    var end := GroupsEnd(s, at);
    RunEndCovers(Digit, s, 0);
    GreedyGroups(s, at);
    OptDot(s, end, e);
    hide Length, Matches, RunEnd, GroupsEnd;
    RunIsPlus(Digit, s, 0, at);
    Join(Plus(GROUP), Opt(Lit(DOT)), s, at, end, e);
    Join(DIGITS, Cat(Plus(GROUP), Opt(Lit(DOT))), s, 0, at, e);
  }

  /** With a separator behind it, the dotted outline matches in one way, the greedy one. */
  lemma DottedIs(s: Text, e: nat)
    requires Separated(s, e)
    ensures Matches(PATTERNS[0], s, 0, e) <==> DottedOutline(s) == Some(e)
  {
    var rest := Cat(Plus(GROUP), Opt(Lit(DOT)));
    assert PATTERNS[0] == Cat(DIGITS, rest);
    hide Length, Matches, RunEnd, GroupsEnd, Separated, DottedOutline;
    if Matches(Cat(DIGITS, rest), s, 0, e) {
      var m := Split(DIGITS, rest, s, 0, e);
      var n := Split(Plus(GROUP), Opt(Lit(DOT)), s, m, e);
      OutlineFound(s, m, n, e);
    }
    if DottedOutline(s) == Some(e) { OutlineMatches(s, e); }
  }

  // ----- All the patterns.

  lemma OpenThen(open: Byte, re: Regex, s: Text, e: nat)
    requires open < 0x80
    ensures Matches(Cat(Lit(open), re), s, 0, e) <==> HasChar(s, 0, open) && 1 <= e && Matches(re, s, 1, e)
  {
    OneThen(Char(open), re, s, 0, e);
    hide Matches;
  }

  lemma DigitsThen(c: Byte, s: Text, i: nat, e: nat)
    requires c in {DOT, CLOSE, CLOSE_SQUARE}
    ensures Matches(Cat(DIGITS, Lit(c)), s, i, e) <==> ThenOne(s, Run(Digit, s, i), Char(c)) == Some(e)
  {
    AsciiExcludes(s, Char(c));
    RunThen(Digit, Char(c), s, i, e);
  }

  lemma RomansThen(run: Class, s: Text, e: nat)
    requires run == LowerRoman || run == UpperRoman
    ensures Matches(Cat(Plus(One(run)), Lit(DOT)), s, 0, e) <==> ThenOne(s, Run(run, s, 0), Char(DOT)) == Some(e)
  {
    assert Excludes(Char(DOT), run, s);
    hide Length;
    RunThen(run, Char(DOT), s, 0, e);
  }

  lemma TwoChars(cls: Class, c: Byte, s: Text, e: nat)
    requires cls == Lower || cls == Upper
    ensures Matches(Cat(One(cls), Lit(c)), s, 0, e) <==> (if Length(cls, s, 0) > 0 then ThenOne(s, Some(1), Char(c)) else None) == Some(e)
  {
    OneThen(cls, Lit(c), s, 0, e);
  }

  lemma OpenForward(s: Text, k: nat)
    requires k in {3, 6, 7}
    ensures Scan(k, s).Some? ==> Scan(k, s).value >= 1
  {
    RunForward(Digit, s, 1);
  }

  /** Followed by a separator and more text, each numbered pattern matches in at most one way, and its greedy
      scanner finds it: backtracking could find nothing else. */
  lemma ScanFits(k: nat, s: Text, e: nat)
    requires k < |PATTERNS|
    ensures Fits(PATTERNS[k], s, e) <==> Scan(k, s) == Some(e) && Separated(s, e)
  {
    if k in {3, 6, 7} { OpenForward(s, k); }
    hide Length, Matches, RunEnd, DottedOutline, NumberLetter, ThenOne, Separated, Run;
    match k
    case 0 => if Separated(s, e) { DottedIs(s, e); }
    case 1 => NumberLetterIs(s, 0, DOT, e);
    case 2 => NumberLetterIs(s, 0, CLOSE, e);
    case 3 =>
      OpenThen(OPEN, NumberLetterRegex(CLOSE), s, e);
      NumberLetterIs(s, 1, CLOSE, e);
    case 4 => DigitsThen(DOT, s, 0, e);
    case 5 => DigitsThen(CLOSE, s, 0, e);
    case 6 =>
      OpenThen(OPEN, Cat(DIGITS, Lit(CLOSE)), s, e);
      DigitsThen(CLOSE, s, 1, e);
    case 7 =>
      OpenThen(OPEN_SQUARE, Cat(DIGITS, Lit(CLOSE_SQUARE)), s, e);
      DigitsThen(CLOSE_SQUARE, s, 1, e);
    case 8 => RomansThen(LowerRoman, s, e);
    case 9 => RomansThen(UpperRoman, s, e);
    case 10 => TwoChars(Lower, DOT, s, e);
    case 11 => TwoChars(Upper, DOT, s, e);
    case 12 => TwoChars(Lower, CLOSE, s, e);
    case _ => TwoChars(Upper, CLOSE, s, e);
  }

  // ----- The marker's end.

  function NumberedFrom(s: Text, k: nat): Option<nat>
    requires k <= |PATTERNS|
    decreases |PATTERNS| - k
  {
    if k == |PATTERNS| then None
    else
      var end := Scan(k, s);
      if end.Some? && Separated(s, end.value) then end else NumberedFrom(s, k + 1)
  }

  /** The end that matching the patterns in order, each with backtracking, would give: the first pattern that
      fits anywhere decides, and there is no end exactly when none fits. */
  ghost predicate FirstFit(s: Text, k: nat, end: Option<nat>)
    requires k <= |PATTERNS|
  {
    && (end.None? ==> forall p: nat, e: nat :: k <= p < |PATTERNS| ==> !Fits(PATTERNS[p], s, e))
    && (end.Some? ==> exists p: nat :: k <= p < |PATTERNS| && FitsFirst(s, k, p, end.value))
  }

  ghost predicate FitsFirst(s: Text, k: nat, p: nat, end: nat)
    requires k <= p < |PATTERNS|
  {
    && Fits(PATTERNS[p], s, end)
    && (forall e: nat :: Fits(PATTERNS[p], s, e) ==> e == end)
    && (forall q: nat, e: nat :: k <= q < p ==> !Fits(PATTERNS[q], s, e))
  }

  lemma {:induction false} NumberedIsFirstFit(s: Text, k: nat)
    requires k <= |PATTERNS|
    ensures FirstFit(s, k, NumberedFrom(s, k))
    decreases |PATTERNS| - k
  {
    hide Fits, Scan, Separated;
    if k < |PATTERNS| {
      NumberedIsFirstFit(s, k + 1);
      forall e: nat ensures Fits(PATTERNS[k], s, e) <==> Scan(k, s) == Some(e) && Separated(s, e) { ScanFits(k, s, e); }
      var end := Scan(k, s);
      if end.Some? && Separated(s, end.value) {
        assert FitsFirst(s, k, k, end.value);
      } else {
        assert forall e: nat :: !Fits(PATTERNS[k], s, e);
        var rest := NumberedFrom(s, k + 1);
        if rest.Some? {
          var p: nat :| k + 1 <= p < |PATTERNS| && FitsFirst(s, k + 1, p, rest.value);
          assert FitsFirst(s, k, p, rest.value);
        }
      }
    }
  }

  method NumberedMarkerEnd(s: Text) returns (end: Option<nat>)
    ensures FirstFit(s, 0, end) && end == NumberedFrom(s, 0)
  {
    hide Scan, Separated;
    NumberedIsFirstFit(s, 0);
    for k: nat := 0 to |PATTERNS|
      invariant NumberedFrom(s, 0) == NumberedFrom(s, k)
    {
      end := ScanPattern(k, s);
      if end.None? || end.value >= |s| || !Separated(s, end.value) {
        assert end.Some? && end.value >= |s| ==> !Separated(s, end.value) by { SeparatedInside(s); }
        continue;
      }
      return end;
    }
    return None;
  }

  lemma SeparatedInside(s: Text)
    ensures forall e: nat :: Separated(s, e) ==> e < |s|
  {
  }

  // ----- Markers end where a code point does.

  ghost predicate Ascii(re: Regex) {
    match re
    case One(cls) => cls.Char? ==> cls.c < 0x80
    case Cat(a, b) => Ascii(a) && Ascii(b)
    case Plus(a) => Ascii(a)
    case Opt(a) => Ascii(a)
  }

  lemma OneClean(cls: Class, s: Text, i: nat)
    requires Length(cls, s, i) > 0 && (cls.Char? ==> cls.c < 0x80)
    ensures i < |s| && DecodeAt(s, i) != MALFORMED && DecodeAt(s, i).length == Length(cls, s, i)
  {
    MalformedNoDecimal();
    hide IsDecimal;
    if cls != Digit { AsciiAt(s, i); }
  }

  lemma {:induction false} MatchClean(re: Regex, s: Text, i: nat, j: nat)
    requires i <= |s| && Ascii(re) && Matches(re, s, i, j)
    ensures i <= j <= |s| && Clean(s, i, j)
    decreases re, j - i
  {
    hide Length, DecodeAt;
    match re
    case One(cls) => OneClean(cls, s, i);
    case Opt(a) => if i != j { MatchClean(a, s, i, j); }
    case Cat(a, b) =>
      var m := Split(a, b, s, i, j);
      MatchClean(a, s, i, m);
      MatchClean(b, s, m, j);
      CleanOn(s, i, m, j);
    case Plus(a) =>
      if Matches(a, s, i, j) {
        MatchClean(a, s, i, j);
      } else {
        var m: nat :| i < m < j && Matches(a, s, i, m) && Matches(re, s, m, j);
        MatchClean(a, s, i, m);
        MatchClean(re, s, m, j);
        CleanOn(s, i, m, j);
      }
  }

  lemma PatternsAscii(k: nat)
    requires k < |PATTERNS|
    ensures Ascii(PATTERNS[k])
  {
    assert Ascii(DIGITS) && Ascii(Lit(DOT)) && Ascii(Lit(CLOSE)) && Ascii(Lit(OPEN)) && Ascii(Lit(OPEN_SQUARE)) && Ascii(Lit(CLOSE_SQUARE));
    assert Ascii(NumberLetterRegex(DOT)) && Ascii(NumberLetterRegex(CLOSE));
  }

  // ----- The split.

  datatype ListMarkerSplit = ListMarkerSplit(marker: Text, text: Text, enumerated: bool, prefixCodePoints: nat)

  /** The end of a bullet that stands as a marker. */
  function BulletEnd(s: Text): Option<nat> {
    if s != [] && IsBullet(DecodeAt(s, 0).value) && Separated(s, DecodeAt(s, 0).length) then Some(DecodeAt(s, 0).length) else None
  }

  method SplitListMarker(orig: Text) returns (split: Option<ListMarkerSplit>)
    ensures split == SplitOf(orig)
  {
    hide NumberedFrom, DecodeAt, CodePoints, FirstFit, IsBullet, IsSpace;
    if orig == [] { return None; }
    var end: Option<nat> := None;
    var first := ReadAt(orig, 0);
    if IsBullet(first.value) && first.length < |orig| {
      var separator := ReadAt(orig, first.length);
      if IsSpace(separator.value) && first.length + separator.length < |orig| { end := Some(first.length); }
    }
    var enumerated := false;
    if end.None? {
      end := NumberedMarkerEnd(orig);
      enumerated := end.Some?;
    }
    if end.None? { return None; }
    EndSeparated(orig);
    var separator := ReadAt(orig, end.value);
    var count := CountCodePoints(orig[..end.value]);
    split := Some(ListMarkerSplit(orig[..end.value], orig[end.value + separator.length..], enumerated, count + 1));
  }

  function MarkerEnd(s: Text): Option<nat> {
    if s == [] then None else if BulletEnd(s).Some? then BulletEnd(s) else NumberedFrom(s, 0)
  }

  lemma {:induction false} NumberedSeparated(s: Text, k: nat)
    requires k <= |PATTERNS|
    ensures NumberedFrom(s, k).Some? ==> Separated(s, NumberedFrom(s, k).value)
    decreases |PATTERNS| - k
  {
    hide Scan, Separated;
    if k < |PATTERNS| { NumberedSeparated(s, k + 1); }
  }

  lemma EndSeparated(s: Text)
    ensures MarkerEnd(s).Some? ==> Separated(s, MarkerEnd(s).value)
  {
    NumberedSeparated(s, 0);
  }

  function SplitOf(orig: Text): Option<ListMarkerSplit> {
    match MarkerEnd(orig)
    case None => None
    case Some(end) =>
      EndSeparated(orig);
      Some(ListMarkerSplit(orig[..end], orig[end + DecodeAt(orig, end).length..], BulletEnd(orig).None?, CodePoints(orig[..end]) + 1))
  }

  lemma EndClean(s: Text)
    ensures MarkerEnd(s).Some? ==> MarkerEnd(s).value <= |s| && Clean(s, 0, MarkerEnd(s).value)
  {
    if BulletEnd(s).Some? {
      assert DecodeAt(s, 0) != MALFORMED;
      hide DecodeAt;
    } else if MarkerEnd(s).Some? {
      var end := MarkerEnd(s).value;
      NumberedIsFirstFit(s, 0);
      hide DecodeAt, NumberedFrom, Matches;
      var p: nat :| p < |PATTERNS| && FitsFirst(s, 0, p, end);
      PatternsAscii(p);
      MatchClean(PATTERNS[p], s, 0, end);
    }
  }

  /** What stands between marker and text: one whitespace code point. */
  ghost predicate IsSeparator(t: Text) {
    t != [] && DecodeAt(t, 0).length == |t| && IsSpace(DecodeAt(t, 0).value)
  }

  /** Marker, one whitespace code point and text make up the input; the text is not empty; and the prefix taken
      off counts the input's code points less the text's. */
  lemma SplitRebuilds(orig: Text) returns (separator: Text)
    requires SplitOf(orig).Some?
    ensures
      var split := SplitOf(orig).value;
      && IsSeparator(separator) && orig == split.marker + separator + split.text && split.text != []
      && CodePoints(orig) == split.prefixCodePoints + CodePoints(split.text)
  {
    var end := MarkerEnd(orig).value;
    EndSeparated(orig);
    EndClean(orig);
    CleanSteps(orig, 0, end);
    SeparatedInside(orig);
    SeparatorIs(orig, end);
    PrefixCounts(orig, end);
    separator := orig[end..end + DecodeAt(orig, end).length];
    hide DecodeAt, CountFrom, CodePoints, IsSeparator, MarkerEnd, Steps;
    Rebuilds(orig, end, end + DecodeAt(orig, end).length);
  }

  lemma Rebuilds(s: Text, m: nat, n: nat)
    requires m <= n <= |s|
    ensures s == s[..m] + s[m..n] + s[n..]
  {
  }

  lemma SeparatorIs(s: Text, end: nat)
    requires Separated(s, end)
    ensures IsSeparator(s[end..end + DecodeAt(s, end).length])
  {
    var next := end + DecodeAt(s, end).length;
    PrefixDecode(s, next, end);
    SuffixDecode(s[..next], end, end);
    assert s[..next][end..] == s[end..next];
    hide DecodeAt;
  }

  lemma CountNext(s: Text, at: nat)
    requires at < |s|
    ensures CountFrom(s, at) == 1 + CountFrom(s, at + DecodeAt(s, at).length)
  {
    hide DecodeAt;
  }

  lemma PrefixCounts(s: Text, end: nat)
    requires end < |s| && Steps(s, 0, end)
    ensures CodePoints(s) == CodePoints(s[..end]) + 1 + CodePoints(s[end + DecodeAt(s, end).length..])
  {
    hide DecodeAt, CountFrom, Steps;
    var next := end + DecodeAt(s, end).length;
    CountNext(s, end);
    PrefixSteps(s, end, 0);
    SuffixSteps(s, next, next);
  }

  /** A split is made exactly where a bullet stands before a separator or some numbered pattern fits. */
  lemma SplitIff(orig: Text)
    ensures SplitOf(orig).Some? <==> orig != [] && (BulletEnd(orig).Some? || exists p: nat, e: nat :: p < |PATTERNS| && Fits(PATTERNS[p], orig, e))
    ensures SplitOf(orig).Some? ==> (SplitOf(orig).value.enumerated <==> BulletEnd(orig).None?)
  {
    NumberedIsFirstFit(orig, 0);
    hide Fits, BulletEnd, NumberedFrom;
  }

  lemma SeparatorReads(orig: Text)
    requires MarkerEnd(orig).Some?
    ensures MarkerEnd(orig).value < |orig| && DecodeAt(orig, MarkerEnd(orig).value) != MALFORMED
  {
    EndSeparated(orig);
    MalformedNoDecimal();
    hide DecodeAt, BulletEnd, NumberedFrom, IsDecimal, IsSpace, Clean;
  }

  /** Counted by lead bytes, too, the prefix taken off is what the split says. */
  lemma PrefixLeads(orig: Text)
    requires SplitOf(orig).Some?
    ensures LeadCount(orig) == SplitOf(orig).value.prefixCodePoints + LeadCount(SplitOf(orig).value.text)
  {
    hide DecodeAt, BulletEnd, NumberedFrom, IsDecimal, IsSpace, Clean, LeadCount;
    var end := MarkerEnd(orig).value;
    EndSeparated(orig);
    SeparatorReads(orig);
    EndClean(orig);
    var next := end + DecodeAt(orig, end).length;
    CleanLeads(orig, end, 0);
    OneLead(orig, end);
    LeadsSplit(orig, end, next);
  }
}
