/** Which markers of visible ASCII characters the split takes off (src/list_marker.cpp), each form by the characters
    at its places. */
module MarkerForms {
  import opened Bytes
  import opened Utf8
  import opened ListMarker
  import opened MarkerSplit

  ghost predicate Visible(m: Text) {
    forall k :: 0 <= k < |m| ==> 0x21 <= m[k] <= 0x7E
  }

  ghost predicate DigitAt(m: Text, k: int) { 0 <= k < |m| && '0' as int <= m[k] <= '9' as int }

  ghost predicate LowerAt(m: Text, k: int) { 0 <= k < |m| && 'a' as int <= m[k] <= 'z' as int }

  ghost predicate UpperAt(m: Text, k: int) { 0 <= k < |m| && 'A' as int <= m[k] <= 'Z' as int }

  ghost predicate CharIs(m: Text, k: int, c: char) { 0 <= k < |m| && m[k] == c as int }

  ghost predicate DigitsAt(m: Text, i: int, j: int) {
    AllOf(m, i, j, Digit)
  }

  /** What a class stands for, among the ASCII characters. */
  ghost predicate InSet(cls: Class, b: int) {
    match cls
    case Digit => '0' as int <= b <= '9' as int
    case Char(c) => b == c
    case Lower => 'a' as int <= b <= 'z' as int
    case Upper => 'A' as int <= b <= 'Z' as int
    case Letter => 'a' as int <= b <= 'z' as int || 'A' as int <= b <= 'Z' as int
    case LowerRoman => b in ['i' as int, 'v' as int, 'x' as int, 'l' as int, 'c' as int, 'd' as int, 'm' as int]
    case UpperRoman => b in ['I' as int, 'V' as int, 'X' as int, 'L' as int, 'C' as int, 'D' as int, 'M' as int]
  }

  /** The characters of a class from i up to j, one at least. */
  ghost predicate AllOf(m: Text, i: int, j: int, cls: Class) {
    0 <= i < j <= |m| && forall k :: i <= k < j ==> InSet(cls, m[k])
  }

  /** Numbers with single dots between them, and perhaps one dot at the end: "1.2", "1.2.". */
  ghost predicate Outline(m: Text) {
    && DigitAt(m, 0)
    && (forall k :: 0 <= k < |m| ==> DigitAt(m, k) || CharIs(m, k, '.'))
    && (forall k :: 0 <= k < |m| - 1 ==> !(CharIs(m, k, '.') && CharIs(m, k + 1, '.')))
    && exists k :: 0 <= k < |m| - 1 && CharIs(m, k, '.')
  }

  /** A number, perhaps a dot, a letter and a closing character, behind o characters: "1a.", "1.a)", "(1a)". */
  ghost predicate Lettered(m: Text, o: nat, close: char) {
    var n := |m|;
    && CharIs(m, n - 1, close) && (LowerAt(m, n - 2) || UpperAt(m, n - 2))
    && (DigitsAt(m, o, n - 2) || (DigitsAt(m, o, n - 3) && CharIs(m, n - 3, '.')))
  }

  /** Digits between an opening and a closing character: "3.", "(3)". */
  ghost predicate Numbered(m: Text, o: nat, close: char) {
    DigitsAt(m, o, |m| - 1) && CharIs(m, |m| - 1, close)
  }

  /** The fourteen forms, in the order they are tried. */
  ghost predicate Form(k: nat, m: Text) {
    match k
    case 0 => Outline(m)
    case 1 => Lettered(m, 0, '.')
    case 2 => Lettered(m, 0, ')')
    case 3 => CharIs(m, 0, '(') && Lettered(m, 1, ')')
    case 4 => Numbered(m, 0, '.')
    case 5 => Numbered(m, 0, ')')
    case 6 => CharIs(m, 0, '(') && Numbered(m, 1, ')')
    case 7 => CharIs(m, 0, '[') && Numbered(m, 1, ']')
    case 8 => AllOf(m, 0, |m| - 1, LowerRoman) && CharIs(m, |m| - 1, '.')
    case 9 => AllOf(m, 0, |m| - 1, UpperRoman) && CharIs(m, |m| - 1, '.')
    case 10 => |m| == 2 && LowerAt(m, 0) && CharIs(m, 1, '.')
    case 11 => |m| == 2 && UpperAt(m, 0) && CharIs(m, 1, '.')
    case 12 => |m| == 2 && LowerAt(m, 0) && CharIs(m, 1, ')')
    case 13 => |m| == 2 && UpperAt(m, 0) && CharIs(m, 1, ')')
    case _ => false
  }

  ghost predicate IsNumbering(m: Text) {
    exists k: nat :: k < 14 && Form(k, m)
  }

  // ----- A marker, a blank and more text.

  ghost predicate Stands(s: Text, m: Text) {
    Visible(m) && m <= s && |m| + 1 < |s| && s[|m|] == ' ' as int
  }

  lemma ClassIs(cls: Class, b: Byte)
    requires b < 0x80
    ensures InClass(cls, b) <==> InSet(cls, b)
  {
  }

  /** In the marker and at the blank behind it a class covers one byte or none. */
  lemma LengthIs(s: Text, m: Text, cls: Class, i: nat)
    requires Stands(s, m) && i <= |m|
    ensures i < |m| ==> Length(cls, s, i) == if InSet(cls, m[i]) then 1 else 0
    ensures i == |m| && cls != Char(0x20) ==> Length(cls, s, i) == 0
  {
    assert s[i] == if i < |m| then m[i] else ' ' as int;
    AsciiAt(s, i);
    AsciiDecimals(s[i]);
    ClassIs(cls, s[i]);
    hide IsDecimal, InClass;
    if i == |m| && cls != Char(0x20) { BlankInNone(cls); }
  }

  lemma BlankInNone(cls: Class)
    requires cls != Char(0x20)
    ensures !InSet(cls, 0x20)
  {
  }

  // ----- Runs.

  /** The run of a class from i ends at j: all before j are of the class, and at j none is. */
  lemma {:induction false} RunIs(s: Text, m: Text, cls: Class, i: nat, j: nat)
    requires Stands(s, m) && i <= j <= |m| && cls != Char(0x20)
    ensures RunEnd(cls, s, i) == j <==> (forall k :: i <= k < j ==> InSet(cls, m[k])) && (j < |m| ==> !InSet(cls, m[j]))
    ensures RunEnd(cls, s, i) <= |m|
    decreases |m| - i
  {
    LengthIs(s, m, cls, i);
    hide Length, InSet, Stands;
    if i < |m| && InSet(cls, m[i]) {
      RunIs(s, m, cls, i + 1, if i < j then j else i + 1);
    }
  }

  /** Where the digits from i end. */
  lemma DigitsEnd(s: Text, m: Text, i: nat) returns (j: nat)
    requires Stands(s, m) && i <= |m|
    ensures j == RunEnd(Digit, s, i) && i <= j <= |m| && (forall k :: i <= k < j ==> DigitAt(m, k)) && !DigitAt(m, j)
    ensures Length(Digit, s, i) > 0 <==> i < j
  {
    j := RunEnd(Digit, s, i);
    RunIs(s, m, Digit, i, i);
    RunIs(s, m, Digit, i, if j <= |m| then j else i);
    LengthIs(s, m, Digit, i);
  }

  /** Over a class and then a character that is not of it. */
  lemma RunThenIs(s: Text, m: Text, cls: Class, c: Byte, i: nat)
    requires Stands(s, m) && i <= |m| && cls != Char(0x20) && c != 0x20 && c < 0x80 && !InSet(cls, c)
    ensures
      var n := |m|;
      ThenOne(s, Run(cls, s, i), Char(c)) == Some(n) <==> AllOf(m, i, n - 1, cls) && m[n - 1] == c
    ensures
      var end := ThenOne(s, Run(cls, s, i), Char(c));
      end.Some? ==> end.value <= |m|
  {
    var n := |m|;
    LengthIs(s, m, cls, i);
    RunIs(s, m, cls, i, if i < n then n - 1 else n);
    var at := RunEnd(cls, s, i);
    if at <= n { LengthIs(s, m, Char(c), at); }
    hide Length, Stands, RunEnd;
  }

  // ----- A number and a letter.

  lemma LetterTailIs(s: Text, m: Text, close: Byte, at: nat)
    requires Stands(s, m) && at <= |m| && (close == DOT || close == CLOSE)
    ensures
      var letter := if HasChar(s, at, DOT) then at + 1 else at;
      var end := if Length(Letter, s, letter) == 0 then None else ThenOne(s, Some(letter + 1), Char(close));
      && (end.Some? ==> end.value <= |m|)
      && (end == Some(|m|) <==>
            && CharIs(m, |m| - 1, close as char) && (LowerAt(m, |m| - 2) || UpperAt(m, |m| - 2))
            && (at == |m| - 2 || (at == |m| - 3 && CharIs(m, |m| - 3, '.'))))
  {
    LengthIs(s, m, Letter, at);
    if at < |m| { LengthIs(s, m, Letter, at + 1); LengthIs(s, m, Char(close), at + 1); }
    if at + 1 < |m| { LengthIs(s, m, Char(close), at + 2); }
    DotAt(s, m, at);
    hide Length;
  }

  lemma DotAt(s: Text, m: Text, i: nat)
    requires Stands(s, m) && i <= |m|
    ensures HasChar(s, i, DOT) <==> CharIs(m, i, '.')
  {
  }

  lemma LetteredIs(s: Text, m: Text, o: nat, close: Byte)
    requires Stands(s, m) && o <= |m| && (close == DOT || close == CLOSE)
    ensures NumberLetter(s, o, close) == Some(|m|) <==> Lettered(m, o, close as char)
    ensures NumberLetter(s, o, close).Some? ==> NumberLetter(s, o, close).value <= |m|
  {
    hide Length, Stands, RunEnd, DigitAt;
    var at := DigitsEnd(s, m, o);
    LetterTailIs(s, m, close, at);
    LetteredAt(m, o, close as char, at);
  }

  /** Digits that end at `at` leave one way to read a number and a letter. */
  lemma LetteredAt(m: Text, o: nat, close: char, at: nat)
    requires o <= at <= |m| && (forall k :: o <= k < at ==> DigitAt(m, k)) && !DigitAt(m, at)
    ensures Lettered(m, o, close) <==>
      && o < at && CharIs(m, |m| - 1, close) && (LowerAt(m, |m| - 2) || UpperAt(m, |m| - 2))
      && (at == |m| - 2 || (at == |m| - 3 && CharIs(m, |m| - 3, '.')))
  {
    var n := |m|;
    if DigitsAt(m, o, n - 2) { assert at >= n - 2 by { DigitsReach(m, o, n - 2, at); } }
    if DigitsAt(m, o, n - 3) { assert at >= n - 3 by { DigitsReach(m, o, n - 3, at); } }
    if at == n - 2 || at == n - 3 { DigitsFill(m, o, at); }
    assert at > n - 2 && o <= n - 2 ==> DigitAt(m, n - 2);
    assert at > n - 3 && o <= n - 3 ==> DigitAt(m, n - 3);
  }

  lemma DigitsReach(m: Text, o: nat, e: int, at: nat)
    requires DigitsAt(m, o, e) && o <= at && !DigitAt(m, at)
    ensures at >= e
  {
    assert at < e ==> DigitAt(m, at);
  }

  lemma DigitsFill(m: Text, o: nat, at: nat)
    requires o <= at <= |m| && forall k :: o <= k < at ==> DigitAt(m, k)
    ensures o < at ==> DigitsAt(m, o, at)
  {
    forall k | o <= k < at ensures InSet(Digit, m[k]) { assert DigitAt(m, k); }
  }

  // ----- The dotted outline.

  lemma {:induction false} GroupsReach(s: Text, m: Text, i: nat)
    requires Stands(s, m) && CharIs(m, i, '.')
    requires forall k :: i <= k < |m| ==> DigitAt(m, k) || CharIs(m, k, '.')
    requires forall k :: i <= k < |m| - 1 ==> !(CharIs(m, k, '.') && CharIs(m, k + 1, '.'))
    ensures GroupsEnd(s, i) == if CharIs(m, |m| - 1, '.') then |m| - 1 else |m|
    decreases |m| - i
  {
    hide Length, RunEnd, Stands, DigitAt;
    DotAt(s, m, i);
    DotInside(m, i);
    var j := DigitsEnd(s, m, i + 1);
    DotAt(s, m, j);
    if i + 1 < |m| {
      assert DigitAt(m, i + 1);
      if j < |m| {
        GroupsReach(s, m, j);
      } else {
        DigitNoDot(m, |m| - 1);
      }
    }
  }

  lemma DotInside(m: Text, i: nat)
    requires CharIs(m, i, '.')
    ensures i < |m|
  {
  }

  lemma DigitNoDot(m: Text, k: int)
    ensures DigitAt(m, k) ==> !CharIs(m, k, '.')
  {
  }

  ghost predicate GroupsBetween(m: Text, i: nat, e: nat) {
    && i <= e <= |m|
    && (forall k :: i <= k < e ==> DigitAt(m, k) || CharIs(m, k, '.'))
    && (forall k :: i <= k < e - 1 ==> !(CharIs(m, k, '.') && CharIs(m, k + 1, '.')))
    && (i < e ==> CharIs(m, i, '.') && DigitAt(m, e - 1) && i + 1 < e)
  }

  lemma {:induction false} GroupsHold(s: Text, m: Text, i: nat)
    requires Stands(s, m) && i <= |m|
    ensures GroupsBetween(m, i, GroupsEnd(s, i))
    decreases |m| - i
  {
    hide Length, RunEnd, Stands, DigitAt, CharIs, GroupsBetween, HasChar;
    DotAt(s, m, i);
    if CharIs(m, i, '.') {
      DotInside(m, i);
      var j := DigitsEnd(s, m, i + 1);
      if Length(Digit, s, i + 1) > 0 {
        GroupsHold(s, m, j);
        GroupsExtend(m, i, j, GroupsEnd(s, j));
      } else {
        NoGroups(m, i);
      }
    } else {
      NoGroups(m, i);
    }
  }

  lemma NoGroups(m: Text, i: nat)
    requires i <= |m|
    ensures GroupsBetween(m, i, i)
  {
  }

  lemma GroupsExtend(m: Text, i: nat, j: nat, e: nat)
    requires CharIs(m, i, '.') && i + 1 < j <= |m| && (forall k :: i + 1 <= k < j ==> DigitAt(m, k)) && GroupsBetween(m, j, e)
    ensures GroupsBetween(m, i, e)
  {
    assert DigitAt(m, j - 1) && DigitAt(m, i + 1);
    forall k | i <= k < e - 1 ensures !(CharIs(m, k, '.') && CharIs(m, k + 1, '.')) {
      if k < j { DigitNoDot(m, if k == i then i + 1 else k); }
    }
    forall k | i <= k < e ensures DigitAt(m, k) || CharIs(m, k, '.') {}
  }

  lemma OutlineUnfolds(s: Text, at: nat, end: nat)
    requires at == RunEnd(Digit, s, 0) && end == GroupsEnd(s, at)
    ensures DottedOutline(s) ==
      if Length(Digit, s, 0) == 0 || end == at then None else Some(if HasChar(s, end, DOT) then end + 1 else end)
  {
  }

  lemma OutlineIs(s: Text, m: Text)
    requires Stands(s, m)
    ensures DottedOutline(s) == Some(|m|) <==> Outline(m)
    ensures DottedOutline(s).Some? ==> DottedOutline(s).value <= |m|
  {
    hide Length, RunEnd, Stands, DigitAt, CharIs, GroupsBetween, HasChar, Outline, GroupsEnd, DottedOutline;
    var at := DigitsEnd(s, m, 0);
    var end := GroupsEnd(s, at);
    OutlineUnfolds(s, at, end);
    GroupsHold(s, m, at);
    GroupsInside(m, at, end);
    DotAt(s, m, end);
    if CharIs(m, end, '.') { DotInside(m, end); }
    if DottedOutline(s) == Some(|m|) { OutlineHolds(m, at, end); }
    if Outline(m) {
      OutlineSplits(m, at);
      OutlineRest(m, at);
      GroupsReach(s, m, at);
      if CharIs(m, |m|, '.') { DotInside(m, |m|); }
    }
  }

  lemma GroupsInside(m: Text, i: nat, e: nat)
    requires GroupsBetween(m, i, e)
    ensures i <= e <= |m|
  {
  }

  lemma OutlineRest(m: Text, at: nat)
    requires Outline(m)
    ensures forall k :: at <= k < |m| ==> DigitAt(m, k) || CharIs(m, k, '.')
    ensures forall k :: at <= k < |m| - 1 ==> !(CharIs(m, k, '.') && CharIs(m, k + 1, '.'))
  {
  }

  lemma OutlineHolds(m: Text, at: nat, end: nat)
    requires 0 < at < end && (forall k :: 0 <= k < at ==> DigitAt(m, k)) && GroupsBetween(m, at, end)
    requires |m| == end || (|m| == end + 1 && CharIs(m, end, '.'))
    ensures Outline(m)
  {
    DigitNoDot(m, at - 1);
    DigitNoDot(m, end - 1);
    assert CharIs(m, at, '.') && at < |m| - 1;
    forall k | 0 <= k < |m| - 1 ensures !(CharIs(m, k, '.') && CharIs(m, k + 1, '.')) {
      if k < at { DigitNoDot(m, k); }
    }
    forall k | 0 <= k < |m| ensures DigitAt(m, k) || CharIs(m, k, '.') {}
  }

  /** The first digits of an outline end at a dot. */
  lemma OutlineSplits(m: Text, at: nat)
    requires Outline(m) && at <= |m| && (forall k :: 0 <= k < at ==> DigitAt(m, k)) && !DigitAt(m, at)
    ensures 0 < at < |m| - 1 && CharIs(m, at, '.')
  {
    var dot :| 0 <= dot < |m| - 1 && CharIs(m, dot, '.');
    DigitNoDot(m, dot);
    assert at <= dot;
  }

  // ----- All the forms.

  lemma FormIs(k: nat, s: Text, m: Text)
    requires k < |PATTERNS| && Stands(s, m)
    ensures Scan(k, s) == Some(|m|) <==> Form(k, m)
    ensures Scan(k, s).Some? ==> Scan(k, s).value <= |m|
  {
    assert |PATTERNS| == 14;
    StartIs(s, m);
    match k
    case 0 => OutlineIs(s, m);
    case 1 => LetteredIs(s, m, 0, DOT);
    case 2 => LetteredIs(s, m, 0, CLOSE);
    case 3 => if m != [] { LetteredIs(s, m, 1, CLOSE); }
    case 4 => RunThenIs(s, m, Digit, DOT, 0);
    case 5 => RunThenIs(s, m, Digit, CLOSE, 0);
    case 6 => if m != [] { RunThenIs(s, m, Digit, CLOSE, 1); }
    case 7 => if m != [] { RunThenIs(s, m, Digit, CLOSE_SQUARE, 1); }
    case 8 => RunThenIs(s, m, LowerRoman, DOT, 0);
    case 9 => RunThenIs(s, m, UpperRoman, DOT, 0);
    case 10 => TwoIs(s, m, Lower, DOT);
    case 11 => TwoIs(s, m, Upper, DOT);
    case 12 => TwoIs(s, m, Lower, CLOSE);
    case 13 => TwoIs(s, m, Upper, CLOSE);
  }

  lemma StartIs(s: Text, m: Text)
    requires Stands(s, m)
    ensures HasChar(s, 0, OPEN) <==> CharIs(m, 0, '(')
    ensures HasChar(s, 0, OPEN_SQUARE) <==> CharIs(m, 0, '[')
  {
  }

  lemma TwoIs(s: Text, m: Text, cls: Class, c: Byte)
    requires Stands(s, m) && (cls == Lower || cls == Upper) && (c == DOT || c == CLOSE)
    ensures
      var end := if Length(cls, s, 0) > 0 then ThenOne(s, Some(1), Char(c)) else None;
      && (end == Some(|m|) <==> |m| == 2 && InSet(cls, m[0]) && m[1] == c)
      && (end.Some? ==> end.value <= |m|)
  {
    LengthIs(s, m, cls, 0);
    if m != [] { LengthIs(s, m, Char(c), 1); }
    hide Length;
  }

  // ----- The split.

  lemma BlankSeparates(s: Text, m: Text, e: nat)
    requires Stands(s, m) && e <= |m|
    ensures Separated(s, e) <==> e == |m|
    ensures DecodeAt(s, |m|) == CodePoint(' ' as int, 1)
  {
    assert s[e] == if e < |m| then m[e] else ' ' as int;
    AsciiAt(s, e);
    AsciiAt(s, |m|);
    hide DecodeAt;
  }

  /** The numbered patterns fit a marker of visible characters exactly where it has one of the forms. */
  lemma NumberedIs(s: Text, m: Text)
    requires Stands(s, m)
    ensures NumberedFrom(s, 0) == if IsNumbering(m) then Some(|m|) else None
  {
    hide Form, Scan, Stands, Separated, Matches, NumberedFrom, Fits;
    NumberedIsFirstFit(s, 0);
    assert |PATTERNS| == 14;
    BlankSeparates(s, m, |m|);
    forall k: nat | k < 14 ensures Fits(PATTERNS[k], s, |m|) <==> Form(k, m) {
      ScanFits(k, s, |m|);
      FormIs(k, s, m);
    }
    var end := NumberedFrom(s, 0);
    if end.Some? {
      var p: nat :| p < |PATTERNS| && FitsFirst(s, 0, p, end.value);
      ScanFits(p, s, end.value);
      FormIs(p, s, m);
      BlankSeparates(s, m, end.value);
    }
  }

  lemma BulletIs(s: Text, m: Text)
    requires Stands(s, m) && m != []
    ensures BulletEnd(s) == if |m| == 1 && m[0] in ['-' as int, '*' as int, '+' as int] then Some(1) else None
  {
    assert s[0] == m[0];
    AsciiAt(s, 0);
    AsciiBullets(m[0]);
    hide IsBullet, DecodeAt;
    BlankSeparates(s, m, 1);
  }

  lemma AsciiBullets(c: int)
    requires 0 <= c < 0x80
    ensures IsBullet(c) <==> c in ['-' as int, '*' as int, '+' as int]
  {
  }

  lemma {:induction false} AsciiCounts(m: Text, i: nat)
    requires Visible(m) && i <= |m|
    ensures CountFrom(m, i) == |m| - i
    decreases |m| - i
  {
    if i < |m| {
      AsciiAt(m, i);
      hide DecodeAt;
      AsciiCounts(m, i + 1);
    }
  }

  /** A marker of visible ASCII characters before a blank and more text is taken off exactly when it is a dash, an
      asterisk or a plus sign, or has one of the fourteen forms; the split is then marker and text as they stand. */
  lemma AsciiMarkers(m: Text, text: Text)
    requires Visible(m) && m != [] && text != []
    ensures
      var bullet := |m| == 1 && m[0] in ['-' as int, '*' as int, '+' as int];
      SplitOf(m + [' ' as int] + text) ==
        if bullet || IsNumbering(m) then Some(ListMarkerSplit(m, text, !bullet, |m| + 1)) else None
  {
    hide IsNumbering, NumberedFrom, BulletEnd, DecodeAt, CountFrom, Visible;
    var s := m + [' ' as int] + text;
    assert Stands(s, m);
    NumberedIs(s, m);
    BulletIs(s, m);
    BlankSeparates(s, m, |m|);
    AsciiCounts(m, 0);
    assert s[..|m|] == m && s[|m| + 1..] == text;
  }

  /** The bullet characters, as they look. */
  lemma Bullets(c: int)
    ensures IsBullet(c) <==> c in [
      '•' as int, '‣' as int, '◦' as int, '⁃' as int, '⁌' as int, '⁍' as int, '∙' as int, '▪' as int,
      '▫' as int, '●' as int, '○' as int, '-' as int, '*' as int, '+' as int, '·' as int, '►' as int,
      '▶' as int, '▸' as int, '➤' as int, '➢' as int, '✓' as int, '✔' as int, '✗' as int, '✘' as int]
  {
  }
}
