/** The numbered list markers: greedy scanners and the regular expressions they stand for (src/list_marker.cpp). */
module ListMarker {
  import opened Bytes
  import opened Utf8

  // ----- Character classes.

  /** One decimal digit set: its zero and the nine code points behind it. */
  predicate Nd(c: int, zero: int) { zero <= c <= zero + 9 }

  /** The decimal digit sets of Unicode 16.0 (general category Nd), in ascending order. */
  predicate IsDecimal(c: int) {
    || Nd(c, 0x30) || Nd(c, 0x660) || Nd(c, 0x6F0) || Nd(c, 0x7C0) || Nd(c, 0x966) || Nd(c, 0x9E6) || Nd(c, 0xA66) || Nd(c, 0xAE6)
    || Nd(c, 0xB66) || Nd(c, 0xBE6) || Nd(c, 0xC66) || Nd(c, 0xCE6) || Nd(c, 0xD66) || Nd(c, 0xDE6) || Nd(c, 0xE50) || Nd(c, 0xED0)
    || Nd(c, 0xF20) || Nd(c, 0x1040) || Nd(c, 0x1090) || Nd(c, 0x17E0) || Nd(c, 0x1810) || Nd(c, 0x1946) || Nd(c, 0x19D0) || Nd(c, 0x1A80)
    || Nd(c, 0x1A90) || Nd(c, 0x1B50) || Nd(c, 0x1BB0) || Nd(c, 0x1C40) || Nd(c, 0x1C50) || Nd(c, 0xA620) || Nd(c, 0xA8D0) || Nd(c, 0xA900)
    || Nd(c, 0xA9D0) || Nd(c, 0xA9F0) || Nd(c, 0xAA50) || Nd(c, 0xABF0) || Nd(c, 0xFF10) || Nd(c, 0x104A0) || Nd(c, 0x10D30) || Nd(c, 0x10D40)
    || Nd(c, 0x11066) || Nd(c, 0x110F0) || Nd(c, 0x11136) || Nd(c, 0x111D0) || Nd(c, 0x112F0) || Nd(c, 0x11450) || Nd(c, 0x114D0) || Nd(c, 0x11650)
    || Nd(c, 0x116C0) || Nd(c, 0x116D0) || Nd(c, 0x116DA) || Nd(c, 0x11730) || Nd(c, 0x118E0) || Nd(c, 0x11950) || Nd(c, 0x11BF0) || Nd(c, 0x11C50)
    || Nd(c, 0x11D50) || Nd(c, 0x11DA0) || Nd(c, 0x11F50) || Nd(c, 0x16130) || Nd(c, 0x16A60) || Nd(c, 0x16AC0) || Nd(c, 0x16B50) || Nd(c, 0x16D70)
    || Nd(c, 0x1CCF0) || Nd(c, 0x1D7CE) || Nd(c, 0x1D7D8) || Nd(c, 0x1D7E2) || Nd(c, 0x1D7EC) || Nd(c, 0x1D7F6) || Nd(c, 0x1E140) || Nd(c, 0x1E2F0)
    || Nd(c, 0x1E4F0) || Nd(c, 0x1E5F1) || Nd(c, 0x1E950) || Nd(c, 0x1FBF0)
  }

  predicate IsSpace(c: int) {
    || 0x09 <= c <= 0x0D || 0x1C <= c <= 0x20 || c == 0x85 || c == 0xA0 || c == 0x1680
    || 0x2000 <= c <= 0x200A || c == 0x2028 || c == 0x2029 || c == 0x202F || c == 0x205F || c == 0x3000
  }

  /** The bullet characters: symbols, common ASCII and Unicode bullets, arrows, check marks. */
  predicate IsBullet(c: int) {
    c in {0x2022, 0x2023, 0x25E6, 0x2043, 0x204C, 0x204D, 0x2219, 0x25AA, 0x25AB, 0x25CF, 0x25CB, 0x2D,
          0x2A, 0x2B, 0xB7, 0x25BA, 0x25B6, 0x25B8, 0x27A4, 0x27A2, 0x2713, 0x2714, 0x2717, 0x2718}
  }

  const DOT: Byte := 0x2E
  const CLOSE: Byte := 0x29
  const OPEN: Byte := 0x28
  const CLOSE_SQUARE: Byte := 0x5D
  const OPEN_SQUARE: Byte := 0x5B

  lemma AsciiDecimals(c: int)
    requires 0 <= c < 0x80
    ensures IsDecimal(c) <==> 0x30 <= c <= 0x39
  {
  }

  lemma SpacesNoDecimals(c: int)
    requires IsSpace(c)
    ensures !IsDecimal(c)
  {
  }

  lemma MalformedNoDecimal()
    ensures !IsDecimal(0xFFFD) && !IsSpace(0xFFFD)
  {
  }

  // ----- Regular expressions over a text's code points.

  datatype Class = Digit | Char(c: Byte) | Lower | Upper | Letter | LowerRoman | UpperRoman

  datatype Regex = One(cls: Class) | Cat(first: Regex, second: Regex) | Plus(body: Regex) | Opt(body: Regex)

  predicate IsLower(b: Byte) { 0x61 <= b <= 0x7A }

  predicate IsUpper(b: Byte) { 0x41 <= b <= 0x5A }

  /** i v x l c d m, and their capitals. */
  predicate IsRoman(b: Byte) { b in {0x69, 0x76, 0x78, 0x6C, 0x63, 0x64, 0x6D} }

  predicate InClass(cls: Class, b: Byte) {
    match cls
    case Digit => 0x30 <= b <= 0x39
    case Char(c) => b == c
    case Lower => IsLower(b)
    case Upper => IsUpper(b)
    case Letter => IsLower(b) || IsUpper(b)
    case LowerRoman => IsRoman(b)
    case UpperRoman => b + 0x20 < 256 && IsRoman(b + 0x20)
  }

  /** The bytes of the code point of a class that stands at i, 0 when none does. */
  function Length(cls: Class, s: Text, i: nat): (n: nat)
    ensures i + n <= |s| || n == 0
  {
    if i >= |s| then 0
    else if cls == Digit then (if IsDecimal(DecodeAt(s, i).value) then DecodeAt(s, i).length else 0)
    else if InClass(cls, s[i]) then 1 else 0
  }

  /** What the expression may match: the text from i up to j. */
  ghost predicate Matches(re: Regex, s: Text, i: nat, j: nat)
    decreases re, if j >= i then j - i else 0
  {
    match re
    case One(cls) => Length(cls, s, i) > 0 && j == i + Length(cls, s, i)
    case Cat(a, b) => exists m: nat :: i <= m <= j && Matches(a, s, i, m) && Matches(b, s, m, j)
    case Plus(a) => Matches(a, s, i, j) || exists m: nat :: i < m < j && Matches(a, s, i, m) && Matches(re, s, m, j)
    case Opt(a) => i == j || Matches(a, s, i, j)
  }

  function Lit(c: Byte): Regex { One(Char(c)) }

  const DIGITS: Regex := Plus(One(Digit))

  /** Digits, perhaps a dot, a letter and a closing character. */
  function NumberLetterRegex(close: Byte): Regex {
    Cat(DIGITS, Cat(Opt(Lit(DOT)), Cat(One(Letter), Lit(close))))
  }

  /** The numbered patterns, in the order they are tried. */
  const PATTERNS: seq<Regex> := [
    Cat(DIGITS, Cat(Plus(Cat(Lit(DOT), DIGITS)), Opt(Lit(DOT)))),
    NumberLetterRegex(DOT),
    NumberLetterRegex(CLOSE),
    Cat(Lit(OPEN), NumberLetterRegex(CLOSE)),
    Cat(DIGITS, Lit(DOT)),
    Cat(DIGITS, Lit(CLOSE)),
    Cat(Lit(OPEN), Cat(DIGITS, Lit(CLOSE))),
    Cat(Lit(OPEN_SQUARE), Cat(DIGITS, Lit(CLOSE_SQUARE))),
    Cat(Plus(One(LowerRoman)), Lit(DOT)),
    Cat(Plus(One(UpperRoman)), Lit(DOT)),
    Cat(One(Lower), Lit(DOT)),
    Cat(One(Upper), Lit(DOT)),
    Cat(One(Lower), Lit(CLOSE)),
    Cat(One(Upper), Lit(CLOSE))
  ]

  // ----- The greedy scanners.

  /** Behind the run of a class that starts at i. */
  function RunEnd(cls: Class, s: Text, i: nat): (j: nat)
    ensures j >= i && (i <= |s| ==> j <= |s|)
    decreases |s| - i
  {
    if Length(cls, s, i) == 0 then i else RunEnd(cls, s, i + Length(cls, s, i))
  }

  function Run(cls: Class, s: Text, i: nat): Option<nat> {
    if Length(cls, s, i) == 0 then None else Some(RunEnd(cls, s, i))
  }

  function ThenOne(s: Text, at: Option<nat>, cls: Class): Option<nat> {
    if at.Some? && Length(cls, s, at.value) > 0 then Some(at.value + Length(cls, s, at.value)) else None
  }

  predicate HasChar(s: Text, i: nat, c: Byte) { i < |s| && s[i] == c }

  function GroupsEnd(s: Text, i: nat): (j: nat)
    ensures j >= i
    decreases |s| - i
  {
    if HasChar(s, i, DOT) && Length(Digit, s, i + 1) > 0 then GroupsEnd(s, RunEnd(Digit, s, i + 1)) else i
  }

  function DottedOutline(s: Text): Option<nat> {
    match Run(Digit, s, 0)
    case None => None
    case Some(at) =>
      var end := GroupsEnd(s, at);
      if end == at then None else Some(if HasChar(s, end, DOT) then end + 1 else end)
  }

  function NumberLetter(s: Text, i: nat, close: Byte): Option<nat> {
    match Run(Digit, s, i)
    case None => None
    case Some(at) =>
      var letter := if HasChar(s, at, DOT) then at + 1 else at;
      if Length(Letter, s, letter) == 0 then None else ThenOne(s, Some(letter + 1), Char(close))
  }

  function Scan(k: nat, s: Text): Option<nat>
    requires k < |PATTERNS|
  {
    match k
    case 0 => DottedOutline(s)
    case 1 => NumberLetter(s, 0, DOT)
    case 2 => NumberLetter(s, 0, CLOSE)
    case 3 => if HasChar(s, 0, OPEN) then NumberLetter(s, 1, CLOSE) else None
    case 4 => ThenOne(s, Run(Digit, s, 0), Char(DOT))
    case 5 => ThenOne(s, Run(Digit, s, 0), Char(CLOSE))
    case 6 => if HasChar(s, 0, OPEN) then ThenOne(s, Run(Digit, s, 1), Char(CLOSE)) else None
    case 7 => if HasChar(s, 0, OPEN_SQUARE) then ThenOne(s, Run(Digit, s, 1), Char(CLOSE_SQUARE)) else None
    case 8 => ThenOne(s, Run(LowerRoman, s, 0), Char(DOT))
    case 9 => ThenOne(s, Run(UpperRoman, s, 0), Char(DOT))
    case 10 => if Length(Lower, s, 0) > 0 then ThenOne(s, Some(1), Char(DOT)) else None
    case 11 => if Length(Upper, s, 0) > 0 then ThenOne(s, Some(1), Char(DOT)) else None
    case 12 => if Length(Lower, s, 0) > 0 then ThenOne(s, Some(1), Char(CLOSE)) else None
    case _ => if Length(Upper, s, 0) > 0 then ThenOne(s, Some(1), Char(CLOSE)) else None
  }

  /** A whitespace code point at i, and something behind it. */
  predicate Separated(s: Text, i: nat) {
    i < |s| && IsSpace(DecodeAt(s, i).value) && i + DecodeAt(s, i).length < |s|
  }

  /** The pattern matches the text up to e, and a separator and more text follow. */
  ghost predicate Fits(re: Regex, s: Text, e: nat) {
    Matches(re, s, 0, e) && Separated(s, e)
  }

  // ----- Runs.

  /** What one code point of the class after another covers. */
  predicate Covers(cls: Class, s: Text, i: nat, j: nat)
    decreases |s| - i
  {
    i == j || (Length(cls, s, i) > 0 && i + Length(cls, s, i) <= j && Covers(cls, s, i + Length(cls, s, i), j))
  }

  lemma {:induction false} CoversIsPlus(cls: Class, s: Text, i: nat, j: nat)
    ensures Matches(Plus(One(cls)), s, i, j) <==> i < j && Covers(cls, s, i, j)
    decreases |s| - i
  {
    hide Length;
    var n := Length(cls, s, i);
    if n > 0 && i + n < j {
      assert i + n <= |s| by { LengthFits(cls, s, i); }
      CoversIsPlus(cls, s, i + n, j);
      assert Matches(One(cls), s, i, i + n);
    }
  }

  lemma LengthFits(cls: Class, s: Text, i: nat)
    ensures Length(cls, s, i) > 0 ==> i + Length(cls, s, i) <= |s|
  {
  }

  lemma {:induction false} RunEndCovers(cls: Class, s: Text, i: nat)
    ensures Covers(cls, s, i, RunEnd(cls, s, i)) && Length(cls, s, RunEnd(cls, s, i)) == 0
    decreases |s| - i
  {
    hide Length;
    if Length(cls, s, i) > 0 { RunEndCovers(cls, s, i + Length(cls, s, i)); }
  }

  lemma {:induction false} CoverEndsRun(cls: Class, s: Text, i: nat, j: nat)
    requires Covers(cls, s, i, j) && Length(cls, s, j) == 0
    ensures j == RunEnd(cls, s, i)
    decreases |s| - i
  {
    hide Length;
    if i != j { CoverEndsRun(cls, s, i + Length(cls, s, i), j); }
  }

  /** Where no more of the class can follow, the greedy run is the only one. */
  lemma RunIsPlus(cls: Class, s: Text, i: nat, j: nat)
    requires Length(cls, s, j) == 0
    ensures Matches(Plus(One(cls)), s, i, j) <==> Run(cls, s, i) == Some(j)
  {
    CoversIsPlus(cls, s, i, j);
    RunEndCovers(cls, s, i);
    hide Length, Matches;
    if Covers(cls, s, i, j) { CoverEndsRun(cls, s, i, j); }
  }

  // ----- Each scanner finds what its expression matches.

  lemma Split(a: Regex, b: Regex, s: Text, i: nat, j: nat) returns (m: nat)
    requires Matches(Cat(a, b), s, i, j)
    ensures i <= m <= j && Matches(a, s, i, m) && Matches(b, s, m, j)
  {
    var re := Cat(a, b);
    assert exists n: nat :: i <= n <= j && Matches(re.first, s, i, n) && Matches(re.second, s, n, j);
    m :| i <= m <= j && Matches(re.first, s, i, m) && Matches(re.second, s, m, j);
  }

  lemma Join(a: Regex, b: Regex, s: Text, i: nat, m: nat, j: nat)
    requires i <= m <= j && Matches(a, s, i, m) && Matches(b, s, m, j)
    ensures Matches(Cat(a, b), s, i, j)
  {
    var re := Cat(a, b);
    assert Matches(re.first, s, i, m) && Matches(re.second, s, m, j);
  }

  lemma OneThen(cls: Class, re: Regex, s: Text, i: nat, e: nat)
    ensures Matches(Cat(One(cls), re), s, i, e)
       <==> Length(cls, s, i) > 0 && i + Length(cls, s, i) <= e && Matches(re, s, i + Length(cls, s, i), e)
  {
    hide Length;
    if Length(cls, s, i) > 0 { assert Matches(One(cls), s, i, i + Length(cls, s, i)); }
  }

  /** Where a character of the one class stands, none of the other does. */
  ghost predicate Excludes(cls: Class, run: Class, s: Text) {
    forall m: nat :: Length(cls, s, m) > 0 ==> Length(run, s, m) == 0
  }

  lemma RunThen(run: Class, cls: Class, s: Text, i: nat, e: nat)
    requires Excludes(cls, run, s)
    ensures Matches(Cat(Plus(One(run)), One(cls)), s, i, e) <==> ThenOne(s, Run(run, s, i), cls) == Some(e)
  {
    hide Length, Covers, RunEnd;
    var re := Cat(Plus(One(run)), One(cls));
    if Matches(re, s, i, e) {
      var m := Split(Plus(One(run)), One(cls), s, i, e);
      RunIsPlus(run, s, i, m);
    }
    var at := Run(run, s, i);
    if at.Some? && Length(cls, s, at.value) > 0 && e == at.value + Length(cls, s, at.value) {
      RunIsPlus(run, s, i, at.value);
      RunForward(run, s, i);
      Join(Plus(One(run)), One(cls), s, i, at.value, e);
    }
  }

  lemma RunForward(cls: Class, s: Text, i: nat)
    ensures Run(cls, s, i).Some? ==> i < Run(cls, s, i).value
  {
  }

  lemma AsciiExcludes(s: Text, cls: Class)
    requires cls != Digit && !(cls.Char? && (0x30 <= cls.c <= 0x39 || cls.c >= 0x80))
    ensures Excludes(cls, Digit, s)
  {
    forall m: nat | Length(cls, s, m) > 0 ensures Length(Digit, s, m) == 0 {
      AsciiAt(s, m);
      AsciiDecimals(s[m]);
      hide IsDecimal;
    }
  }

  lemma AsciiAt(s: Text, m: nat)
    requires m < |s| && s[m] < 0x80
    ensures DecodeAt(s, m) == CodePoint(s[m], 1)
  {
    assert Accumulated(s, m, 1) == Some(LeadBits(s[m]));
  }

  /** A letter at l and the closing character behind it, up to e. */
  predicate LetterClose(s: Text, close: Byte, m: nat, e: nat) {
    var l := if HasChar(s, m, DOT) then m + 1 else m;
    Length(Letter, s, l) > 0 && HasChar(s, l + 1, close) && e == l + 2
  }

  lemma NumberLetterIs(s: Text, i: nat, close: Byte, e: nat)
    requires close == DOT || close == CLOSE
    ensures Matches(NumberLetterRegex(close), s, i, e) <==> NumberLetter(s, i, close) == Some(e)
  {
    var rest := Cat(Opt(Lit(DOT)), Cat(One(Letter), Lit(close)));
    var at := Run(Digit, s, i);
    NumberLetterUnfolds(s, i, close, e);
    hide Length, Covers, RunEnd, Matches, LetterClose, NumberLetter;
    if Matches(NumberLetterRegex(close), s, i, e) {
      var m := Split(DIGITS, rest, s, i, e);
      OptDotTail(s, close, m, e);
      DotOrLetter(s, close, m, e);
      RunIsPlus(Digit, s, i, m);
    }
    if NumberLetter(s, i, close) == Some(e) {
      RunForward(Digit, s, i);
      OptDotTail(s, close, at.value, e);
      DotOrLetter(s, close, at.value, e);
      RunIsPlus(Digit, s, i, at.value);
      Join(DIGITS, rest, s, i, at.value, e);
    }
  }

  lemma NumberLetterUnfolds(s: Text, i: nat, close: Byte, e: nat)
    requires close < 0x80
    ensures NumberLetter(s, i, close) == Some(e) <==> Run(Digit, s, i).Some? && LetterClose(s, close, Run(Digit, s, i).value, e)
  {
  }

  lemma DotOrLetter(s: Text, close: Byte, m: nat, e: nat)
    requires LetterClose(s, close, m, e)
    ensures Length(Digit, s, m) == 0 && m < e
  {
    AsciiExcludes(s, Letter);
    AsciiExcludes(s, Char(DOT));
    assert HasChar(s, m, DOT) ==> Length(Char(DOT), s, m) > 0;
    hide Length;
  }

  lemma LetterTail(s: Text, close: Byte, l: nat, e: nat)
    requires close < 0x80
    ensures Matches(Cat(One(Letter), Lit(close)), s, l, e) <==> Length(Letter, s, l) > 0 && HasChar(s, l + 1, close) && e == l + 2
  {
    OneThen(Letter, Lit(close), s, l, e);
  }

  lemma OptDotTail(s: Text, close: Byte, m: nat, e: nat)
    requires close < 0x80
    ensures Matches(Cat(Opt(Lit(DOT)), Cat(One(Letter), Lit(close))), s, m, e) <==> LetterClose(s, close, m, e)
  {
    var tail := Cat(One(Letter), Lit(close));
    assert HasChar(s, m, DOT) ==> Length(Letter, s, m) == 0;
    forall n: nat ensures Matches(Opt(Lit(DOT)), s, m, n) <==> n == m || (HasChar(s, m, DOT) && n == m + 1) {
    }
    hide Length, Matches;
    if Matches(Cat(Opt(Lit(DOT)), tail), s, m, e) {
      var n := Split(Opt(Lit(DOT)), tail, s, m, e);
      LetterTail(s, close, n, e);
    }
    if LetterClose(s, close, m, e) {
      var l := if HasChar(s, m, DOT) then m + 1 else m;
      LetterTail(s, close, l, e);
      Join(Opt(Lit(DOT)), tail, s, m, l, e);
    }
  }

  // ----- The scanners as the program runs them.

  method Digits(s: Text, i: nat) returns (end: Option<nat>)
    ensures end == Run(Digit, s, i)
  {
    hide IsDecimal;
    if i >= |s| { return None; }
    var at := i;
    while at < |s|
      invariant i <= at && RunEnd(Digit, s, at) == RunEnd(Digit, s, i)
      invariant at == i || (at <= |s| && Length(Digit, s, i) > 0)
    {
      var c := ReadAt(s, at);
      if !IsDecimal(c.value) { return if at == i then None else Some(at); }
      at := at + c.length;
    }
    return Some(at);
  }

  method RunOf(cls: Class, s: Text, i: nat) returns (end: Option<nat>)
    requires cls != Digit
    ensures end == Run(cls, s, i)
  {
    hide InClass;
    var at := i;
    while at < |s| && InClass(cls, s[at])
      invariant i <= at && RunEnd(cls, s, at) == RunEnd(cls, s, i)
      invariant at > i ==> Length(cls, s, i) > 0
    {
      at := at + 1;
    }
    end := if at == i then None else Some(at);
  }

  method ScanDottedOutline(s: Text) returns (end: Option<nat>)
    ensures end == DottedOutline(s)
  {
    hide RunEnd, Length;
    var first := Digits(s, 0);
    if first.None? { return None; }
    var at, groups := first.value, 0;
    while HasChar(s, at, DOT)
      invariant at >= first.value && GroupsEnd(s, at) == GroupsEnd(s, first.value)
      invariant groups == 0 <==> at == first.value
      decreases |s| - at
    {
      var next := Digits(s, at + 1);
      if next.None? { break; }
      RunForward(Digit, s, at + 1);
      at, groups := next.value, groups + 1;
    }
    if groups == 0 { return None; }
    end := Some(if HasChar(s, at, DOT) then at + 1 else at);
  }

  method ScanNumberLetter(s: Text, i: nat, close: Byte) returns (end: Option<nat>)
    ensures end == NumberLetter(s, i, close)
  {
    hide RunEnd, Length;
    var first := Digits(s, i);
    if first.None? { return None; }
    var at := first.value;
    if HasChar(s, at, DOT) { at := at + 1; }
    if Length(Letter, s, at) == 0 { return None; }
    end := ThenOne(s, Some(at + 1), Char(close));
  }

  method ScanNumber(s: Text, i: nat, close: Byte) returns (end: Option<nat>)
    ensures end == ThenOne(s, Run(Digit, s, i), Char(close))
  {
    var number := Digits(s, i);
    end := ThenOne(s, number, Char(close));
  }

  method ScanPattern(k: nat, s: Text) returns (end: Option<nat>)
    requires k < |PATTERNS|
    ensures end == Scan(k, s)
  {
    hide RunEnd, Length, DottedOutline, NumberLetter, ThenOne, Run, PATTERNS;
    end := None;
    match k
    case 0 => end := ScanDottedOutline(s);
    case 1 => end := ScanNumberLetter(s, 0, DOT);
    case 2 => end := ScanNumberLetter(s, 0, CLOSE);
    case 3 => if HasChar(s, 0, OPEN) { end := ScanNumberLetter(s, 1, CLOSE); }
    case 4 => end := ScanNumber(s, 0, DOT);
    case 5 => end := ScanNumber(s, 0, CLOSE);
    case 6 => if HasChar(s, 0, OPEN) { end := ScanNumber(s, 1, CLOSE); }
    case 7 => if HasChar(s, 0, OPEN_SQUARE) { end := ScanNumber(s, 1, CLOSE_SQUARE); }
    case 8 =>
      var roman := RunOf(LowerRoman, s, 0);
      end := ThenOne(s, roman, Char(DOT));
    case 9 =>
      var roman := RunOf(UpperRoman, s, 0);
      end := ThenOne(s, roman, Char(DOT));
    case 10 => if Length(Lower, s, 0) > 0 { end := ThenOne(s, Some(1), Char(DOT)); }
    case 11 => if Length(Upper, s, 0) > 0 { end := ThenOne(s, Some(1), Char(DOT)); }
    case 12 => if Length(Lower, s, 0) > 0 { end := ThenOne(s, Some(1), Char(CLOSE)); }
    case _ => if Length(Upper, s, 0) > 0 { end := ThenOne(s, Some(1), Char(CLOSE)); }
  }
}
