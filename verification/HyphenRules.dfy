/** Which bytes the rejoining of hyphenated words takes out of a text (src/document_repair.cpp), byte by byte.

    `Drops` says it of the text alone, by positions: the soft hyphens; the break behind one when a letter
    follows it; the break behind a hard hyphen that breaks a word, and that hyphen itself unless the first
    half is a prefix that keeps it. `DroppedExactly` proves that the pass deletes exactly those bytes. */
module HyphenRules {
  import opened Bytes
  import opened LeadBytes
  import opened Hyphenation

  // ----- Words, by their letters.

  /** The word spells `s`, in either case. */
  ghost predicate Spells(word: Text, s: string) {
    |word| == |s| && forall k :: 0 <= k < |s| ==> Lower(word[k]) == s[k] as int
  }

  ghost predicate SpellsOne(word: Text, list: seq<string>) {
    exists n :: 0 <= n < |list| && Spells(word, list[n])
  }

  /** The text has a token from `from` up to `to`: no space in it, and it ends at one or with the text. */
  ghost predicate TokenAt(t: Text, from: nat, to: nat) {
    from <= to <= |t| && (forall k :: from <= k < to ==> !IsSpace(t[k])) && (to == |t| || IsSpace(t[to]))
  }

  /** A line break of n bytes. */
  predicate IsBreak(t: Text, at: nat, n: nat, spaceIsBreak: bool) {
    || (n == 1 && at < |t| && (t[at] == '\n' as int || (spaceIsBreak && t[at] == ' ' as int)))
    || (n == 2 && at + 1 < |t| && t[at] == '\r' as int && t[at + 1] == '\n' as int)
  }

  /** The character classes of ASCII, by their characters. */
  lemma Classes(b: Byte)
    ensures IsLower(b) <==> 'a' as int <= b <= 'z' as int
    ensures IsAlpha(b) <==> 'a' as int <= b <= 'z' as int || 'A' as int <= b <= 'Z' as int
    ensures IsUpper(b) <==> IsAlpha(b) && !IsLower(b)
    ensures IsSpace(b) <==> b in [' ' as int, '\t' as int, '\n' as int, 11, 12, '\r' as int]
    ensures Lower(b) == if IsUpper(b) then b - 'A' as int + 'a' as int else b
  {
  }

  // ----- The rules.

  /** The text starts with the rest of a word: two letters or more, the first in lower case, then at most
      punctuation up to the next space. */
  ghost predicate WordFollows(rest: Text) {
    rest != [] && IsLower(rest[0]) && exists w, e :: WordThenMarks(rest, w, e)
  }

  ghost predicate WordThenMarks(rest: Text, w: nat, e: nat) {
    && 2 <= w <= e && TokenAt(rest, 0, e)
    && (forall k :: 0 <= k < w ==> IsAlpha(rest[k]))
    && (forall k :: w <= k < e ==> rest[k] in [46, 44, 59, 58, 33, 63, 41, 93, 125, 39, 34])
  }

  /** The text starts with a conjunction, and the word behind it finishes a pair: it has a hyphen in it, or the
      conjunction is German and it is capitalized. */
  ghost predicate PairFollows(rest: Text) {
    exists e, from, to :: Pair(rest, e, from, to)
  }

  ghost predicate Pair(rest: Text, e: nat, from: nat, to: nat) {
    && TokenAt(rest, 0, e) && e <= from < to && TokenAt(rest, from, to) && (forall k :: e <= k < from ==> IsSpace(rest[k]))
    && ((SpellsOne(rest[..e], ["and", "or", "nor", "to", "et", "ou", "und", "oder", "bis"])
         && exists k :: from < k < to && rest[k] == '-' as int)
        || (SpellsOne(rest[..e], ["und", "oder", "bis"]) && IsUpper(rest[from])))
  }

  /** The hyphen at i breaks a word over a break of n bytes; `before` is the output so far. */
  ghost predicate Broken(t: Text, i: nat, n: nat, spaceIsBreak: bool, before: Text)
    requires i < |t|
  {
    && t[i] == '-' as int && IsBreak(t, i + 1, n, spaceIsBreak)
    && before != [] && IsLower(before[|before| - 1])
    && WordFollows(t[i + 1 + n..]) && !PairFollows(t[i + 1 + n..])
  }

  /** The text ends in a run of letters from h on, and no longer one. */
  ghost predicate WordFrom(t: Text, h: nat) {
    h <= |t| && (forall k :: h <= k < |t| ==> IsAlpha(t[k])) && (h == 0 || !IsAlpha(t[h - 1]))
  }

  /** The word that ends the output is a prefix that keeps its hyphen. */
  ghost predicate PrefixEnds(before: Text, rest: Text) {
    exists h :: PrefixFrom(before, h, rest)
  }

  ghost predicate PrefixFrom(before: Text, h: nat, rest: Text) {
    && WordFrom(before, h)
    && (SpellsOne(before[h..], ["self", "well", "non"])
        || (SpellsOne(before[h..], ["pre", "post", "co", "re"]) && rest != [] && Lower(rest[0]) in [97, 101, 105, 111, 117]))
  }

  /** A soft hyphen at i takes the break of n bytes behind it, a letter following. */
  ghost predicate SoftBreak(t: Text, i: nat, n: nat, spaceIsBreak: bool) {
    IsBreak(t, i + 2, n, spaceIsBreak) && i + 2 + n < |t| && IsAlpha(t[i + 2 + n])
  }

  ghost predicate SoftDrops(t: Text, i: nat, k: int, spaceIsBreak: bool) {
    && i + 2 <= |t| && t[i] == 0xC2 && t[i + 1] == 0xAD
    && (i <= k < i + 2 || exists n :: SoftBreak(t, i, n, spaceIsBreak) && i + 2 <= k < i + 2 + n)
  }

  /** A hard hyphen at i takes byte k with it: of the break of n bytes behind it, or itself. */
  ghost predicate HardDrops(t: Text, i: nat, k: int, spaceIsBreak: bool, before: Text) {
    && i < |t|
    && exists n :: Broken(t, i, n, spaceIsBreak, before)
         && (i + 1 <= k < i + 1 + n || (k == i && !PrefixEnds(before, t[i + 1 + n..])))
  }

  ghost predicate DropsFrom(t: Text, spaceIsBreak: bool, before: Text, i: nat, k: int) {
    SoftDrops(t, i, k, spaceIsBreak) || HardDrops(t, i, k, spaceIsBreak, before)
  }

  /** Byte k is taken out, by a hyphen at it or before it. */
  ghost predicate Drops(t: Text, spaceIsBreak: bool, runs: seq<Run>, k: int) {
    exists i: nat :: i <= k && i <= |t| && DropsFrom(t, spaceIsBreak, Kept(t, runs, i), i, k)
  }

  // ----- The program's tests are these.

  lemma BreakIs(t: Text, at: nat, spaceIsBreak: bool, n: nat)
    ensures IsBreak(t, at, n, spaceIsBreak) <==> n > 0 && n == BreakAfter(t, at, spaceIsBreak)
  {
  }

  lemma TokenShift(t: Text, e: nat)
    requires t != [] && e > 0 && !IsSpace(t[0])
    ensures TokenAt(t, 0, e) <==> TokenAt(t[1..], 0, e - 1)
  {
    assert forall k :: 1 <= k < |t| ==> t[k] == t[1..][k - 1];
    assert forall k :: 0 <= k < |t[1..]| ==> t[1..][k] == t[k + 1];
  }

  lemma {:induction false} FirstTokenIs(t: Text, e: nat)
    ensures TokenAt(t, 0, e) <==> e == |FirstToken(t)|
    decreases |t|
  {
    if t != [] && !IsSpace(t[0]) && e > 0 {
      FirstTokenIs(t[1..], e - 1);
      TokenShift(t, e);
    }
  }

  lemma {:induction false} StripIs(token: Text, w: nat)
    requires 0 < w <= |token| && token[w - 1] !in TOKEN_PUNCTUATION
    requires forall k :: w <= k < |token| ==> token[k] in TOKEN_PUNCTUATION
    ensures StripPunctuation(token) == token[..w]
    decreases |token|
  {
    if w < |token| {
      var shorter := token[..|token| - 1];
      StripIs(shorter, w);
      assert shorter[..w] == token[..w];
    } else {
      assert token[..w] == token;
    }
  }

  lemma {:induction false} StripsMarks(token: Text)
    ensures StripPunctuation(token) <= token
    ensures forall k :: |StripPunctuation(token)| <= k < |token| ==> token[k] in TOKEN_PUNCTUATION
    decreases |token|
  {
    if token != [] && token[|token| - 1] in TOKEN_PUNCTUATION {
      StripsMarks(token[..|token| - 1]);
    }
  }

  lemma MarksAreNoLetters(c: Byte)
    ensures IsAlpha(c) ==> c !in TOKEN_PUNCTUATION
  {
  }

  /** The test of the tail's first token. */
  lemma TailWordIs(rest: Text)
    ensures TailTokenIsWord(rest) <==> exists w, e :: WordThenMarks(rest, w, e)
  {
    var token := FirstToken(rest);
    FirstTokenIs(rest, |token|);
    var word := StripPunctuation(token);
    StripsMarks(token);
    if TailTokenIsWord(rest) {
      forall k | 0 <= k < |word| ensures IsAlpha(rest[k]) { assert rest[k] == token[k] == word[k]; }
      forall k | |word| <= k < |token| ensures rest[k] in TOKEN_PUNCTUATION { assert rest[k] == token[k]; }
      assert WordThenMarks(rest, |word|, |token|);
    }
    if exists w, e :: WordThenMarks(rest, w, e) {
      var w, e :| WordThenMarks(rest, w, e);
      FirstTokenIs(rest, e);
      WordIs(rest, token, w);
    }
  }

  lemma WordIs(rest: Text, token: Text, w: nat)
    requires token <= rest && 2 <= w <= |token|
    requires (forall k :: 0 <= k < w ==> IsAlpha(rest[k])) && (forall k :: w <= k < |token| ==> rest[k] in TOKEN_PUNCTUATION)
    ensures |StripPunctuation(token)| == w && forall k :: 0 <= k < w ==> IsAlpha(StripPunctuation(token)[k])
  {
    forall k | 0 <= k < |token| ensures token[k] == rest[k] {}
    MarksAreNoLetters(token[w - 1]);
    StripIs(token, w);
  }

  // ----- Spellings.

  lemma LoweredAt(word: Text, k: nat)
    requires k < |word|
    ensures |LowerAll(word)| == |word| && LowerAll(word)[k] == Lower(word[k])
  {
  }

  /** A folded word is a listed one exactly when it spells it. */
  lemma SpelledIs(word: Text, folded: Text, s: string)
    requires |folded| == |s| && forall k :: 0 <= k < |s| ==> folded[k] == s[k] as int
    ensures LowerAll(word) == folded <==> Spells(word, s)
  {
    if LowerAll(word) == folded {
      forall k | 0 <= k < |s| ensures Lower(word[k]) == s[k] as int { LoweredAt(word, k); }
    }
    if Spells(word, s) {
      forall k | 0 <= k < |s| ensures LowerAll(word)[k] == folded[k] { LoweredAt(word, k); }
    }
  }

  lemma SpelledTwo(word: Text, s: seq<string>)
    requires |s| == 2
    ensures SpellsOne(word, s) <==> Spells(word, s[0]) || Spells(word, s[1])
  {
  }

  lemma SpelledThree(word: Text, s: seq<string>)
    requires |s| == 3
    ensures SpellsOne(word, s) <==> Spells(word, s[0]) || Spells(word, s[1]) || Spells(word, s[2])
  {
  }

  lemma SpelledConcat(word: Text, a: seq<string>, b: seq<string>)
    ensures SpellsOne(word, a + b) <==> SpellsOne(word, a) || SpellsOne(word, b)
  {
    var all := a + b;
    if SpellsOne(word, a) {
      var n :| 0 <= n < |a| && Spells(word, a[n]);
      assert all[n] == a[n];
    }
    if SpellsOne(word, b) {
      var n :| 0 <= n < |b| && Spells(word, b[n]);
      assert all[|a| + n] == b[n];
    }
    if SpellsOne(word, all) {
      var n :| 0 <= n < |all| && Spells(word, all[n]);
      assert if n < |a| then all[n] == a[n] else all[n] == b[n - |a|];
    }
  }

  lemma EnglishAre(word: Text)
    ensures LowerAll(word) in CONJUNCTIONS <==> SpellsOne(word, ["and", "or", "nor", "to", "et", "ou"])
  {
    SpelledIs(word, [97, 110, 100], "and");
    SpelledIs(word, [111, 114], "or");
    SpelledIs(word, [110, 111, 114], "nor");
    SpelledIs(word, [116, 111], "to");
    SpelledIs(word, [101, 116], "et");
    SpelledIs(word, [111, 117], "ou");
    hide Spells, LowerAll;
    SpelledThree(word, ["and", "or", "nor"]);
    SpelledThree(word, ["to", "et", "ou"]);
    assert ["and", "or", "nor"] + ["to", "et", "ou"] == ["and", "or", "nor", "to", "et", "ou"];
    SpelledConcat(word, ["and", "or", "nor"], ["to", "et", "ou"]);
  }

  lemma GermanAre(word: Text)
    ensures LowerAll(word) in GERMAN_CONJUNCTIONS <==> SpellsOne(word, ["und", "oder", "bis"])
  {
    SpelledIs(word, [117, 110, 100], "und");
    SpelledIs(word, [111, 100, 101, 114], "oder");
    SpelledIs(word, [98, 105, 115], "bis");
    hide Spells, LowerAll;
    SpelledThree(word, ["und", "oder", "bis"]);
  }

  lemma ConjunctionsAre(word: Text)
    ensures LowerAll(word) in CONJUNCTIONS || LowerAll(word) in GERMAN_CONJUNCTIONS
       <==> SpellsOne(word, ["and", "or", "nor", "to", "et", "ou", "und", "oder", "bis"])
  {
    EnglishAre(word);
    GermanAre(word);
    hide SpellsOne, LowerAll;
    assert ["and", "or", "nor", "to", "et", "ou"] + ["und", "oder", "bis"] == ["and", "or", "nor", "to", "et", "ou", "und", "oder", "bis"];
    SpelledConcat(word, ["and", "or", "nor", "to", "et", "ou"], ["und", "oder", "bis"]);
  }

  // ----- The other tests.

  lemma {:induction false} TrimLeftIs(t: Text) returns (n: nat)
    ensures n <= |t| && TrimLeft(t) == t[n..] && (forall k :: 0 <= k < n ==> IsSpace(t[k])) && (n == |t| || !IsSpace(t[n]))
    decreases |t|
  {
    if t != [] && IsSpace(t[0]) {
      var m := TrimLeftIs(t[1..]);
      n := m + 1;
      forall k | 0 <= k < n ensures IsSpace(t[k]) {
        if k > 0 { assert t[1..][k - 1] == t[k]; }
      }
      assert t[1..][m..] == t[n..];
      if n < |t| { assert t[1..][m] == t[n]; }
    } else {
      n := 0;
    }
  }

  lemma TokenBehind(t: Text, from: nat, to: nat)
    requires from <= |t| && from <= to
    ensures TokenAt(t, from, to) <==> TokenAt(t[from..], 0, to - from)
  {
    assert forall k :: from <= k < |t| ==> t[k] == t[from..][k - from];
    assert forall k :: 0 <= k < |t[from..]| ==> t[from..][k] == t[k + from];
  }

  /** What the program reads as the next word. */
  lemma NextTokenIs(rest: Text) returns (e: nat, from: nat, to: nat)
    ensures e == |FirstToken(rest)| && TokenAt(rest, 0, e)
    ensures e <= from <= to && TokenAt(rest, from, to) && forall k :: e <= k < from ==> IsSpace(rest[k])
    ensures from < |rest| ==> !IsSpace(rest[from])
    ensures FirstToken(TrimLeft(rest[e..])) == rest[from..to]
  {
    e := |FirstToken(rest)|;
    FirstTokenIs(rest, e);
    var behind := rest[e..];
    var n := TrimLeftIs(behind);
    from := e + n;
    assert rest[e..][n..] == rest[from..];
    forall k | e <= k < from ensures IsSpace(rest[k]) { assert behind[k - e] == rest[k]; }
    if from < |rest| { assert behind[n] == rest[from]; }
    var next := FirstToken(rest[from..]);
    to := from + |next|;
    FirstTokenIs(rest[from..], |next|);
    TokenBehind(rest, from, to);
    assert next == rest[from..][..|next|] == rest[from..to];
  }

  /** Only one reading of the two words. */
  lemma PairIsNext(rest: Text, e: nat, from: nat, to: nat, e': nat, from': nat, to': nat)
    requires TokenAt(rest, 0, e) && TokenAt(rest, 0, e')
    requires e <= from < to && TokenAt(rest, from, to) && (forall k :: e <= k < from ==> IsSpace(rest[k]))
    requires e' <= from' <= to' && TokenAt(rest, from', to') && (forall k :: e' <= k < from' ==> IsSpace(rest[k]))
    requires from' < |rest| ==> !IsSpace(rest[from'])
    ensures e' == e && from' == from && to' == to
  {
    FirstTokenIs(rest, e);
    FirstTokenIs(rest, e');
    hide FirstToken;
    assert !IsSpace(rest[from]);
  }

  /** The test for a suspended hyphen. */
  lemma SuspendedIs(rest: Text)
    ensures SuspendedHyphen(rest) <==> PairFollows(rest)
  {
    var e, from, to := NextTokenIs(rest);
    var token, next := FirstToken(rest), rest[from..to];
    assert token == rest[..e];
    ConjunctionsAre(token);
    GermanAre(token);
    HyphenIn(rest, from, to);
    hide SpellsOne, LowerAll, FirstToken, TrimLeft, TokenAt;
    if SuspendedHyphen(rest) {
      assert Pair(rest, e, from, to);
    }
    if PairFollows(rest) {
      var e', from', to' :| Pair(rest, e', from', to');
      PairIsNext(rest, e', from', to', e, from, to);
    }
  }

  lemma HyphenIn(rest: Text, from: nat, to: nat)
    requires from <= to <= |rest|
    ensures from < to ==> (HYPHEN in rest[from..to][1..] <==> exists k :: from < k < to && rest[k] == '-' as int)
    ensures from < to ==> rest[from..to][0] == rest[from]
  {
    if from < to {
      var tail := rest[from..to][1..];
      if HYPHEN in tail {
        var m :| 0 <= m < |tail| && tail[m] == HYPHEN;
        assert rest[from + 1 + m] == HYPHEN;
      }
      if exists k :: from < k < to && rest[k] == '-' as int {
        var k :| from < k < to && rest[k] == '-' as int;
        assert tail[k - from - 1] == HYPHEN;
      }
    }
  }

  lemma KeepersAre(word: Text)
    ensures LowerAll(word) in [PREFIX_SELF, PREFIX_WELL, PREFIX_NON] <==> SpellsOne(word, ["self", "well", "non"])
    ensures LowerAll(word) in [PREFIX_PRE, PREFIX_POST, PREFIX_CO, PREFIX_RE] <==> SpellsOne(word, ["pre", "post", "co", "re"])
  {
    SpelledIs(word, [115, 101, 108, 102], "self");
    SpelledIs(word, [119, 101, 108, 108], "well");
    SpelledIs(word, [110, 111, 110], "non");
    SpelledIs(word, [112, 114, 101], "pre");
    SpelledIs(word, [112, 111, 115, 116], "post");
    SpelledIs(word, [99, 111], "co");
    SpelledIs(word, [114, 101], "re");
    hide Spells, LowerAll;
    SpelledThree(word, ["self", "well", "non"]);
    SpelledTwo(word, ["pre", "post"]);
    SpelledTwo(word, ["co", "re"]);
    assert ["pre", "post"] + ["co", "re"] == ["pre", "post", "co", "re"];
    SpelledConcat(word, ["pre", "post"], ["co", "re"]);
  }

  lemma OneStart(t: Text, a: nat, b: nat)
    requires WordFrom(t, a) && WordFrom(t, b)
    ensures a == b
  {
  }

  lemma TrailingStarts(t: Text)
    ensures WordFrom(t, |t| - |TrailingWord(t)|)
  {
    hide TrailingWord;
    var word := TrailingWord(t);
    var at := |t| - |word|;
    forall k | at <= k < |t| ensures IsAlpha(t[k]) { assert word[k - at] == t[k]; }
  }

  lemma PrefixIsTrailing(before: Text, h: nat)
    requires WordFrom(before, h)
    ensures before[h..] == TrailingWord(before)
  {
    hide TrailingWord, WordFrom;
    TrailingStarts(before);
    OneStart(before, h, |before| - |TrailingWord(before)|);
  }

  /** The test for a prefix that keeps its hyphen. */
  lemma CompoundIs(before: Text, rest: Text)
    ensures IsKnownCompound(TrailingWord(before), LeadingWord(rest)) <==> PrefixEnds(before, rest)
  {
    var head, tail := TrailingWord(before), LeadingWord(rest);
    var h := |before| - |head|;
    KeepersAre(head);
    VowelStarts(rest);
    TrailingStarts(before);
    assert before[h..] == head;
    hide SpellsOne, LowerAll, TrailingWord, LeadingWord, StartsWithVowel;
    if IsKnownCompound(head, tail) { assert PrefixFrom(before, h, rest); }
    if PrefixEnds(before, rest) {
      var g :| PrefixFrom(before, g, rest);
      PrefixIsTrailing(before, g);
    }
  }

  lemma VowelStarts(rest: Text)
    ensures StartsWithVowel(LeadingWord(rest)) <==> rest != [] && Lower(rest[0]) in [97, 101, 105, 111, 117]
    ensures LeadingWord(rest) != [] <==> rest != [] && IsAlpha(rest[0])
  {
  }

  lemma TrailingIs(out: Text)
    ensures TrailingWord(out) != [] <==> out != [] && IsAlpha(out[|out| - 1])
    ensures TrailingWord(out) != [] ==> TrailingWord(out)[|TrailingWord(out)| - 1] == out[|out| - 1]
  {
  }

  lemma JoinsAre(out: Text, n: nat, rest: Text)
    ensures Joins(TrailingWord(out), n, rest)
       <==> n > 0 && out != [] && IsLower(out[|out| - 1]) && WordFollows(rest) && !PairFollows(rest)
  {
    hide TailTokenIsWord, SuspendedHyphen, PairFollows, WordThenMarks, TrailingWord, LeadingWord;
    TailWordIs(rest);
    SuspendedIs(rest);
    VowelStarts(rest);
    TrailingIs(out);
  }

  /** The test that a hard hyphen breaks a word. */
  lemma JoinableIs(t: Text, i: nat, out: Text, spaceIsBreak: bool, n: nat)
    requires i < |t| && t[i] == HYPHEN
    ensures Broken(t, i, n, spaceIsBreak, out) <==> n == BreakAfter(t, i + 1, spaceIsBreak) && Joinable(t, i, out, spaceIsBreak)
  {
    hide Joins, TrailingWord, WordFollows, PairFollows, BreakAfter, IsBreak;
    BreakIs(t, i + 1, spaceIsBreak, n);
    if n == BreakAfter(t, i + 1, spaceIsBreak) {
      JoinsAre(out, n, t[i + 1 + n..]);
    }
  }

  // ----- One step of the pass deletes what the hyphen it stands at drops.

  /** No hyphen of either kind starts in t[from..to]. */
  ghost predicate NoHyphens(t: Text, from: int, to: int) {
    forall j :: from <= j < to && 0 <= j < |t| ==> t[j] != '-' as int && t[j] != 0xC2
  }

  ghost predicate Takes(m: Move, k: int) {
    m.dropped.Some? && m.dropped.value.first <= k < m.dropped.value.last
  }

  lemma NothingFrom(t: Text, spaceIsBreak: bool, before: Text, i: nat, k: int)
    requires i < |t| ==> t[i] != '-' as int && t[i] != 0xC2
    ensures !DropsFrom(t, spaceIsBreak, before, i, k)
  {
    hide IsBreak, WordFollows, PairFollows, PrefixEnds;
  }

  lemma SoftAtIs(t: Text, i: nat)
    ensures SoftAt(t, i) <==> i + 2 <= |t| && t[i] == 0xC2 && t[i + 1] == 0xAD
  {
    if i + 2 <= |t| {
      assert t[i..i + 2] == [t[i], t[i + 1]];
    }
  }

  lemma SoftBreakIs(t: Text, i: nat, n: nat, spaceIsBreak: bool)
    requires i + 2 <= |t|
    ensures
      var gap := BreakAfter(t, i + 2, spaceIsBreak);
      SoftBreak(t, i, n, spaceIsBreak) <==> n > 0 && n == gap && LeadingWord(t[i + 2 + gap..]) != []
  {
    hide BreakAfter, IsBreak, LeadingWord;
    BreakIs(t, i + 2, spaceIsBreak, n);
    VowelStarts(t[i + 2 + BreakAfter(t, i + 2, spaceIsBreak)..]);
  }

  lemma SoftStepTakes(t: Text, i: nat, out: Text, spaceIsBreak: bool, k: int)
    requires SoftAt(t, i)
    ensures DropsFrom(t, spaceIsBreak, out, i, k) <==> Takes(SoftStep(t, i, spaceIsBreak), k)
  {
    hide BreakAfter, SoftBreak, LeadingWord, WordFollows, PairFollows, PrefixEnds, IsBreak, SoftAt;
    SoftAtIs(t, i);
    var gap := BreakAfter(t, i + 2, spaceIsBreak);
    forall n: nat ensures SoftBreak(t, i, n, spaceIsBreak) <==> n > 0 && n == gap && LeadingWord(t[i + 2 + gap..]) != [] {
      SoftBreakIs(t, i, n, spaceIsBreak);
    }
    assert SoftBreak(t, i, gap, spaceIsBreak) <==> gap > 0 && LeadingWord(t[i + 2 + gap..]) != [];
  }

  lemma JoinStepTakes(t: Text, i: nat, out: Text, spaceIsBreak: bool, k: int)
    requires i < |t| && t[i] == HYPHEN && Joinable(t, i, out, spaceIsBreak)
    ensures DropsFrom(t, spaceIsBreak, out, i, k) <==> Takes(JoinStep(t, i, out, spaceIsBreak), k)
  {
    hide BreakAfter, Broken, LeadingWord, TrailingWord, Joinable, PrefixEnds, IsKnownCompound, SoftBreak, HardDrops, SoftDrops;
    var gap := BreakAfter(t, i + 1, spaceIsBreak);
    JoinableBounds(t, i, out, spaceIsBreak);
    forall n: nat ensures Broken(t, i, n, spaceIsBreak, out) <==> n == gap { JoinableIs(t, i, out, spaceIsBreak, n); }
    CompoundIs(out, t[i + 1 + gap..]);
    NoSoftHere(t, i, k, spaceIsBreak);
    HardDropsAre(t, i, gap, k, spaceIsBreak, out);
  }

  lemma NoSoftHere(t: Text, i: nat, k: int, spaceIsBreak: bool)
    requires i < |t| && t[i] == HYPHEN
    ensures !SoftDrops(t, i, k, spaceIsBreak)
  {
    hide SoftBreak;
  }

  lemma HardDropsAre(t: Text, i: nat, gap: nat, k: int, spaceIsBreak: bool, out: Text)
    requires i < |t| && i + 1 + gap <= |t| && forall n: nat :: Broken(t, i, n, spaceIsBreak, out) <==> n == gap
    ensures HardDrops(t, i, k, spaceIsBreak, out) <==> i + 1 <= k < i + 1 + gap || (k == i && !PrefixEnds(out, t[i + 1 + gap..]))
  {
    hide Broken, PrefixEnds;
    assert Broken(t, i, gap, spaceIsBreak, out);
  }

  lemma PlainTakes(t: Text, i: nat, out: Text, spaceIsBreak: bool, k: int)
    requires i < |t| && !SoftAt(t, i) && (t[i] == HYPHEN ==> !Joinable(t, i, out, spaceIsBreak))
    ensures !DropsFrom(t, spaceIsBreak, out, i, k)
  {
    hide SoftAt, Joinable, Broken, SoftBreak, PrefixEnds, BreakAfter;
    SoftAtIs(t, i);
    if t[i] == HYPHEN {
      forall n: nat ensures !Broken(t, i, n, spaceIsBreak, out) { JoinableIs(t, i, out, spaceIsBreak, n); }
    } else {
      forall n: nat ensures !Broken(t, i, n, spaceIsBreak, out) { NotBroken(t, i, n, spaceIsBreak, out); }
    }
  }

  lemma NotBroken(t: Text, i: nat, n: nat, spaceIsBreak: bool, out: Text)
    requires i < |t| && t[i] != HYPHEN
    ensures !Broken(t, i, n, spaceIsBreak, out)
  {
    hide IsBreak, WordFollows, PairFollows;
  }

  /** What the step takes is what the rules let the hyphen at i take. */
  lemma MoveTakes(t: Text, i: nat, out: Text, spaceIsBreak: bool, k: int)
    requires i < |t|
    ensures DropsFrom(t, spaceIsBreak, out, i, k) <==> Takes(NextMove(t, i, out, spaceIsBreak), k)
  {
    hide SoftAt, Joinable, SoftStep, JoinStep, DropsFrom;
    if SoftAt(t, i) {
      SoftStepTakes(t, i, out, spaceIsBreak, k);
    } else if t[i] == HYPHEN && Joinable(t, i, out, spaceIsBreak) {
      JoinStepTakes(t, i, out, spaceIsBreak, k);
    } else {
      PlainTakes(t, i, out, spaceIsBreak, k);
    }
  }

  // ----- Behind the hyphen it stands at, a step passes no other.

  lemma BreakHasNone(t: Text, at: nat, spaceIsBreak: bool)
    ensures NoHyphens(t, at, at + BreakAfter(t, at, spaceIsBreak))
  {
  }

  lemma WordHasNone(t: Text, at: nat)
    requires at <= |t|
    ensures NoHyphens(t, at, at + |LeadingWord(t[at..])|)
  {
    var word := LeadingWord(t[at..]);
    forall j | at <= j < at + |word| ensures t[j] != '-' as int && t[j] != 0xC2 {
      assert IsAlpha(word[j - at]) && word[j - at] == t[at..][j - at] == t[j];
    }
  }

  lemma MovePasses(t: Text, i: nat, out: Text, spaceIsBreak: bool)
    requires i < |t|
    ensures NoHyphens(t, i + 1, NextMove(t, i, out, spaceIsBreak).next)
  {
    hide BreakAfter, LeadingWord, TrailingWord, Joinable, IsKnownCompound, SoftAt;
    if SoftAt(t, i) {
      SoftAtIs(t, i);
      BreakHasNone(t, i + 2, spaceIsBreak);
    } else if t[i] == HYPHEN && Joinable(t, i, out, spaceIsBreak) {
      JoinableBounds(t, i, out, spaceIsBreak);
      var gap := BreakAfter(t, i + 1, spaceIsBreak);
      BreakHasNone(t, i + 1, spaceIsBreak);
      WordHasNone(t, i + 1 + gap);
    }
  }

  // ----- The whole pass.

  /** Below i exactly the bytes that the rules drop are in a run, and no hyphen below i drops a byte from i on. */
  ghost predicate ExactBelow(t: Text, spaceIsBreak: bool, runs: seq<Run>, i: nat) {
    && i <= |t|
    && (forall k :: 0 <= k < i ==> (InRuns(runs, k) <==> Drops(t, spaceIsBreak, runs, k)))
    && (forall j, k {:trigger DropsAt(t, spaceIsBreak, runs, j, k)} :: 0 <= j < i <= k ==> !DropsAt(t, spaceIsBreak, runs, j, k))
  }

  ghost predicate DropsAt(t: Text, spaceIsBreak: bool, runs: seq<Run>, i: int, k: int) {
    0 <= i <= |t| && DropsFrom(t, spaceIsBreak, Kept(t, runs, i), i, k)
  }

  lemma DropsIs(t: Text, spaceIsBreak: bool, runs: seq<Run>, k: int)
    ensures Drops(t, spaceIsBreak, runs, k) <==> exists i :: 0 <= i <= k && DropsAt(t, spaceIsBreak, runs, i, k)
  {
    hide DropsFrom, Kept;
    if Drops(t, spaceIsBreak, runs, k) {
      var i: nat :| i <= k && i <= |t| && DropsFrom(t, spaceIsBreak, Kept(t, runs, i), i, k);
      assert DropsAt(t, spaceIsBreak, runs, i, k);
    }
    if exists i :: 0 <= i <= k && DropsAt(t, spaceIsBreak, runs, i, k) {
      var i :| 0 <= i <= k && DropsAt(t, spaceIsBreak, runs, i, k);
      var n: nat := i;
      assert DropsFrom(t, spaceIsBreak, Kept(t, runs, n), n, k);
    }
  }

  /** A run recorded at i or behind it leaves the rules below i alone. */
  lemma DropsAtSame(t: Text, spaceIsBreak: bool, runs: seq<Run>, more: seq<Run>, i: nat, j: nat, k: int)
    requires j <= i <= |t| && forall b :: 0 <= b < i ==> InRuns(runs, b) == InRuns(more, b)
    ensures DropsAt(t, spaceIsBreak, runs, j, k) <==> DropsAt(t, spaceIsBreak, more, j, k)
  {
    hide DropsFrom, Kept, InRuns;
    KeptSame(t, runs, more, j);
  }

  lemma DropsSame(t: Text, spaceIsBreak: bool, runs: seq<Run>, more: seq<Run>, i: nat, k: nat)
    requires k < i <= |t| && forall b :: 0 <= b < i ==> InRuns(runs, b) == InRuns(more, b)
    ensures Drops(t, spaceIsBreak, runs, k) <==> Drops(t, spaceIsBreak, more, k)
  {
    hide DropsAt, Drops, Kept, InRuns;
    DropsIs(t, spaceIsBreak, runs, k);
    DropsIs(t, spaceIsBreak, more, k);
    forall j: nat | j <= k ensures DropsAt(t, spaceIsBreak, runs, j, k) <==> DropsAt(t, spaceIsBreak, more, j, k) {
      DropsAtSame(t, spaceIsBreak, runs, more, i, j, k);
    }
  }

  lemma RecordedIs(runs: seq<Run>, m: Move, k: int)
    ensures InRuns(Recorded(runs, m), k) <==> InRuns(runs, k) || Takes(m, k)
  {
    hide InRuns;
    if m.dropped.Some? { InRunsNext(runs, m.dropped.value, k); }
  }

  /** What a step leaves: the runs below i as they were, its own from i on. */
  ghost predicate Steps(t: Text, runs: seq<Run>, more: seq<Run>, m: Move, i: nat) {
    && i < m.next <= |t|
    && (forall k :: 0 <= k < i ==> (InRuns(more, k) <==> InRuns(runs, k)))
    && (forall k :: i <= k ==> (InRuns(more, k) <==> Takes(m, k)))
    && (forall k :: Takes(m, k) ==> i <= k < m.next)
  }

  lemma TakesBetween(t: Text, i: nat, m: Move, k: int)
    requires Deletes(t, i, m) && Takes(m, k)
    ensures i <= k < m.next
  {
  }

  lemma StepRuns(t: Text, i: nat, out: Text, runs: seq<Run>, m: Move)
    requires i <= |t| && Reached(t, i, out, runs) && Deletes(t, i, m)
    ensures Steps(t, runs, Recorded(runs, m), m, i)
  {
    hide InRuns, Recorded, Ordered, Kept, Takes;
    NotInRunsFrom(runs, i);
    forall k ensures InRuns(Recorded(runs, m), k) <==> InRuns(runs, k) || Takes(m, k) { RecordedIs(runs, m, k); }
    forall k | Takes(m, k) ensures i <= k < m.next { TakesBetween(t, i, m, k); }
  }

  /** Which hyphens below the step's end drop byte k, from i on: only the one at i. */
  lemma DropsInStep(t: Text, spaceIsBreak: bool, out: Text, runs: seq<Run>, more: seq<Run>, m: Move, i: nat, j: nat, k: int)
    requires i <= |t| && out == Kept(t, runs, i) && ExactBelow(t, spaceIsBreak, runs, i) && Steps(t, runs, more, m, i)
    requires i < |t| && m == NextMove(t, i, out, spaceIsBreak) && j < m.next && i <= k
    ensures DropsAt(t, spaceIsBreak, more, j, k) <==> j == i && Takes(m, k)
  {
    hide Kept, InRuns, NextMove, DropsFrom, Drops, Takes;
    if j <= i {
      DropsAtSame(t, spaceIsBreak, runs, more, i, j, k);
      if j == i { MoveTakes(t, i, out, spaceIsBreak, k); }
    } else {
      MovePasses(t, i, out, spaceIsBreak);
      NothingFrom(t, spaceIsBreak, Kept(t, more, j), j, k);
    }
  }

  lemma ExactNext(t: Text, spaceIsBreak: bool, i: nat, out: Text, runs: seq<Run>, m: Move)
    requires i < |t| && Reached(t, i, out, runs) && ExactBelow(t, spaceIsBreak, runs, i)
    requires m == NextMove(t, i, out, spaceIsBreak) && Deletes(t, i, m)
    ensures ExactBelow(t, spaceIsBreak, Recorded(runs, m), m.next)
  {
    hide Kept, InRuns, NextMove, DropsFrom, DropsAt, Drops, Takes, Recorded, Ordered, Deletes;
    var more := Recorded(runs, m);
    StepRuns(t, i, out, runs, m);
    forall j: nat, k: int | j < m.next && i <= k ensures DropsAt(t, spaceIsBreak, more, j, k) <==> j == i && Takes(m, k) {
      DropsInStep(t, spaceIsBreak, out, runs, more, m, i, j, k);
    }
    forall k | 0 <= k < m.next ensures InRuns(more, k) <==> Drops(t, spaceIsBreak, more, k) {
      if k < i { DropsSame(t, spaceIsBreak, runs, more, i, k); } else {
        DropsIs(t, spaceIsBreak, more, k);
        assert DropsAt(t, spaceIsBreak, more, i, k) <==> Takes(m, k);
      }
    }
  }

  lemma {:induction false} PassExact(t: Text, spaceIsBreak: bool, i: nat, out: Text, runs: seq<Run>)
    requires i <= |t| && Reached(t, i, out, runs) && ExactBelow(t, spaceIsBreak, runs, i)
    ensures ExactBelow(t, spaceIsBreak, Pass(t, spaceIsBreak, i, out, runs).1, |t|)
    decreases |t| - i
  {
    hide NextMove, Reached, ExactBelow;
    if i < |t| {
      MoveIsDeletion(t, i, out, spaceIsBreak);
      var m := NextMove(t, i, out, spaceIsBreak);
      ReachedNext(t, i, out, runs, m);
      ExactNext(t, spaceIsBreak, i, out, runs, m);
      PassExact(t, spaceIsBreak, m.next, out + m.append, Recorded(runs, m));
    }
  }

  /** The pass takes out exactly the bytes that the rules drop. */
  lemma DroppedExactly(t: Text, spaceIsBreak: bool)
    ensures
      var runs := Rejoined(t, spaceIsBreak).1;
      forall k :: 0 <= k < |t| ==> (InRuns(runs, k) <==> Drops(t, spaceIsBreak, runs, k))
  {
    hide Pass, InRuns, Drops, DropsAt;
    PassExact(t, spaceIsBreak, 0, [], []);
  }

  /** What drops a byte from i on, where a hard hyphen stands: nothing before it. */
  lemma NoneReachesPast(t: Text, spaceIsBreak: bool, before: Text, j: nat, i: nat, k: int)
    requires j < i < |t| && i <= k && t[i] == '-' as int
    ensures !DropsFrom(t, spaceIsBreak, before, j, k)
  {
    hide WordFollows, PairFollows, PrefixEnds;
  }

  /** A hard hyphen goes exactly when it breaks a word whose first half is no prefix that keeps it; the byte
      behind it, when it starts no hyphen of its own, goes exactly when the hyphen breaks a word. */
  lemma HyphenGoesIff(t: Text, spaceIsBreak: bool, i: nat)
    requires i < |t| && t[i] == '-' as int
    ensures
      var runs := Rejoined(t, spaceIsBreak).1;
      var before := Kept(t, runs, i);
      && (InRuns(runs, i) <==> exists n :: Broken(t, i, n, spaceIsBreak, before) && !PrefixEnds(before, t[i + 1 + n..]))
      && (i + 1 < |t| && NoHyphens(t, i + 1, i + 2) ==>
            (InRuns(runs, i + 1) <==> exists n :: Broken(t, i, n, spaceIsBreak, before)))
  {
    hide Pass, InRuns, Kept, Broken, PrefixEnds, DropsFrom, DropsAt, Drops;
    DroppedExactly(t, spaceIsBreak);
    var runs := Rejoined(t, spaceIsBreak).1;
    HardDropsAt(t, spaceIsBreak, runs, i);
    DropsIs(t, spaceIsBreak, runs, i);
    DropsIs(t, spaceIsBreak, runs, i + 1);
    forall j: nat, k: nat | j < i <= k ensures !DropsAt(t, spaceIsBreak, runs, j, k) {
      NotDropsAt(t, spaceIsBreak, runs, j, i, k);
    }
    if i + 1 < |t| && NoHyphens(t, i + 1, i + 2) {
      NothingFrom(t, spaceIsBreak, Kept(t, runs, i + 1), i + 1, i + 1);
      DropsAtIs(t, spaceIsBreak, runs, i + 1, i + 1);
    }
  }

  lemma DropsAtIs(t: Text, spaceIsBreak: bool, runs: seq<Run>, i: nat, k: int)
    requires i <= |t|
    ensures DropsAt(t, spaceIsBreak, runs, i, k) <==> DropsFrom(t, spaceIsBreak, Kept(t, runs, i), i, k)
  {
    hide DropsFrom, Kept;
  }

  lemma NotDropsAt(t: Text, spaceIsBreak: bool, runs: seq<Run>, j: nat, i: nat, k: nat)
    requires j < i < |t| && i <= k && t[i] == '-' as int
    ensures !DropsAt(t, spaceIsBreak, runs, j, k)
  {
    hide DropsFrom, Kept;
    NoneReachesPast(t, spaceIsBreak, Kept(t, runs, j), j, i, k);
  }

  lemma HardDropsAt(t: Text, spaceIsBreak: bool, runs: seq<Run>, i: nat)
    requires i < |t| && t[i] == '-' as int
    ensures
      var before := Kept(t, runs, i);
      && (DropsAt(t, spaceIsBreak, runs, i, i) <==> exists n :: Broken(t, i, n, spaceIsBreak, before) && !PrefixEnds(before, t[i + 1 + n..]))
      && (DropsAt(t, spaceIsBreak, runs, i, i + 1) <==> exists n :: Broken(t, i, n, spaceIsBreak, before))
  {
    hide Kept, PrefixEnds, SoftBreak, WordFollows, PairFollows, DropsAt;
    var before := Kept(t, runs, i);
    DropsAtIs(t, spaceIsBreak, runs, i, i);
    DropsAtIs(t, spaceIsBreak, runs, i, i + 1);
    forall n: nat | Broken(t, i, n, spaceIsBreak, before) ensures n > 0 {}
    hide Broken;
  }

  // ----- Texts worked out.

  /** A stretch without hyphens is copied. */
  lemma {:induction false} CopiesOn(t: Text, spaceIsBreak: bool, i: nat, n: nat, out: Text, runs: seq<Run>)
    requires i <= n <= |t| && NoHyphens(t, i, n)
    ensures Pass(t, spaceIsBreak, i, out, runs) == Pass(t, spaceIsBreak, n, out + t[i..n], runs)
    decreases n - i
  {
    hide Pass, NextMove, Joinable, SoftAt;
    if i < n {
      CopiesOne(t, spaceIsBreak, i, out, runs);
      CopiesOn(t, spaceIsBreak, i + 1, n, out + [t[i]], runs);
      assert out + [t[i]] + t[i + 1..n] == out + t[i..n];
    } else {
      assert out + t[i..n] == out;
    }
  }

  lemma CopiesOne(t: Text, spaceIsBreak: bool, i: nat, out: Text, runs: seq<Run>)
    requires i < |t| && t[i] != '-' as int && t[i] != 0xC2
    ensures Pass(t, spaceIsBreak, i, out, runs) == Pass(t, spaceIsBreak, i + 1, out + [t[i]], runs)
  {
    hide Pass, Joinable, SoftAt;
    SoftAtIs(t, i);
    PassUnfolds(t, spaceIsBreak, i, out, runs);
  }

  lemma HyphenStays(t: Text, spaceIsBreak: bool, i: nat, out: Text, runs: seq<Run>)
    requires i < |t| && t[i] == '-' as int && forall n: nat :: !Broken(t, i, n, spaceIsBreak, out)
    ensures Pass(t, spaceIsBreak, i, out, runs) == Pass(t, spaceIsBreak, i + 1, out + [t[i]], runs)
  {
    hide Pass, Joinable, SoftAt, Broken;
    SoftAtIs(t, i);
    JoinableIs(t, i, out, spaceIsBreak, BreakAfter(t, i + 1, spaceIsBreak));
    PassUnfolds(t, spaceIsBreak, i, out, runs);
  }

  lemma BrokenMove(t: Text, spaceIsBreak: bool, i: nat, n: nat, out: Text)
    requires i < |t| && Broken(t, i, n, spaceIsBreak, out)
    ensures i + 1 + n <= |t| && NextMove(t, i, out, spaceIsBreak) == JoinMove(i, n, TrailingWord(out), LeadingWord(t[i + 1 + n..]))
  {
    hide Joinable, SoftAt, BreakAfter, WordFollows, PairFollows, TrailingWord, LeadingWord, JoinMove;
    SoftAtIs(t, i);
    JoinableIs(t, i, out, spaceIsBreak, n);
  }

  /** A broken word is joined: from the hyphen on, what is left of it and of the rest of the text, free of hyphens. */
  lemma JoinsOn(t: Text, spaceIsBreak: bool, i: nat, n: nat, out: Text)
    requires i < |t| && Broken(t, i, n, spaceIsBreak, out) && NoHyphens(t, i + 1 + n, |t|)
    ensures i + 1 + n <= |t|
    ensures Pass(t, spaceIsBreak, i, out, []) ==
      (if PrefixEnds(out, t[i + 1 + n..]) then (out + ['-' as int] + t[i + 1 + n..], [Run(i + 1, i + 1 + n)])
       else (out + t[i + 1 + n..], [Run(i, i + 1 + n)]))
  {
    hide NextMove, Broken, PrefixEnds, TrailingWord, LeadingWord, IsKnownCompound, Pass;
    BrokenMove(t, spaceIsBreak, i, n, out);
    PassUnfolds(t, spaceIsBreak, i, out, []);
    var rest := t[i + 1 + n..];
    var tail := LeadingWord(rest);
    var next := i + 1 + n + |tail|;
    CompoundIs(out, rest);
    var m := NextMove(t, i, out, spaceIsBreak);
    assert t[next..] == rest[|tail|..];
    FewerHyphens(t, i + 1 + n, next, |t|);
    hide NoHyphens;
    CopiesOn(t, spaceIsBreak, next, |t|, out + m.append, Recorded([], m));
    PassEnds(t, spaceIsBreak, out + m.append + t[next..], Recorded([], m));
    assert t[next..|t|] == t[next..];
    Rejoin(out, tail, t[next..], rest);
    assert [] + [Run(i, i + 1 + n)] == [Run(i, i + 1 + n)];
    assert [] + [Run(i + 1, i + 1 + n)] == [Run(i + 1, i + 1 + n)];
  }

  lemma Rejoin(out: Text, tail: Text, behind: Text, rest: Text)
    requires tail <= rest && behind == rest[|tail|..]
    ensures out + tail + behind == out + rest
    ensures out + ([HYPHEN] + tail) + behind == out + [HYPHEN] + rest
  {
    assert rest == tail + behind;
  }

  lemma PassEnds(t: Text, spaceIsBreak: bool, out: Text, runs: seq<Run>)
    ensures Pass(t, spaceIsBreak, |t|, out, runs) == (out, runs)
  {
  }

  /** A text with one hyphen, at a line break: the word is joined, or joined with its hyphen, or left. */
  lemma OneHyphen(a: Text, n: nat, rest: Text, t: Text, spaceIsBreak: bool)
    requires |t| == |a| + 1 + n + |rest| && a <= t && t[|a|] == '-' as int && t[|a| + 1 + n..] == rest
    requires NoHyphens(t, 0, |a|) && NoHyphens(t, |a| + 1, |t|) && IsBreak(t, |a| + 1, n, spaceIsBreak)
    ensures Rejoined(t, spaceIsBreak) ==
      (if a == [] || !IsLower(a[|a| - 1]) || !WordFollows(rest) || PairFollows(rest) then (t, [])
       else if PrefixEnds(a, rest) then (a + ['-' as int] + rest, [Run(|a| + 1, |a| + 1 + n)])
       else (a + rest, [Run(|a|, |a| + 1 + n)]))
  {
    hide Pass, WordFollows, PairFollows, PrefixEnds, BreakAfter;
    CopiesOn(t, spaceIsBreak, 0, |a|, [], []);
    assert [] + t[0..|a|] == a;
    BreakIs(t, |a| + 1, spaceIsBreak, n);
    if a == [] || !IsLower(a[|a| - 1]) || !WordFollows(rest) || PairFollows(rest) {
      forall m: nat ensures !Broken(t, |a|, m, spaceIsBreak, a) { BreakIs(t, |a| + 1, spaceIsBreak, m); }
      hide Broken, NextMove, IsBreak;
      HyphenStays(t, spaceIsBreak, |a|, a, []);
      CopiesOn(t, spaceIsBreak, |a| + 1, |t|, a + [t[|a|]], []);
      PassEnds(t, spaceIsBreak, a + [t[|a|]] + t[|a| + 1..|t|], []);
      assert a + [t[|a|]] + t[|a| + 1..|t|] == t;
    } else {
      assert Broken(t, |a|, n, spaceIsBreak, a);
      hide Broken, NextMove, IsBreak;
      JoinsOn(t, spaceIsBreak, |a|, n, a);
    }
  }

  /** The same, by the parts of the text. */
  lemma HyphenAt(a: Text, gap: Text, rest: Text, spaceIsBreak: bool)
    requires IsBreak(gap, 0, |gap|, spaceIsBreak) && NoHyphens(a, 0, |a|) && NoHyphens(rest, 0, |rest|)
    ensures Rejoined(a + ['-' as int] + gap + rest, spaceIsBreak) ==
      (if a == [] || !IsLower(a[|a| - 1]) || !WordFollows(rest) || PairFollows(rest) then (a + ['-' as int] + gap + rest, [])
       else if PrefixEnds(a, rest) then (a + ['-' as int] + rest, [Run(|a| + 1, |a| + 1 + |gap|)])
       else (a + rest, [Run(|a|, |a| + 1 + |gap|)]))
  {
    hide Rejoined, WordFollows, PairFollows, PrefixEnds;
    var t := a + ['-' as int] + gap + rest;
    assert t[|a| + 1 + |gap|..] == rest;
    assert forall k :: 0 <= k < |gap| ==> t[|a| + 1 + k] == gap[k];
    assert forall k :: |a| + 1 + |gap| <= k < |t| ==> t[k] == rest[k - |a| - 1 - |gap|];
    OneHyphen(a, |gap|, rest, t, spaceIsBreak);
  }

  /** A text with one soft hyphen: it goes, and the break behind it too when a letter follows. */
  lemma OneSoftHyphen(a: Text, n: nat, t: Text, spaceIsBreak: bool)
    requires |a| + 2 <= |t| && a <= t && t[|a|] == 0xC2 && t[|a| + 1] == 0xAD
    requires NoHyphens(t, 0, |a|) && NoHyphens(t, |a| + 2, |t|)
    requires SoftBreak(t, |a|, n, spaceIsBreak) || (n == 0 && forall m: nat :: !SoftBreak(t, |a|, m, spaceIsBreak))
    ensures |a| + 2 + n <= |t|
    ensures Rejoined(t, spaceIsBreak) == (a + t[|a| + 2 + n..], [Run(|a|, |a| + 2 + n)])
  {
    hide Pass, NextMove, SoftBreak, NoHyphens;
    var i, next := |a|, |a| + 2 + n;
    SoftMoveIs(t, i, n, a, spaceIsBreak);
    FewerHyphens(t, i + 2, next, |t|);
    CopiesOn(t, spaceIsBreak, 0, i, [], []);
    assert [] + t[0..i] == a;
    PassUnfolds(t, spaceIsBreak, i, a, []);
    assert a + [] == a && [] + [Run(i, next)] == [Run(i, next)];
    CopiesOn(t, spaceIsBreak, next, |t|, a, [Run(i, next)]);
    PassEnds(t, spaceIsBreak, a + t[next..|t|], [Run(i, next)]);
    assert t[next..|t|] == t[next..];
  }

  lemma FewerHyphens(t: Text, from: int, later: int, to: int)
    requires NoHyphens(t, from, to) && from <= later
    ensures NoHyphens(t, later, to)
  {
  }

  lemma SoftMoveIs(t: Text, i: nat, n: nat, out: Text, spaceIsBreak: bool)
    requires i + 2 <= |t| && t[i] == 0xC2 && t[i + 1] == 0xAD
    requires SoftBreak(t, i, n, spaceIsBreak) || (n == 0 && forall m: nat :: !SoftBreak(t, i, m, spaceIsBreak))
    ensures i + 2 + n <= |t| && NextMove(t, i, out, spaceIsBreak) == Move([], Some(Run(i, i + 2 + n)), i + 2 + n)
  {
    hide SoftAt, SoftBreak, BreakAfter, LeadingWord;
    SoftAtIs(t, i);
    SoftBreakIs(t, i, n, spaceIsBreak);
    SoftBreakIs(t, i, BreakAfter(t, i + 2, spaceIsBreak), spaceIsBreak);
  }

  /** The text is these characters, one byte each. */
  ghost predicate Reads(t: Text, s: string) {
    |t| == |s| && forall k :: 0 <= k < |s| ==> t[k] == s[k] as int
  }

  lemma FollowsBy(rest: Text, e: nat)
    requires 2 <= e && TokenAt(rest, 0, e) && IsLower(rest[0]) && forall k :: 0 <= k < e ==> IsAlpha(rest[k])
    ensures WordFollows(rest)
  {
    assert WordThenMarks(rest, e, e);
  }

  lemma NoPairBy(rest: Text, e: nat)
    requires TokenAt(rest, 0, e) && LowerAll(rest[..e]) !in CONJUNCTIONS && LowerAll(rest[..e]) !in GERMAN_CONJUNCTIONS
    ensures !PairFollows(rest)
  {
    hide LowerAll, FirstToken, TrimLeft, PairFollows;
    FirstTokenIs(rest, e);
    assert FirstToken(rest) == rest[..e];
    SuspendedIs(rest);
  }

  lemma TailPle(rest: Text)
    requires rest == [112, 108, 101, 32, 111, 102]
    ensures WordFollows(rest) && !PairFollows(rest)
  {
    hide WordFollows, PairFollows, WordThenMarks;
    FollowsBy(rest, 3);
    assert LowerAll(rest[..3]) == [112, 108, 101];
    NoPairBy(rest, 3);
  }

  lemma HeadExam(a: Text, rest: Text)
    requires a == [101, 120, 97, 109]
    ensures !PrefixEnds(a, rest)
  {
    hide PrefixEnds, LeadingWord, StartsWithVowel, TrailingWord;
    PrefixIsTrailing(a, 0);
    assert a[0..] == a;
    assert LowerAll(a) == a;
    CompoundIs(a, rest);
  }

  /** A word broken over a line end. */
  lemma JoinedWord(t: Text, spaceIsBreak: bool)
    requires Reads(t, "exam-\nple of")
    ensures Reads(Rejoined(t, spaceIsBreak).0, "example of") && Rejoined(t, spaceIsBreak).1 == [Run(4, 6)]
  {
    hide WordFollows, PairFollows, PrefixEnds, Rejoined;
    var a: Text, rest: Text := [101, 120, 97, 109], [112, 108, 101, 32, 111, 102];
    TailPle(rest);
    HeadExam(a, rest);
    assert t == a + [45] + [10] + rest;
    HyphenAt(a, [10], rest, spaceIsBreak);
  }

  lemma TailOp(rest: Text)
    requires rest == [111, 112]
    ensures WordFollows(rest) && !PairFollows(rest)
  {
    hide WordFollows, PairFollows, WordThenMarks;
    FollowsBy(rest, 2);
    assert LowerAll(rest[..2]) == [111, 112];
    NoPairBy(rest, 2);
  }

  lemma HeadCo(a: Text, rest: Text)
    requires a == [99, 111] && rest == [111, 112]
    ensures PrefixEnds(a, rest)
  {
    assert a[0..] == a;
    assert Spells(a, ["pre", "post", "co", "re"][2]);
    assert PrefixFrom(a, 0, rest);
  }

  /** A compound keeps its hyphen. */
  lemma KeptCompound(t: Text, spaceIsBreak: bool)
    requires Reads(t, "co-\nop")
    ensures Reads(Rejoined(t, spaceIsBreak).0, "co-op") && Rejoined(t, spaceIsBreak).1 == [Run(3, 4)]
  {
    hide WordFollows, PairFollows, PrefixEnds, Rejoined;
    var a: Text, rest: Text := [99, 111], [111, 112];
    TailOp(rest);
    HeadCo(a, rest);
    assert t == a + [45] + [10] + rest;
    HyphenAt(a, [10], rest, spaceIsBreak);
  }

  lemma PairUnd(rest: Text)
    requires rest == [117, 110, 100, 32, 84, 97, 103]
    ensures PairFollows(rest)
  {
    var word := rest[..3];
    assert word == [117, 110, 100];
    assert Spells(word, ["und", "oder", "bis"][0]);
    assert Pair(rest, 3, 4, 7);
  }

  /** Two halves that share the word behind them stay as they are. */
  lemma SuspendedPair(t: Text, spaceIsBreak: bool)
    requires Reads(t, "vor-\nund Tag")
    ensures Rejoined(t, spaceIsBreak) == (t, [])
  {
    hide WordFollows, PairFollows, PrefixEnds, Rejoined;
    var a: Text, rest: Text := [118, 111, 114], [117, 110, 100, 32, 84, 97, 103];
    PairUnd(rest);
    assert t == a + [45] + [10] + rest;
    HyphenAt(a, [10], rest, spaceIsBreak);
  }

  lemma TailDigit(rest: Text)
    requires rest == [98, 50, 99]
    ensures !WordFollows(rest)
  {
    forall w: nat, e: nat ensures !WordThenMarks(rest, w, e) {
      assert !IsAlpha(rest[1]);
    }
  }

  /** A letter with a digit behind it is no word: the break stays. */
  lemma NoWordBehind(t: Text, spaceIsBreak: bool)
    requires Reads(t, "a-\nb2c")
    ensures Rejoined(t, spaceIsBreak) == (t, [])
  {
    hide WordFollows, PairFollows, PrefixEnds, Rejoined;
    var a: Text, rest: Text := [97], [98, 50, 99];
    TailDigit(rest);
    assert t == a + [45] + [10] + rest;
    HyphenAt(a, [10], rest, spaceIsBreak);
  }

  /** A soft hyphen goes with the break before a letter, and without it before a digit. */
  lemma SoftHyphens(a: Text, letters: Text, digits: Text, spaceIsBreak: bool)
    requires Reads(a, "ab") && Reads(letters, "\ncd") && Reads(digits, "\n12")
    ensures Rejoined(a + [0xC2, 0xAD] + letters, spaceIsBreak) == (a + letters[1..], [Run(2, 5)])
    ensures Rejoined(a + [0xC2, 0xAD] + digits, spaceIsBreak) == (a + digits, [Run(2, 4)])
  {
    hide Rejoined;
    var t, u := a + [0xC2, 0xAD] + letters, a + [0xC2, 0xAD] + digits;
    assert SoftBreak(t, 2, 1, spaceIsBreak);
    OneSoftHyphen(a, 1, t, spaceIsBreak);
    OneSoftHyphen(a, 0, u, spaceIsBreak);
    assert a + t[5..] == a + letters[1..];
    assert a + u[4..] == a + digits;
  }
}
