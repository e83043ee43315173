/** Heading titles brought to a comparable form (src/heading_hierarchy.cpp). */
module Titles {
  import opened Bytes
  import opened EditDistance

  const SPACE: Byte := 32

  predicate IsWordByte(b: Byte) {
    IsUpper(b) || 97 <= b <= 122 || 48 <= b <= 57 || b >= 0x80
  }

  predicate IsUpper(b: Byte) {
    65 <= b <= 90
  }

  function Lower(b: Byte): Byte {
    if IsUpper(b) then b + 32 else b
  }

  /** The title read so far and whether a separator is pending. */
  datatype Reading = Reading(out: Text, space: bool)

  function Step(r: Reading, b: Byte): Reading {
    if IsWordByte(b) then
      Reading((if r.space && r.out != [] then r.out + [SPACE] else r.out) + [Lower(b)], false)
    else
      r.(space := true)
  }

  function Read(text: Text): Reading {
    if text == [] then Reading([], false) else Step(Read(text[..|text| - 1]), text[|text| - 1])
  }

  function Normalized(text: Text): Text {
    Read(text).out
  }

  method NormalizeTitle(text: Text) returns (out: Text)
    ensures out == Normalized(text)
  {
    out := [];
    var space := false;
    for i := 0 to |text|
      invariant Reading(out, space) == Read(text[..i])
    {
      assert text[..i + 1][..i] == text[..i];
      if IsWordByte(text[i]) {
        if space && out != [] { out := out + [SPACE]; }
        space := false;
        out := out + [Lower(text[i])];
      } else {
        space := true;
      }
    }
    assert text[..|text|] == text;
  }

  /** Lower-case words with exactly one space between two of them and none at the ends. */
  ghost predicate IsNormal(t: Text) {
    && (forall i :: 0 <= i < |t| ==> t[i] == SPACE || (IsWordByte(t[i]) && !IsUpper(t[i])))
    && (forall i :: 0 <= i < |t| && t[i] == SPACE ==> 0 < i < |t| - 1 && t[i - 1] != SPACE && t[i + 1] != SPACE)
  }

  lemma {:induction false} NormalizedIsNormal(text: Text)
    ensures IsNormal(Normalized(text))
  {
    if text != [] {
      NormalizedIsNormal(text[..|text| - 1]);
    }
  }

  /** Normal titles are left as they are, up to a trailing space about to be followed by a word. */
  lemma {:induction false} NormalIsFixed(t: Text, n: nat)
    requires IsNormal(t) && n <= |t|
    ensures n == 0 || t[n - 1] != SPACE ==> Read(t[..n]) == Reading(t[..n], false)
    ensures n > 0 && t[n - 1] == SPACE ==> Read(t[..n]) == Reading(t[..n - 1], true)
  {
    if n > 0 {
      NormalIsFixed(t, n - 1);
      var before := t[..n - 1];
      assert t[..n][..n - 1] == before;
      assert t[..n] == before + [t[n - 1]];
      if n > 1 && t[n - 2] == SPACE {
        assert before == t[..n - 2] + [SPACE];
        assert t[n - 1] != SPACE;
      }
    }
  }

  /** Normalizing twice is normalizing once: the index keys and the compared texts agree. */
  lemma NormalizedIdempotent(text: Text)
    ensures Normalized(Normalized(text)) == Normalized(text)
  {
    var t := Normalized(text);
    NormalizedIsNormal(text);
    NormalIsFixed(t, |t|);
    assert t[..|t|] == t;
  }

  /** The word bytes of a text in lower case, everything else dropped. */
  ghost function Letters(t: Text): Text {
    if t == [] then []
    else Letters(t[..|t| - 1]) + (if IsWordByte(t[|t| - 1]) then [Lower(t[|t| - 1])] else [])
  }

  lemma LettersAppend(t: Text, b: Byte)
    ensures Letters(t + [b]) == Letters(t) + (if IsWordByte(b) then [Lower(b)] else [])
  {
    assert (t + [b])[..|t|] == t;
  }

  /** No letter or digit is lost, added or moved. */
  lemma {:induction false} NormalizedKeepsLetters(text: Text)
    ensures Letters(Normalized(text)) == Letters(text)
  {
    if text != [] {
      var before, b := Read(text[..|text| - 1]), text[|text| - 1];
      NormalizedKeepsLetters(text[..|text| - 1]);
      LettersAppend(before.out, SPACE);
      LettersAppend(before.out, Lower(b));
      LettersAppend(before.out + [SPACE], Lower(b));
    }
  }

  // ----- Where the words part.

  /** An ASCII letter or digit, or any byte outside ASCII. */
  ghost predicate InWord(b: Byte) {
    || 'a' as int <= b <= 'z' as int || 'A' as int <= b <= 'Z' as int || '0' as int <= b <= '9' as int
    || b > 127
  }

  ghost predicate IsCapital(b: Byte) { 'A' as int <= b <= 'Z' as int }

  lemma {:induction false} ReadBegun(text: Text)
    ensures Read(text).out == [] <==> forall j :: 0 <= j < |text| ==> !InWord(text[j])
    ensures Read(text).space <==> text != [] && !InWord(text[|text| - 1])
  {
    if text != [] { ReadBegun(text[..|text| - 1]); }
  }

  /** One byte more: it is dropped unless it is of a word; a word's byte follows in lower case, behind one space when
      it starts a word that is not the first. */
  lemma NormalizedNext(text: Text, b: Byte)
    ensures !InWord(b) ==> Normalized(text + [b]) == Normalized(text)
    ensures InWord(b) ==>
      Normalized(text + [b]) ==
        Normalized(text)
        + (if text != [] && !InWord(text[|text| - 1]) && (exists j :: 0 <= j < |text| && InWord(text[j])) then [' ' as int] else [])
        + [if IsCapital(b) then b - 'A' as int + 'a' as int else b]
    ensures Normalized([]) == []
  {
    assert (text + [b])[..|text|] == text;
    ReadBegun(text);
    hide InWord;
    assert InWord(b) <==> IsWordByte(b) by { WordBytes(b); }
    hide IsWordByte;
  }

  lemma WordBytes(b: Byte)
    ensures InWord(b) <==> IsWordByte(b)
  {
  }

  // ----- Similarity.

  /** How alike two normalized titles are: 1 for equal ones, 0 for nothing shared. */
  ghost function Similarity(x: Text, y: Text): real {
    if x == [] && y == [] then 1.0
    else if x == [] || y == [] then 0.0
    else Share(Levenshtein(x, y), Max(|x|, |y|))
  }

  function Share(distance: nat, longer: nat): real
    requires longer > 0
  {
    1.0 - distance as real / longer as real
  }

  lemma ProductNonNegative(a: real, b: real)
    requires a >= 0.0 && b >= 0.0
    ensures a * b >= 0.0
  {
  }

  lemma ProductReflects(a: real, b: real, l: real)
    requires l > 0.0 && a * l < b * l
    ensures a < b
  {
    if b <= a { ProductNonNegative(a - b, l); }
  }

  lemma QuotientTimes(a: real, l: real)
    requires l != 0.0
    ensures a / l * l == a
  {
  }

  lemma QuotientOrder(a: real, b: real, l: real)
    requires l > 0.0
    ensures a / l < b / l <==> a < b
  {
    var p, q := a / l, b / l;
    QuotientTimes(a, l);
    QuotientTimes(b, l);
    if a < b { ProductReflects(p, q, l); }
    if b < a { ProductReflects(q, p, l); }
  }

  lemma ShareAntitone(d: nat, e: nat, longer: nat)
    requires longer > 0
    ensures d <= longer ==> 0.0 <= Share(d, longer) <= 1.0
    ensures d < e <==> Share(e, longer) < Share(d, longer)
    ensures Share(d, longer) == 1.0 <==> d == 0
  {
    var l := longer as real;
    QuotientOrder(d as real, e as real, l);
    QuotientOrder(0.0, d as real, l);
    QuotientOrder(l, d as real, l);
    QuotientTimes(0.0, l);
    QuotientTimes(l, l);
    ShareEnds(l);
  }

  lemma ShareEnds(l: real)
    requires l > 0.0
    ensures 0.0 / l == 0.0 && l / l == 1.0
  {
  }

  lemma SimilarityRange(x: Text, y: Text)
    ensures 0.0 <= Similarity(x, y) <= 1.0
    ensures Similarity(x, y) == 1.0 <==> x == y
  {
    if x != [] && y != [] {
      DistanceBounds(x, |x|, y, |y|);
      DistanceZero(x, |x|, y, |y|);
      assert x[..|x|] == x && y[..|y|] == y;
      ShareAntitone(Levenshtein(x, y), 0, Max(|x|, |y|));
    }
  }

  /** The similarity is the share of the longer title that the distance leaves. */
  lemma SimilarityIs(x: Text, y: Text)
    requires x != [] || y != []
    ensures Similarity(x, y) * Max(|x|, |y|) as real == (Max(|x|, |y|) - Levenshtein(x, y)) as real
  {
    hide Levenshtein, Share;
    if x == [] || y == [] { EmptyDistance(x, y); } else { ShareTimes(Levenshtein(x, y), Max(|x|, |y|)); }
  }

  lemma EmptyDistance(x: Text, y: Text)
    requires x == [] || y == []
    ensures Levenshtein(x, y) == Max(|x|, |y|)
  {
    DistanceBounds(x, |x|, y, |y|);
    assert x[..|x|] == x && y[..|y|] == y;
  }

  lemma ShareTimes(distance: nat, longer: nat)
    requires longer > 0
    ensures Share(distance, longer) * longer as real == (longer - distance) as real
  {
    var l, d := longer as real, distance as real;
    QuotientTimes(d, l);
    Distributes(d / l, l);
  }

  lemma Distributes(q: real, l: real)
    ensures (1.0 - q) * l == l - q * l
  {
  }

  method HeadingTitleSimilarity(a: Text, b: Text) returns (similarity: real)
    ensures similarity == Similarity(Normalized(a), Normalized(b))
    ensures 0.0 <= similarity <= 1.0
    ensures similarity == 1.0 <==> Normalized(a) == Normalized(b)
  {
    var x := NormalizeTitle(a);
    var y := NormalizeTitle(b);
    SimilarityRange(x, y);
    if x == [] && y == [] { return 1.0; }
    if x == [] || y == [] { return 0.0; }
    var distance := EditDistanceByRow(x, y);
    similarity := Share(distance, Max(|x|, |y|));
  }
}
