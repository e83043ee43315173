/** Joining the text of a continued paragraph, and the ranges that move with it (src/document_repair.cpp). */
module Joining {
  import opened Bytes
  import opened LeadBytes
  import opened Hyphenation

  function TrimRight(t: Text): Text {
    if t != [] && IsSpace(t[|t| - 1]) then TrimRight(t[..|t| - 1]) else t
  }

  /** The head ends on a hyphenated word that the tail goes on with. */
  predicate Broken(head: Text, tail: Text) {
    var cut, rest := TrimRight(head), TrimLeft(tail);
    && cut != [] && cut[|cut| - 1] == HYPHEN && !SuspendedHyphen(rest)
    && TrailingWord(cut[..|cut| - 1]) != [] && LeadingWord(rest) != []
  }

  /** What of the head's text stays, and what is put between it and the tail's. */
  function HeadPart(head: Text, tail: Text): Text {
    var cut := TrimRight(head);
    if Broken(head, tail) then cut[..|cut| - 1] else cut
  }

  function Between(head: Text, tail: Text): Text {
    if !Broken(head, tail) then [BLANK]
    else if IsKnownCompound(TrailingWord(HeadPart(head, tail)), LeadingWord(TrimLeft(tail))) then [HYPHEN]
    else []
  }

  function JoinedText(head: Text, tail: Text): Text {
    HeadPart(head, tail) + Between(head, tail) + TrimLeft(tail)
  }

  function JoinFragments(head: Text, tail: Text): Text {
    head + (if IsKnownCompound(head, tail) then [HYPHEN] else []) + tail
  }

  lemma FragmentsJoin(start: Text, headWord: Text, between: Text, tailWord: Text, rest: Text)
    requires |headWord| <= |start| && headWord == start[|start| - |headWord|..] && tailWord <= rest
    ensures start[..|start| - |headWord|] + (headWord + between + tailWord) + rest[|tailWord|..] == start + between + rest
  {
    var first, last := start[..|start| - |headWord|], rest[|tailWord|..];
    assert start == first + headWord && rest == tailWord + last;
  }

  method JoinTexts(head: Text, tail: Text) returns (joined: Text)
    ensures joined == JoinedText(head, tail)
  {
    hide IsKnownCompound, SuspendedHyphen, TrailingWord, LeadingWord, TrimLeft, TrimRight;
    var cut, rest := TrimRight(head), TrimLeft(tail);
    if cut != [] && cut[|cut| - 1] == HYPHEN && !SuspendedHyphen(rest) {
      var start := cut[..|cut| - 1];
      var headWord, tailWord := TrailingWord(start), LeadingWord(rest);
      if headWord != [] && tailWord != [] {
        joined := start[..|start| - |headWord|] + JoinFragments(headWord, tailWord) + rest[|tailWord|..];
        FragmentsJoin(start, headWord, Between(head, tail), tailWord, rest);
        return;
      }
    }
    joined := cut + [BLANK] + rest;
  }

  // ----- The ranges.

  lemma {:induction false} TrimLeftIsSuffix(t: Text)
    ensures |TrimLeft(t)| <= |t| && TrimLeft(t) == t[|t| - |TrimLeft(t)|..]
  {
    if t != [] && IsSpace(t[0]) { TrimLeftIsSuffix(t[1..]); }
  }

  lemma {:induction false} TrimRightIsPrefix(t: Text)
    ensures TrimRight(t) <= t
  {
    if t != [] && IsSpace(t[|t| - 1]) { TrimRightIsPrefix(t[..|t| - 1]); }
  }

  /** By how many code points the tail's ranges move. */
  function Shift(head: Text, tail: Text): int {
    LeadCount(JoinedText(head, tail)) - LeadCount(tail)
  }

  lemma {:induction false} LeadsOfSuffix(a: Text, m: nat, b: Text, n: nat)
    requires m <= |a| && n <= |b| && a[m..] == b[n..]
    ensures Leads(a, |a|) - Leads(a, m) == Leads(b, |b|) - Leads(b, n)
    decreases |a| - m
  {
    assert |a[m..]| == |b[n..]|;
    if m < |a| {
      assert a[m] == a[m..][0] == b[n..][0] == b[n];
      assert a[m + 1..] == a[m..][1..] == b[n..][1..] == b[n + 1..];
      LeadsOfSuffix(a, m + 1, b, n + 1);
    }
  }

  /** The tail's text from byte k on, past the blanks trimmed off it, stands in the joined text, and the
      code points before it are the shift more. */
  lemma TailMoves(head: Text, tail: Text, k: nat)
    requires |tail| - |TrimLeft(tail)| <= k <= |tail|
    ensures
      var joined := JoinedText(head, tail);
      var at := |joined| - (|tail| - k);
      && 0 <= at <= |joined| && joined[at..] == tail[k..]
      && Leads(joined, at) == Leads(tail, k) + Shift(head, tail)
  {
    hide Broken, IsKnownCompound, Leads;
    TrimLeftIsSuffix(tail);
    var joined, rest := JoinedText(head, tail), TrimLeft(tail);
    var skipped := |tail| - |rest|;
    var at := |joined| - (|tail| - k);
    assert joined[|joined| - |rest|..] == rest;
    assert joined[at..] == rest[k - skipped..] == tail[k..];
    LeadsOfSuffix(joined, at, tail, k);
  }

  lemma PrefixAt(part: Text, all: Text, k: nat)
    requires part <= all && k <= |part|
    ensures all[..k] == part[..k]
  {
  }

  lemma HeadPartIsPrefix(head: Text, tail: Text)
    ensures HeadPart(head, tail) <= head && HeadPart(head, tail) <= JoinedText(head, tail)
  {
    TrimRightIsPrefix(head);
    hide SuspendedHyphen, IsKnownCompound, TrimLeft, TrimRight;
  }

  /** What stays of the head's text stands where it stood: a range inside it is not to move. */
  lemma HeadStays(head: Text, tail: Text, k: nat)
    requires k <= |HeadPart(head, tail)|
    ensures
      var joined := JoinedText(head, tail);
      k <= |joined| && k <= |head| && joined[..k] == head[..k] && Leads(joined, k) == Leads(head, k)
  {
    hide HeadPart, JoinedText, Leads;
    var joined, part := JoinedText(head, tail), HeadPart(head, tail);
    HeadPartIsPrefix(head, tail);
    PrefixAt(part, joined, k);
    PrefixAt(part, head, k);
    LeadsOfPrefix(joined, head, k);
  }

  /** The head takes the tail's text and, behind its own ranges, the tail's, moved. */
  method Absorb(head: Text, headRanges: seq<Range>, tail: Text, tailRanges: seq<Range>) returns (text: Text, ranges: seq<Range>)
    ensures text == JoinedText(head, tail)
    ensures |ranges| == |headRanges| + |tailRanges| && ranges[..|headRanges|] == headRanges
    ensures forall i :: 0 <= i < |tailRanges| ==>
      ranges[|headRanges| + i] == Range(tailRanges[i].start + Shift(head, tail), tailRanges[i].end + Shift(head, tail))
  {
    text := JoinTexts(head, tail);
    var all: int := CountLeads(text);
    var own: int := CountLeads(tail);
    var shift: int := all - own;
    hide JoinedText;
    ranges := headRanges;
    for i := 0 to |tailRanges|
      invariant |ranges| == |headRanges| + i && ranges[..|headRanges|] == headRanges
      invariant forall k :: 0 <= k < i ==>
        ranges[|headRanges| + k] == Range(tailRanges[k].start + Shift(head, tail), tailRanges[k].end + Shift(head, tail))
    {
      ranges := ranges + [Range(tailRanges[i].start + shift, tailRanges[i].end + shift)];
    }
  }
}
