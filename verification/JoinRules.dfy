/** How the texts of two halves of a paragraph join (src/document_repair.cpp), by positions. */
module JoinRules {
  import opened Bytes
  import opened LeadBytes
  import opened Hyphenation
  import opened HyphenRules
  import opened Joining

  /** Behind the last byte of the text that is no white space. */
  ghost predicate EndsAt(t: Text, a: nat) {
    a <= |t| && (forall k :: a <= k < |t| ==> IsSpace(t[k])) && (a == 0 || !IsSpace(t[a - 1]))
  }

  /** At the first byte that is no white space. */
  ghost predicate StartsAt(t: Text, b: nat) {
    b <= |t| && (forall k :: 0 <= k < b ==> IsSpace(t[k])) && (b == |t| || !IsSpace(t[b]))
  }

  lemma {:induction false} TrimRightIs(t: Text, a: nat)
    requires EndsAt(t, a)
    ensures TrimRight(t) == t[..a]
    decreases |t|
  {
    if a < |t| {
      var front := t[..|t| - 1];
      TrimRightIs(front, a);
      assert front[..a] == t[..a];
    } else {
      assert t[..a] == t;
    }
  }

  lemma TrimLeftAt(t: Text, b: nat)
    requires StartsAt(t, b)
    ensures TrimLeft(t) == t[b..]
  {
    var n := TrimLeftIs(t);
    assert n == b;
  }

  /** The head's last word is broken: a letter and a hyphen end it, and the tail goes on with a letter and is not the
      second half of a pair. */
  ghost predicate BreaksAt(head: Text, a: nat, rest: Text)
    requires a <= |head|
  {
    && a >= 2 && head[a - 1] == '-' as int && IsAlpha(head[a - 2])
    && rest != [] && IsAlpha(rest[0]) && !PairFollows(rest)
  }

  lemma CutBreaks(head: Text, a: nat, rest: Text)
    requires 0 < a <= |head|
    ensures head[a - 1] == HYPHEN && !SuspendedHyphen(rest) && TrailingWord(head[..a - 1]) != [] && LeadingWord(rest) != []
       <==> BreaksAt(head, a, rest)
  {
    hide SuspendedHyphen, PairFollows, TrailingWord, LeadingWord;
    SuspendedIs(rest);
    VowelStarts(rest);
    TrailingIs(head[..a - 1]);
  }

  lemma BrokenIs(head: Text, tail: Text, a: nat, b: nat)
    requires EndsAt(head, a) && StartsAt(tail, b)
    ensures Joining.Broken(head, tail) <==> BreaksAt(head, a, tail[b..])
  {
    hide TrimRight, TrimLeft, SuspendedHyphen, PairFollows, TrailingWord, LeadingWord, EndsAt, StartsAt;
    TrimRightIs(head, a);
    TrimLeftAt(tail, b);
    Inside(head, a, tail, b);
    if a >= 1 {
      CutBreaks(head, a, tail[b..]);
      hide BreaksAt;
      assert head[..a][..a - 1] == head[..a - 1];
    }
  }

  lemma Inside(head: Text, a: nat, tail: Text, b: nat)
    requires EndsAt(head, a) && StartsAt(tail, b)
    ensures a <= |head| && b <= |tail|
  {
  }

  /** The head to its last byte that is no white space, and the tail from its first, with one space between; or,
      where the head ends on a broken word, without the hyphen and without a space, the hyphen kept behind the
      prefixes that keep it. */
  lemma JoinedReads(head: Text, tail: Text, a: nat, b: nat)
    requires EndsAt(head, a) && StartsAt(tail, b)
    ensures JoinedText(head, tail) ==
      (if !BreaksAt(head, a, tail[b..]) then head[..a] + [' ' as int] + tail[b..]
       else if PrefixEnds(head[..a - 1], tail[b..]) then head[..a] + tail[b..]
       else head[..a - 1] + tail[b..])
  {
    hide TrimRight, TrimLeft, BreaksAt, PrefixEnds, IsKnownCompound, TrailingWord, LeadingWord, EndsAt, StartsAt, Joining.Broken;
    BrokenIs(head, tail, a, b);
    TrimRightIs(head, a);
    TrimLeftAt(tail, b);
    Inside(head, a, tail, b);
    if BreaksAt(head, a, tail[b..]) {
      LongEnough(head, a, tail[b..]);
      CompoundIs(head[..a - 1], tail[b..]);
      assert head[..a][..a - 1] == head[..a - 1];
      Rejoins(head, a, tail[b..]);
    }
  }

  lemma Rejoins(head: Text, a: nat, rest: Text)
    requires 0 < a <= |head| && head[a - 1] == HYPHEN
    ensures head[..a - 1] + [HYPHEN] + rest == head[..a] + rest
    ensures head[..a - 1] + [] + rest == head[..a - 1] + rest
  {
    assert head[..a - 1] + [HYPHEN] == head[..a];
  }

  lemma LongEnough(head: Text, a: nat, rest: Text)
    requires a <= |head| && BreaksAt(head, a, rest)
    ensures a >= 2 && head[a - 1] == '-' as int
  {
  }
}
