/** Rejoining words hyphenated over line breaks (src/document_repair.cpp). */
module Hyphenation {
  import opened Bytes
  import opened LeadBytes

  const HYPHEN: Byte := 45
  const NEWLINE: Byte := 10
  const RETURN: Byte := 13
  const BLANK: Byte := 32
  const SOFT_HYPHEN: Text := [0xC2, 0xAD]

  // ----- ASCII.

  predicate IsUpper(c: Byte) { 65 <= c <= 90 }

  predicate IsLower(c: Byte) { 97 <= c <= 122 }

  predicate IsAlpha(c: Byte) { IsUpper(c) || IsLower(c) }

  predicate IsSpace(c: Byte) { 9 <= c <= 13 || c == 32 }

  function Lower(c: Byte): Byte { if IsUpper(c) then c + 32 else c }

  function LowerAll(t: Text): Text { seq(|t|, i requires 0 <= i < |t| => Lower(t[i])) }

  // ----- Words and tokens.

  /** The run of letters that ends a text. */
  function TrailingWord(t: Text): (w: Text)
    ensures |w| <= |t| && w == t[|t| - |w|..] && forall i :: 0 <= i < |w| ==> IsAlpha(w[i])
    ensures |w| < |t| ==> !IsAlpha(t[|t| - |w| - 1])
  {
    if t == [] || !IsAlpha(t[|t| - 1]) then []
    else
      var w := TrailingWord(t[..|t| - 1]);
      assert t == t[..|t| - 1] + [t[|t| - 1]];
      w + [t[|t| - 1]]
  }

  /** The run of letters that starts a text. */
  function LeadingWord(t: Text): (w: Text)
    ensures w <= t && forall i :: 0 <= i < |w| ==> IsAlpha(w[i])
    ensures |w| < |t| ==> !IsAlpha(t[|w|])
  {
    if t == [] || !IsAlpha(t[0]) then [] else [t[0]] + LeadingWord(t[1..])
  }

  function FirstToken(t: Text): (w: Text)
    ensures w <= t && forall i :: 0 <= i < |w| ==> !IsSpace(w[i])
  {
    if t == [] || IsSpace(t[0]) then [] else [t[0]] + FirstToken(t[1..])
  }

  function TrimLeft(t: Text): Text {
    if t != [] && IsSpace(t[0]) then TrimLeft(t[1..]) else t
  }

  /** The line break at a position, as its length; 0 when there is none. */
  function BreakAfter(t: Text, at: nat, spaceIsBreak: bool): (gap: nat)
    ensures gap <= 2 && (gap > 0 ==> at + gap <= |t|)
    ensures gap > 0 ==> t[at] == NEWLINE || t[at] == BLANK || t[at] == RETURN
  {
    if at >= |t| then 0
    else if t[at] == NEWLINE || (spaceIsBreak && t[at] == BLANK) then 1
    else if t[at] == RETURN && at + 1 < |t| && t[at + 1] == NEWLINE then 2
    else 0
  }

  // ----- What may be joined.

  const PREFIX_SELF: Text := [115, 101, 108, 102]
  const PREFIX_WELL: Text := [119, 101, 108, 108]
  const PREFIX_NON: Text := [110, 111, 110]
  const PREFIX_PRE: Text := [112, 114, 101]
  const PREFIX_POST: Text := [112, 111, 115, 116]
  const PREFIX_CO: Text := [99, 111]
  const PREFIX_RE: Text := [114, 101]

  predicate StartsWithVowel(t: Text) {
    t != [] && Lower(t[0]) in [97, 101, 105, 111, 117]
  }

  predicate IsKnownCompound(head: Text, tail: Text) {
    var folded := LowerAll(head);
    || folded in [PREFIX_SELF, PREFIX_WELL, PREFIX_NON]
    || (folded in [PREFIX_PRE, PREFIX_POST, PREFIX_CO, PREFIX_RE] && StartsWithVowel(tail))
  }

  const TOKEN_PUNCTUATION: Text := [46, 44, 59, 58, 33, 63, 41, 93, 125, 39, 34]

  function StripPunctuation(t: Text): Text {
    if t != [] && t[|t| - 1] in TOKEN_PUNCTUATION then StripPunctuation(t[..|t| - 1]) else t
  }

  predicate TailTokenIsWord(afterBreak: Text) {
    var token := StripPunctuation(FirstToken(afterBreak));
    |token| >= 2 && forall i :: 0 <= i < |token| ==> IsAlpha(token[i])
  }

  const CONJUNCTIONS: seq<Text> :=
    [[97, 110, 100], [111, 114], [110, 111, 114], [116, 111], [101, 116], [111, 117]]
  const GERMAN_CONJUNCTIONS: seq<Text> := [[117, 110, 100], [111, 100, 101, 114], [98, 105, 115]]

  predicate SuspendedHyphen(afterBreak: Text) {
    var token := FirstToken(afterBreak);
    var folded := LowerAll(token);
    var next := FirstToken(TrimLeft(afterBreak[|token|..]));
    && (folded in CONJUNCTIONS || folded in GERMAN_CONJUNCTIONS)
    && next != []
    && (HYPHEN in next[1..] || (folded in GERMAN_CONJUNCTIONS && IsUpper(next[0])))
  }

  // ----- One step of the pass.

  /** Half-open run of bytes, or of code points. */
  datatype Run = Run(first: int, last: int)

  /** What one step appends, which run of the text it leaves out, and where it goes on. */
  datatype Move = Move(append: Text, dropped: Option<Run>, next: nat)

  predicate SoftAt(t: Text, i: nat) {
    i + 2 <= |t| && t[i..i + 2] == SOFT_HYPHEN
  }

  /** A hyphen inside a word broken over a line. */
  predicate Joins(head: Text, gap: nat, rest: Text) {
    && gap > 0 && head != [] && LeadingWord(rest) != []
    && IsLower(head[|head| - 1]) && IsLower(rest[0])
    && TailTokenIsWord(rest) && !SuspendedHyphen(rest)
  }

  predicate Joinable(t: Text, i: nat, out: Text, spaceIsBreak: bool)
    requires i < |t|
  {
    var gap := BreakAfter(t, i + 1, spaceIsBreak);
    Joins(TrailingWord(out), gap, t[i + 1 + gap..])
  }

  function JoinMove(i: nat, gap: nat, head: Text, tail: Text): Move {
    if IsKnownCompound(head, tail) then
      Move([HYPHEN] + tail, Some(Run(i + 1, i + 1 + gap)), i + 1 + gap + |tail|)
    else
      Move(tail, Some(Run(i, i + 1 + gap)), i + 1 + gap + |tail|)
  }

  /** At a soft hyphen: it goes, and its break with it when a word continues past it. */
  function SoftStep(t: Text, i: nat, spaceIsBreak: bool): Move
    requires SoftAt(t, i)
  {
    var gap := BreakAfter(t, i + 2, spaceIsBreak);
    var next := if LeadingWord(t[i + 2 + gap..]) == [] then i + 2 else i + 2 + gap;
    Move([], Some(Run(i, next)), next)
  }

  /** At a hyphen that joins. */
  function JoinStep(t: Text, i: nat, out: Text, spaceIsBreak: bool): Move
    requires i < |t|
  {
    var gap := BreakAfter(t, i + 1, spaceIsBreak);
    JoinMove(i, gap, TrailingWord(out), LeadingWord(t[i + 1 + gap..]))
  }

  function NextMove(t: Text, i: nat, out: Text, spaceIsBreak: bool): (m: Move)
    requires i < |t|
  {
    if SoftAt(t, i) then SoftStep(t, i, spaceIsBreak)
    else if t[i] == HYPHEN && Joinable(t, i, out, spaceIsBreak) then JoinStep(t, i, out, spaceIsBreak)
    else Move([t[i]], None, i + 1)
  }

  // ----- Deleting runs.

  ghost predicate InRuns(runs: seq<Run>, k: int) {
    exists r :: r in runs && r.first <= k < r.last
  }

  /** The first n bytes without those in a run. */
  ghost function Kept(t: Text, runs: seq<Run>, n: nat): Text
    requires n <= |t|
  {
    if n == 0 then []
    else Kept(t, runs, n - 1) + (if InRuns(runs, n - 1) then [] else [t[n - 1]])
  }

  /** In order, disjoint, none empty, all below `limit`. */
  ghost predicate Ordered(runs: seq<Run>, limit: int) {
    && (forall i :: 0 <= i < |runs| ==> 0 <= runs[i].first < runs[i].last <= limit)
    && (forall i, j :: 0 <= i < j < |runs| ==> runs[i].last <= runs[j].first)
  }

  lemma {:induction false} KeptSame(t: Text, runs: seq<Run>, more: seq<Run>, n: nat)
    requires n <= |t|
    requires forall k :: 0 <= k < n ==> InRuns(runs, k) == InRuns(more, k)
    ensures Kept(t, runs, n) == Kept(t, more, n)
  {
    if n > 0 { KeptSame(t, runs, more, n - 1); }
  }

  lemma {:induction false} KeptPlain(t: Text, runs: seq<Run>, m: nat, n: nat, keep: bool)
    requires m <= n <= |t|
    requires forall k :: m <= k < n ==> InRuns(runs, k) == !keep
    ensures Kept(t, runs, n) == Kept(t, runs, m) + (if keep then t[m..n] else [])
  {
    if m < n {
      KeptPlain(t, runs, m, n - 1, keep);
      assert t[m..n] == t[m..n - 1] + [t[n - 1]];
    }
  }

  lemma InRunsNext(runs: seq<Run>, run: Run, k: int)
    ensures InRuns(runs + [run], k) == (InRuns(runs, k) || run.first <= k < run.last)
  {
    var more := runs + [run];
    if run.first <= k < run.last { assert run in more; }
    if InRuns(runs, k) {
      var r :| r in runs && r.first <= k < r.last;
      assert r in more;
    }
  }

  lemma NotInRunsFrom(runs: seq<Run>, i: int)
    requires Ordered(runs, i)
    ensures forall k: int :: i <= k ==> !InRuns(runs, k)
  {
    hide Ordered;
    forall k: int | i <= k ensures !InRuns(runs, k) {
      if InRuns(runs, k) {
        var r :| r in runs && r.first <= k < r.last;
        RunEndsBy(runs, i, r);
      }
    }
  }

  lemma RunEndsBy(runs: seq<Run>, i: int, r: Run)
    requires Ordered(runs, i) && r in runs
    ensures r.last <= i
  {
  }

  lemma OrderedNext(runs: seq<Run>, i: int, run: Run, next: int)
    requires Ordered(runs, i) && 0 <= i <= run.first < run.last <= next
    ensures Ordered(runs + [run], next)
  {
    var more := runs + [run];
    forall a, b | 0 <= a < b < |more| ensures more[a].last <= more[b].first {
      assert more[a] == runs[a];
    }
  }

  /** One more run: what lies before and behind it is kept. */
  lemma KeptAppend(t: Text, runs: seq<Run>, i: nat, run: Run, next: nat)
    requires Ordered(runs, i) && i <= run.first < run.last <= next <= |t|
    ensures Ordered(runs + [run], next)
    ensures Kept(t, runs + [run], next) == Kept(t, runs, i) + t[i..run.first] + t[run.last..next]
  {
    hide InRuns, Ordered, Kept;
    var more := runs + [run];
    forall k: int ensures InRuns(more, k) == (InRuns(runs, k) || run.first <= k < run.last) { InRunsNext(runs, run, k); }
    NotInRunsFrom(runs, i);
    OrderedNext(runs, i, run, next);
    KeptSame(t, runs, more, i);
    KeptPlain(t, more, i, run.first, true);
    KeptPlain(t, more, run.first, run.last, false);
    KeptPlain(t, more, run.last, next, true);
  }

  // ----- Code points.

  /** The code-point runs of byte runs. */
  ghost function CodePointRuns(t: Text, runs: seq<Run>): seq<Run>
    requires Ordered(runs, |t|)
  {
    seq(|runs|, i requires 0 <= i < |runs| => Run(Leads(t, runs[i].first), Leads(t, runs[i].last)))
  }

  // ----- The pass.

  datatype Counts = Counts(softHyphensRemoved: nat, rejoined: nat)

  /** Everything the pass has done up to byte i. */
  ghost predicate Reached(t: Text, i: nat, out: Text, runs: seq<Run>)
    requires i <= |t|
  {
    Ordered(runs, i) && out == Kept(t, runs, i)
  }

  /** The move leaves its run out of t[i..m.next] and keeps the rest of it. */
  ghost predicate Deletes(t: Text, i: nat, m: Move) {
    && i < m.next <= |t|
    && match m.dropped
       case None => m.append == t[i..m.next]
       case Some(run) =>
         && i <= run.first < run.last <= m.next
         && m.append == t[i..run.first] + t[run.last..m.next]
  }

  lemma SoftMoveDeletes(t: Text, i: nat, gap: nat, next: nat)
    requires SoftAt(t, i) && (next == i + 2 || (next == i + 2 + gap && next <= |t|))
    ensures Deletes(t, i, Move([], Some(Run(i, next)), next))
  {
    assert t[i..i] + t[next..next] == [];
  }

  lemma JoinMoveDeletes(t: Text, i: nat, gap: nat, head: Text, tail: Text)
    requires i < |t| && t[i] == HYPHEN && 0 < gap && i + 1 + gap <= |t| && tail <= t[i + 1 + gap..]
    ensures Deletes(t, i, JoinMove(i, gap, head, tail))
  {
    hide IsKnownCompound;
    var next := i + 1 + gap + |tail|;
    assert tail == t[i + 1 + gap..next];
    if IsKnownCompound(head, tail) {
      assert t[i..i + 1] == [HYPHEN];
    } else {
      assert t[i..i] + tail == tail;
    }
  }

  lemma SoftStepDeletes(t: Text, i: nat, spaceIsBreak: bool)
    requires SoftAt(t, i)
    ensures Deletes(t, i, SoftStep(t, i, spaceIsBreak))
  {
    hide BreakAfter, LeadingWord, Deletes;
    var gap := BreakAfter(t, i + 2, spaceIsBreak);
    SoftMoveDeletes(t, i, gap, if LeadingWord(t[i + 2 + gap..]) == [] then i + 2 else i + 2 + gap);
  }

  lemma JoinableBounds(t: Text, i: nat, out: Text, spaceIsBreak: bool)
    requires i < |t| && Joinable(t, i, out, spaceIsBreak)
    ensures
      var gap := BreakAfter(t, i + 1, spaceIsBreak);
      0 < gap && i + 1 + gap <= |t| && LeadingWord(t[i + 1 + gap..]) <= t[i + 1 + gap..]
  {
    hide BreakAfter, LeadingWord, TrailingWord, TailTokenIsWord, SuspendedHyphen;
  }

  lemma JoinStepDeletes(t: Text, i: nat, out: Text, spaceIsBreak: bool)
    requires i < |t| && t[i] == HYPHEN && Joinable(t, i, out, spaceIsBreak)
    ensures Deletes(t, i, JoinStep(t, i, out, spaceIsBreak))
  {
    hide BreakAfter, LeadingWord, TrailingWord, Joinable, JoinMove, Deletes;
    JoinableBounds(t, i, out, spaceIsBreak);
    var gap := BreakAfter(t, i + 1, spaceIsBreak);
    JoinMoveDeletes(t, i, gap, TrailingWord(out), LeadingWord(t[i + 1 + gap..]));
  }

  /** Nothing is rewritten: a step copies bytes of the text or leaves them out. */
  lemma MoveIsDeletion(t: Text, i: nat, out: Text, spaceIsBreak: bool)
    requires i < |t|
    ensures Deletes(t, i, NextMove(t, i, out, spaceIsBreak))
  {
    hide SoftAt, Joinable, SoftStep, JoinStep, Deletes;
    if SoftAt(t, i) {
      SoftStepDeletes(t, i, spaceIsBreak);
    } else if t[i] == HYPHEN && Joinable(t, i, out, spaceIsBreak) {
      JoinStepDeletes(t, i, out, spaceIsBreak);
    } else {
      PlainMoveDeletes(t, i);
    }
  }

  lemma PlainMoveDeletes(t: Text, i: nat)
    requires i < |t|
    ensures Deletes(t, i, Move([t[i]], None, i + 1))
  {
  }

  lemma ReachedNext(t: Text, i: nat, out: Text, runs: seq<Run>, m: Move)
    requires Deletes(t, i, m) && i <= |t| && Reached(t, i, out, runs)
    ensures Reached(t, m.next, out + m.append, Recorded(runs, m))
  {
    if m.dropped.Some? {
      KeptAppend(t, runs, i, m.dropped.value, m.next);
      assert out + m.append == out + t[i..m.dropped.value.first] + t[m.dropped.value.last..m.next];
    } else {
      forall k | i <= k < m.next ensures !InRuns(runs, k) {}
      KeptPlain(t, runs, i, m.next, true);
    }
  }

  function Recorded(runs: seq<Run>, m: Move): seq<Run> {
    if m.dropped.Some? then runs + [m.dropped.value] else runs
  }

  /** The whole pass from byte i on. */
  ghost function Pass(t: Text, spaceIsBreak: bool, i: nat, out: Text, runs: seq<Run>): (Text, seq<Run>)
    requires i <= |t|
    decreases |t| - i
  {
    if i == |t| then (out, runs)
    else
      MoveIsDeletion(t, i, out, spaceIsBreak);
      var m := NextMove(t, i, out, spaceIsBreak);
      Pass(t, spaceIsBreak, m.next, out + m.append, Recorded(runs, m))
  }

  /** The text as rejoined, and the byte runs taken out of it. */
  ghost function Rejoined(t: Text, spaceIsBreak: bool): (Text, seq<Run>) {
    Pass(t, spaceIsBreak, 0, [], [])
  }

  lemma {:induction false} PassReaches(t: Text, spaceIsBreak: bool, i: nat, out: Text, runs: seq<Run>)
    requires i <= |t| && Reached(t, i, out, runs)
    ensures
      var (end, all) := Pass(t, spaceIsBreak, i, out, runs);
      Reached(t, |t|, end, all)
    decreases |t| - i
  {
    if i < |t| {
      MoveIsDeletion(t, i, out, spaceIsBreak);
      var m := NextMove(t, i, out, spaceIsBreak);
      hide NextMove, Reached;
      ReachedNext(t, i, out, runs, m);
      PassReaches(t, spaceIsBreak, m.next, out + m.append, Recorded(runs, m));
    }
  }

  /** The output is the input with the recorded runs deleted; they are in order and disjoint. */
  lemma RejoinedIsDeletion(t: Text, spaceIsBreak: bool)
    ensures
      var (out, runs) := Rejoined(t, spaceIsBreak);
      Ordered(runs, |t|) && out == Kept(t, runs, |t|)
  {
    hide Pass;
    PassReaches(t, spaceIsBreak, 0, [], []);
  }

  /** A deleted run is a soft hyphen, a hyphen or nothing, followed by a line break or nothing. */
  ghost predicate HyphenAndBreak(t: Text, spaceIsBreak: bool, run: Run) {
    && 0 <= run.first < run.last <= |t|
    && exists marker: nat, gap: nat :: MarkerAndGap(t, spaceIsBreak, run, marker, gap)
  }

  ghost predicate MarkerAndGap(t: Text, spaceIsBreak: bool, run: Run, marker: nat, gap: nat)
    requires 0 <= run.first <= |t|
  {
    && run.last == run.first + marker + gap
    && (marker == 0 || (marker == 1 && run.first < |t| && t[run.first] == HYPHEN) || (marker == 2 && SoftAt(t, run.first)))
    && (gap == 0 || gap == BreakAfter(t, run.first + marker, spaceIsBreak))
  }

  lemma {:induction false} PassDropsHyphens(t: Text, spaceIsBreak: bool, i: nat, out: Text, runs: seq<Run>)
    requires i <= |t| && forall r :: r in runs ==> HyphenAndBreak(t, spaceIsBreak, r)
    ensures forall r :: r in Pass(t, spaceIsBreak, i, out, runs).1 ==> HyphenAndBreak(t, spaceIsBreak, r)
    decreases |t| - i
  {
    if i < |t| {
      MoveIsDeletion(t, i, out, spaceIsBreak);
      var m := NextMove(t, i, out, spaceIsBreak);
      MoveDropsHyphen(t, i, out, spaceIsBreak);
      hide NextMove, HyphenAndBreak;
      PassDropsHyphens(t, spaceIsBreak, m.next, out + m.append, Recorded(runs, m));
    }
  }

  lemma MoveDropsHyphen(t: Text, i: nat, out: Text, spaceIsBreak: bool)
    requires i < |t|
    ensures
      var m := NextMove(t, i, out, spaceIsBreak);
      m.dropped.Some? ==> HyphenAndBreak(t, spaceIsBreak, m.dropped.value)
  {
    hide TrailingWord, LeadingWord, BreakAfter, TailTokenIsWord, SuspendedHyphen, IsKnownCompound;
    var m := NextMove(t, i, out, spaceIsBreak);
    if SoftAt(t, i) {
      var gap := BreakAfter(t, i + 2, spaceIsBreak);
      assert MarkerAndGap(t, spaceIsBreak, m.dropped.value, 2, if m.next == i + 2 then 0 else gap);
    } else if t[i] == HYPHEN && Joinable(t, i, out, spaceIsBreak) {
      var gap := BreakAfter(t, i + 1, spaceIsBreak);
      if m.dropped.value.first == i {
        assert MarkerAndGap(t, spaceIsBreak, m.dropped.value, 1, gap);
      } else {
        assert MarkerAndGap(t, spaceIsBreak, m.dropped.value, 0, gap);
      }
    }
  }

  /** Only hyphens and line breaks are ever deleted. */
  lemma OnlyHyphensAreDropped(t: Text, spaceIsBreak: bool)
    ensures forall r :: r in Rejoined(t, spaceIsBreak).1 ==> HyphenAndBreak(t, spaceIsBreak, r)
  {
    PassDropsHyphens(t, spaceIsBreak, 0, [], []);
  }

  // ----- Positions.

  /** How many of the positions below p lie in a run. */
  ghost function RemovedBelow(runs: seq<Run>, p: int): nat
    decreases p
  {
    if p <= 0 then 0 else RemovedBelow(runs, p - 1) + (if InRuns(runs, p - 1) then 1 else 0)
  }

  lemma LeadInRun(t: Text, run: Run, k: nat)
    requires 0 <= run.first <= run.last <= |t| && k < |t| && IsLead(t[k])
    ensures run.first <= k < run.last <==> Leads(t, run.first) <= Leads(t, k) < Leads(t, run.last)
  {
    hide Leads;
    if run.first <= k { LeadsGrow(t, run.first, k); } else { LeadsGrow(t, k, run.first); }
    if k < run.last { LeadsGrow(t, k, run.last); } else { LeadsGrow(t, run.last, k); }
  }

  lemma InRunAt(runs: seq<Run>, i: nat, k: int)
    requires i < |runs| && runs[i].first <= k < runs[i].last
    ensures InRuns(runs, k)
  {
    assert runs[i] in runs;
  }

  lemma SomeRun(runs: seq<Run>, k: int) returns (i: nat)
    requires InRuns(runs, k)
    ensures i < |runs| && runs[i].first <= k < runs[i].last
  {
    var r :| r in runs && r.first <= k < r.last;
    i :| 0 <= i < |runs| && runs[i] == r;
  }

  /** A lead byte lies in a byte run exactly when its code point lies in the code-point run. */
  lemma LeadInRuns(t: Text, runs: seq<Run>, k: nat)
    requires Ordered(runs, |t|) && k < |t| && IsLead(t[k])
    ensures InRuns(runs, k) <==> InRuns(CodePointRuns(t, runs), Leads(t, k))
  {
    var points := CodePointRuns(t, runs);
    hide Leads, InRuns;
    if InRuns(runs, k) {
      var i := SomeRun(runs, k);
      LeadInRun(t, runs[i], k);
      InRunAt(points, i, Leads(t, k));
    }
    if InRuns(points, Leads(t, k)) {
      var i := SomeRun(points, Leads(t, k));
      LeadInRun(t, runs[i], k);
      InRunAt(runs, i, k);
    }
  }

  lemma LeadsNext(t: Text, n: nat)
    requires n < |t|
    ensures Leads(t, n + 1) == Leads(t, n) + (if IsLead(t[n]) then 1 else 0)
  {
  }

  lemma RemovedNext(runs: seq<Run>, p: nat)
    ensures RemovedBelow(runs, p + 1) == RemovedBelow(runs, p) + (if InRuns(runs, p) then 1 else 0)
  {
    hide InRuns;
  }

  lemma NothingKept(t: Text, runs: seq<Run>)
    requires Ordered(runs, |t|)
    ensures Kept(t, runs, 0) == [] && Leads(t, 0) == 0 && Leads([], 0) == 0 && RemovedBelow(CodePointRuns(t, runs), 0) == 0
  {
    hide Ordered, CodePointRuns;
  }

  lemma KeptStep(t: Text, runs: seq<Run>, n: nat)
    requires n < |t|
    ensures Kept(t, runs, n + 1) == if InRuns(runs, n) then Kept(t, runs, n) else Kept(t, runs, n) + [t[n]]
  {
    hide InRuns;
    assert Kept(t, runs, n) + [] == Kept(t, runs, n);
  }

  lemma KeptCodePointsNext(t: Text, runs: seq<Run>, n: nat)
    requires Ordered(runs, |t|) && n < |t|
    requires LeadCount(Kept(t, runs, n)) == Leads(t, n) - RemovedBelow(CodePointRuns(t, runs), Leads(t, n))
    ensures LeadCount(Kept(t, runs, n + 1)) == Leads(t, n + 1) - RemovedBelow(CodePointRuns(t, runs), Leads(t, n + 1))
  {
    hide Kept, InRuns, Ordered, CodePointRuns, Leads, RemovedBelow;
    if IsLead(t[n]) { LeadInRuns(t, runs, n); }
    KeptStep(t, runs, n);
    LeadsAppend(Kept(t, runs, n), t[n]);
    LeadsNext(t, n);
    RemovedNext(CodePointRuns(t, runs), Leads(t, n));
  }

  /** The code points kept below a byte are those of the text, less the removed positions below. */
  lemma {:induction false} KeptCodePoints(t: Text, runs: seq<Run>, n: nat)
    requires Ordered(runs, |t|) && n <= |t|
    ensures Leads(Kept(t, runs, n), |Kept(t, runs, n)|) ==
            Leads(t, n) - RemovedBelow(CodePointRuns(t, runs), Leads(t, n))
  {
    hide Kept, InRuns, Ordered, CodePointRuns, Leads, RemovedBelow;
    if n == 0 {
      NothingKept(t, runs);
    } else {
      KeptCodePoints(t, runs, n - 1);
      KeptCodePointsNext(t, runs, n - 1);
    }
  }

  // ----- The remap.

  /** A position moved past every removed one below it. */
  ghost function Remapped(runs: seq<Run>, p: int): int {
    p - RemovedBelow(runs, p)
  }

  ghost predicate Sorted(runs: seq<Run>) {
    && (forall i :: 0 <= i < |runs| ==> 0 <= runs[i].first <= runs[i].last)
    && (forall i, j :: 0 <= i < j < |runs| ==> runs[i].last <= runs[j].first)
  }

  lemma CodePointRunsSorted(t: Text, runs: seq<Run>)
    requires Ordered(runs, |t|)
    ensures Sorted(CodePointRuns(t, runs))
  {
    forall i | 0 <= i < |runs| ensures Leads(t, runs[i].first) <= Leads(t, runs[i].last) {
      LeadsGrow(t, runs[i].first, runs[i].last);
    }
    forall i, j | 0 <= i < j < |runs| ensures Leads(t, runs[i].last) <= Leads(t, runs[j].first) {
      LeadsGrow(t, runs[i].last, runs[j].first);
    }
  }

  ghost function TotalLength(runs: seq<Run>, n: nat): int
    requires n <= |runs|
  {
    if n == 0 then 0 else TotalLength(runs, n - 1) + (runs[n - 1].last - runs[n - 1].first)
  }

  lemma {:induction false} RemovedPlain(runs: seq<Run>, p: int, q: int, inside: bool)
    requires 0 <= p <= q && forall k :: p <= k < q ==> InRuns(runs, k) == inside
    ensures RemovedBelow(runs, q) == RemovedBelow(runs, p) + (if inside then q - p else 0)
    decreases q - p
  {
    if p < q { RemovedPlain(runs, p, q - 1, inside); }
  }

  lemma InRunsAt(runs: seq<Run>, n: nat, k: int)
    requires Sorted(runs) && n <= |runs|
    requires (n == 0 || runs[n - 1].last <= k) && (n == |runs| || k < runs[n].first)
    ensures !InRuns(runs, k)
  {
    forall i | 0 <= i < |runs| ensures !(runs[i].first <= k < runs[i].last) {
      assert i < n ==> runs[i].last <= runs[n - 1].last;
      assert n <= i ==> runs[n].first <= runs[i].first;
    }
  }

  /** Below the start of run n lie exactly the runs before it. */
  lemma {:induction false} RemovedAtStart(runs: seq<Run>, n: nat, p: int)
    requires Sorted(runs) && n <= |runs| && 0 <= p
    requires (n == 0 || runs[n - 1].last <= p) && (n == |runs| || p <= runs[n].first)
    ensures RemovedBelow(runs, p) == TotalLength(runs, n)
    decreases n
  {
    var from := if n == 0 then 0 else runs[n - 1].last;
    forall k | from <= k < p ensures !InRuns(runs, k) { InRunsAt(runs, n, k); }
    RemovedPlain(runs, from, p, false);
    if n > 0 {
      var run := runs[n - 1];
      RemovedAtStart(runs, n - 1, run.first);
      forall k | run.first <= k < run.last ensures InRuns(runs, k) { assert run in runs; }
      RemovedPlain(runs, run.first, run.last, true);
    }
  }

  class PositionRemap {
    const removed: seq<Run>
    var removedBefore: seq<int>

    ghost predicate Valid()
      reads this
    {
      Sorted(removed) && |removedBefore| == |removed|
      && forall i :: 0 <= i < |removed| ==> removedBefore[i] == TotalLength(removed, i)
    }

    constructor (runs: seq<Run>)
      requires Sorted(runs)
      ensures Valid() && removed == runs
    {
      removed := runs;
      removedBefore := [];
      new;
      var total := 0;
      for i := 0 to |runs|
        invariant |removedBefore| == i && total == TotalLength(runs, i)
        invariant forall k :: 0 <= k < i ==> removedBefore[k] == TotalLength(runs, k)
      {
        removedBefore := removedBefore + [total];
        total := total + (runs[i].last - runs[i].first);
      }
    }

    /** The first run that starts at or after a position. */
    method LowerBound(position: int) returns (next: nat)
      requires Valid()
      ensures next <= |removed|
      ensures forall i :: 0 <= i < next ==> removed[i].first < position
      ensures forall i :: next <= i < |removed| ==> position <= removed[i].first
    {
      var low, high: nat := 0, |removed|;
      while low < high
        invariant low <= high <= |removed|
        invariant forall i :: 0 <= i < low ==> removed[i].first < position
        invariant forall i :: high <= i < |removed| ==> position <= removed[i].first
      {
        var middle := (low + high) / 2;
        if removed[middle].first < position { low := middle + 1; } else { high := middle; }
      }
      next := low;
    }

    /** The position less the removed ones below it, by one prefix sum and one binary search. */
    method At(position: int) returns (moved: int)
      requires Valid()
      ensures moved == Remapped(removed, position)
    {
      var next := LowerBound(position);
      if next == 0 {
        if position >= 0 { RemovedAtStart(removed, 0, position); }
        return position;
      }
      var run := removed[next - 1];
      var shift := removedBefore[next - 1] + Min(position, run.last) - run.first;
      RemovedAtStart(removed, next - 1, run.first);
      forall k | run.first <= k < Min(position, run.last) ensures InRuns(removed, k) { assert run in removed; }
      RemovedPlain(removed, run.first, Min(position, run.last), true);
      if run.last < position {
        RemovedAtStart(removed, next, run.last);
        RemovedAtStart(removed, next, position);
      }
      moved := position - shift;
    }
  }

  /** Every kept code point is found at its remapped position: for a byte that starts one and is in
      no run, the same byte stands in the output, and the code points before it are the remap of
      those before it in the text. */
  lemma KeptCodePointIsFound(t: Text, spaceIsBreak: bool, k: nat)
    requires k < |t| && IsLead(t[k]) && !InRuns(Rejoined(t, spaceIsBreak).1, k)
    ensures
      var (out, runs) := Rejoined(t, spaceIsBreak);
      Ordered(runs, |t|) &&
      var at := |Kept(t, runs, k)|;
      at < |out| && out[at] == t[k] && Leads(out, at) == Remapped(CodePointRuns(t, runs), Leads(t, k))
  {
    hide Pass, Kept, Ordered, InRuns, CodePointRuns, RemovedBelow;
    RejoinedIsDeletion(t, spaceIsBreak);
    var (out, runs) := Rejoined(t, spaceIsBreak);
    var before, at := Kept(t, runs, k), |Kept(t, runs, k)|;
    KeptNext(t, runs, k);
    KeptPrefix(t, runs, k + 1, |t|);
    KeptCodePoints(t, runs, k);
    PrefixThen(before, t[k], out);
    LeadsOfPrefix(out, before, at);
    assert before[..at] == before;
  }

  lemma KeptNext(t: Text, runs: seq<Run>, k: nat)
    requires k < |t| && !InRuns(runs, k)
    ensures Kept(t, runs, k + 1) == Kept(t, runs, k) + [t[k]]
  {
  }

  lemma PrefixThen(before: Text, b: Byte, out: Text)
    requires before + [b] <= out
    ensures |before| < |out| && out[..|before|] == before && out[|before|] == b
  {
    assert out[..|before| + 1] == before + [b];
    assert out[|before|] == (before + [b])[|before|];
  }

  lemma {:induction false} KeptPrefix(t: Text, runs: seq<Run>, m: nat, n: nat)
    requires m <= n <= |t|
    ensures Kept(t, runs, m) <= Kept(t, runs, n)
  {
    if m < n { KeptPrefix(t, runs, m, n - 1); }
  }

  // ----- Which runs are counted as what.

  /** How many of the runs start at a soft hyphen; the others each end a rejoined word's first part. */
  ghost function SoftRuns(t: Text, runs: seq<Run>): (n: nat)
    ensures n <= |runs|
  {
    if runs == [] then 0
    else
      var last := runs[|runs| - 1];
      SoftRuns(t, runs[..|runs| - 1]) + (if last.first >= 0 && SoftAt(t, last.first) then 1 else 0)
  }

  lemma SoftRunsNext(t: Text, runs: seq<Run>, run: Run)
    requires run.first >= 0
    ensures SoftRuns(t, runs + [run]) == SoftRuns(t, runs) + (if SoftAt(t, run.first) then 1 else 0)
  {
    assert (runs + [run])[..|runs|] == runs;
  }

  /** A step leaves out a run that starts at a soft hyphen exactly when it stands at one. */
  lemma SoftMoveIff(t: Text, i: nat, out: Text, spaceIsBreak: bool)
    requires i < |t| && NextMove(t, i, out, spaceIsBreak).dropped.Some?
    ensures
      var run := NextMove(t, i, out, spaceIsBreak).dropped.value;
      run.first >= 0 && (SoftAt(t, run.first) <==> SoftAt(t, i))
  {
    hide TrailingWord, LeadingWord, BreakAfter, TailTokenIsWord, SuspendedHyphen, IsKnownCompound;
    if !SoftAt(t, i) {
      var gap := BreakAfter(t, i + 1, spaceIsBreak);
      assert t[i] == HYPHEN && t[i + 1] in {NEWLINE, BLANK, RETURN};
      assert SOFT_HYPHEN[0] !in {HYPHEN, NEWLINE, BLANK, RETURN};
      forall k: nat | SoftAt(t, k) ensures t[k] == SOFT_HYPHEN[0] {
        assert t[k] == t[k..k + 2][0];
      }
    }
  }

  /** Without a hyphen of either kind the text stays as it is. */
  lemma {:induction false} NoHyphenNoChange(t: Text, spaceIsBreak: bool, i: nat, out: Text, runs: seq<Run>)
    requires i <= |t| && HYPHEN !in t && forall k: nat :: !SoftAt(t, k)
    ensures Pass(t, spaceIsBreak, i, out, runs) == (out + t[i..], runs)
    decreases |t| - i
  {
    hide Joinable, SoftAt;
    if i < |t| {
      NoHyphenNoChange(t, spaceIsBreak, i + 1, out + [t[i]], runs);
      assert t[i] in t;
      assert out + [t[i]] + t[i + 1..] == out + t[i..];
    } else {
      assert out + t[i..] == out;
    }
  }

  lemma {:induction false} NothingRemoved(p: int)
    ensures RemovedBelow([], p) == 0
    decreases p
  {
    if p > 0 { NothingRemoved(p - 1); }
  }

  // ----- The program.

  /** Code-point positions of bytes that only move forward. */
  method AdvanceCursor(t: Text, from: nat, points: nat, to: nat) returns (byte: nat, at: nat)
    requires from <= to <= |t| && points == Leads(t, from)
    ensures byte == to && at == Leads(t, to)
  {
    byte, at := from, points;
    while byte < to && byte < |t|
      invariant from <= byte <= to && at == Leads(t, byte)
    {
      if IsLead(t[byte]) { at := at + 1; }
      byte := byte + 1;
    }
  }

  method RejoinHyphenatedWords(t: Text, spaceIsBreak: bool)
    returns (out: Text, counts: Counts, removed: seq<Run>, ghost runs: seq<Run>)
    ensures (out, runs) == Rejoined(t, spaceIsBreak) && Ordered(runs, |t|)
    ensures removed == CodePointRuns(t, runs)
    ensures counts == Counts(SoftRuns(t, runs), |runs| - SoftRuns(t, runs))
  {
    hide LeadingWord, TrailingWord, BreakAfter, Joinable, IsKnownCompound, Leads, SoftAt;
    out, counts, removed, runs := [], Counts(0, 0), [], [];
    var byte, points := 0, 0;
    var i := 0;
    assert Leads(t, 0) == 0 by { LeadsNone(t); }
    while i < |t|
      invariant i <= |t| && Reached(t, i, out, runs) && Ordered(runs, |t|)
      invariant Pass(t, spaceIsBreak, i, out, runs) == Rejoined(t, spaceIsBreak)
      invariant byte <= i && points == Leads(t, byte) && removed == CodePointRuns(t, runs)
      invariant counts.softHyphensRemoved == SoftRuns(t, runs) && counts.rejoined == |runs| - SoftRuns(t, runs)
      decreases |t| - i
    {
      hide Pass, Reached, CodePointRuns, SoftRuns;
      var m := ReadMove(t, i, out, spaceIsBreak);
      MoveIsDeletion(t, i, out, spaceIsBreak);
      PassUnfolds(t, spaceIsBreak, i, out, runs);
      ReachedNext(t, i, out, runs, m);
      if m.dropped.Some? {
        var first, last;
        byte, first := AdvanceCursor(t, byte, points, m.dropped.value.first);
        byte, last := AdvanceCursor(t, byte, first, m.dropped.value.last);
        points := last;
        RecordedPoints(t, runs, m.dropped.value, m.next);
        removed := removed + [Run(first, last)];
        SoftMoveIff(t, i, out, spaceIsBreak);
        SoftRunsNext(t, runs, m.dropped.value);
        runs := runs + [m.dropped.value];
        if SoftAt(t, i) {
          counts := counts.(softHyphensRemoved := counts.softHyphensRemoved + 1);
        } else {
          counts := counts.(rejoined := counts.rejoined + 1);
        }
      }
      ReachedOrdered(t, m.next, out + m.append, runs);
      out := out + m.append;
      i := m.next;
    }
    assert Pass(t, spaceIsBreak, i, out, runs) == (out, runs);
  }

  lemma LeadsNone(t: Text)
    ensures Leads(t, 0) == 0
  {
  }

  lemma ReachedOrdered(t: Text, i: nat, out: Text, runs: seq<Run>)
    requires i <= |t| && Reached(t, i, out, runs)
    ensures Ordered(runs, |t|)
  {
  }

  lemma RecordedPoints(t: Text, runs: seq<Run>, run: Run, next: nat)
    requires Ordered(runs, |t|) && Ordered(runs + [run], next) && next <= |t|
    requires 0 <= run.first < run.last <= next
    ensures Ordered(runs + [run], |t|)
    ensures CodePointRuns(t, runs + [run]) == CodePointRuns(t, runs) + [Run(Leads(t, run.first), Leads(t, run.last))]
  {
    hide Leads;
    assert (runs + [run])[|runs|] == run;
  }

  lemma PassUnfolds(t: Text, spaceIsBreak: bool, i: nat, out: Text, runs: seq<Run>)
    requires i < |t|
    ensures
      var m := NextMove(t, i, out, spaceIsBreak);
      m.next <= |t| && Pass(t, spaceIsBreak, i, out, runs) == Pass(t, spaceIsBreak, m.next, out + m.append, Recorded(runs, m))
  {
    MoveIsDeletion(t, i, out, spaceIsBreak);
  }

  /** One iteration's decision. */
  method ReadMove(t: Text, i: nat, out: Text, spaceIsBreak: bool) returns (m: Move)
    requires i < |t|
    ensures m == NextMove(t, i, out, spaceIsBreak)
  {
    hide LeadingWord, TrailingWord, BreakAfter, Joins, JoinMove;
    var soft, hard := SoftAt(t, i), t[i] == HYPHEN;
    if !soft && !hard { return Move([t[i]], None, i + 1); }
    var after := i + if soft then 2 else 1;
    var gap := BreakAfter(t, after, spaceIsBreak);
    var tail := LeadingWord(t[after + gap..]);
    if soft {
      var next := if tail == [] then after else after + gap;
      return Move([], Some(Run(i, next)), next);
    }
    var head := TrailingWord(out);
    var joinable := Joins(head, gap, t[after + gap..]);
    if !joinable { return Move([HYPHEN], None, i + 1); }
    m := JoinMove(i, gap, head, tail);
  }

  // ----- One item.

  /** Half-open range of code points: a span's, or a provenance entry's. */
  datatype Range = Range(start: int, end: int)

  ghost function RangeAfter(runs: seq<Run>, range: Range): Range {
    Range(Remapped(runs, range.start), Remapped(runs, range.end))
  }

  method ContainsHyphen(t: Text) returns (found: bool)
    ensures found <==> HYPHEN in t || exists k: nat :: SoftAt(t, k)
  {
    hide SoftAt;
    for i := 0 to |t|
      invariant HYPHEN !in t[..i] && forall k: nat :: k < i ==> !SoftAt(t, k)
    {
      assert t[..i + 1] == t[..i] + [t[i]];
      assert t[i] in t;
      if t[i] == HYPHEN || SoftAt(t, i) { return true; }
    }
    assert t[..|t|] == t;
    forall k: nat | k >= |t| ensures !SoftAt(t, k) { SoftInside(t, k); }
    return false;
  }

  lemma SoftInside(t: Text, k: nat)
    requires k >= |t|
    ensures !SoftAt(t, k)
  {
  }

  /** A text with its ranges: rejoined, each range moved past the removed runs before its ends. The
      two ways to skip the item leave both alone, and so they would be. */
  method RejoinItem(t: Text, spaceIsBreak: bool, ranges: seq<Range>) returns (out: Text, moved: seq<Range>)
    ensures
      var (rejoined, runs) := Rejoined(t, spaceIsBreak);
      && out == rejoined && Ordered(runs, |t|)
      && |moved| == |ranges|
      && forall i :: 0 <= i < |ranges| ==> moved[i] == RangeAfter(CodePointRuns(t, runs), ranges[i])
  {
    hide Pass, SoftAt, Kept, Leads;
    var any := ContainsHyphen(t);
    RejoinedIsDeletion(t, spaceIsBreak);
    if !any {
      NoHyphenNoChange(t, spaceIsBreak, 0, [], []);
      assert [] + t[0..] == t && CodePointRuns(t, []) == [];
      Unmoved(ranges);
      return t, ranges;
    }
    var text, counts, removed, runs := RejoinHyphenatedWords(t, spaceIsBreak);
    if counts.rejoined == 0 && counts.softHyphensRemoved == 0 {
      assert runs == [] && CodePointRuns(t, []) == [];
      NothingDeleted(t, |t|);
      Unmoved(ranges);
      assert t[..|t|] == t;
      return t, ranges;
    }
    CodePointRunsSorted(t, runs);
    var remap := new PositionRemap(removed);
    out, moved := text, [];
    for i := 0 to |ranges|
      invariant remap.Valid() && remap.removed == removed && |moved| == i
      invariant forall k :: 0 <= k < i ==> moved[k] == RangeAfter(removed, ranges[k])
    {
      var start := remap.At(ranges[i].start);
      var end := remap.At(ranges[i].end);
      moved := moved + [Range(start, end)];
    }
  }

  lemma Unmoved(ranges: seq<Range>)
    ensures forall i :: 0 <= i < |ranges| ==> ranges[i] == RangeAfter([], ranges[i])
  {
    forall i | 0 <= i < |ranges| ensures ranges[i] == RangeAfter([], ranges[i]) {
      NothingRemoved(ranges[i].start);
      NothingRemoved(ranges[i].end);
    }
  }

  lemma {:induction false} NothingDeleted(t: Text, n: nat)
    requires n <= |t|
    ensures Kept(t, [], n) == t[..n]
  {
    if n > 0 {
      NothingDeleted(t, n - 1);
      assert t[..n] == t[..n - 1] + [t[n - 1]];
    }
  }
}
