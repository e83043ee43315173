/** The streaming reactor's invariant, kept by every handler (src/document_streaming_service.cpp). */
module ReactorInvariant {
  import opened Bytes
  import opened StreamReactor

  // ----- Readings of the queue.

  /** The data of the pages that were queued against a window credit, in order. */
  ghost function Credited<D>(events: seq<Event<D>>): seq<D> {
    if events == [] then []
    else
      var last := events[|events| - 1];
      Credited(events[..|events| - 1]) + (if last.PageEvent? && last.credit then [last.data] else [])
  }

  ghost function Completes<D>(events: seq<Event<D>>): nat {
    if events == [] then 0
    else Completes(events[..|events| - 1]) + (if events[|events| - 1].CompleteEvent? then 1 else 0)
  }

  lemma ReadAppend<D>(events: seq<Event<D>>, e: Event<D>)
    ensures Credited(events + [e]) == if e.PageEvent? && e.credit then Credited(events) + [e.data] else Credited(events)
    ensures Completes(events + [e]) == Completes(events) + (if e.CompleteEvent? then 1 else 0)
  {
    assert (events + [e])[..|events|] == events;
  }

  lemma {:induction false} CreditedConcat<D>(a: seq<Event<D>>, b: seq<Event<D>>)
    ensures Credited(a + b) == Credited(a) + Credited(b)
  {
    if b == [] {
      assert a + b == a;
    } else {
      CreditedConcat(a, b[..|b| - 1]);
      assert (a + b)[..|a + b| - 1] == a + b[..|b| - 1];
    }
  }

  // ----- The reference: pages assembled one after the other with one cursor.

  ghost function InOrder<P, C, D>(cfg: Config<P, C, D>, pages: map<int, P>, first: int, n: nat, cursor: C): (seq<D>, C)
    requires forall i :: first <= i < first + n ==> i in pages
  {
    if n == 0 then ([], cursor)
    else
      var (before, c) := InOrder(cfg, pages, first, n - 1, cursor);
      var (data, c') := cfg.assemble(pages[first + n - 1], first + n - 1, c);
      (before + [data], c')
  }

  lemma {:induction false} InOrderFrame<P, C, D>(cfg: Config<P, C, D>, pages: map<int, P>, more: map<int, P>, first: int, n: nat, cursor: C)
    requires forall i :: first <= i < first + n ==> i in pages && i in more && pages[i] == more[i]
    ensures InOrder(cfg, pages, first, n, cursor) == InOrder(cfg, more, first, n, cursor)
  {
    if n > 0 {
      InOrderFrame(cfg, pages, more, first, n - 1, cursor);
    }
  }

  // ----- The invariant.

  /** A write is outstanding exactly when one was started and not completed, and it is the front's. */
  ghost predicate OneWrite<P, C, D>(s: State<P, C, D>, h: History<P, C>) {
    && |s.started| == h.writesDone + (if s.writing then 1 else 0)
    && (s.writing ==> s.events != [] && s.started[|s.started| - 1] == s.events[0])
  }

  ghost predicate OneFinish<P, C, D>(s: State<P, C, D>) {
    && s.finishes == (if s.finishStarted then [s.finishStatus] else [])
    && (s.finishStarted ==> s.finishRequested)
    && (s.finishStarted && s.finishStatus.Okay? ==> s.events == [] && !s.writing)
  }

  /** Every event ever queued was written or still waits, in order. */
  ghost predicate Lossless<P, C, D>(s: State<P, C, D>) {
    s.queued == s.written + s.events
  }

  ghost predicate LossEndsInError<P, C, D>(s: State<P, C, D>) {
    Lossless(s) ||
    (s.cancelled && s.finishRequested && !s.finishStatus.Okay? && s.events == [] && |s.written| < |s.queued|)
  }

  ghost predicate OneComplete<P, C, D>(s: State<P, C, D>) {
    && Completes(s.queued) <= 1
    && (!s.finishRequested ==> Completes(s.queued) == 0)
    && (s.finishRequested && s.finishStatus.Okay? ==>
          Completes(s.queued) == 1 && s.queued[|s.queued| - 1].CompleteEvent? && s.pending == 0 && s.succeeded > 0)
  }

  ghost predicate PartsOpen<P, C, D>(s: State<P, C, D>, h: History<P, C>) {
    && s.pending >= h.legs + (if h.cv == Open then 1 else 0)
    && (!h.planned ==> h.legs == 0 && h.cv == Waiting && s.pending == 0 && s.succeeded == 0)
  }

  ghost predicate CreditsBalance<P, C, D>(s: State<P, C, D>, h: History<P, C>) {
    Lossless(s) ==> s.buffered == |Credited(s.events)| + |s.held| && s.buffered + s.released == h.accepted
  }

  ghost predicate PagesInOrder<P, C, D>(cfg: Config<P, C, D>, s: State<P, C, D>, h: History<P, C>) {
    if h.cv == Waiting then
      s.held == map[] && h.delivered == map[] && Credited(s.queued) == []
    else
      && h.first <= s.next
      && (forall i :: i in h.delivered ==> h.first <= i)
      && (forall i :: h.first <= i < s.next ==> i in h.delivered)
      && s.held == (map i | i in h.delivered && s.next <= i :: h.delivered[i])
      && InOrder(cfg, h.delivered, h.first, s.next - h.first, h.firstCursor) == (Credited(s.queued), s.cursor)
  }

  ghost predicate Inv<P, C, D>(cfg: Config<P, C, D>, s: State<P, C, D>, h: History<P, C>) {
    && OneWrite(s, h)
    && OneFinish(s)
    && LossEndsInError(s)
    && OneComplete(s)
    && PartsOpen(s, h)
    && CreditsBalance(s, h)
    && PagesInOrder(cfg, s, h)
  }

  /** Between two handlers nothing waits: a queued event is being written, a due finish was made,
      and no page that is next in line is held back. */
  ghost predicate AtRest<P, C, D>(s: State<P, C, D>) {
    && (s.events != [] ==> s.writing)
    && (s.finishRequested && s.events == [] && !s.writing ==> s.finishStarted)
    && s.next !in s.held
  }

  /** The call was not asked to finish well: further events may still be queued. */
  ghost predicate Unfinished<P, C, D>(s: State<P, C, D>) {
    !(s.finishRequested && s.finishStatus.Okay?)
  }

  // ----- The helpers keep it.

  lemma InitialInv<P, C, D>(cfg: Config<P, C, D>, cursor: C)
    ensures Inv(cfg, Initial(cursor), NoHistory(cursor))
    ensures AtRest(Initial<P, C, D>(cursor))
  {
  }

  lemma PushLossless<P, C, D>(s: State<P, C, D>, e: Event<D>)
    ensures Lossless(Push(s, e)) == Lossless(s)
  {
    assert Push(s, e).written + Push(s, e).events == (s.written + s.events) + [e];
    if Lossless(Push(s, e)) {
      assert s.queued == (s.queued + [e])[..|s.queued|] == ((s.written + s.events) + [e])[..|s.queued|];
      assert |s.queued| == |s.written + s.events|;
    }
  }

  lemma PushInv<P, C, D>(cfg: Config<P, C, D>, s: State<P, C, D>, h: History<P, C>, e: Event<D>)
    requires Inv(cfg, s, h) && Unfinished(s) && Lossless(s)
    requires !e.CompleteEvent? && !(e.PageEvent? && e.credit)
    ensures Inv(cfg, Push(s, e), h) && Lossless(Push(s, e))
  {
    ReadAppend(s.queued, e);
    ReadAppend(s.events, e);
    PushLossless(s, e);
    hide InOrder, Credited, Completes, Lossless;
  }

  lemma {:induction false} PushPagesInv<P, C, D>(cfg: Config<P, C, D>, s: State<P, C, D>, h: History<P, C>, pages: seq<D>)
    requires Inv(cfg, s, h) && Unfinished(s) && Lossless(s)
    ensures Inv(cfg, PushPages(s, pages), h) && Unfinished(PushPages(s, pages)) && Lossless(PushPages(s, pages))
    ensures PushPages(s, pages) == s.(events := PushPages(s, pages).events, queued := PushPages(s, pages).queued)
    decreases |pages|
  {
    if pages != [] {
      hide Inv;
      PushPagesInv(cfg, s, h, pages[..|pages| - 1]);
      PushInv(cfg, PushPages(s, pages[..|pages| - 1]), h, PageEvent(pages[|pages| - 1], false));
    }
  }

  lemma PumpWrites<P, C, D>(s: State<P, C, D>, h: History<P, C>)
    requires OneWrite(s, h) && OneFinish(s)
    ensures OneWrite(Pump(s), h) && OneFinish(Pump(s))
    ensures s.next !in s.held ==> AtRest(Pump(s))
  {
  }

  lemma PumpInv<P, C, D>(cfg: Config<P, C, D>, s: State<P, C, D>, h: History<P, C>)
    requires Inv(cfg, s, h)
    ensures Inv(cfg, Pump(s), h)
    ensures s.next !in s.held ==> AtRest(Pump(s))
  {
    PumpWrites(s, h);
    PumpFrame(s);
    hide InOrder, Credited, Completes, Pump, OneWrite, OneFinish, AtRest;
  }

  /** Pumping starts a write or makes the Finish call and touches nothing else. */
  lemma PumpFrame<P, C, D>(s: State<P, C, D>)
    ensures Pump(s) == s.(writing := Pump(s).writing, started := Pump(s).started, startedLate := Pump(s).startedLate,
                          finishStarted := Pump(s).finishStarted, finishes := Pump(s).finishes)
  {
  }

  lemma FinishFrame<P, C, D>(s: State<P, C, D>, status: Status)
    ensures RequestFinish(s, status).held == s.held && RequestFinish(s, status).next == s.next
    ensures RequestFinish(s, status).queued == s.queued && RequestFinish(s, status).succeeded == s.succeeded
    ensures s.finishRequested && !s.finishStatus.Okay? ==> RequestFinish(s, status).finishStatus == s.finishStatus
    ensures s.finishRequested ==> RequestFinish(s, status).finishRequested
  {
    PumpFrame(s);
    PumpFrame(CancelTicket(s.(finishStatus := status)));
    PumpFrame(s.(finishRequested := true, finishStatus := status));
    PumpFrame(CancelTicket(s.(finishRequested := true, finishStatus := status)));
    hide Pump;
  }

  lemma FinishInv<P, C, D>(cfg: Config<P, C, D>, s: State<P, C, D>, h: History<P, C>, status: Status)
    requires Inv(cfg, s, h) && !status.Okay?
    ensures Inv(cfg, RequestFinish(s, status), h)
    ensures s.next !in s.held && (s.finishStarted ==> AtRest(s)) ==> AtRest(RequestFinish(s, status))
  {
    hide InOrder, Credited, Completes, Pump;
    if !s.finishStarted {
      if s.finishRequested {
        var t := if s.finishStatus.Okay? then CancelTicket(s.(finishStatus := status)) else s;
        PumpInv(cfg, t, h);
      } else {
        PumpInv(cfg, CancelTicket(s.(finishRequested := true, finishStatus := status)), h);
      }
    }
  }

  /** The state once the complete event is queued and the finish requested. */
  ghost function Completing<P, C, D>(s: State<P, C, D>): State<P, C, D> {
    Push(s, CompleteEvent).(finishRequested := true, finishStatus := Okay)
  }

  lemma CompletingCounts<P, C, D>(cfg: Config<P, C, D>, s: State<P, C, D>, h: History<P, C>)
    requires Inv(cfg, s, h) && !s.finishRequested && s.pending == 0 && s.succeeded > 0
    ensures OneComplete(Completing(s)) && OneFinish(Completing(s)) && LossEndsInError(Completing(s)) && PartsOpen(Completing(s), h)
  {
    ReadAppend(s.queued, CompleteEvent);
    ReadAppend(s.events, CompleteEvent);
    PushLossless(s, CompleteEvent);
    assert Lossless(Completing(s)) == Lossless(Push(s, CompleteEvent));
    hide Credited, Completes, Lossless, CreditsBalance, PagesInOrder, OneWrite;
  }

  lemma CompletingWrite<P, C, D>(s: State<P, C, D>, h: History<P, C>)
    requires OneWrite(s, h)
    ensures OneWrite(Completing(s), h)
  {
  }

  lemma CompletingPages<P, C, D>(cfg: Config<P, C, D>, s: State<P, C, D>, h: History<P, C>)
    requires PagesInOrder(cfg, s, h)
    ensures PagesInOrder(cfg, Completing(s), h)
  {
    ReadAppend(s.queued, CompleteEvent);
    hide InOrder, Credited;
  }

  lemma CompletingBalances<P, C, D>(s: State<P, C, D>, h: History<P, C>)
    requires CreditsBalance(s, h)
    ensures CreditsBalance(Completing(s), h)
  {
    ReadAppend(s.events, CompleteEvent);
    PushLossless(s, CompleteEvent);
    assert Lossless(Completing(s)) == Lossless(Push(s, CompleteEvent));
    hide Credited, Lossless;
  }

  lemma CompleteQueued<P, C, D>(cfg: Config<P, C, D>, s: State<P, C, D>, h: History<P, C>)
    requires Inv(cfg, s, h) && !s.finishRequested && s.pending == 0 && s.succeeded > 0
    ensures Inv(cfg, Push(s, CompleteEvent).(finishRequested := true, finishStatus := Okay), h)
  {
    CompletingCounts(cfg, s, h);
    CompletingWrite(s, h);
    CompletingPages(cfg, s, h);
    CompletingBalances(s, h);
    hide OneWrite, OneFinish, LossEndsInError, OneComplete, PartsOpen, CreditsBalance, PagesInOrder;
  }

  lemma CompletePumps<P, C, D>(s: State<P, C, D>)
    requires !s.finishRequested && !s.finishStarted
    ensures Complete(s) == Pump(Push(s, CompleteEvent).(finishRequested := true, finishStatus := Okay))
  {
    hide Pump;
  }

  lemma CompleteInv<P, C, D>(cfg: Config<P, C, D>, s: State<P, C, D>, h: History<P, C>)
    requires Inv(cfg, s, h) && !s.finishRequested && s.pending == 0 && s.succeeded > 0
    ensures Inv(cfg, Complete(s), h)
    ensures Complete(s).held == s.held && Complete(s).next == s.next
  {
    CompleteQueued(cfg, s, h);
    var t := Push(s, CompleteEvent).(finishRequested := true, finishStatus := Okay);
    CompletePumps(s);
    PumpFrame(t);
    PumpInv(cfg, t, h);
    hide Inv, Pump, Complete;
  }

  lemma SettleInv<P, C, D>(cfg: Config<P, C, D>, s: State<P, C, D>, h: History<P, C>)
    requires Inv(cfg, s, h)
    requires s.pending > h.legs + (if h.cv == Open then 1 else 0) && h.planned
    ensures Inv(cfg, s.(pending := s.pending - 1), h)
  {
    hide InOrder, Credited, Completes;
    assert Lossless(s) == Lossless(s.(pending := s.pending - 1));
  }

  /** The part that settles was still open: its share of `pending` is spent here. */
  lemma PartDoneInv<P, C, D>(cfg: Config<P, C, D>, s: State<P, C, D>, h: History<P, C>, repair: bool)
    requires Inv(cfg, s, h)
    requires s.pending > h.legs + (if h.cv == Open then 1 else 0) && h.planned
    requires s.next !in s.held
    ensures Inv(cfg, PartDone(s, repair), h)
    ensures PartDone(s, repair).held == s.held && PartDone(s, repair).next == s.next
  {
    hide Inv, RequestFinish, Complete;
    var settled := s.(pending := s.pending - 1);
    SettleInv(cfg, s, h);
    var failed := if settled.failure.Okay? then Error(Internal) else settled.failure;
    FinishInv(cfg, settled, h, failed);
    FinishFrame(settled, failed);
    if settled.pending == 0 && !settled.finishRequested && settled.succeeded > 0 {
      if repair {
        UnfinishedIsLossless(cfg, settled, h);
        PushInv(cfg, settled, h, RepairEvent);
      }
      CompleteInv(cfg, if repair then Push(settled, RepairEvent) else settled, h);
    }
  }

  lemma UnfinishedIsLossless<P, C, D>(cfg: Config<P, C, D>, s: State<P, C, D>, h: History<P, C>)
    requires Inv(cfg, s, h) && !s.finishRequested
    ensures Unfinished(s) && Lossless(s)
  {
    hide InOrder, Credited, Completes;
  }

  // ----- The handlers keep it.

  lemma OpenIsUnfinished<P, C, D>(cfg: Config<P, C, D>, s: State<P, C, D>, h: History<P, C>)
    requires Inv(cfg, s, h) && (h.cv == Open || h.legs > 0)
    ensures Unfinished(s) && h.planned && (!s.cancelled || !s.finishRequested ==> Lossless(s))
  {
    hide InOrder, Credited, Completes, Lossless;
  }

  lemma FrontPops<P, C, D>(s: State<P, C, D>)
    requires s.events != []
    ensures Credited(s.events) == Credited([s.events[0]]) + Credited(s.events[1..])
    ensures Credited([s.events[0]]) == if s.events[0].PageEvent? && s.events[0].credit then [s.events[0].data] else []
    ensures Lossless(s) ==> s.queued == (s.written + [s.events[0]]) + s.events[1..]
  {
    assert s.events == [s.events[0]] + s.events[1..];
    CreditedConcat([s.events[0]], s.events[1..]);
    ReadAppend([], s.events[0]);
    assert [] + [s.events[0]] == [s.events[0]];
  }

  /** The state a completed write leaves before the next one is pumped. */
  ghost function AfterWrite<P, C, D>(s: State<P, C, D>): State<P, C, D>
    requires s.events != []
  {
    var credit := s.events[0].PageEvent? && s.events[0].credit;
    s.(events := s.events[1..], writing := false, written := s.written + [s.events[0]],
       buffered := if credit && s.buffered > 0 then s.buffered - 1 else s.buffered,
       released := if credit then s.released + 1 else s.released)
  }

  lemma AfterWritePages<P, C, D>(cfg: Config<P, C, D>, s: State<P, C, D>, h: History<P, C>)
    requires PagesInOrder(cfg, s, h) && s.events != []
    ensures PagesInOrder(cfg, AfterWrite(s), h.(writesDone := h.writesDone + 1))
  {
    hide InOrder, Credited;
  }

  lemma AfterWriteBalances<P, C, D>(s: State<P, C, D>, h: History<P, C>)
    requires CreditsBalance(s, h) && Lossless(s) && s.events != []
    ensures Lossless(AfterWrite(s)) && CreditsBalance(AfterWrite(s), h.(writesDone := h.writesDone + 1))
  {
    FrontPops(s);
    hide Credited;
    assert Lossless(AfterWrite(s));
  }

  lemma AfterWriteCounts<P, C, D>(s: State<P, C, D>, h: History<P, C>)
    requires OneWrite(s, h) && OneFinish(s) && OneComplete(s) && PartsOpen(s, h) && s.writing
    ensures OneWrite(AfterWrite(s), h.(writesDone := h.writesDone + 1)) && OneFinish(AfterWrite(s))
    ensures OneComplete(AfterWrite(s)) && PartsOpen(AfterWrite(s), h.(writesDone := h.writesDone + 1))
  {
    hide Completes;
  }

  lemma AfterWriteInv<P, C, D>(cfg: Config<P, C, D>, s: State<P, C, D>, h: History<P, C>)
    requires Inv(cfg, s, h) && s.writing
    ensures Inv(cfg, AfterWrite(s), h.(writesDone := h.writesDone + 1))
  {
    assert s.events != [] && Lossless(s) by { hide InOrder, Credited, Completes, Lossless; }
    AfterWriteCounts(s, h);
    AfterWriteBalances(s, h);
    AfterWritePages(cfg, s, h);
    hide OneWrite, OneFinish, OneComplete, PartsOpen, CreditsBalance, PagesInOrder, AfterWrite, Lossless;
  }

  /** A failed write drops the queue and settles the call as cancelled, unless it already failed. */
  ghost function AfterFailedWrite<P, C, D>(s: State<P, C, D>): State<P, C, D> {
    var dropped := s.(events := [], writing := false, buffered := 0, cancelled := true, finishRequested := true);
    if s.finishRequested && !s.finishStatus.Okay? then dropped
    else CancelTicket(dropped.(finishStatus := Error(Cancelled)))
  }

  lemma AfterFailedWriteInv<P, C, D>(cfg: Config<P, C, D>, s: State<P, C, D>, h: History<P, C>)
    requires Inv(cfg, s, h) && s.writing
    ensures Inv(cfg, AfterFailedWrite(s), h.(writesDone := h.writesDone + 1))
    ensures s.finishStarted ==> !s.finishStatus.Okay?
  {
    hide InOrder, Credited, Completes;
    var t := AfterFailedWrite(s);
    assert Lossless(s);
    assert |s.queued| == |s.written| + |s.events|;
    assert !Lossless(t);
    assert PagesInOrder(cfg, t, h.(writesDone := h.writesDone + 1)) by { hide OneFinish, OneComplete, LossEndsInError, PartsOpen, CreditsBalance, OneWrite; }
  }

  lemma WriteDoneInv<P, C, D>(cfg: Config<P, C, D>, s: State<P, C, D>, h: History<P, C>, ok: bool)
    requires Inv(cfg, s, h) && AtRest(s) && s.writing
    ensures Inv(cfg, OnWriteDone(s, ok), h.(writesDone := h.writesDone + 1))
    ensures AtRest(OnWriteDone(s, ok))
  {
    var h' := h.(writesDone := h.writesDone + 1);
    assert s.events != [];
    if ok {
      AfterWriteInv(cfg, s, h);
      GoodWritePumps(s);
      hide Inv, Pump, OnWriteDone, AfterWrite;
      PumpInv(cfg, AfterWrite(s), h');
    } else {
      AfterFailedWriteInv(cfg, s, h);
      PumpInv(cfg, AfterFailedWrite(s), h');
      FailedWriteFinishes(s);
      hide Inv, OnWriteDone, Pump;
    }
  }

  lemma GoodWritePumps<P, C, D>(s: State<P, C, D>)
    requires s.events != []
    ensures OnWriteDone(s, true) == Pump(AfterWrite(s))
  {
    hide Pump;
  }

  lemma FailedWriteFinishes<P, C, D>(s: State<P, C, D>)
    requires s.events != [] && (s.finishStarted ==> s.finishRequested && !s.finishStatus.Okay?)
    ensures OnWriteDone(s, false) == if s.finishStarted then AfterFailedWrite(s) else Pump(AfterFailedWrite(s))
  {
    hide Pump;
  }

  // ----- Pages.

  ghost function DrainOne<P, C, D>(cfg: Config<P, C, D>, s: State<P, C, D>): State<P, C, D>
    requires s.next in s.held
  {
    var (data, cursor) := cfg.assemble(s.held[s.next], s.next, s.cursor);
    Push(s.(cursor := cursor, held := s.held - {s.next}, next := s.next + 1), PageEvent(data, true))
  }

  lemma RemoveOne<P>(m: map<int, P>, k: int)
    requires k in m
    ensures |m - {k}| == |m| - 1
  {
    assert (m - {k}).Keys == m.Keys - {k};
  }

  lemma DrainOneInOrder<P, C, D>(cfg: Config<P, C, D>, s: State<P, C, D>, h: History<P, C>)
    requires PagesInOrder(cfg, s, h) && h.cv == Open && s.next in s.held
    ensures PagesInOrder(cfg, DrainOne(cfg, s), h)
  {
    hide Credited;
    var t := DrainOne(cfg, s);
    ReadAppend(s.queued, t.queued[|s.queued|]);
    assert h.delivered[s.next] == s.held[s.next];
    assert t.next - h.first - 1 == s.next - h.first;
    HeldRest(h.delivered, s.next);
  }

  lemma HeldRest<P>(delivered: map<int, P>, next: int)
    ensures (map i | i in delivered && next <= i :: delivered[i]) - {next} == map i | i in delivered && next + 1 <= i :: delivered[i]
  {
  }

  lemma DrainOneInv<P, C, D>(cfg: Config<P, C, D>, s: State<P, C, D>, h: History<P, C>)
    requires Inv(cfg, s, h) && Unfinished(s) && Lossless(s) && h.cv == Open && s.next in s.held
    ensures Inv(cfg, DrainOne(cfg, s), h) && Lossless(DrainOne(cfg, s))
  {
    hide PagesInOrder, Credited, Completes, Lossless;
    DrainOneInOrder(cfg, s, h);
    var t := DrainOne(cfg, s);
    var e := t.queued[|s.queued|];
    ReadAppend(s.queued, e);
    ReadAppend(s.events, e);
    PushLossless(s, e);
    LosslessSame(t, Push(s, e));
    RemoveOne(s.held, s.next);
  }

  lemma LosslessSame<P, C, D>(s: State<P, C, D>, t: State<P, C, D>)
    requires s.queued == t.queued && s.written == t.written && s.events == t.events
    ensures Lossless(s) == Lossless(t)
  {
  }

  lemma DrainNothing<P, C, D>(cfg: Config<P, C, D>, s: State<P, C, D>)
    requires s.next !in s.held
    ensures Drain(cfg, s) == s
  {
  }

  lemma DrainUnfolds<P, C, D>(cfg: Config<P, C, D>, s: State<P, C, D>)
    requires s.next in s.held
    ensures Drain(cfg, s) == Drain(cfg, DrainOne(cfg, s))
  {
    RemoveOne(s.held, s.next);
  }

  lemma {:induction false} DrainInv<P, C, D>(cfg: Config<P, C, D>, s: State<P, C, D>, h: History<P, C>)
    requires Inv(cfg, s, h) && Unfinished(s) && Lossless(s) && h.cv == Open
    ensures Inv(cfg, Drain(cfg, s), h) && Drain(cfg, s).next !in Drain(cfg, s).held
    decreases |s.held|
  {
    if s.next in s.held {
      RemoveOne(s.held, s.next);
      DrainOneInv(cfg, s, h);
      var t := DrainOne(cfg, s);
      assert t.held == s.held - {s.next};
      assert Unfinished(t);
      hide Inv, Lossless;
      DrainInv(cfg, t, h);
      assert Drain(cfg, s) == Drain(cfg, t);
    }
  }

  /** The state in which an accepted page has joined the held ones. */
  ghost function WithPage<P, C, D>(s: State<P, C, D>, number: int, page: P): State<P, C, D> {
    s.(buffered := s.buffered + 1, held := if number in s.held then s.held else s.held[number := page])
  }

  lemma WithPageHeld<P, C, D>(cfg: Config<P, C, D>, s: State<P, C, D>, h: History<P, C>, number: int, page: P)
    requires PagesInOrder(cfg, s, h) && h.cv == Open && number >= h.first && number !in h.delivered
    ensures s.next <= number && number !in s.held
    ensures
      var delivered := h.delivered[number := page];
      s.held[number := page] == (map i | i in delivered && s.next <= i :: delivered[i])
  {
    hide InOrder, Credited;
  }

  lemma WithPageOrders<P, C, D>(cfg: Config<P, C, D>, s: State<P, C, D>, h: History<P, C>, number: int, page: P)
    requires PagesInOrder(cfg, s, h) && h.cv == Open && number >= h.first && number !in h.delivered
    ensures PagesInOrder(cfg, WithPage(s, number, page), h.(delivered := h.delivered[number := page], accepted := h.accepted + 1))
    ensures s.next <= number && number !in s.held
  {
    WithPageHeld(cfg, s, h, number, page);
    InOrderFrame(cfg, h.delivered, h.delivered[number := page], h.first, s.next - h.first, h.firstCursor);
    hide Credited, InOrder;
  }

  lemma WithPageInv<P, C, D>(cfg: Config<P, C, D>, s: State<P, C, D>, h: History<P, C>, number: int, page: P)
    requires Inv(cfg, s, h) && h.cv == Open && number >= h.first && number !in h.delivered
    ensures Inv(cfg, WithPage(s, number, page), h.(delivered := h.delivered[number := page], accepted := h.accepted + 1))
    ensures s.next <= number && number !in s.held
  {
    WithPageOrders(cfg, s, h, number, page);
    assert Lossless(WithPage(s, number, page)) == Lossless(s);
    hide PagesInOrder, Credited, Completes, Lossless;
  }

  lemma PageDrains<P, C, D>(cfg: Config<P, C, D>, s: State<P, C, D>, number: int, page: P)
    requires Accepts(cfg, s)
    ensures OnPage(cfg, s, number, page) == Pump(Drain(cfg, WithPage(s, number, page)))
  {
    hide Pump, Drain;
  }

  /** While the environment keeps its window, the buffer never overflows. */
  lemma WindowHolds<P, C, D>(cfg: Config<P, C, D>, s: State<P, C, D>, h: History<P, C>, number: int, page: P)
    requires Inv(cfg, s, h) && Allowed(cfg, s, h, Page(number, page)) && !s.cancelled
    ensures Accepts(cfg, s) && s.buffered == h.accepted - s.released
    ensures Lossless(s) && Unfinished(s)
  {
    hide InOrder, Credited, Completes;
    OpenIsUnfinished(cfg, s, h);
  }

  lemma PageInv<P, C, D>(cfg: Config<P, C, D>, s: State<P, C, D>, h: History<P, C>, number: int, page: P)
    requires Inv(cfg, s, h) && AtRest(s) && Allowed(cfg, s, h, Page(number, page))
    ensures Inv(cfg, OnPage(cfg, s, number, page), Note(cfg, s, h, Page(number, page)))
    ensures AtRest(OnPage(cfg, s, number, page))
  {
    hide Inv, Pump, Drain, Lossless, AtRest;
    if !s.cancelled {
      WindowHolds(cfg, s, h, number, page);
      WithPageInv(cfg, s, h, number, page);
      var t, h' := WithPage(s, number, page), h.(delivered := h.delivered[number := page], accepted := h.accepted + 1);
      LosslessSame(s, t);
      DrainInv(cfg, t, h');
      PumpInv(cfg, Drain(cfg, t), h');
      PageDrains(cfg, s, number, page);
      hide OnPage;
    } else {
      assert OnPage(cfg, s, number, page) == s;
    }
  }

  // ----- The other handlers.

  lemma StreamedPageInv<P, C, D>(cfg: Config<P, C, D>, s: State<P, C, D>, h: History<P, C>, number: int, count: int, pages: seq<D>, cursor: C)
    requires Inv(cfg, s, h) && AtRest(s) && h.legs > 0 && h.cv == Waiting
    ensures Inv(cfg, OnStreamedPage(s, number, count, pages, cursor), h)
    ensures AtRest(OnStreamedPage(s, number, count, pages, cursor))
  {
    if !s.cancelled && !s.finishRequested {
      OpenIsUnfinished(cfg, s, h);
      var t := s.(total := Max(s.total, Max(count, number)), cursor := cursor);
      MovesNothing(cfg, s, t, h);
      PushPagesInv(cfg, t, h, pages);
      MovesNothing(cfg, PushPages(t, pages), PushPages(t, pages).(next := number + 1), h);
      PumpInv(cfg, PushPages(t, pages).(next := number + 1), h);
      hide Inv, Pump, PushPages;
    }
  }

  /** Before the CV run starts, the page counters and the cursor are free to move. */
  lemma MovesNothing<P, C, D>(cfg: Config<P, C, D>, s: State<P, C, D>, t: State<P, C, D>, h: History<P, C>)
    requires Inv(cfg, s, h) && h.cv == Waiting
    requires t == s.(total := t.total, cursor := t.cursor, next := t.next)
    ensures Inv(cfg, t, h) && (Lossless(s) ==> Lossless(t))
  {
    hide InOrder, Credited, Completes;
    assert Lossless(s) == Lossless(t);
  }

  /** Failures and success counts are no part of the invariant until the call finishes. */
  lemma CountsNothing<P, C, D>(cfg: Config<P, C, D>, s: State<P, C, D>, t: State<P, C, D>, h: History<P, C>)
    requires Inv(cfg, s, h) && t.succeeded >= s.succeeded && (h.planned || t.succeeded == s.succeeded)
    requires t == s.(failure := t.failure, succeeded := t.succeeded, total := t.total)
    ensures Inv(cfg, t, h) && (Lossless(s) ==> Lossless(t))
  {
    hide InOrder, Credited, Completes;
    assert Lossless(s) == Lossless(t);
  }

  /** A part that closes leaves its share of `pending` to be settled. */
  lemma PartCloses<P, C, D>(cfg: Config<P, C, D>, s: State<P, C, D>, h: History<P, C>, h': History<P, C>)
    requires Inv(cfg, s, h)
    requires (h.cv == Open && h' == h.(cv := Closed)) || (h.legs > 0 && h' == h.(legs := h.legs - 1))
    ensures Inv(cfg, s, h') && s.pending > h'.legs + (if h'.cv == Open then 1 else 0) && h'.planned
  {
    hide InOrder, Credited, Completes, Lossless;
  }

  lemma SettlePumps<P, C, D>(cfg: Config<P, C, D>, s: State<P, C, D>, h: History<P, C>, repair: bool)
    requires Inv(cfg, s, h) && s.next !in s.held && h.planned
    requires s.pending > h.legs + (if h.cv == Open then 1 else 0)
    ensures Inv(cfg, Pump(PartDone(s, repair)), h) && AtRest(Pump(PartDone(s, repair)))
  {
    PartDoneInv(cfg, s, h, repair);
    PumpInv(cfg, PartDone(s, repair), h);
    hide Inv, PartDone, Pump;
  }

  lemma SchedulerFinishInv<P, C, D>(cfg: Config<P, C, D>, s: State<P, C, D>, h: History<P, C>, ending: Status, contextCancelled: bool, repair: bool)
    requires Inv(cfg, s, h) && AtRest(s) && h.cv == Open
    ensures Inv(cfg, OnSchedulerFinish(s, ending, contextCancelled, repair), h.(cv := Closed))
    ensures AtRest(OnSchedulerFinish(s, ending, contextCancelled, repair))
  {
    var h' := h.(cv := Closed);
    hide Inv, PartDone, Pump, RequestFinish;
    PartCloses(cfg, s, h, h');
    if s.cancelled || contextCancelled {
      FinishInv(cfg, s, h', Error(Cancelled));
    } else {
      var status := SchedulerStatus(s, ending);
      hide SchedulerStatus, AtRest;
      RecordPartInv(cfg, s, h', status);
      AtRestDrained(s);
      SettlePumps(cfg, RecordPart(s, status), h', repair);
    }
  }

  lemma AtRestDrained<P, C, D>(s: State<P, C, D>)
    requires AtRest(s)
    ensures s.next !in s.held
  {
  }

  lemma RecordFailureFrame<P, C, D>(s: State<P, C, D>, status: Status)
    ensures RecordFailure(s, status) == s.(failure := RecordFailure(s, status).failure)
  {
  }

  lemma RecordPartIs<P, C, D>(s: State<P, C, D>, status: Status)
    ensures RecordPart(s, status) == if status.Okay? then s.(succeeded := s.succeeded + 1) else s.(failure := RecordFailure(s, status).failure)
  {
    RecordFailureFrame(s, status);
    hide RecordFailure;
  }

  lemma RecordPartInv<P, C, D>(cfg: Config<P, C, D>, s: State<P, C, D>, h: History<P, C>, status: Status)
    requires Inv(cfg, s, h) && h.planned
    ensures Inv(cfg, RecordPart(s, status), h)
    ensures RecordPart(s, status).held == s.held && RecordPart(s, status).next == s.next
    ensures RecordPart(s, status).pending == s.pending
  {
    RecordPartIs(s, status);
    hide Inv, RecordPart, RecordFailure;
    CountsNothing(cfg, s, RecordPart(s, status), h);
  }

  lemma SubmitFailedInv<P, C, D>(cfg: Config<P, C, D>, s: State<P, C, D>, h: History<P, C>, status: Status, repair: bool)
    requires Inv(cfg, s, h) && AtRest(s) && h.cv == Open
    ensures Inv(cfg, OnSubmitFailed(s, status, repair), h.(cv := Closed)) && AtRest(OnSubmitFailed(s, status, repair))
  {
    hide Inv, PartDone, Pump, AtRest;
    AtRestDrained(s);
    PartCloses(cfg, s, h, h.(cv := Closed));
    CountsNothing(cfg, s, RecordFailure(s, status), h.(cv := Closed));
    SettlePumps(cfg, RecordFailure(s, status), h.(cv := Closed), repair);
  }

  lemma PushDocumentInv<P, C, D>(cfg: Config<P, C, D>, s: State<P, C, D>, h: History<P, C>, outcome: Outcome<D>)
    requires Inv(cfg, s, h) && Unfinished(s) && Lossless(s)
    ensures Inv(cfg, PushDocument(s, outcome), h)
    ensures PushDocument(s, outcome).held == s.held && PushDocument(s, outcome).next == s.next
    ensures PushDocument(s, outcome).pending == s.pending
  {
    hide Inv, PushPages, Lossless, Push;
    var counted := s.(total := if outcome.pages == [] then s.total else Max(s.total, |outcome.pages|));
    CountsNothing(cfg, s, counted, h);
    PushPagesInv(cfg, counted, h, outcome.pages);
    var paged := PushPages(counted, outcome.pages);
    var repaired := if outcome.repaired then Push(paged, RepairEvent) else paged;
    PushFrame(paged, RepairEvent);
    if outcome.repaired { PushInv(cfg, paged, h, RepairEvent); }
    PushFrame(repaired, DocumentEvent(outcome.collector));
    PushInv(cfg, repaired, h, DocumentEvent(outcome.collector));
  }

  lemma PushFrame<P, C, D>(s: State<P, C, D>, e: Event<D>)
    ensures Unfinished(Push(s, e)) == Unfinished(s)
    ensures Push(s, e).held == s.held && Push(s, e).next == s.next && Push(s, e).pending == s.pending
  {
  }

  lemma CollectorDoneInv<P, C, D>(cfg: Config<P, C, D>, s: State<P, C, D>, h: History<P, C>, outcome: Outcome<D>, repair: bool)
    requires Inv(cfg, s, h) && AtRest(s) && h.legs > 0
    ensures Inv(cfg, OnCollectorDone(s, outcome, repair), h.(legs := h.legs - 1))
    ensures AtRest(OnCollectorDone(s, outcome, repair))
  {
    hide Inv, PartDone, Pump, RequestFinish, Lossless, PushDocument;
    var h' := h.(legs := h.legs - 1);
    PartCloses(cfg, s, h, h');
    OpenIsUnfinished(cfg, s, h);
    AtRestDrained(s);
    if !s.cancelled && !s.finishRequested {
      if outcome.status.Okay? && !outcome.structure.Okay? {
        FinishInv(cfg, s, h', outcome.structure);
      } else {
        if outcome.status.Okay? { PushDocumentInv(cfg, s, h', outcome); }
        var brought := if outcome.status.Okay? then PushDocument(s, outcome) else s;
        RecordPartInv(cfg, brought, h', outcome.status);
        SettlePumps(cfg, RecordPart(brought, outcome.status), h', repair);
        hide AtRest, RecordPart;
      }
    }
  }

  lemma PlanCounts<P, C, D>(cfg: Config<P, C, D>, s: State<P, C, D>, t: State<P, C, D>, h: History<P, C>, runnable: nat)
    requires Inv(cfg, s, h) && !h.planned
    requires t == s.(pending := s.pending + runnable, failure := t.failure)
    ensures Inv(cfg, t, h.(planned := true, legs := runnable)) && s.pending == 0
  {
    hide InOrder, Credited, Completes, Lossless;
    LosslessSame(s, t);
  }

  /** The plan counted in, before the call may have to end over it. */
  ghost function Planned<P, C, D>(s: State<P, C, D>, runnable: nat, unwired: nat): State<P, C, D> {
    s.(pending := s.pending + runnable,
       failure := if unwired > 0 && s.failure.Okay? then Error(OtherCode(12)) else s.failure)
  }

  lemma PlanIs<P, C, D>(s: State<P, C, D>, runnable: nat, unwired: nat)
    ensures
      var t := Planned(s, runnable, unwired);
      && OnPlan(s, runnable, unwired) == (if t.pending == 0 then RequestFinish(t, t.failure) else t)
      && t == s.(pending := s.pending + runnable, failure := t.failure)
      && (s.pending == 0 && runnable == 0 && unwired > 0 ==> !t.failure.Okay?)
  {
    hide RequestFinish;
  }

  lemma AtRestSame<P, C, D>(s: State<P, C, D>, t: State<P, C, D>)
    requires t == s.(pending := t.pending, failure := t.failure)
    ensures AtRest(t) == AtRest(s)
  {
  }

  lemma PlanInv<P, C, D>(cfg: Config<P, C, D>, s: State<P, C, D>, h: History<P, C>, runnable: nat, unwired: nat)
    requires Inv(cfg, s, h) && AtRest(s) && !h.planned && runnable + unwired > 0
    ensures Inv(cfg, OnPlan(s, runnable, unwired), h.(planned := true, legs := runnable))
    ensures AtRest(OnPlan(s, runnable, unwired))
  {
    hide Inv, RequestFinish, OnPlan, Planned, AtRest;
    var t := Planned(s, runnable, unwired);
    PlanIs(s, runnable, unwired);
    PlanCounts(cfg, s, t, h, runnable);
    AtRestSame(s, t);
    AtRestDrained(t);
    if t.pending == 0 {
      FinishInv(cfg, t, h.(planned := true, legs := runnable), t.failure);
    }
  }

  lemma SubmitCvInv<P, C, D>(cfg: Config<P, C, D>, s: State<P, C, D>, h: History<P, C>)
    requires Inv(cfg, s, h) && h.legs > 0 && h.cv == Waiting
    ensures Inv(cfg, s, h.(legs := h.legs - 1, cv := Open, first := s.next, firstCursor := s.cursor))
  {
    var h' := h.(legs := h.legs - 1, cv := Open, first := s.next, firstCursor := s.cursor);
    hide Credited, Completes, Lossless;
  }

  lemma TicketInv<P, C, D>(cfg: Config<P, C, D>, s: State<P, C, D>, t: State<P, C, D>, h: History<P, C>)
    requires Inv(cfg, s, h)
    requires t == s.(ticket := t.ticket, ticketCancelled := t.ticketCancelled)
    ensures Inv(cfg, t, h)
  {
    hide InOrder, Credited, Completes;
    assert Lossless(s) == Lossless(t);
  }

  lemma TotalInv<P, C, D>(cfg: Config<P, C, D>, s: State<P, C, D>, h: History<P, C>)
    requires Inv(cfg, s, h) && AtRest(s)
    ensures forall pages :: Inv(cfg, OnDocument(s, pages), h) && AtRest(OnDocument(s, pages))
  {
    forall pages ensures Inv(cfg, OnDocument(s, pages), h) {
      CountsNothing(cfg, s, OnDocument(s, pages), h);
    }
  }

  lemma StepInv<P, C, D>(cfg: Config<P, C, D>, s: State<P, C, D>, h: History<P, C>, a: Action<P, C, D>)
    requires Inv(cfg, s, h) && AtRest(s) && Allowed(cfg, s, h, a)
    ensures Inv(cfg, Step(cfg, s, a), Note(cfg, s, h, a)) && AtRest(Step(cfg, s, a))
  {
    hide Inv, AtRest, OnWriteDone, RequestFinish, OnPlan, OnSubmitFailed, OnPage, OnStreamedPage,
      OnSchedulerFinish, OnCollectorDone, CancelTicket;
    match a
    case WriteDone(ok) =>
      assert s.writing;
      WriteDoneInv(cfg, s, h, ok);
    case Cancel => CancelInv(cfg, s, h);
    case Fault(status) =>
      FinishInv(cfg, s, h, status);
      AtRestDrained(s);
    case Plan(runnable, unwired) => PlanInv(cfg, s, h, runnable, unwired);
    case SubmitCv => SubmitCvInv(cfg, s, h);
    case TicketReady => TicketReadyInv(cfg, s, h);
    case SubmitFailed(status, repair) => SubmitFailedInv(cfg, s, h, status, repair);
    case PagesKnown(expected) => TotalInv(cfg, s, h);
    case Page(number, page) => PageInv(cfg, s, h, number, page);
    case StreamedPage(number, count, pages, cursor) => StreamedPageInv(cfg, s, h, number, count, pages, cursor);
    case SchedulerFinish(ending, contextCancelled, repair) => SchedulerFinishInv(cfg, s, h, ending, contextCancelled, repair);
    case CollectorDone(outcome, repair) => CollectorDoneInv(cfg, s, h, outcome, repair);
    case NoteFailure(status) => NoteFailureInv(cfg, s, h, status);
  }

  lemma CancelInv<P, C, D>(cfg: Config<P, C, D>, s: State<P, C, D>, h: History<P, C>)
    requires Inv(cfg, s, h) && AtRest(s)
    ensures Inv(cfg, OnCancel(s), h) && AtRest(OnCancel(s))
  {
    hide Inv, RequestFinish;
    CancelledInv(cfg, s, h);
    FinishInv(cfg, s.(cancelled := true), h, Error(Cancelled));
  }

  lemma CancelledInv<P, C, D>(cfg: Config<P, C, D>, s: State<P, C, D>, h: History<P, C>)
    requires Inv(cfg, s, h)
    ensures Inv(cfg, s.(cancelled := true), h)
  {
    hide InOrder, Credited, Completes;
    LosslessSame(s, s.(cancelled := true));
  }

  lemma TicketReadyInv<P, C, D>(cfg: Config<P, C, D>, s: State<P, C, D>, h: History<P, C>)
    requires Inv(cfg, s, h) && AtRest(s)
    ensures Inv(cfg, OnTicket(s), h) && AtRest(OnTicket(s))
  {
    TicketInv(cfg, s, OnTicket(s), h);
    hide Inv;
  }

  lemma NoteFailureInv<P, C, D>(cfg: Config<P, C, D>, s: State<P, C, D>, h: History<P, C>, status: Status)
    requires Inv(cfg, s, h) && AtRest(s)
    ensures Inv(cfg, RecordFailure(s, status), h) && AtRest(RecordFailure(s, status))
  {
    hide Inv;
    CountsNothing(cfg, s, RecordFailure(s, status), h);
  }
}
