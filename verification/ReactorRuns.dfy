/** What holds over every run of the streaming reactor (src/document_streaming_service.cpp). */
module ReactorRuns {
  import opened Bytes
  import opened StreamReactor
  import opened ReactorInvariant

  // ----- Whole runs.

  ghost function Run<P, C, D>(cfg: Config<P, C, D>, cursor: C, actions: seq<Action<P, C, D>>): (State<P, C, D>, History<P, C>) {
    if actions == [] then (Initial(cursor), NoHistory(cursor))
    else
      var (s, h) := Run(cfg, cursor, actions[..|actions| - 1]);
      var a := actions[|actions| - 1];
      (Step(cfg, s, a), Note(cfg, s, h, a))
  }

  ghost predicate AllowedRun<P, C, D>(cfg: Config<P, C, D>, cursor: C, actions: seq<Action<P, C, D>>) {
    actions == [] ||
    (var before := actions[..|actions| - 1];
     AllowedRun(cfg, cursor, before) &&
     Allowed(cfg, Run(cfg, cursor, before).0, Run(cfg, cursor, before).1, actions[|actions| - 1]))
  }

  lemma RunStep<P, C, D>(cfg: Config<P, C, D>, cursor: C, before: seq<Action<P, C, D>>, a: Action<P, C, D>)
    ensures
      var (s, h) := Run(cfg, cursor, before);
      Run(cfg, cursor, before + [a]) == (Step(cfg, s, a), Note(cfg, s, h, a))
      && (AllowedRun(cfg, cursor, before + [a]) <==> AllowedRun(cfg, cursor, before) && Allowed(cfg, s, h, a))
  {
    assert (before + [a])[..|before|] == before;
  }

  lemma {:induction false} RunInv<P, C, D>(cfg: Config<P, C, D>, cursor: C, actions: seq<Action<P, C, D>>)
    requires AllowedRun(cfg, cursor, actions)
    ensures Inv(cfg, Run(cfg, cursor, actions).0, Run(cfg, cursor, actions).1)
    ensures AtRest(Run(cfg, cursor, actions).0)
  {
    hide Inv, AtRest, Step, Note, Allowed;
    if actions == [] {
      InitialInv(cfg, cursor);
    } else {
      var before := actions[..|actions| - 1];
      RunInv(cfg, cursor, before);
      var (s, h) := Run(cfg, cursor, before);
      StepInv(cfg, s, h, actions[|actions| - 1]);
    }
  }

  /** At most one write is outstanding, and it is the front of the queue; nothing queued is left idle. */
  lemma OneWriteAtATime<P, C, D>(cfg: Config<P, C, D>, cursor: C, actions: seq<Action<P, C, D>>)
    requires AllowedRun(cfg, cursor, actions)
    ensures
      var (s, h) := Run(cfg, cursor, actions);
      && h.writesDone <= |s.started| <= h.writesDone + 1
      && (|s.started| == h.writesDone + 1 <==> s.events != [])
      && (s.events != [] ==> s.started[|s.started| - 1] == s.events[0])
  {
    hide Run, AllowedRun, OneFinish, OneComplete, LossEndsInError, PartsOpen, CreditsBalance, PagesInOrder;
    RunInv(cfg, cursor, actions);
  }

  /** Finish is called at most once. A call that finished well had exactly one complete event, queued
      last, and every event ever queued was written, in order. */
  lemma FinishesOnce<P, C, D>(cfg: Config<P, C, D>, cursor: C, actions: seq<Action<P, C, D>>)
    requires AllowedRun(cfg, cursor, actions)
    ensures
      var s := Run(cfg, cursor, actions).0;
      && |s.finishes| <= 1
      && (s.finishes == [Okay] ==>
            && s.finishRequested && s.finishStatus.Okay?
            && Completes(s.queued) == 1
            && s.queued[|s.queued| - 1].CompleteEvent?
            && s.written == s.queued
            && s.pending == 0)
  {
    RunInv(cfg, cursor, actions);
    hide Run, AllowedRun, InOrder, Credited, Completes;
    var s := Run(cfg, cursor, actions).0;
    if s.finishes == [Okay] {
      assert s.written + s.events == s.written;
    }
  }

  /** Until a write fails, the buffer counts exactly the credited events queued and the pages held,
      which are the pages accepted and not yet credited back. */
  lemma CreditsAreConserved<P, C, D>(cfg: Config<P, C, D>, cursor: C, actions: seq<Action<P, C, D>>)
    requires AllowedRun(cfg, cursor, actions)
    requires Lossless(Run(cfg, cursor, actions).0)
    ensures
      var (s, h) := Run(cfg, cursor, actions);
      && s.buffered == |Credited(s.events)| + |s.held|
      && s.buffered == h.accepted - s.released
  {
    RunInv(cfg, cursor, actions);
    hide Run, AllowedRun, InOrder, Credited, Completes, Lossless;
  }

  /** A scheduler that keeps within its window never meets the RESOURCE_EXHAUSTED branch. */
  lemma NeverExhausted<P, C, D>(cfg: Config<P, C, D>, cursor: C, actions: seq<Action<P, C, D>>, number: int, page: P)
    requires AllowedRun(cfg, cursor, actions + [Page(number, page)])
    ensures
      var s := Run(cfg, cursor, actions).0;
      s.cancelled || s.buffered < cfg.window
  {
    assert (actions + [Page(number, page)])[..|actions|] == actions;
    RunInv(cfg, cursor, actions);
    var (s, h) := Run(cfg, cursor, actions);
    assert Allowed(cfg, s, h, Page(number, page));
    hide Run, Inv;
    if !s.cancelled { WindowHolds(cfg, s, h, number, page); }
  }

  /** The pages from the first up to the next one due are delivered, queued in that order, and hold the data
      one cursor passing over them in that order assembles; the next one due is not delivered. */
  ghost predicate QueuedInOrder<P, C, D>(cfg: Config<P, C, D>, s: State<P, C, D>, h: History<P, C>) {
    && h.first <= s.next && s.next !in h.delivered
    && (forall i :: h.first <= i < s.next ==> i in h.delivered)
    && (Credited(s.queued), s.cursor) == InOrder(cfg, h.delivered, h.first, s.next - h.first, h.firstCursor)
  }

  lemma StateInOrder<P, C, D>(cfg: Config<P, C, D>, s: State<P, C, D>, h: History<P, C>)
    requires Inv(cfg, s, h) && AtRest(s) && h.cv != Waiting
    ensures QueuedInOrder(cfg, s, h)
  {
    hide OneWrite, OneFinish, LossEndsInError, OneComplete, PartsOpen, CreditsBalance, InOrder, Credited;
  }

  /** Whatever order the scheduler delivers in, the pages are queued in page order with the data one
      cursor passing over them in that order assembles. */
  lemma PagesQueuedInOrder<P, C, D>(cfg: Config<P, C, D>, cursor: C, actions: seq<Action<P, C, D>>)
    requires AllowedRun(cfg, cursor, actions)
    ensures
      var (s, h) := Run(cfg, cursor, actions);
      h.cv != Waiting ==> QueuedInOrder(cfg, s, h)
  {
    hide QueuedInOrder, AllowedRun, Inv, AtRest;
    RunInv(cfg, cursor, actions);
    var (s, h) := Run(cfg, cursor, actions);
    hide Run;
    if h.cv != Waiting { StateInOrder(cfg, s, h); }
  }

  /** The scheduler delivered the pages up to the total, and no other. */
  ghost predicate DeliveredUpTo<P, C>(h: History<P, C>, total: int) {
    h.first <= total + 1 && forall i :: i in h.delivered <==> h.first <= i <= total
  }

  ghost predicate CvSucceeds<P, C, D>(s: State<P, C, D>, ending: Status, contextCancelled: bool) {
    !s.cancelled && !contextCancelled && ending.Okay? && s.next == s.total + 1 && s.held == map[]
  }

  /** The CV part counts as a success exactly when the scheduler reports one, the call was not
      cancelled, and every page up to the total was delivered; all of them are queued by then. */
  lemma CvSuccessMeansEveryPage<P, C, D>(cfg: Config<P, C, D>, cursor: C, actions: seq<Action<P, C, D>>,
                                         ending: Status, contextCancelled: bool, repair: bool)
    requires AllowedRun(cfg, cursor, actions + [SchedulerFinish(ending, contextCancelled, repair)])
    ensures
      var (s, h) := Run(cfg, cursor, actions);
      var counted := ending.Okay? && !s.cancelled && !contextCancelled && DeliveredUpTo(h, s.total);
      && OnSchedulerFinish(s, ending, contextCancelled, repair).succeeded == s.succeeded + (if counted then 1 else 0)
      && (counted ==> Credited(s.queued) == InOrder(cfg, h.delivered, h.first, s.total + 1 - h.first, h.firstCursor).0)
  {
    hide Run, Inv, OnSchedulerFinish, InOrder, Credited, AtRest;
    var a := SchedulerFinish(ending, contextCancelled, repair);
    assert (actions + [a])[..|actions|] == actions;
    RunInv(cfg, cursor, actions);
    PagesQueuedInOrder(cfg, cursor, actions);
    var (s, h) := Run(cfg, cursor, actions);
    assert Allowed(cfg, s, h, a);
    FinishCounts(s, ending, contextCancelled, repair);
    AllDelivered(cfg, s, h);
  }

  lemma SettledCount<P, C, D>(s: State<P, C, D>, repair: bool)
    ensures Pump(PartDone(s, repair)).succeeded == s.succeeded
  {
    hide Pump, PartDone;
    PartDoneFrame(s, repair);
    PumpFrame(PartDone(s, repair));
  }

  lemma RecordCounts<P, C, D>(s: State<P, C, D>, ending: Status)
    requires !s.cancelled
    ensures RecordPart(s, SchedulerStatus(s, ending)).succeeded ==
            s.succeeded + (if CvSucceeds(s, ending, false) then 1 else 0)
  {
  }

  lemma FinishCounts<P, C, D>(s: State<P, C, D>, ending: Status, contextCancelled: bool, repair: bool)
    ensures OnSchedulerFinish(s, ending, contextCancelled, repair).succeeded ==
            s.succeeded + (if CvSucceeds(s, ending, contextCancelled) then 1 else 0)
  {
    hide RequestFinish, Pump, PartDone, SchedulerStatus, RecordPart;
    if s.cancelled || contextCancelled {
      FinishFrame(s, Error(Cancelled));
    } else {
      RecordCounts(s, ending);
      SettledCount(RecordPart(s, SchedulerStatus(s, ending)), repair);
    }
  }

  lemma CompleteKeepsCount<P, C, D>(s: State<P, C, D>)
    ensures Complete(s).succeeded == s.succeeded
  {
    hide RequestFinish;
    FinishFrame(Push(s, CompleteEvent), Okay);
  }

  lemma PartDoneFrame<P, C, D>(s: State<P, C, D>, repair: bool)
    ensures PartDone(s, repair).succeeded == s.succeeded
    ensures s.finishRequested ==> PartDone(s, repair) == s.(pending := if s.pending > 0 then s.pending - 1 else 0)
  {
    hide RequestFinish, Complete;
    var settled := s.(pending := if s.pending > 0 then s.pending - 1 else 0);
    FinishFrame(settled, if settled.failure.Okay? then Error(Internal) else settled.failure);
    CompleteKeepsCount(settled);
    CompleteKeepsCount(Push(settled, RepairEvent));
  }

  /** Nothing held and the total reached: exactly the pages up to the total were delivered. */
  lemma AllDelivered<P, C, D>(cfg: Config<P, C, D>, s: State<P, C, D>, h: History<P, C>)
    requires Inv(cfg, s, h) && AtRest(s) && h.cv != Waiting
    ensures s.next == s.total + 1 && s.held == map[] <==> DeliveredUpTo(h, s.total)
  {
    hide InOrder, Credited, Completes, Lossless;
    assert forall i :: i in s.held <==> i in h.delivered && s.next <= i;
    if DeliveredUpTo(h, s.total) {
      assert s.next !in h.delivered;
      assert s.total + 1 !in h.delivered;
      assert forall i :: i !in s.held;
    }
  }

  /** A status that is an error is final. */
  lemma ErrorIsFinal<P, C, D>(cfg: Config<P, C, D>, s: State<P, C, D>, a: Action<P, C, D>)
    requires s.finishRequested && !s.finishStatus.Okay?
    ensures Step(cfg, s, a).finishRequested && Step(cfg, s, a).finishStatus == s.finishStatus
  {
    hide RequestFinish, Pump, PartDone, Drain, OnWriteDone, OnPage, OnStreamedPage, OnCollectorDone, OnSchedulerFinish, OnPlan, OnSubmitFailed;
    match a
    case WriteDone(ok) => WriteDoneStatus(s, ok);
    case Cancel => FinishFrame(s.(cancelled := true), Error(Cancelled));
    case Fault(status) => FinishFrame(s, status);
    case Plan(runnable, unwired) => PlanStatus(s, runnable, unwired);
    case SubmitFailed(status, repair) => SettleStatus(s, status, repair);
    case Page(number, page) => PageStatus(cfg, s, number, page);
    case StreamedPage(number, count, pages, c) => StreamedStatus(s, number, count, pages, c);
    case SchedulerFinish(ending, contextCancelled, repair) => SchedulerFinishStatus(s, ending, contextCancelled, repair);
    case CollectorDone(outcome, repair) => CollectorStatus(s, outcome, repair);
    case _ =>
  }

  lemma WriteDoneStatus<P, C, D>(s: State<P, C, D>, ok: bool)
    requires s.finishRequested && !s.finishStatus.Okay?
    ensures OnWriteDone(s, ok).finishRequested && OnWriteDone(s, ok).finishStatus == s.finishStatus
  {
    hide RequestFinish, Pump;
    FinishFrame(s, Error(Internal));
    if s.events != [] {
      PumpFrame(AfterWrite(s));
      var dropped := s.(events := [], writing := false, buffered := 0, cancelled := true);
      FinishFrame(dropped, Error(Cancelled));
    }
  }

  lemma PlanStatus<P, C, D>(s: State<P, C, D>, runnable: nat, unwired: nat)
    requires s.finishRequested && !s.finishStatus.Okay?
    ensures OnPlan(s, runnable, unwired).finishRequested && OnPlan(s, runnable, unwired).finishStatus == s.finishStatus
  {
    hide RequestFinish;
    var counted := s.(pending := s.pending + runnable,
                      failure := if unwired > 0 && s.failure.Okay? then Error(OtherCode(12)) else s.failure);
    FinishFrame(counted, counted.failure);
  }

  lemma SettleStatus<P, C, D>(s: State<P, C, D>, status: Status, repair: bool)
    requires s.finishRequested && !s.finishStatus.Okay?
    ensures OnSubmitFailed(s, status, repair).finishRequested && OnSubmitFailed(s, status, repair).finishStatus == s.finishStatus
  {
    hide PartDone, Pump;
    PartDoneFrame(RecordFailure(s, status), repair);
    PumpFrame(PartDone(RecordFailure(s, status), repair));
  }

  lemma {:induction false} DrainFrame<P, C, D>(cfg: Config<P, C, D>, s: State<P, C, D>)
    ensures Drain(cfg, s).finishRequested == s.finishRequested && Drain(cfg, s).finishStatus == s.finishStatus
    ensures Drain(cfg, s).finishStarted == s.finishStarted && Drain(cfg, s).startedLate == s.startedLate
    ensures Drain(cfg, s).writing == s.writing && Drain(cfg, s).finishes == s.finishes
    decreases |s.held|
  {
    if s.next in s.held {
      RemoveOne(s.held, s.next);
      DrainFrame(cfg, DrainOne(cfg, s));
    }
  }

  lemma PageStatus<P, C, D>(cfg: Config<P, C, D>, s: State<P, C, D>, number: int, page: P)
    requires s.finishRequested && !s.finishStatus.Okay?
    ensures OnPage(cfg, s, number, page).finishRequested && OnPage(cfg, s, number, page).finishStatus == s.finishStatus
  {
    if Accepts(cfg, s) {
      DrainFrame(cfg, WithPage(s, number, page));
      PumpFrame(Drain(cfg, WithPage(s, number, page)));
      PageDrains(cfg, s, number, page);
      hide Drain, Pump;
    } else if !s.cancelled {
      hide RequestFinish;
      var kept := if s.writing && s.events != [] then [s.events[0]] else [];
      FinishFrame(s.(held := map[], events := kept,
                     buffered := if kept != [] && kept[0].PageEvent? && kept[0].credit then 1 else 0),
                  Error(ResourceExhausted));
    }
  }

  lemma StreamedStatus<P, C, D>(s: State<P, C, D>, number: int, count: int, pages: seq<D>, cursor: C)
    requires s.finishRequested
    ensures OnStreamedPage(s, number, count, pages, cursor) == s
  {
    hide PushPages, Pump;
  }

  lemma CollectorStatus<P, C, D>(s: State<P, C, D>, outcome: Outcome<D>, repair: bool)
    requires s.finishRequested
    ensures OnCollectorDone(s, outcome, repair) == s
  {
    hide PushDocument, Pump, PartDone, RequestFinish;
  }

  lemma SchedulerFinishStatus<P, C, D>(s: State<P, C, D>, ending: Status, contextCancelled: bool, repair: bool)
    requires s.finishRequested && !s.finishStatus.Okay?
    ensures OnSchedulerFinish(s, ending, contextCancelled, repair).finishRequested
    ensures OnSchedulerFinish(s, ending, contextCancelled, repair).finishStatus == s.finishStatus
  {
    hide PartDone, Pump, RequestFinish;
    FinishFrame(s, Error(Cancelled));
    var recorded := RecordPart(s, SchedulerStatus(s, ending));
    PartDoneFrame(recorded, repair);
    PumpFrame(PartDone(recorded, repair));
  }

  /** Once a run's status is an error, every continuation of the run keeps it. */
  lemma {:induction false} ErrorStaysFinal<P, C, D>(cfg: Config<P, C, D>, cursor: C, before: seq<Action<P, C, D>>, after: seq<Action<P, C, D>>)
    requires Run(cfg, cursor, before).0.finishRequested && !Run(cfg, cursor, before).0.finishStatus.Okay?
    ensures Run(cfg, cursor, before + after).0.finishRequested
    ensures Run(cfg, cursor, before + after).0.finishStatus == Run(cfg, cursor, before).0.finishStatus
  {
    hide Run, AllowedRun, Step, Note, Allowed;
    if after == [] {
      assert before + after == before;
    } else {
      var init, last := after[..|after| - 1], after[|after| - 1];
      assert before + after == (before + init) + [last];
      ErrorStaysFinal(cfg, cursor, before, init);
      ErrorStays(cfg, cursor, before + init, last);
    }
  }

  lemma ErrorStays<P, C, D>(cfg: Config<P, C, D>, cursor: C, before: seq<Action<P, C, D>>, last: Action<P, C, D>)
    requires Run(cfg, cursor, before).0.finishRequested && !Run(cfg, cursor, before).0.finishStatus.Okay?
    ensures Run(cfg, cursor, before + [last]).0.finishRequested
    ensures Run(cfg, cursor, before + [last]).0.finishStatus == Run(cfg, cursor, before).0.finishStatus
  {
    hide Run, AllowedRun, Step, Note, Allowed;
    RunStep(cfg, cursor, before, last);
    ErrorIsFinal(cfg, Run(cfg, cursor, before).0, last);
  }

  // ----- Writes after Finish.

  /** No write was started after Finish so far, and a finished call is idle. */
  ghost predicate Quiet<P, C, D>(s: State<P, C, D>) {
    && s.startedLate == 0
    && (s.finishStarted ==> s.finishRequested && s.events == [] && !s.writing)
  }

  /** A page that arrives at its turn although the call has finished: `OnPage` tests only for
      cancellation, so this is the one way a write can follow Finish. */
  ghost predicate LatePage<P, C, D>(cfg: Config<P, C, D>, s: State<P, C, D>, a: Action<P, C, D>) {
    s.finishStarted && a.Page? && Accepts(cfg, s) && a.number == s.next
  }

  lemma PumpQuiet<P, C, D>(s: State<P, C, D>)
    requires Quiet(s)
    ensures Quiet(Pump(s))
  {
  }

  lemma FinishQuiet<P, C, D>(s: State<P, C, D>, status: Status)
    requires Quiet(s)
    ensures Quiet(RequestFinish(s, status))
  {
    hide Pump;
    if !s.finishStarted {
      PumpQuiet(s);
      PumpQuiet(CancelTicket(s.(finishStatus := status)));
      PumpQuiet(s.(finishRequested := true, finishStatus := status));
      PumpQuiet(CancelTicket(s.(finishRequested := true, finishStatus := status)));
    }
  }

  lemma PartDoneQuiet<P, C, D>(s: State<P, C, D>, repair: bool)
    requires Quiet(s)
    ensures Quiet(Pump(PartDone(s, repair)))
  {
    hide Pump, RequestFinish;
    var settled := s.(pending := if s.pending > 0 then s.pending - 1 else 0);
    if settled.pending == 0 && !settled.finishRequested {
      if settled.succeeded == 0 {
        FinishQuiet(settled, if settled.failure.Okay? then Error(Internal) else settled.failure);
      } else {
        FinishQuiet(Push(if repair then Push(settled, RepairEvent) else settled, CompleteEvent), Okay);
      }
    }
    hide PartDone;
    PumpQuiet(PartDone(s, repair));
  }

  lemma PagesQuiet<P, C, D>(s: State<P, C, D>, pages: seq<D>)
    requires Quiet(s) && !s.finishStarted
    ensures Quiet(PushPages(s, pages)) && !PushPages(s, pages).finishStarted
  {
  }

  lemma PageQuiet<P, C, D>(cfg: Config<P, C, D>, s: State<P, C, D>, number: int, page: P)
    requires Quiet(s) && AtRest(s) && !LatePage(cfg, s, Page(number, page))
    ensures Quiet(OnPage(cfg, s, number, page))
  {
    if Accepts(cfg, s) {
      hide Drain, Pump;
      var t := WithPage(s, number, page);
      PageDrains(cfg, s, number, page);
      DrainFrame(cfg, t);
      if s.finishStarted {
        DrainNothing(cfg, t);
      } else {
        assert Quiet(Drain(cfg, t));
      }
      PumpQuiet(Drain(cfg, t));
    } else if !s.cancelled {
      hide RequestFinish;
      var kept := if s.writing && s.events != [] then [s.events[0]] else [];
      var t := s.(held := map[], events := kept,
                  buffered := if kept != [] && kept[0].PageEvent? && kept[0].credit then 1 else 0);
      FinishQuiet(t, Error(ResourceExhausted));
    }
  }

  lemma WriteDoneQuiet<P, C, D>(s: State<P, C, D>, ok: bool)
    requires Quiet(s) && s.writing
    ensures Quiet(OnWriteDone(s, ok))
  {
    hide Pump, RequestFinish;
    if s.events == [] {
      FinishQuiet(s, Error(Internal));
    } else {
      PumpQuiet(AfterWrite(s));
      var credit := s.events[0].PageEvent? && s.events[0].credit;
      FinishQuiet(s.(events := [], writing := false, buffered := 0, cancelled := true), Error(Cancelled));
    }
  }

  lemma CollectorQuiet<P, C, D>(s: State<P, C, D>, outcome: Outcome<D>, repair: bool)
    requires Quiet(s)
    ensures Quiet(OnCollectorDone(s, outcome, repair))
  {
    hide Pump, RequestFinish, PartDone, PushPages;
    if !s.cancelled && !s.finishRequested {
      FinishQuiet(s, outcome.structure);
      var counted := s.(total := if outcome.pages == [] then s.total else Max(s.total, |outcome.pages|));
      PagesQuiet(counted, outcome.pages);
      var brought := if outcome.status.Okay? then PushDocument(s, outcome) else s;
      assert Quiet(brought);
      hide PushDocument;
      PartDoneQuiet(RecordPart(brought, outcome.status), repair);
    }
  }

  /** A step of a call that has been quiet so far starts a write after Finish exactly when it
      delivers a late page. */
  lemma StepQuiet<P, C, D>(cfg: Config<P, C, D>, s: State<P, C, D>, h: History<P, C>, a: Action<P, C, D>)
    requires Inv(cfg, s, h) && AtRest(s) && Quiet(s) && Allowed(cfg, s, h, a)
    ensures LatePage(cfg, s, a) ==> Step(cfg, s, a).startedLate == 1
    ensures !LatePage(cfg, s, a) ==> Quiet(Step(cfg, s, a))
  {
    hide Inv, Pump, RequestFinish, PartDone, Drain, PushPages, OnWriteDone, OnPage, OnStreamedPage, OnCollectorDone,
      OnSchedulerFinish, OnPlan, OnSubmitFailed;
    match a
    case WriteDone(ok) => WriteDoneQuiet(s, ok);
    case Cancel => FinishQuiet(s.(cancelled := true), Error(Cancelled));
    case Fault(status) => FinishQuiet(s, status);
    case Plan(runnable, unwired) => PlanQuiet(s, runnable, unwired);
    case SubmitFailed(status, repair) => SettleQuiet(s, status, repair);
    case Page(number, page) =>
      if LatePage(cfg, s, a) {
        LateWrites(cfg, s, page);
      } else {
        PageQuiet(cfg, s, number, page);
      }
    case StreamedPage(number, count, pages, c) => StreamedQuiet(s, number, count, pages, c);
    case SchedulerFinish(ending, contextCancelled, repair) => SchedulerQuiet(s, ending, contextCancelled, repair);
    case CollectorDone(outcome, repair) => CollectorQuiet(s, outcome, repair);
    case _ =>
  }

  lemma PlanQuiet<P, C, D>(s: State<P, C, D>, runnable: nat, unwired: nat)
    requires Quiet(s)
    ensures Quiet(OnPlan(s, runnable, unwired))
  {
    hide RequestFinish;
    var counted := s.(pending := s.pending + runnable,
                      failure := if unwired > 0 && s.failure.Okay? then Error(OtherCode(12)) else s.failure);
    FinishQuiet(counted, counted.failure);
  }

  lemma SettleQuiet<P, C, D>(s: State<P, C, D>, status: Status, repair: bool)
    requires Quiet(s)
    ensures Quiet(OnSubmitFailed(s, status, repair))
  {
    hide Pump, PartDone;
    PartDoneQuiet(RecordFailure(s, status), repair);
  }

  lemma StreamedQuiet<P, C, D>(s: State<P, C, D>, number: int, count: int, pages: seq<D>, cursor: C)
    requires Quiet(s)
    ensures Quiet(OnStreamedPage(s, number, count, pages, cursor))
  {
    hide Pump, PushPages;
    if !s.cancelled && !s.finishRequested {
      var t := s.(total := Max(s.total, Max(count, number)), cursor := cursor);
      PagesQuiet(t, pages);
      PumpQuiet(PushPages(t, pages).(next := number + 1));
    }
  }

  lemma SchedulerQuiet<P, C, D>(s: State<P, C, D>, ending: Status, contextCancelled: bool, repair: bool)
    requires Quiet(s)
    ensures Quiet(OnSchedulerFinish(s, ending, contextCancelled, repair))
  {
    hide Pump, PartDone, RequestFinish, SchedulerStatus;
    FinishQuiet(s, Error(Cancelled));
    PartDoneQuiet(RecordPart(s, SchedulerStatus(s, ending)), repair);
  }

  lemma LateWrites<P, C, D>(cfg: Config<P, C, D>, s: State<P, C, D>, page: P)
    requires Quiet(s) && AtRest(s) && s.finishStarted && Accepts(cfg, s)
    ensures OnPage(cfg, s, s.next, page).startedLate == 1
  {
    var t := WithPage(s, s.next, page);
    PageDrains(cfg, s, s.next, page);
    DrainFrame(cfg, t);
    DrainQueues(cfg, DrainOne(cfg, t));
    DrainUnfolds(cfg, t);
    hide Drain;
  }

  lemma {:induction false} DrainQueues<P, C, D>(cfg: Config<P, C, D>, s: State<P, C, D>)
    ensures |s.events| <= |Drain(cfg, s).events|
    decreases |s.held|
  {
    if s.next in s.held {
      RemoveOne(s.held, s.next);
      DrainQueues(cfg, DrainOne(cfg, s));
    }
  }

  /** Some step of the run delivered a late page. */
  ghost predicate HasLatePage<P, C, D>(cfg: Config<P, C, D>, cursor: C, actions: seq<Action<P, C, D>>) {
    actions != [] &&
    var before := actions[..|actions| - 1];
    HasLatePage(cfg, cursor, before) || LatePage(cfg, Run(cfg, cursor, before).0, actions[|actions| - 1])
  }

  /** At some point of the run a write had been started after Finish. */
  ghost predicate EverWroteLate<P, C, D>(cfg: Config<P, C, D>, cursor: C, actions: seq<Action<P, C, D>>) {
    Run(cfg, cursor, actions).0.startedLate > 0 || (actions != [] && EverWroteLate(cfg, cursor, actions[..|actions| - 1]))
  }

  /** A run writes after its Finish call exactly when a page arrives late at its turn. */
  lemma {:induction false} WritesAfterFinish<P, C, D>(cfg: Config<P, C, D>, cursor: C, actions: seq<Action<P, C, D>>)
    requires AllowedRun(cfg, cursor, actions)
    ensures EverWroteLate(cfg, cursor, actions) <==> HasLatePage(cfg, cursor, actions)
    ensures !HasLatePage(cfg, cursor, actions) ==> Quiet(Run(cfg, cursor, actions).0)
  {
    if actions != [] {
      hide Inv, Step, Note, Allowed, AtRest, LatePage;
      var before := actions[..|actions| - 1];
      WritesAfterFinish(cfg, cursor, before);
      RunInv(cfg, cursor, before);
      if !HasLatePage(cfg, cursor, before) {
        var (s, h) := Run(cfg, cursor, before);
        StepQuiet(cfg, s, h, actions[|actions| - 1]);
      }
    }
  }

  lemma FinishedPumps<P, C, D>(s: State<P, C, D>)
    requires s.finishStarted
    ensures Pump(s).finishStarted
  {
  }

  lemma FinishedSettles<P, C, D>(s: State<P, C, D>, repair: bool)
    requires s.finishStarted && s.finishRequested
    ensures Pump(PartDone(s, repair)).finishStarted
  {
    hide Pump, RequestFinish;
    FinishedPumps(PartDone(s, repair));
  }

  lemma FinishedTakesPage<P, C, D>(cfg: Config<P, C, D>, s: State<P, C, D>, number: int, page: P)
    requires s.finishStarted
    ensures OnPage(cfg, s, number, page).finishStarted
  {
    if Accepts(cfg, s) {
      DrainFrame(cfg, WithPage(s, number, page));
      FinishedPumps(Drain(cfg, WithPage(s, number, page)));
      PageDrains(cfg, s, number, page);
      hide Drain, Pump;
    }
  }

  lemma FinishedTakesWrite<P, C, D>(s: State<P, C, D>, ok: bool)
    requires s.finishStarted
    ensures OnWriteDone(s, ok).finishStarted
  {
    if s.events != [] && ok {
      GoodWritePumps(s);
      hide Pump, OnWriteDone;
      FinishedPumps(AfterWrite(s));
    }
  }

  /** Finish is not taken back. */
  lemma FinishedStays<P, C, D>(cfg: Config<P, C, D>, s: State<P, C, D>, a: Action<P, C, D>)
    requires s.finishStarted && s.finishRequested
    ensures Step(cfg, s, a).finishStarted
  {
    hide Pump, PartDone, Drain, OnWriteDone, OnPage, OnStreamedPage, OnCollectorDone, SchedulerStatus;
    match a
    case WriteDone(ok) => FinishedTakesWrite(s, ok);
    case Page(number, page) => FinishedTakesPage(cfg, s, number, page);
    case SubmitFailed(status, repair) => FinishedSettles(RecordFailure(s, status), repair);
    case StreamedPage(number, count, pages, c) => StreamedStatus(s, number, count, pages, c);
    case SchedulerFinish(ending, contextCancelled, repair) => FinishedSettles(RecordPart(s, SchedulerStatus(s, ending)), repair);
    case CollectorDone(outcome, repair) => CollectorStatus(s, outcome, repair);
    case _ =>
  }

  lemma {:induction false} LateMeansFinished<P, C, D>(cfg: Config<P, C, D>, cursor: C, actions: seq<Action<P, C, D>>)
    requires AllowedRun(cfg, cursor, actions) && HasLatePage(cfg, cursor, actions)
    ensures Run(cfg, cursor, actions).0.finishStarted
  {
    var before := actions[..|actions| - 1];
    RunInv(cfg, cursor, before);
    var s := Run(cfg, cursor, before).0;
    assert s.finishStarted ==> s.finishRequested by { hide OneWrite, LossEndsInError, OneComplete, PartsOpen, CreditsBalance, PagesInOrder; }
    hide Inv, Step, Note, Allowed, AtRest;
    if HasLatePage(cfg, cursor, before) { LateMeansFinished(cfg, cursor, before); }
    FinishedStays(cfg, s, actions[|actions| - 1]);
  }

  /** At the step that makes the Finish call the queue is empty, every write that was started has
      completed, and the call is made once, with the status then settled. */
  lemma FinishesIdle<P, C, D>(cfg: Config<P, C, D>, cursor: C, actions: seq<Action<P, C, D>>, a: Action<P, C, D>)
    requires AllowedRun(cfg, cursor, actions + [a])
    requires !Run(cfg, cursor, actions).0.finishStarted && Run(cfg, cursor, actions + [a]).0.finishStarted
    ensures
      var (s, h) := Run(cfg, cursor, actions + [a]);
      && s.events == [] && !s.writing && |s.started| == h.writesDone
      && s.finishes == [s.finishStatus]
  {
    RunStep(cfg, cursor, actions, a);
    RunInv(cfg, cursor, actions);
    RunInv(cfg, cursor, actions + [a]);
    var (s, h) := Run(cfg, cursor, actions);
    hide Run, AllowedRun, Step, Note, Allowed, AtRest, LossEndsInError, OneComplete, PartsOpen, CreditsBalance, PagesInOrder;
    if HasLatePage(cfg, cursor, actions) { LateMeansFinished(cfg, cursor, actions); }
    WritesAfterFinish(cfg, cursor, actions);
    StepQuiet(cfg, s, h, a);
  }

  ghost function BrokenStart<P, C, D>(): seq<Action<P, C, D>> {
    [Plan(2, 0), SubmitCv, TicketReady, PagesKnown(1)]
  }

  ghost function Started<P, C, D>(cursor: C): (State<P, C, D>, History<P, C>) {
    (Initial(cursor).(pending := 2, ticket := true, total := 1),
     NoHistory(cursor).(planned := true, legs := 1, cv := Open))
  }

  lemma BrokenStarts<P, C, D>(cfg: Config<P, C, D>, cursor: C)
    ensures Run(cfg, cursor, BrokenStart()) == Started(cursor) && AllowedRun(cfg, cursor, BrokenStart())
  {
    var one: seq<Action<P, C, D>> := [Plan(2, 0)];
    RunStep(cfg, cursor, [], Plan(2, 0));
    assert [] + one == one;
    RunStep(cfg, cursor, one, SubmitCv);
    RunStep(cfg, cursor, one + [SubmitCv], TicketReady);
    RunStep(cfg, cursor, one + [SubmitCv] + [TicketReady], PagesKnown(1));
    assert one + [SubmitCv] + [TicketReady] + [PagesKnown(1)] == BrokenStart();
    assert Run(cfg, cursor, []) == (Initial(cursor), NoHistory(cursor)) && AllowedRun(cfg, cursor, []);
    hide Run, AllowedRun;
  }

  /** The call after one collector's document broke an enforced rule. */
  ghost function Rejected<P, C, D>(cursor: C): (State<P, C, D>, History<P, C>) {
    var (s, h) := Started<P, C, D>(cursor);
    var status := Error(InvalidArgument);
    (s.(finishRequested := true, finishStatus := status, ticketCancelled := true, finishStarted := true, finishes := [status]),
     h.(legs := 0))
  }

  lemma RejectedStep<P, C, D>(cfg: Config<P, C, D>, cursor: C)
    ensures
      var (s, h) := Started<P, C, D>(cursor);
      var a := CollectorDone(Outcome(0, Okay, Error(InvalidArgument), [], false), false);
      Allowed(cfg, s, h, a) && (Step(cfg, s, a), Note(cfg, s, h, a)) == Rejected(cursor)
  {
    hide PartDone, PushDocument, Pump;
    var s := Started<P, C, D>(cursor).0;
    var t := s.(finishRequested := true, finishStatus := Error(InvalidArgument), ticketCancelled := true);
    assert RequestFinish(s, Error(InvalidArgument)) == Pump(t);
    RejectedPumps(t);
    var a: Action<P, C, D> := CollectorDone(Outcome(0, Okay, Error(InvalidArgument), [], false), false);
    assert Step(cfg, s, a) == RequestFinish(s, Error(InvalidArgument));
    assert RequestFinish(s, Error(InvalidArgument)) == Rejected<P, C, D>(cursor).0;
    assert Note(cfg, s, Started<P, C, D>(cursor).1, a) == Rejected<P, C, D>(cursor).1;
  }

  lemma RejectedPumps<P, C, D>(t: State<P, C, D>)
    requires t.finishRequested && !t.writing && t.events == [] && !t.finishStarted
    ensures Pump(t) == t.(finishStarted := true, finishes := t.finishes + [t.finishStatus])
  {
  }

  lemma LatePageStep<P, C, D>(cfg: Config<P, C, D>, cursor: C, page: P)
    requires cfg.window > 0
    ensures
      var (s, h) := Rejected<P, C, D>(cursor);
      && Allowed(cfg, s, h, Page(1, page))
      && Step(cfg, s, Page(1, page)).startedLate == 1
      && Step(cfg, s, Page(1, page)).finishes == s.finishes
  {
    var s := Rejected<P, C, D>(cursor).0;
    LateWrites(cfg, s, page);
    PageDrains(cfg, s, 1, page);
    DrainFrame(cfg, WithPage(s, 1, page));
    hide Drain, OnPage;
  }

  /** A run that writes after Finish: one collector's document breaks an enforced rule, the call
      finishes, and a page the scheduler already had in hand is delivered behind it. */
  lemma LatePageHappens<P, C, D>(cfg: Config<P, C, D>, cursor: C, page: P)
    requires cfg.window > 0
    ensures
      var rejection := CollectorDone(Outcome(0, Okay, Error(InvalidArgument), [], false), false);
      var actions := BrokenStart() + [rejection] + [Page(1, page)];
      && AllowedRun(cfg, cursor, actions)
      && Run(cfg, cursor, actions).0.finishes == [Error(InvalidArgument)]
      && Run(cfg, cursor, actions).0.startedLate == 1
  {
    hide Run, AllowedRun, Step, Note, Allowed;
    var rejection: Action<P, C, D> := CollectorDone(Outcome(0, Okay, Error(InvalidArgument), [], false), false);
    BrokenStarts(cfg, cursor);
    RejectedStep(cfg, cursor);
    RunStep(cfg, cursor, BrokenStart(), rejection);
    LatePageStep(cfg, cursor, page);
    assert Run(cfg, cursor, BrokenStart() + [rejection]) == Rejected(cursor);
    RunStep(cfg, cursor, BrokenStart() + [rejection], Page(1, page));
    assert AllowedRun(cfg, cursor, BrokenStart() + [rejection]);
    assert AllowedRun(cfg, cursor, BrokenStart() + [rejection] + [Page(1, page)]);
    assert Rejected<P, C, D>(cursor).0.finishes == [Error(InvalidArgument)];
  }
}
