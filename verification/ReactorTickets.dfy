/** When a streaming call takes its page run off the scheduler (src/document_streaming_service.cpp). */
module ReactorTickets {
  import opened Bytes
  import opened StreamReactor
  import opened ReactorRuns

  /** The ticket is cancelled only once the call is asked to finish, and always where that is to end it with an error. */
  ghost predicate TicketSettled<P, C, D>(s: State<P, C, D>) {
    && (s.ticketCancelled ==> s.ticket && s.finishRequested)
    && (s.ticket && s.finishRequested && !s.finishStatus.Okay? ==> s.ticketCancelled)
  }

  ghost predicate SameTicket<P, C, D>(s: State<P, C, D>, t: State<P, C, D>) {
    t.ticket == s.ticket && t.ticketCancelled == s.ticketCancelled && t.finishRequested == s.finishRequested && t.finishStatus == s.finishStatus
  }

  lemma PumpTicket<P, C, D>(s: State<P, C, D>)
    ensures SameTicket(s, Pump(s))
  {
  }

  lemma RequestTicket<P, C, D>(s: State<P, C, D>, status: Status)
    requires TicketSettled(s)
    ensures TicketSettled(RequestFinish(s, status))
  {
    forall t: State<P, C, D> ensures SameTicket(t, Pump(t)) { PumpTicket(t); }
    hide Pump;
  }

  lemma {:induction false} PagesTicket<P, C, D>(s: State<P, C, D>, pages: seq<D>)
    ensures SameTicket(s, PushPages(s, pages))
  {
    if pages != [] { PagesTicket(s, pages[..|pages| - 1]); }
  }

  lemma {:induction false} DrainTicket<P, C, D>(cfg: Config<P, C, D>, s: State<P, C, D>)
    ensures SameTicket(s, Drain(cfg, s))
    decreases |s.held|
  {
    if s.next in s.held {
      var (data, cursor) := cfg.assemble(s.held[s.next], s.next, s.cursor);
      var rest := s.held - {s.next};
      assert rest.Keys == s.held.Keys - {s.next} && |rest| == |rest.Keys| && |s.held| == |s.held.Keys|;
      DrainTicket(cfg, Push(s.(cursor := cursor, held := rest, next := s.next + 1), PageEvent(data, true)));
    }
  }

  lemma PartTicket<P, C, D>(s: State<P, C, D>, repair: bool)
    requires TicketSettled(s)
    ensures TicketSettled(PartDone(s, repair))
  {
    hide RequestFinish;
    var settled := s.(pending := if s.pending > 0 then s.pending - 1 else 0);
    if settled.pending == 0 && !settled.finishRequested {
      if settled.succeeded == 0 {
        RequestTicket(settled, if settled.failure.Okay? then Error(Internal) else settled.failure);
      } else {
        CompleteTicket(if repair then Push(settled, RepairEvent) else settled);
      }
    }
  }

  lemma CompleteTicket<P, C, D>(s: State<P, C, D>)
    requires TicketSettled(s)
    ensures TicketSettled(Complete(s))
  {
    hide RequestFinish;
    RequestTicket(Push(s, CompleteEvent), Okay);
  }

  lemma PumpSettled<P, C, D>(s: State<P, C, D>)
    requires TicketSettled(s)
    ensures TicketSettled(Pump(s))
  {
    PumpTicket(s);
    hide Pump;
  }

  lemma SettledPart<P, C, D>(s: State<P, C, D>, t: State<P, C, D>, repair: bool)
    requires TicketSettled(s) && SameTicket(s, t)
    ensures TicketSettled(Pump(PartDone(t, repair)))
  {
    hide Pump, PartDone;
    PartTicket(t, repair);
    PumpSettled(PartDone(t, repair));
  }

  lemma WriteTicket<P, C, D>(s: State<P, C, D>, ok: bool)
    requires TicketSettled(s)
    ensures TicketSettled(OnWriteDone(s, ok))
  {
    forall t: State<P, C, D> ensures SameTicket(t, Pump(t)) { PumpTicket(t); }
    forall t: State<P, C, D>, status | TicketSettled(t) ensures TicketSettled(RequestFinish(t, status)) { RequestTicket(t, status); }
    hide Pump, RequestFinish;
  }

  lemma PageTicket<P, C, D>(cfg: Config<P, C, D>, s: State<P, C, D>, number: int, page: P)
    requires TicketSettled(s)
    ensures TicketSettled(OnPage(cfg, s, number, page))
  {
    hide Pump, RequestFinish, Drain;
    if !s.cancelled && s.buffered >= cfg.window {
      var kept := if s.writing && s.events != [] then [s.events[0]] else [];
      RequestTicket(s.(held := map[], events := kept,
                       buffered := if kept != [] && kept[0].PageEvent? && kept[0].credit then 1 else 0), Error(ResourceExhausted));
    } else if !s.cancelled {
      var t := s.(buffered := s.buffered + 1, held := if number in s.held then s.held else s.held[number := page]);
      DrainTicket(cfg, t);
      PumpSettled(Drain(cfg, t));
    }
  }

  lemma CollectorTicket<P, C, D>(s: State<P, C, D>, outcome: Outcome<D>, repair: bool)
    requires TicketSettled(s)
    ensures TicketSettled(OnCollectorDone(s, outcome, repair))
  {
    hide Pump, RequestFinish, PushDocument, PartDone, RecordPart, TicketSettled, SameTicket;
    RequestTicket(s, outcome.structure);
    var t := if outcome.status.Okay? then PushDocument(s, outcome) else s;
    DocumentTicket(s, outcome);
    RecordTicket(s, t, outcome.status);
    SettledPart(s, RecordPart(t, outcome.status), repair);
  }

  lemma DocumentTicket<P, C, D>(s: State<P, C, D>, outcome: Outcome<D>)
    ensures SameTicket(s, s) && SameTicket(s, PushDocument(s, outcome))
  {
    hide PushPages;
    PagesTicket(s.(total := if outcome.pages == [] then s.total else Max(s.total, |outcome.pages|)), outcome.pages);
  }

  lemma TicketSame<P, C, D>(s: State<P, C, D>)
    ensures SameTicket(s, s)
  {
  }

  lemma RecordTicket<P, C, D>(s: State<P, C, D>, t: State<P, C, D>, status: Status)
    requires SameTicket(s, t)
    ensures SameTicket(s, RecordPart(t, status))
  {
  }

  lemma StreamedTicket<P, C, D>(s: State<P, C, D>, number: int, count: int, pages: seq<D>, cursor: C)
    requires TicketSettled(s)
    ensures TicketSettled(OnStreamedPage(s, number, count, pages, cursor))
  {
    var t := s.(total := Max(s.total, Max(count, number)), cursor := cursor);
    PagesTicket(t, pages);
    hide Pump, PushPages;
    PumpSettled(PushPages(t, pages).(next := number + 1));
  }

  lemma PlanTicket<P, C, D>(s: State<P, C, D>, runnable: nat, unwired: nat)
    requires TicketSettled(s)
    ensures TicketSettled(OnPlan(s, runnable, unwired))
  {
    hide RequestFinish;
    var counted := s.(pending := s.pending + runnable,
                      failure := if unwired > 0 && s.failure.Okay? then Error(OtherCode(12)) else s.failure);
    RequestTicket(counted, counted.failure);
  }

  lemma SchedulerTicket<P, C, D>(s: State<P, C, D>, outcome: Status, contextCancelled: bool, repair: bool)
    requires TicketSettled(s)
    ensures TicketSettled(OnSchedulerFinish(s, outcome, contextCancelled, repair))
  {
    hide Pump, RequestFinish, PartDone, RecordPart, TicketSettled, SameTicket, SchedulerStatus;
    RequestTicket(s, Error(Cancelled));
    TicketSame(s);
    RecordTicket(s, s, SchedulerStatus(s, outcome));
    SettledPart(s, RecordPart(s, SchedulerStatus(s, outcome)), repair);
  }

  lemma StepTicket<P, C, D>(cfg: Config<P, C, D>, s: State<P, C, D>, a: Action<P, C, D>)
    requires TicketSettled(s)
    ensures TicketSettled(Step(cfg, s, a))
  {
    hide Pump, RequestFinish, PartDone, OnWriteDone, OnPage, OnCollectorDone, OnStreamedPage, OnPlan, OnSchedulerFinish;
    match a
    case WriteDone(ok) => WriteTicket(s, ok);
    case Cancel => RequestTicket(s.(cancelled := true), Error(Cancelled));
    case Fault(status) => RequestTicket(s, status);
    case Plan(runnable, unwired) => PlanTicket(s, runnable, unwired);
    case SubmitFailed(status, repair) => SettledPart(s, RecordFailure(s, status), repair);
    case Page(number, page) => PageTicket(cfg, s, number, page);
    case StreamedPage(number, count, pages, cursor) => StreamedTicket(s, number, count, pages, cursor);
    case SchedulerFinish(ending, contextCancelled, repair) => SchedulerTicket(s, ending, contextCancelled, repair);
    case CollectorDone(outcome, repair) => CollectorTicket(s, outcome, repair);
    case _ =>
  }

  /** Over every run, allowed or not: a page run that was submitted is off the scheduler once the call is to end with
      an error, and while the call is not asked to finish it stays there. */
  lemma {:induction false} TicketsFollow<P, C, D>(cfg: Config<P, C, D>, cursor: C, actions: seq<Action<P, C, D>>)
    ensures
      var s := Run(cfg, cursor, actions).0;
      && (s.ticket && s.finishRequested && !s.finishStatus.Okay? ==> s.ticketCancelled)
      && (!s.finishRequested || !s.ticket ==> !s.ticketCancelled)
  {
    hide Step, Note;
    if actions != [] {
      TicketsFollow(cfg, cursor, actions[..|actions| - 1]);
      StepTicket(cfg, Run(cfg, cursor, actions[..|actions| - 1]).0, actions[|actions| - 1]);
    }
  }
}
