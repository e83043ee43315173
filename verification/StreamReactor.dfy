/** The streaming reactor as a state machine (src/document_streaming_service.cpp).

    Every handler of the reactor runs under one mutex, so each is one atomic step. `State`
    holds the reactor's fields together with what it has done to the outside so far: writes
    started, Finish calls, credits handed back. `History` holds what the environment (gRPC,
    the page scheduler, the collector legs) has done, and `Allowed` what it may do next. The
    functions below are the handlers' specifications; the class in ReactorObject.dfy is the
    program, and ReactorRuns.dfy proves what holds over every run. */
module StreamReactor {
  import opened Bytes

  datatype Code = Cancelled | Internal | ResourceExhausted | InvalidArgument | OtherCode(value: int)

  datatype Status = Okay | Error(code: Code)

  /** One message queued for the client. Only a page the scheduler delivered carries a credit. */
  datatype Event<+D> = PageEvent(data: D, credit: bool) | RepairEvent | DocumentEvent(collector: int) | CompleteEvent

  /** The page assembly and the page window the scheduler is configured with. */
  datatype Config<!P, !C, !D> = Config(window: nat, assemble: (P, int, C) -> (D, C))

  datatype State<P, C, D> = State(
    events: seq<Event<D>>,
    writing: bool,
    held: map<int, P>,
    next: int,
    total: int,
    buffered: nat,
    cursor: C,
    pending: nat,
    succeeded: nat,
    failure: Status,
    cancelled: bool,
    ticket: bool,
    ticketCancelled: bool,
    finishRequested: bool,
    finishStatus: Status,
    finishStarted: bool,
    // What the outside has seen, and the whole queue's past.
    started: seq<Event<D>>,
    startedLate: nat,
    finishes: seq<Status>,
    released: nat,
    queued: seq<Event<D>>,
    written: seq<Event<D>>)

  function Initial<P, C, D>(cursor: C): State<P, C, D> {
    State([], false, map[], 1, 0, 0, cursor, 0, 0, Okay, false, false, false, false, Okay, false, [], 0, [], 0, [], [])
  }

  // ----- The locked helpers.

  function Push<P, C, D>(s: State<P, C, D>, e: Event<D>): State<P, C, D> {
    s.(events := s.events + [e], queued := s.queued + [e])
  }

  function PushPages<P, C, D>(s: State<P, C, D>, pages: seq<D>): State<P, C, D> {
    if pages == [] then s
    else Push(PushPages(s, pages[..|pages| - 1]), PageEvent(pages[|pages| - 1], false))
  }

  function Pump<P, C, D>(s: State<P, C, D>): State<P, C, D> {
    if !s.writing && s.events != [] then
      s.(writing := true,
         started := s.started + [s.events[0]],
         startedLate := s.startedLate + (if s.finishStarted then 1 else 0))
    else if s.finishRequested && !s.writing && s.events == [] && !s.finishStarted then
      s.(finishStarted := true, finishes := s.finishes + [s.finishStatus])
    else s
  }

  function CancelTicket<P, C, D>(s: State<P, C, D>): State<P, C, D> {
    if s.ticketCancelled || !s.ticket then s else s.(ticketCancelled := true)
  }

  function RequestFinish<P, C, D>(s: State<P, C, D>, status: Status): State<P, C, D> {
    if s.finishStarted then s
    else if s.finishRequested then
      Pump(if s.finishStatus.Okay? && !status.Okay? then CancelTicket(s.(finishStatus := status)) else s)
    else
      var requested := s.(finishRequested := true, finishStatus := status);
      Pump(if status.Okay? then requested else CancelTicket(requested))
  }

  function RecordFailure<P, C, D>(s: State<P, C, D>, status: Status): State<P, C, D> {
    if s.failure.Okay? then s.(failure := status) else s
  }

  /** One part settled. `repair`: whether the fold of the streamed pages owes a repair event. */
  function PartDone<P, C, D>(s: State<P, C, D>, repair: bool): State<P, C, D> {
    var settled := s.(pending := if s.pending > 0 then s.pending - 1 else 0);
    if settled.pending > 0 || settled.finishRequested then settled
    else if settled.succeeded == 0 then
      RequestFinish(settled, if settled.failure.Okay? then Error(Internal) else settled.failure)
    else
      Complete(if repair then Push(settled, RepairEvent) else settled)
  }

  /** The terminal event, and the finish behind it. */
  function Complete<P, C, D>(s: State<P, C, D>): State<P, C, D> {
    RequestFinish(Push(s, CompleteEvent), Okay)
  }

  // ----- The handlers.

  function OnWriteDone<P, C, D>(s: State<P, C, D>, ok: bool): State<P, C, D> {
    if s.events == [] then RequestFinish(s, Error(Internal))
    else
      var front := s.events[0];
      var credit := front.PageEvent? && front.credit;
      var popped := s.(events := s.events[1..], writing := false,
                       buffered := if credit && s.buffered > 0 then s.buffered - 1 else s.buffered);
      if !ok then
        RequestFinish(popped.(cancelled := true, events := [], buffered := 0), Error(Cancelled))
      else
        Pump(popped.(written := s.written + [front], released := if credit then s.released + 1 else s.released))
  }

  function OnCancel<P, C, D>(s: State<P, C, D>): State<P, C, D> {
    RequestFinish(s.(cancelled := true), Error(Cancelled))
  }

  function OnDocument<P, C, D>(s: State<P, C, D>, pages: int): State<P, C, D> {
    s.(total := (s.next - 1) + pages)
  }

  /** Queues every page that is next in line. */
  function Drain<P, C, D>(cfg: Config<P, C, D>, s: State<P, C, D>): State<P, C, D>
    decreases |s.held|
  {
    if s.next !in s.held then s
    else
      var (data, cursor) := cfg.assemble(s.held[s.next], s.next, s.cursor);
      var rest := s.held - {s.next};
      assert rest.Keys == s.held.Keys - {s.next} && |rest| == |rest.Keys| && |s.held| == |s.held.Keys|;
      Drain(cfg, Push(s.(cursor := cursor, held := rest, next := s.next + 1), PageEvent(data, true)))
  }

  predicate Accepts<P, C, D>(cfg: Config<P, C, D>, s: State<P, C, D>) {
    !s.cancelled && s.buffered < cfg.window
  }

  function Overflow<P, C, D>(s: State<P, C, D>): State<P, C, D> {
    var kept := if s.writing && s.events != [] then [s.events[0]] else [];
    RequestFinish(s.(held := map[], events := kept,
                     buffered := if kept != [] && kept[0].PageEvent? && kept[0].credit then 1 else 0),
                  Error(ResourceExhausted))
  }

  function OnPage<P, C, D>(cfg: Config<P, C, D>, s: State<P, C, D>, number: int, page: P): State<P, C, D> {
    if s.cancelled then s
    else if s.buffered >= cfg.window then Overflow(s)
    else
      var held := if number in s.held then s.held else s.held[number := page];
      Pump(Drain(cfg, s.(buffered := s.buffered + 1, held := held)))
  }

  /** One page of the inspector's fast path: `pages` are its projected page events. */
  function OnStreamedPage<P, C, D>(s: State<P, C, D>, number: int, count: int, pages: seq<D>, cursor: C): State<P, C, D> {
    if s.cancelled || s.finishRequested then s
    else
      Pump(PushPages(s.(total := Max(s.total, Max(count, number)), cursor := cursor), pages).(next := number + 1))
  }

  function OnSchedulerFinish<P, C, D>(s: State<P, C, D>, outcome: Status, contextCancelled: bool, repair: bool): State<P, C, D> {
    if s.cancelled || contextCancelled then RequestFinish(s, Error(Cancelled))
    else
      Pump(PartDone(RecordPart(s, SchedulerStatus(s, outcome)), repair))
  }

  function RecordPart<P, C, D>(s: State<P, C, D>, status: Status): State<P, C, D> {
    if status.Okay? then s.(succeeded := s.succeeded + 1) else RecordFailure(s, status)
  }

  /** The scheduler's own outcome, unless it claims success before every page was assembled. */
  function SchedulerStatus<P, C, D>(s: State<P, C, D>, outcome: Status): Status {
    if outcome.Okay? && (s.next != s.total + 1 || s.held != map[]) then Error(Internal) else outcome
  }

  /** What a collector leg brought: its projected pages and repair event, or its failure. */
  datatype Outcome<+D> = Outcome(collector: int, status: Status, structure: Status, pages: seq<D>, repaired: bool)

  function OnCollectorDone<P, C, D>(s: State<P, C, D>, outcome: Outcome<D>, repair: bool): State<P, C, D> {
    if s.cancelled || s.finishRequested then s
    else if outcome.status.Okay? && !outcome.structure.Okay? then RequestFinish(s, outcome.structure)
    else
      Pump(PartDone(RecordPart(if outcome.status.Okay? then PushDocument(s, outcome) else s, outcome.status), repair))
  }

  /** A finished document goes out as its pages, what repairs changed on them, and itself. */
  function PushDocument<P, C, D>(s: State<P, C, D>, outcome: Outcome<D>): State<P, C, D> {
    var counted := s.(total := if outcome.pages == [] then s.total else Max(s.total, |outcome.pages|));
    var paged := PushPages(counted, outcome.pages);
    Push(if outcome.repaired then Push(paged, RepairEvent) else paged, DocumentEvent(outcome.collector))
  }

  /** The resolved plan: `runnable` legs start, each of the others fails on the spot. */
  function OnPlan<P, C, D>(s: State<P, C, D>, runnable: nat, unwired: nat): State<P, C, D> {
    var counted := s.(pending := s.pending + runnable,
                      failure := if unwired > 0 && s.failure.Okay? then Error(OtherCode(12)) else s.failure);
    if counted.pending == 0 then RequestFinish(counted, counted.failure) else counted
  }

  function OnTicket<P, C, D>(s: State<P, C, D>): State<P, C, D> {
    var valid := s.(ticket := true);
    if s.finishRequested then CancelTicket(valid) else valid
  }

  function OnSubmitFailed<P, C, D>(s: State<P, C, D>, status: Status, repair: bool): State<P, C, D> {
    Pump(PartDone(RecordFailure(s, status), repair))
  }

  // ----- The environment.

  datatype Action<+P, +C, +D> =
    | WriteDone(ok: bool)
    | Cancel
    | Fault(status: Status)                     // a rejected chunk, plan or thread
    | Plan(runnable: nat, unwired: nat)
    | SubmitCv                                  // one leg hands its part to the page scheduler
    | TicketReady
    | SubmitFailed(status: Status, repair: bool)
    | PagesKnown(expected: int)
    | Page(number: int, page: P)
    | StreamedPage(number: int, count: int, pages: seq<D>, cursor: C)
    | SchedulerFinish(ending: Status, contextCancelled: bool, repair: bool)
    | CollectorDone(outcome: Outcome<D>, repair: bool)
    | NoteFailure(status: Status)

  function Step<P, C, D>(cfg: Config<P, C, D>, s: State<P, C, D>, a: Action<P, C, D>): State<P, C, D> {
    match a
    case WriteDone(ok) => OnWriteDone(s, ok)
    case Cancel => OnCancel(s)
    case Fault(status) => RequestFinish(s, status)
    case Plan(runnable, unwired) => OnPlan(s, runnable, unwired)
    case SubmitCv => s
    case TicketReady => OnTicket(s)
    case SubmitFailed(status, repair) => OnSubmitFailed(s, status, repair)
    case PagesKnown(expected) => OnDocument(s, expected)
    case Page(number, page) => OnPage(cfg, s, number, page)
    case StreamedPage(number, count, pages, cursor) => OnStreamedPage(s, number, count, pages, cursor)
    case SchedulerFinish(ending, contextCancelled, repair) => OnSchedulerFinish(s, ending, contextCancelled, repair)
    case CollectorDone(outcome, repair) => OnCollectorDone(s, outcome, repair)
    case NoteFailure(status) => RecordFailure(s, status)
  }

  datatype Phase = Waiting | Open | Closed

  /** What the environment has done: legs still out, the CV run, and the pages it got accepted. */
  datatype History<P, C> = History(
    planned: bool,
    legs: nat,
    cv: Phase,
    first: int,
    firstCursor: C,
    delivered: map<int, P>,
    accepted: nat,
    writesDone: nat)

  function NoHistory<P, C>(cursor: C): History<P, C> {
    History(false, 0, Waiting, 1, cursor, map[], 0, 0)
  }

  function Note<P, C, D>(cfg: Config<P, C, D>, s: State<P, C, D>, h: History<P, C>, a: Action<P, C, D>): History<P, C> {
    match a
    case WriteDone(_) => h.(writesDone := h.writesDone + 1)
    case Plan(runnable, _) => h.(planned := true, legs := runnable)
    case SubmitCv => h.(legs := if h.legs > 0 then h.legs - 1 else 0, cv := Open, first := s.next, firstCursor := s.cursor)
    case SubmitFailed(_, _) => h.(cv := Closed)
    case Page(number, page) =>
      if Accepts(cfg, s) then h.(delivered := h.delivered[number := page], accepted := h.accepted + 1) else h
    case SchedulerFinish(_, _, _) => h.(cv := Closed)
    case CollectorDone(_, _) => h.(legs := if h.legs > 0 then h.legs - 1 else 0)
    case _ => h
  }

  /** What the environment may do next. gRPC completes only outstanding writes; the plan names at
      least one collector and is made once; a leg reports once; the scheduler delivers distinct
      pages from the first one it was given, between the start of its run and its finish callback,
      and never has more than one window of them unreleased. Faults carry an error. */
  predicate Allowed<P, C, D>(cfg: Config<P, C, D>, s: State<P, C, D>, h: History<P, C>, a: Action<P, C, D>) {
    match a
    case WriteDone(_) => s.writing
    case Fault(status) => !status.Okay?
    case Plan(runnable, unwired) => !h.planned && runnable + unwired > 0
    case SubmitCv => h.legs > 0 && h.cv == Waiting
    case SubmitFailed(status, _) => h.cv == Open && h.delivered == map[] && !status.Okay?
    case PagesKnown(_) => h.cv == Open && h.delivered == map[]
    case Page(number, _) =>
      h.cv == Open && number >= h.first && number !in h.delivered && h.accepted - s.released < cfg.window
    case StreamedPage(_, _, _, _) => h.legs > 0 && h.cv == Waiting
    case SchedulerFinish(_, _, _) => h.cv == Open
    case CollectorDone(_, _) => h.legs > 0
    case NoteFailure(status) => h.legs > 0 && !status.Okay?
    case _ => true
  }
}
