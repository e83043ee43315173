/** The streaming reactor as the program runs it (src/document_streaming_service.cpp): an object
    whose fields the handlers update. Each method is proved equal to its step of the machine. */
module ReactorObject {
  import opened Bytes
  import opened ReactorInvariant
  import M = StreamReactor

  class DocumentStreamReactor<P, C, D> {
    const cfg: M.Config<P, C, D>
    var events: seq<M.Event<D>>
    var writeInFlight: bool
    var completedPages: map<int, P>
    var nextPage: int
    var totalPages: int
    var bufferedPages: nat
    var assemblyCursor: C
    var pendingParts: nat
    var succeededParts: nat
    var firstFailureStatus: M.Status
    var clientCancelled: bool
    var ticketValid: bool
    var ticketCancelled: bool
    var finishRequested: bool
    var finishStatus: M.Status
    var finishStarted: bool

    // The calls made on gRPC and on the ticket, and the queue's past.
    ghost var started: seq<M.Event<D>>
    ghost var startedLate: nat
    ghost var finishes: seq<M.Status>
    ghost var released: nat
    ghost var queued: seq<M.Event<D>>
    ghost var written: seq<M.Event<D>>

    ghost function State(): M.State<P, C, D>
      reads this
    {
      M.State(events, writeInFlight, completedPages, nextPage, totalPages, bufferedPages, assemblyCursor, pendingParts,
              succeededParts, firstFailureStatus, clientCancelled, ticketValid, ticketCancelled, finishRequested,
              finishStatus, finishStarted, started, startedLate, finishes, released, queued, written)
    }

    constructor (cfg: M.Config<P, C, D>, cursor: C)
      ensures this.cfg == cfg && State() == M.Initial(cursor)
    {
      this.cfg := cfg;
      events, writeInFlight, completedPages, nextPage, totalPages := [], false, map[], 1, 0;
      bufferedPages, assemblyCursor, pendingParts, succeededParts := 0, cursor, 0, 0;
      firstFailureStatus, clientCancelled, ticketValid, ticketCancelled := M.Okay, false, false, false;
      finishRequested, finishStatus, finishStarted := false, M.Okay, false;
      started, startedLate, finishes, released, queued, written := [], 0, [], 0, [], [];
    }

    // ----- Helpers under the lock.

    method Push(e: M.Event<D>)
      modifies this
      ensures State() == M.Push(old(State()), e)
    {
      events := events + [e];
      queued := queued + [e];
    }

    method Pump()
      modifies this
      ensures State() == M.Pump(old(State()))
    {
      ghost var s := State();
      PumpCases(s);
      hide M.Pump, WriteStarted, FinishMade;
      if !writeInFlight && |events| > 0 {
        StartWrite();
        return;
      }
      if finishRequested && !writeInFlight && |events| == 0 && !finishStarted {
        Finish();
      }
    }

    /** gRPC's StartWrite of the front event. */
    method StartWrite()
      requires |events| > 0
      modifies this
      ensures State() == WriteStarted(old(State()))
    {
      writeInFlight := true;
      started := started + [events[0]];
      startedLate := startedLate + if finishStarted then 1 else 0;
    }

    /** gRPC's Finish. */
    method Finish()
      modifies this
      ensures State() == FinishMade(old(State()))
    {
      finishStarted := true;
      finishes := finishes + [finishStatus];
    }

    method CancelTicket()
      modifies this
      ensures State() == M.CancelTicket(old(State()))
    {
      if ticketCancelled || !ticketValid { return; }
      ticketCancelled := true;
    }

    method RequestFinish(status: M.Status)
      modifies this
      ensures State() == M.RequestFinish(old(State()), status)
    {
      hide M.Pump, M.CancelTicket;
      if finishStarted { return; }
      if finishRequested {
        if finishStatus.Okay? && !status.Okay? {
          finishStatus := status;
          CancelTicket();
        }
        Pump();
        return;
      }
      finishRequested := true;
      finishStatus := status;
      if !finishStatus.Okay? { CancelTicket(); }
      Pump();
    }

    method RecordPartFailure(status: M.Status)
      modifies this
      ensures State() == M.RecordFailure(old(State()), status)
    {
      if firstFailureStatus.Okay? { firstFailureStatus := status; }
    }

    method PartDone(repair: bool)
      modifies this
      ensures State() == M.PartDone(old(State()), repair)
    {
      hide M.RequestFinish;
      if pendingParts > 0 { pendingParts := pendingParts - 1; }
      if pendingParts > 0 || finishRequested { return; }
      if succeededParts == 0 {
        RequestFinish(if firstFailureStatus.Okay? then M.Error(M.Internal) else firstFailureStatus);
        return;
      }
      if repair { Push(M.RepairEvent); }
      Push(M.CompleteEvent);
      RequestFinish(M.Okay);
    }

    // ----- gRPC callbacks.

    method OnWriteDone(ok: bool)
      modifies this
      ensures State() == M.OnWriteDone(old(State()), ok)
    {
      hide M.RequestFinish, M.Pump, M.OnWriteDone, Popped, Acknowledged, Dropped;
      ghost var s := State();
      WriteDoneCases(s, ok);
      if |events| == 0 {
        RequestFinish(M.Error(M.Internal));
        return;
      }
      ghost var front := events[0];
      var pageWritten := events[0].PageEvent? && events[0].credit;
      PopFront(pageWritten);
      if ok {
        CountWrite(front, pageWritten);
        Pump();
      } else {
        DropQueue();
        RequestFinish(M.Error(M.Cancelled));
      }
    }

    method PopFront(pageWritten: bool)
      requires |events| > 0 && pageWritten == (events[0].PageEvent? && events[0].credit)
      modifies this
      ensures State() == Popped(old(State()))
    {
      if pageWritten && bufferedPages > 0 { bufferedPages := bufferedPages - 1; }
      events := events[1..];
      writeInFlight := false;
    }

    method CountWrite(ghost front: M.Event<D>, pageWritten: bool)
      requires pageWritten == (front.PageEvent? && front.credit)
      modifies this
      ensures State() == Acknowledged(old(State()), front)
    {
      written := written + [front];
      if pageWritten { released := released + 1; }
    }

    /** A write that failed: the client is gone and nothing more is sent. */
    method DropQueue()
      modifies this
      ensures State() == Dropped(old(State()))
    {
      clientCancelled := true;
      events := [];
      bufferedPages := 0;
    }

    method OnCancel()
      modifies this
      ensures State() == M.OnCancel(old(State()))
    {
      hide M.RequestFinish;
      clientCancelled := true;
      RequestFinish(M.Error(M.Cancelled));
    }

    // ----- Scheduler callbacks.

    method OnDocument(pages: int)
      modifies this
      ensures State() == M.OnDocument(old(State()), pages)
    {
      totalPages := (nextPage - 1) + pages;
    }

    /** More pages than the window holds: everything not being written is dropped. */
    method Overflow()
      modifies this
      ensures State() == M.Overflow(old(State()))
    {
      hide M.RequestFinish, Trimmed, M.Overflow;
      OverflowIs(State());
      KeepFront();
      RequestFinish(M.Error(M.ResourceExhausted));
    }

    method KeepFront()
      modifies this
      ensures State() == Trimmed(old(State()))
    {
      completedPages := map[];
      if writeInFlight && |events| > 0 {
        events := [events[0]];
        bufferedPages := if events[0].PageEvent? && events[0].credit then 1 else 0;
      } else {
        events := [];
        bufferedPages := 0;
      }
    }

    method OnPage(number: int, page: P) returns (accepted: bool)
      modifies this
      ensures State() == M.OnPage(cfg, old(State()), number, page)
      ensures accepted == M.Accepts(cfg, old(State()))
    {
      hide M.RequestFinish, M.Pump, M.Drain, M.Overflow;
      if clientCancelled { return false; }
      if bufferedPages >= cfg.window {
        Overflow();
        return false;
      }
      bufferedPages := bufferedPages + 1;
      if number !in completedPages { completedPages := completedPages[number := page]; }
      DrainInOrder();
      Pump();
      return true;
    }

    /** Queues every held page whose turn has come. */
    method DrainInOrder()
      modifies this
      ensures State() == M.Drain(cfg, old(State()))
    {
      while nextPage in completedPages
        invariant M.Drain(cfg, State()) == M.Drain(cfg, old(State()))
        decreases |completedPages|
      {
        hide M.Drain;
        ghost var before := State();
        RemoveOne(completedPages, nextPage);
        TakeNext();
        DrainUnfolds(cfg, before);
      }
      DrainNothing(cfg, State());
    }

    method TakeNext()
      requires nextPage in completedPages
      modifies this
      ensures State() == DrainOne(cfg, old(State()))
      ensures completedPages == old(completedPages) - {old(nextPage)}
    {
      var (data, cursor) := cfg.assemble(completedPages[nextPage], nextPage, assemblyCursor);
      completedPages := completedPages - {nextPage};
      assemblyCursor := cursor;
      nextPage := nextPage + 1;
      Push(M.PageEvent(data, true));
    }

    method OnSchedulerFinish(ending: M.Status, contextCancelled: bool, repair: bool)
      modifies this
      ensures State() == M.OnSchedulerFinish(old(State()), ending, contextCancelled, repair)
    {
      hide M.RequestFinish, M.Pump, M.PartDone;
      if clientCancelled || contextCancelled {
        RequestFinish(M.Error(M.Cancelled));
        return;
      }
      var status := ending;
      if status.Okay? && (nextPage != totalPages + 1 || |completedPages| > 0) {
        status := M.Error(M.Internal);
      }
      if status.Okay? {
        succeededParts := succeededParts + 1;
      } else {
        RecordPartFailure(status);
      }
      PartDone(repair);
      Pump();
    }

    method OnTicket()
      modifies this
      ensures State() == M.OnTicket(old(State()))
    {
      ticketValid := true;
      if finishRequested { CancelTicket(); }
    }

    method OnSubmitFailed(status: M.Status, repair: bool)
      modifies this
      ensures State() == M.OnSubmitFailed(old(State()), status, repair)
    {
      hide M.Pump, M.PartDone;
      RecordPartFailure(status);
      PartDone(repair);
      Pump();
    }

    // ----- Collector legs.

    method PushPages(pages: seq<D>)
      modifies this
      ensures State() == M.PushPages(old(State()), pages)
    {
      for i := 0 to |pages|
        invariant State() == M.PushPages(old(State()), pages[..i])
      {
        assert pages[..i + 1][..i] == pages[..i];
        Push(M.PageEvent(pages[i], false));
      }
      assert pages[..|pages|] == pages;
    }

    method OnStreamedPage(number: int, count: int, pages: seq<D>, cursor: C) returns (accepted: bool)
      modifies this
      ensures State() == M.OnStreamedPage(old(State()), number, count, pages, cursor)
      ensures accepted == !(old(clientCancelled) || old(finishRequested))
    {
      hide M.Pump, M.PushPages;
      if clientCancelled || finishRequested { return false; }
      ghost var s := State();
      totalPages := Max(totalPages, Max(count, number));
      assemblyCursor := cursor;
      ghost var counted := s.(total := Max(s.total, Max(count, number)), cursor := cursor);
      assert State() == counted;
      PushPages(pages);
      nextPage := number + 1;
      assert State() == M.PushPages(counted, pages).(next := number + 1);
      Pump();
      return true;
    }

    method OnCollectorDone(outcome: M.Outcome<D>, repair: bool)
      modifies this
      ensures State() == M.OnCollectorDone(old(State()), outcome, repair)
    {
      hide M.RequestFinish, M.Pump, M.PartDone, M.PushPages;
      if clientCancelled || finishRequested { return; }
      if outcome.status.Okay? && !outcome.structure.Okay? {
        RequestFinish(outcome.structure);
        return;
      }
      ghost var s := State();
      if outcome.status.Okay? {
        PushDocument(outcome);
        succeededParts := succeededParts + 1;
      } else {
        RecordPartFailure(outcome.status);
      }
      assert State() == M.RecordPart(if outcome.status.Okay? then M.PushDocument(s, outcome) else s, outcome.status) by {
        hide M.PushDocument;
      }
      PartDone(repair);
      Pump();
    }

    method PushDocument(outcome: M.Outcome<D>)
      modifies this
      ensures State() == M.PushDocument(old(State()), outcome)
    {
      hide M.PushPages;
      if |outcome.pages| > 0 { totalPages := Max(totalPages, |outcome.pages|); }
      PushPages(outcome.pages);
      if outcome.repaired { Push(M.RepairEvent); }
      Push(M.DocumentEvent(outcome.collector));
    }

    /** Sorts the planned collectors: `wired[i]` says whether this build can run the i-th. */
    method ResolvePlan(wired: seq<bool>)
      modifies this
      ensures State() == M.OnPlan(old(State()), CountOf(wired, true), CountOf(wired, false))
    {
      hide M.RequestFinish, Counted, PartCounted;
      ghost var s := State();
      CountedNone(s);
      for i := 0 to |wired|
        invariant State() == Counted(s, wired[..i])
      {
        assert wired[..i] + [wired[i]] == wired[..i + 1];
        CountedNext(s, wired[..i], wired[i]);
        CountPart(wired[i]);
      }
      assert wired[..|wired|] == wired;
      CountedAll(s, wired);
      if pendingParts == 0 {
        RequestFinish(firstFailureStatus);
      }
    }

    method CountPart(runnable: bool)
      modifies this
      ensures State() == PartCounted(old(State()), runnable)
    {
      if runnable {
        pendingParts := pendingParts + 1;
      } else {
        RecordPartFailure(M.Error(M.OtherCode(12)));
      }
    }
  }

  ghost function PartCounted<P, C, D>(s: M.State<P, C, D>, runnable: bool): M.State<P, C, D> {
    if runnable then s.(pending := s.pending + 1) else M.RecordFailure(s, M.Error(M.OtherCode(12)))
  }

  // ----- The machine's handlers, step by step.

  ghost function WriteStarted<P, C, D>(s: M.State<P, C, D>): M.State<P, C, D>
    requires s.events != []
  {
    s.(writing := true, started := s.started + [s.events[0]], startedLate := s.startedLate + if s.finishStarted then 1 else 0)
  }

  ghost function FinishMade<P, C, D>(s: M.State<P, C, D>): M.State<P, C, D> {
    s.(finishStarted := true, finishes := s.finishes + [s.finishStatus])
  }

  lemma PumpCases<P, C, D>(s: M.State<P, C, D>)
    ensures M.Pump(s) ==
      if !s.writing && s.events != [] then WriteStarted(s)
      else if s.finishRequested && !s.writing && s.events == [] && !s.finishStarted then FinishMade(s)
      else s
  {
  }

  ghost function Popped<P, C, D>(s: M.State<P, C, D>): M.State<P, C, D>
    requires s.events != []
  {
    var credit := s.events[0].PageEvent? && s.events[0].credit;
    s.(events := s.events[1..], writing := false, buffered := if credit && s.buffered > 0 then s.buffered - 1 else s.buffered)
  }

  ghost function Acknowledged<P, C, D>(s: M.State<P, C, D>, front: M.Event<D>): M.State<P, C, D> {
    s.(written := s.written + [front], released := if front.PageEvent? && front.credit then s.released + 1 else s.released)
  }

  ghost function Dropped<P, C, D>(s: M.State<P, C, D>): M.State<P, C, D> {
    s.(cancelled := true, events := [], buffered := 0)
  }

  lemma WriteDoneCases<P, C, D>(s: M.State<P, C, D>, ok: bool)
    ensures M.OnWriteDone(s, ok) ==
      if s.events == [] then M.RequestFinish(s, M.Error(M.Internal))
      else if ok then M.Pump(Acknowledged(Popped(s), s.events[0]))
      else M.RequestFinish(Dropped(Popped(s)), M.Error(M.Cancelled))
  {
    hide M.RequestFinish, M.Pump;
  }

  ghost function Trimmed<P, C, D>(s: M.State<P, C, D>): M.State<P, C, D> {
    var kept := if s.writing && s.events != [] then [s.events[0]] else [];
    s.(held := map[], events := kept, buffered := if kept != [] && kept[0].PageEvent? && kept[0].credit then 1 else 0)
  }

  lemma OverflowIs<P, C, D>(s: M.State<P, C, D>)
    ensures M.Overflow(s) == M.RequestFinish(Trimmed(s), M.Error(M.ResourceExhausted))
  {
    hide M.RequestFinish;
  }

  lemma CountedNone<P, C, D>(s: M.State<P, C, D>)
    ensures Counted(s, []) == s
  {
  }

  lemma CountedAll<P, C, D>(s: M.State<P, C, D>, wired: seq<bool>)
    ensures
      var t := Counted(s, wired);
      M.OnPlan(s, CountOf(wired, true), CountOf(wired, false)) == if t.pending == 0 then M.RequestFinish(t, t.failure) else t
  {
    hide M.RequestFinish;
  }

  lemma CountOfNext(before: seq<bool>, runnable: bool)
    ensures CountOf(before + [runnable], true) == CountOf(before, true) + (if runnable then 1 else 0)
    ensures CountOf(before + [runnable], false) == CountOf(before, false) + (if runnable then 0 else 1)
  {
    assert (before + [runnable])[..|before|] == before;
  }

  lemma CountedNext<P, C, D>(s: M.State<P, C, D>, before: seq<bool>, runnable: bool)
    ensures Counted(s, before + [runnable]) == PartCounted(Counted(s, before), runnable)
  {
    hide CountOf;
    CountOfNext(before, runnable);
  }

  ghost function CountOf(wired: seq<bool>, value: bool): nat {
    if wired == [] then 0 else CountOf(wired[..|wired| - 1], value) + (if wired[|wired| - 1] == value then 1 else 0)
  }

  ghost function Counted<P, C, D>(s: M.State<P, C, D>, wired: seq<bool>): M.State<P, C, D> {
    s.(pending := s.pending + CountOf(wired, true),
       failure := if CountOf(wired, false) > 0 && s.failure.Okay? then M.Error(M.OtherCode(12)) else s.failure)
  }
}
