/** What the parts of a streaming call reported, and what the call makes of it (src/document_streaming_service.cpp).

    `Reported` reads a run's actions alone, never the reactor's fields: which parts reported success, the
    failures in order, what the collectors brought, and the status the call was first asked to finish with.
    Over every run the reactor's counters, its queue and its verdict are what was reported. */
module ReactorReports {
  import opened Bytes
  import opened StreamReactor
  import opened ReactorInvariant
  import opened ReactorRuns

  // ----- What was reported.

  datatype Report<+D> = Report(
    gone: bool,                  // the client cancelled or a write failed
    asked: Option<Status>,       // the first status the call was to finish with
    spoiled: bool,               // a good finish was overtaken by an error
    succeeded: nat,
    failures: seq<Status>,
    announced: seq<Event<D>>,    // everything queued but the pages the scheduler delivered
    total: int,
    next: int)                   // the page behind the last one streamed

  ghost function Nothing<D>(): Report<D> {
    Report(false, None, false, 0, [], [], 0, 1)
  }

  ghost function Ask<D>(r: Report<D>, status: Status): Report<D> {
    if r.asked.None? then r.(asked := Some(status))
    else r.(spoiled := r.spoiled || (r.asked.value.Okay? && !status.Okay?))
  }

  ghost function Failed<D>(r: Report<D>, status: Status): Report<D> {
    r.(failures := r.failures + [status])
  }

  ghost function FirstFailure(failures: seq<Status>): Status {
    if failures == [] then Okay else failures[0]
  }

  /** Some part has not reported yet. */
  ghost predicate PartsOut<P, C>(h: History<P, C>) {
    h.legs > 0 || h.cv == Open
  }

  ghost function Pages<D>(pages: seq<D>): seq<Event<D>> {
    seq(|pages|, i requires 0 <= i < |pages| => PageEvent(pages[i], false))
  }

  /** A collector's document behind its own pages and what repairs changed on them. */
  ghost function Brought<D>(outcome: Outcome<D>): seq<Event<D>> {
    Pages(outcome.pages) + (if outcome.repaired then [RepairEvent] else []) + [DocumentEvent(outcome.collector)]
  }

  ghost function Closing<D>(repair: bool): seq<Event<D>> {
    (if repair then [RepairEvent] else []) + [CompleteEvent]
  }

  /** A part has reported. With the last one the call is asked to finish: well if some part succeeded,
      with the first failure if none did. */
  ghost function Settled<P, C, D>(r: Report<D>, h: History<P, C>, repair: bool): Report<D> {
    if r.asked.Some? || PartsOut(h) then r
    else if r.succeeded == 0 then Ask(r, if r.failures == [] then Error(Internal) else r.failures[0])
    else Ask(r.(announced := r.announced + Closing(repair)), Okay)
  }

  /** Every page up to the total was delivered, and no other. */
  ghost predicate EveryPage<P, C, D>(h: History<P, C>, r: Report<D>) {
    r.next <= r.total + 1 && forall i :: i in h.delivered <==> r.next <= i <= r.total
  }

  /** What one more action reports; `h` is the history before it and `h'` behind it. */
  ghost function Heard<P, C, D>(r: Report<D>, h: History<P, C>, h': History<P, C>, a: Action<P, C, D>): Report<D> {
    match a
    case WriteDone(ok) => if ok then r else Ask(r.(gone := true), Error(Cancelled))
    case Cancel => Ask(r.(gone := true), Error(Cancelled))
    case Fault(status) => Ask(r, status)
    case Plan(runnable, unwired) =>
      var counted := if unwired > 0 then Failed(r, Error(OtherCode(12))) else r;
      if runnable == 0 then Ask(counted, FirstFailure(counted.failures)) else counted
    case SubmitFailed(status, repair) => Settled(Failed(r, status), h', repair)
    case PagesKnown(expected) => r.(total := r.next - 1 + expected)
    case StreamedPage(number, count, pages, _) =>
      if r.gone || r.asked.Some? then r
      else r.(total := Max(r.total, Max(count, number)), next := number + 1, announced := r.announced + Pages(pages))
    case SchedulerFinish(ending, contextCancelled, repair) =>
      if r.gone || contextCancelled then Ask(r, Error(Cancelled))
      else if ending.Okay? && EveryPage(h, r) then Settled(r.(succeeded := r.succeeded + 1), h', repair)
      else Settled(Failed(r, if ending.Okay? then Error(Internal) else ending), h', repair)
    case CollectorDone(outcome, repair) =>
      if r.gone || r.asked.Some? then r
      else if !outcome.status.Okay? then Settled(Failed(r, outcome.status), h', repair)
      else if !outcome.structure.Okay? then Ask(r, outcome.structure)
      else
        Settled(r.(succeeded := r.succeeded + 1, announced := r.announced + Brought(outcome),
                   total := if outcome.pages == [] then r.total else Max(r.total, |outcome.pages|)), h', repair)
    case NoteFailure(status) => Failed(r, status)
    case _ => r
  }

  ghost function Reported<P, C, D>(cfg: Config<P, C, D>, cursor: C, actions: seq<Action<P, C, D>>): Report<D> {
    if actions == [] then Nothing()
    else
      var before := actions[..|actions| - 1];
      Heard(Reported(cfg, cursor, before), Run(cfg, cursor, before).1, Run(cfg, cursor, actions).1, actions[|actions| - 1])
  }

  /** The events that are no page the scheduler delivered. */
  ghost function Uncredited<D>(events: seq<Event<D>>): seq<Event<D>> {
    if events == [] then []
    else
      var last := events[|events| - 1];
      Uncredited(events[..|events| - 1]) + (if last.PageEvent? && last.credit then [] else [last])
  }

  // ----- The reactor's fields are what was reported.

  /** The fields a report speaks of. */
  datatype View<+D> = View(gone: bool, requested: bool, status: Status, succeeded: nat, failure: Status,
                           uncredited: seq<Event<D>>, total: int, next: int, pending: nat)

  ghost function ViewOf<P, C, D>(s: State<P, C, D>): View<D> {
    View(s.cancelled, s.finishRequested, s.finishStatus, s.succeeded, s.failure, Uncredited(s.queued), s.total, s.next, s.pending)
  }

  ghost function Out<P, C>(h: History<P, C>): nat {
    h.legs + (if h.cv == Open then 1 else 0)
  }

  /** What was reported, in the fields. */
  ghost predicate Same<D>(v: View<D>, r: Report<D>) {
    && v.gone == r.gone && v.succeeded == r.succeeded && v.uncredited == r.announced && v.total == r.total
    && (forall f :: f in r.failures ==> !f.Okay?) && v.failure == FirstFailure(r.failures)
    && v.requested == r.asked.Some?
    && (v.requested ==> r.asked == Some(v.status) || r.spoiled) && (r.spoiled ==> r.asked == Some(Okay))
  }

  /** Until the call is asked to finish, what is pending are the parts that have not reported. */
  ghost predicate PartsPending<P, C, D>(v: View<D>, h: History<P, C>) {
    (v.gone ==> v.requested) && (!v.requested ==> v.pending == Out(h))
  }

  ghost predicate Matches<P, C, D>(v: View<D>, h: History<P, C>, r: Report<D>) {
    && Same(v, r) && PartsPending(v, h)
    && (if h.cv == Waiting then v.next == r.next else h.first == r.next)
    && (!h.planned ==> r.failures == [])
  }

  /** The view after the call was asked to finish. */
  ghost predicate AskedView<D>(v: View<D>, status: Status, after: View<D>) {
    && after == v.(requested := true, status := after.status)
    && (!v.requested ==> after.status == status)
    && (v.requested ==> after.status == v.status || (v.status.Okay? && !status.Okay? && after.status == status))
  }

  lemma UncreditedAppend<D>(events: seq<Event<D>>, e: Event<D>)
    ensures Uncredited(events + [e]) == Uncredited(events) + (if e.PageEvent? && e.credit then [] else [e])
  {
    assert (events + [e])[..|events|] == events;
  }

  lemma PumpView<P, C, D>(s: State<P, C, D>)
    ensures ViewOf(Pump(s)) == ViewOf(s)
  {
    PumpFrame(s);
    hide Pump, Uncredited;
  }

  lemma AskView<P, C, D>(s: State<P, C, D>, status: Status)
    requires s.finishStarted ==> s.finishRequested
    ensures AskedView(ViewOf(s), status, ViewOf(RequestFinish(s, status)))
  {
    PumpView(s);
    PumpView(CancelTicket(s.(finishStatus := status)));
    PumpView(s.(finishRequested := true, finishStatus := status));
    PumpView(CancelTicket(s.(finishRequested := true, finishStatus := status)));
    hide Pump, Uncredited;
  }

  lemma PushView<P, C, D>(s: State<P, C, D>, e: Event<D>)
    ensures ViewOf(Push(s, e)) ==
      ViewOf(s).(uncredited := Uncredited(s.queued) + if e.PageEvent? && e.credit then [] else [e])
  {
    UncreditedAppend(s.queued, e);
    hide Uncredited;
  }

  lemma {:induction false} PushPagesView<P, C, D>(s: State<P, C, D>, pages: seq<D>)
    ensures ViewOf(PushPages(s, pages)) == ViewOf(s).(uncredited := Uncredited(s.queued) + Pages(pages))
    ensures PushPages(s, pages).finishStarted == s.finishStarted
  {
    hide Uncredited;
    if pages == [] {
      assert Uncredited(s.queued) + Pages(pages) == Uncredited(s.queued);
    } else {
      var before, last := pages[..|pages| - 1], PageEvent(pages[|pages| - 1], false);
      PushPagesView(s, before);
      PushView(PushPages(s, before), last);
      assert Pages(pages) == Pages(before) + [last];
      assert Uncredited(s.queued) + Pages(before) + [last] == Uncredited(s.queued) + Pages(pages);
    }
  }

  /** The queue behind a collector's document. */
  lemma DocumentView<P, C, D>(s: State<P, C, D>, outcome: Outcome<D>)
    ensures ViewOf(PushDocument(s, outcome)) ==
      ViewOf(s).(uncredited := Uncredited(s.queued) + Brought(outcome),
                 total := if outcome.pages == [] then s.total else Max(s.total, |outcome.pages|))
    ensures PushDocument(s, outcome).finishStarted == s.finishStarted
  {
    hide Uncredited, PushPages, Pages;
    var counted := s.(total := if outcome.pages == [] then s.total else Max(s.total, |outcome.pages|));
    PushPagesView(counted, outcome.pages);
    EndView(PushPages(counted, outcome.pages), outcome);
    BroughtIs(Uncredited(s.queued), outcome);
  }

  lemma EndView<P, C, D>(paged: State<P, C, D>, outcome: Outcome<D>)
    ensures
      var repaired := if outcome.repaired then Push(paged, RepairEvent) else paged;
      ViewOf(Push(repaired, DocumentEvent(outcome.collector))) ==
        ViewOf(paged).(uncredited := Uncredited(paged.queued) + (if outcome.repaired then [RepairEvent] else []) + [DocumentEvent(outcome.collector)])
  {
    hide Uncredited;
    PushView(paged, RepairEvent);
    var repaired := if outcome.repaired then Push(paged, RepairEvent) else paged;
    PushView(repaired, DocumentEvent(outcome.collector));
    assert Uncredited(paged.queued) + [] == Uncredited(paged.queued);
  }

  lemma BroughtIs<D>(before: seq<Event<D>>, outcome: Outcome<D>)
    ensures before + Pages(outcome.pages) + (if outcome.repaired then [RepairEvent] else []) + [DocumentEvent(outcome.collector)]
         == before + Brought(outcome)
  {
    hide Pages;
  }

  /** The view after a part was settled, by what it was before. */
  ghost predicate SettledView<D>(v: View<D>, repair: bool, after: View<D>) {
    var settled := v.(pending := if v.pending > 0 then v.pending - 1 else 0);
    if settled.pending > 0 || v.requested then after == settled
    else if v.succeeded == 0 then
      AskedView(settled, if v.failure.Okay? then Error(Internal) else v.failure, after)
    else AskedView(settled.(uncredited := v.uncredited + Closing(repair)), Okay, after)
  }

  lemma CloseView<P, C, D>(s: State<P, C, D>, repair: bool)
    ensures
      var closed := Push(if repair then Push(s, RepairEvent) else s, CompleteEvent);
      ViewOf(closed) == ViewOf(s).(uncredited := Uncredited(s.queued) + Closing(repair)) && closed.finishStarted == s.finishStarted
  {
    hide Uncredited;
    PushView(s, RepairEvent);
    var repaired := if repair then Push(s, RepairEvent) else s;
    PushView(repaired, CompleteEvent);
    if repair {
      assert Uncredited(s.queued) + [RepairEvent] + [CompleteEvent] == Uncredited(s.queued) + Closing(repair);
    } else {
      assert Closing<D>(repair) == [CompleteEvent];
    }
  }

  lemma PartDoneIs<P, C, D>(s: State<P, C, D>, repair: bool)
    ensures
      var settled := s.(pending := if s.pending > 0 then s.pending - 1 else 0);
      PartDone(s, repair) ==
        if settled.pending > 0 || s.finishRequested then settled
        else if s.succeeded == 0 then RequestFinish(settled, if s.failure.Okay? then Error(Internal) else s.failure)
        else RequestFinish(Push(if repair then Push(settled, RepairEvent) else settled, CompleteEvent), Okay)
  {
    hide RequestFinish, Push;
  }

  lemma SettleView<P, C, D>(s: State<P, C, D>, repair: bool)
    requires s.finishStarted ==> s.finishRequested
    ensures SettledView(ViewOf(s), repair, ViewOf(Pump(PartDone(s, repair))))
  {
    hide Uncredited, RequestFinish, Pump, AskedView, PartDone, Push;
    PumpView(PartDone(s, repair));
    PartDoneIs(s, repair);
    var settled := s.(pending := if s.pending > 0 then s.pending - 1 else 0);
    if settled.pending == 0 && !s.finishRequested {
      if s.succeeded == 0 {
        AskView(settled, if s.failure.Okay? then Error(Internal) else s.failure);
      } else {
        CloseView(settled, repair);
        AskView(Push(if repair then Push(settled, RepairEvent) else settled, CompleteEvent), Okay);
      }
    }
  }

  lemma {:induction false} DrainView<P, C, D>(cfg: Config<P, C, D>, s: State<P, C, D>)
    ensures ViewOf(Drain(cfg, s)) == ViewOf(s).(next := Drain(cfg, s).next)
    decreases |s.held|
  {
    hide Uncredited;
    if s.next in s.held {
      RemoveOne(s.held, s.next);
      DrainView(cfg, DrainOne(cfg, s));
      PushView(s, PageEvent(cfg.assemble(s.held[s.next], s.next, s.cursor).0, true));
    }
  }

  // ----- One action.

  lemma AskSame<D>(v: View<D>, r: Report<D>, status: Status, after: View<D>)
    requires Same(v, r) && AskedView(v, status, after)
    ensures Same(after, Ask(r, status)) && after.requested
  {
  }

  lemma FailedSame<D>(v: View<D>, r: Report<D>, status: Status)
    requires Same(v, r) && !status.Okay?
    ensures Same(v.(failure := if v.failure.Okay? then status else v.failure), Failed(r, status))
  {
    forall f | f in Failed(r, status).failures ensures !f.Okay? {}
    assert r.failures != [] ==> !r.failures[0].Okay?;
  }

  lemma SettledSame<P, C, D>(v: View<D>, h: History<P, C>, r: Report<D>, repair: bool, after: View<D>)
    requires Same(v, r) && SettledView(v, repair, after) && (v.gone ==> v.requested)
    requires !v.requested ==> v.pending == Out(h) + 1
    ensures Same(after, Settled(r, h, repair)) && PartsPending(after, h) && after.next == v.next
    ensures Settled(r, h, repair).next == r.next && Settled(r, h, repair).failures == r.failures
  {
    var settled := v.(pending := if v.pending > 0 then v.pending - 1 else 0);
    var closing := settled.(uncredited := v.uncredited + Closing(repair));
    hide AskedView;
    if !v.requested && settled.pending == 0 {
      if v.succeeded == 0 {
        assert v.failure.Okay? <==> r.failures == [] by { assert r.failures != [] ==> r.failures[0] in r.failures; }
        AskSame(settled, r, if v.failure.Okay? then Error(Internal) else v.failure, after);
      } else {
        AskSame(closing, r.(announced := r.announced + Closing(repair)), Okay, after);
      }
      AskedKeeps(settled, if v.failure.Okay? then Error(Internal) else v.failure, after);
      AskedKeeps(closing, Okay, after);
    }
  }

  lemma AskedKeeps<D>(v: View<D>, status: Status, after: View<D>)
    ensures AskedView(v, status, after) ==> after.next == v.next && after.gone == v.gone && after.requested
  {
  }

  lemma AskMatches<P, C, D>(s: State<P, C, D>, h: History<P, C>, r: Report<D>, status: Status, gone: bool)
    requires Matches(ViewOf(s), h, r) && (s.finishStarted ==> s.finishRequested) && (r.gone ==> gone)
    ensures Matches(ViewOf(RequestFinish(s.(cancelled := gone), status)), h, Ask(r.(gone := gone), status))
  {
    hide RequestFinish, Uncredited, Same, AskedView;
    var t, q := s.(cancelled := gone), r.(gone := gone);
    AskView(t, status);
    assert ViewOf(t) == ViewOf(s).(gone := gone);
    GoneSame(ViewOf(s), r, gone);
    AskSame(ViewOf(t), q, status, ViewOf(RequestFinish(t, status)));
    AskedKeeps(ViewOf(t), status, ViewOf(RequestFinish(t, status)));
  }

  lemma GoneSame<D>(v: View<D>, r: Report<D>, gone: bool)
    requires Same(v, r)
    ensures Same(v.(gone := gone), r.(gone := gone))
  {
  }

  lemma FinishStartedRequested<P, C, D>(cfg: Config<P, C, D>, s: State<P, C, D>, h: History<P, C>)
    requires Inv(cfg, s, h)
    ensures s.finishStarted ==> s.finishRequested
    ensures s.writing ==> s.events != []
    ensures !h.planned ==> h.legs == 0 && h.cv == Waiting && s.pending == 0
    ensures h.cv != Waiting && h.delivered == map[] ==> s.next == h.first
  {
    hide InOrder, Credited, Completes, Lossless;
    if h.cv != Waiting {
      assert h.first < s.next ==> h.first in h.delivered;
    }
  }

  lemma AskedMatches<P, C, D>(s: State<P, C, D>, h: History<P, C>, r: Report<D>, status: Status)
    requires Matches(ViewOf(s), h, r) && (s.finishStarted ==> s.finishRequested)
    ensures Matches(ViewOf(RequestFinish(s, status)), h, Ask(r, status))
  {
    hide RequestFinish, Uncredited, Same, AskedView;
    AskView(s, status);
    AskSame(ViewOf(s), r, status, ViewOf(RequestFinish(s, status)));
    AskedKeeps(ViewOf(s), status, ViewOf(RequestFinish(s, status)));
    AskKeeps(r, status);
  }

  lemma AskKeeps<D>(r: Report<D>, status: Status)
    ensures Ask(r, status).next == r.next && Ask(r, status).failures == r.failures
  {
  }

  lemma CollectorIs<P, C, D>(s: State<P, C, D>, outcome: Outcome<D>, repair: bool)
    ensures s.cancelled || s.finishRequested ==> OnCollectorDone(s, outcome, repair) == s
    ensures !s.cancelled && !s.finishRequested && !outcome.status.Okay? ==>
      OnCollectorDone(s, outcome, repair) == Pump(PartDone(RecordPart(s, outcome.status), repair))
    ensures !s.cancelled && !s.finishRequested && outcome.status.Okay? && !outcome.structure.Okay? ==>
      OnCollectorDone(s, outcome, repair) == RequestFinish(s, outcome.structure)
    ensures !s.cancelled && !s.finishRequested && outcome.status.Okay? && outcome.structure.Okay? ==>
      OnCollectorDone(s, outcome, repair) == Pump(PartDone(RecordPart(PushDocument(s, outcome), Okay), repair))
  {
    hide Pump, PartDone, RecordPart, RequestFinish, PushDocument;
  }

  lemma LegReports<P, C, D>(v: View<D>, h: History<P, C>, r: Report<D>)
    requires Matches(v, h, r) && h.legs > 0
    ensures Matches(v, h.(legs := h.legs - 1), r) || !v.requested
    ensures !v.requested ==> v.pending == Out(h.(legs := h.legs - 1)) + 1
    ensures v.requested ==> Matches(v, h.(legs := h.legs - 1), r)
    ensures r.gone == v.gone && r.asked.Some? == v.requested && (v.gone ==> v.requested)
  {
    hide Same;
    SameFields(v, r);
  }

  lemma CollectorMatches<P, C, D>(cfg: Config<P, C, D>, s: State<P, C, D>, h: History<P, C>, r: Report<D>, outcome: Outcome<D>, repair: bool)
    requires Inv(cfg, s, h) && Matches(ViewOf(s), h, r) && h.legs > 0
    ensures
      var a: Action<P, C, D> := CollectorDone(outcome, repair);
      var h' := h.(legs := h.legs - 1);
      Matches(ViewOf(OnCollectorDone(s, outcome, repair)), h', Heard(r, h, h', a))
  {
    hide Inv, OnCollectorDone, PushDocument, PartDone, Pump, RequestFinish, RecordPart, Uncredited, Same, Settled, Brought, Ask, Failed;
    FinishStartedRequested(cfg, s, h);
    var h' := h.(legs := h.legs - 1);
    CollectorIs(s, outcome, repair);
    LegReports(ViewOf(s), h, r);
    if s.finishRequested {
    } else if !outcome.status.Okay? {
      FailureSettles(s, h', r, outcome.status, repair);
    } else if !outcome.structure.Okay? {
      AskedMatches(s, h, r, outcome.structure);
      AskedLeg(RequestFinish(s, outcome.structure), h, Ask(r, outcome.structure), s, outcome.structure);
    } else {
      SuccessSettles(s, h', r, outcome, repair);
    }
  }

  lemma AskedLeg<P, C, D>(t: State<P, C, D>, h: History<P, C>, r: Report<D>, s: State<P, C, D>, status: Status)
    requires Matches(ViewOf(t), h, r) && h.legs > 0 && t == RequestFinish(s, status) && (s.finishStarted ==> s.finishRequested)
    ensures Matches(ViewOf(t), h.(legs := h.legs - 1), r)
  {
    hide RequestFinish, Uncredited, Same, AskedView;
    AskView(s, status);
    AskedKeeps(ViewOf(s), status, ViewOf(t));
  }

  lemma SameFields<D>(v: View<D>, r: Report<D>)
    requires Same(v, r)
    ensures v.gone == r.gone && v.requested == r.asked.Some? && v.total == r.total && v.succeeded == r.succeeded
  {
  }

  /** A failed part settled. */
  lemma FailureSettles<P, C, D>(s: State<P, C, D>, h: History<P, C>, r: Report<D>, status: Status, repair: bool)
    requires Same(ViewOf(s), r) && (s.finishStarted ==> s.finishRequested) && (s.cancelled ==> s.finishRequested) && !status.Okay?
    requires (!s.finishRequested ==> s.pending == Out(h) + 1) && h.planned
    requires if h.cv == Waiting then s.next == r.next else h.first == r.next
    ensures Matches(ViewOf(Pump(PartDone(RecordPart(s, status), repair))), h, Settled(Failed(r, status), h, repair))
  {
    hide PartDone, Pump, Uncredited, Same, SettledView, Settled;
    var t := RecordPart(s, status);
    FailedSame(ViewOf(s), r, status);
    assert ViewOf(t) == ViewOf(s).(failure := if s.failure.Okay? then status else s.failure);
    SettleView(t, repair);
    SettledSame(ViewOf(t), h, Failed(r, status), repair, ViewOf(Pump(PartDone(t, repair))));
  }

  lemma SuccessSettles<P, C, D>(s: State<P, C, D>, h: History<P, C>, r: Report<D>, outcome: Outcome<D>, repair: bool)
    requires Same(ViewOf(s), r) && (s.finishStarted ==> s.finishRequested) && (s.cancelled ==> s.finishRequested)
    requires (!s.finishRequested ==> s.pending == Out(h) + 1) && h.planned
    requires if h.cv == Waiting then s.next == r.next else h.first == r.next
    ensures
      var q := r.(succeeded := r.succeeded + 1, announced := r.announced + Brought(outcome),
                  total := if outcome.pages == [] then r.total else Max(r.total, |outcome.pages|));
      Matches(ViewOf(Pump(PartDone(RecordPart(PushDocument(s, outcome), Okay), repair))), h, Settled(q, h, repair))
  {
    hide PartDone, Pump, Uncredited, PushDocument, SettledView, Settled, Brought;
    var q := r.(succeeded := r.succeeded + 1, announced := r.announced + Brought(outcome),
                total := if outcome.pages == [] then r.total else Max(r.total, |outcome.pages|));
    var t := RecordPart(PushDocument(s, outcome), Okay);
    DocumentView(s, outcome);
    assert Same(ViewOf(t), q);
    hide Same;
    SettleView(t, repair);
    SettledSame(ViewOf(t), h, q, repair, ViewOf(Pump(PartDone(t, repair))));
  }

  lemma SchedulerIs<P, C, D>(s: State<P, C, D>, ending: Status, contextCancelled: bool, repair: bool)
    ensures s.cancelled || contextCancelled ==> OnSchedulerFinish(s, ending, contextCancelled, repair) == RequestFinish(s, Error(Cancelled))
    ensures !s.cancelled && !contextCancelled ==>
      OnSchedulerFinish(s, ending, contextCancelled, repair) == Pump(PartDone(RecordPart(s, SchedulerStatus(s, ending)), repair))
  {
    hide Pump, PartDone, RecordPart, RequestFinish, SchedulerStatus;
  }

  /** What the scheduler reports, by the pages it delivered. */
  lemma SchedulerReports<P, C, D>(cfg: Config<P, C, D>, s: State<P, C, D>, h: History<P, C>, r: Report<D>, ending: Status)
    requires Inv(cfg, s, h) && AtRest(s) && Matches(ViewOf(s), h, r) && h.cv == Open
    ensures SchedulerStatus(s, ending) == if ending.Okay? && !EveryPage(h, r) then Error(Internal) else ending
  {
    AllDelivered(cfg, s, h);
    hide Inv, AtRest, Uncredited, Same;
    SameFields(ViewOf(s), r);
  }

  lemma RunReports<P, C, D>(v: View<D>, h: History<P, C>, r: Report<D>)
    requires Matches(v, h, r) && h.cv == Open
    ensures !v.requested ==> v.pending == Out(h.(cv := Closed)) + 1
    ensures v.requested ==> Matches(v, h.(cv := Closed), r)
    ensures r.gone == v.gone && h.first == r.next && (v.gone ==> v.requested) && Same(v, r)
  {
    hide Same;
    SameFields(v, r);
  }

  lemma SchedulerMatches<P, C, D>(cfg: Config<P, C, D>, s: State<P, C, D>, h: History<P, C>, r: Report<D>,
                                  ending: Status, contextCancelled: bool, repair: bool)
    requires Inv(cfg, s, h) && AtRest(s) && Matches(ViewOf(s), h, r) && h.cv == Open
    ensures
      var a: Action<P, C, D> := SchedulerFinish(ending, contextCancelled, repair);
      var h' := h.(cv := Closed);
      Matches(ViewOf(OnSchedulerFinish(s, ending, contextCancelled, repair)), h', Heard(r, h, h', a))
  {
    hide Inv, AtRest, OnSchedulerFinish, PartDone, Pump, RequestFinish, RecordPart, SchedulerStatus, Uncredited, Same, Settled, Ask, Failed, EveryPage;
    var h' := h.(cv := Closed);
    FinishStartedRequested(cfg, s, h);
    SchedulerIs(s, ending, contextCancelled, repair);
    SchedulerReports(cfg, s, h, r, ending);
    RunReports(ViewOf(s), h, r);
    if s.cancelled || contextCancelled {
      AskedMatches(s, h, r, Error(Cancelled));
      AskedRun(s, h, r, Error(Cancelled));
    } else if ending.Okay? && EveryPage(h, r) {
      PagesSettle(s, h', r, repair);
    } else {
      FailureSettles(s, h', r, if ending.Okay? then Error(Internal) else ending, repair);
    }
  }

  lemma AskedRun<P, C, D>(s: State<P, C, D>, h: History<P, C>, r: Report<D>, status: Status)
    requires h.cv == Open && (s.finishStarted ==> s.finishRequested)
    requires Matches(ViewOf(RequestFinish(s, status)), h, Ask(r, status))
    ensures Matches(ViewOf(RequestFinish(s, status)), h.(cv := Closed), Ask(r, status))
  {
    hide RequestFinish, Uncredited, Same, AskedView;
    AskView(s, status);
    AskedKeeps(ViewOf(s), status, ViewOf(RequestFinish(s, status)));
  }

  lemma PagesSettle<P, C, D>(s: State<P, C, D>, h: History<P, C>, r: Report<D>, repair: bool)
    requires Same(ViewOf(s), r) && (s.finishStarted ==> s.finishRequested) && (s.cancelled ==> s.finishRequested)
    requires (!s.finishRequested ==> s.pending == Out(h) + 1) && h.planned
    requires if h.cv == Waiting then s.next == r.next else h.first == r.next
    ensures Matches(ViewOf(Pump(PartDone(RecordPart(s, Okay), repair))), h, Settled(r.(succeeded := r.succeeded + 1), h, repair))
  {
    hide PartDone, Pump, Uncredited, SettledView, Settled;
    var t, q := RecordPart(s, Okay), r.(succeeded := r.succeeded + 1);
    assert Same(ViewOf(t), q);
    hide Same;
    SettleView(t, repair);
    SettledSame(ViewOf(t), h, q, repair, ViewOf(Pump(PartDone(t, repair))));
  }

  lemma GoodWriteIs<P, C, D>(s: State<P, C, D>)
    requires s.events != []
    ensures OnWriteDone(s, true) == Pump(AfterWrite(s)) && ViewOf(AfterWrite(s)) == ViewOf(s)
  {
    hide Pump, RequestFinish, Uncredited;
  }

  /** The events dropped and the buffer emptied, before the client counts as gone. */
  ghost function Dropped<P, C, D>(s: State<P, C, D>): State<P, C, D> {
    s.(events := [], writing := false, buffered := 0)
  }

  lemma FailedWriteIs<P, C, D>(s: State<P, C, D>)
    requires s.events != []
    ensures OnWriteDone(s, false) == RequestFinish(Dropped(s).(cancelled := true), Error(Cancelled))
    ensures ViewOf(Dropped(s)) == ViewOf(s)
    ensures Dropped(s).finishStarted == s.finishStarted && Dropped(s).finishRequested == s.finishRequested
  {
    hide Pump, RequestFinish, Uncredited;
  }

  lemma WriteMatches<P, C, D>(s: State<P, C, D>, h: History<P, C>, r: Report<D>, ok: bool)
    requires Matches(ViewOf(s), h, r) && (s.finishStarted ==> s.finishRequested) && s.events != []
    ensures Matches(ViewOf(OnWriteDone(s, ok)), h, if ok then r else Ask(r.(gone := true), Error(Cancelled)))
  {
    hide Pump, RequestFinish, OnWriteDone, ViewOf, Matches, Ask, AfterWrite, Dropped;
    if ok {
      GoodWriteIs(s);
      PumpView(AfterWrite(s));
    } else {
      FailedWriteIs(s);
      AskMatches(Dropped(s), h, r, Error(Cancelled), true);
    }
  }



  lemma PlanReports<P, C, D>(s: State<P, C, D>, h: History<P, C>, r: Report<D>, runnable: nat, unwired: nat)
    requires Matches(ViewOf(s), h, r) && !h.planned && h.legs == 0 && h.cv == Waiting && s.pending == 0
    ensures
      var counted := if unwired > 0 then Failed(r, Error(OtherCode(12))) else r;
      Matches(ViewOf(Planned(s, runnable, unwired)), h.(planned := true, legs := runnable), counted)
    ensures Planned(s, runnable, unwired).failure == FirstFailure(if unwired > 0 then Failed(r, Error(OtherCode(12))).failures else r.failures)
  {
    hide Uncredited, Same;
    FailedSame(ViewOf(s), r, Error(OtherCode(12)));
    PendingSame(ViewOf(s), r, runnable);
    PendingSame(ViewOf(s).(failure := if s.failure.Okay? then Error(OtherCode(12)) else s.failure), Failed(r, Error(OtherCode(12))), runnable);
    SameFailure(ViewOf(s), r);
  }

  lemma PendingSame<D>(v: View<D>, r: Report<D>, pending: nat)
    ensures Same(v, r) ==> Same(v.(pending := pending), r)
  {
  }

  lemma SameFailure<D>(v: View<D>, r: Report<D>)
    requires Same(v, r)
    ensures v.failure == FirstFailure(r.failures)
    ensures (if v.failure.Okay? then Error(OtherCode(12)) else v.failure) == FirstFailure(Failed(r, Error(OtherCode(12))).failures)
  {
    if r.failures != [] { assert r.failures[0] in r.failures; }
  }

  lemma PlanMatches<P, C, D>(cfg: Config<P, C, D>, s: State<P, C, D>, h: History<P, C>, r: Report<D>, runnable: nat, unwired: nat)
    requires Inv(cfg, s, h) && Matches(ViewOf(s), h, r) && !h.planned && runnable + unwired > 0
    ensures
      var a: Action<P, C, D> := Plan(runnable, unwired);
      var h' := h.(planned := true, legs := runnable);
      Matches(ViewOf(OnPlan(s, runnable, unwired)), h', Heard(r, h, h', a))
  {
    hide Inv, RequestFinish, OnPlan, Planned, ViewOf, Matches, Ask, Failed;
    FinishStartedRequested(cfg, s, h);
    PlanReports(s, h, r, runnable, unwired);
    PlanIs(s, runnable, unwired);
    if runnable == 0 {
      var counted := if unwired > 0 then Failed(r, Error(OtherCode(12))) else r;
      AskedMatches(Planned(s, runnable, unwired), h.(planned := true, legs := runnable), counted, Planned(s, runnable, unwired).failure);
    }
  }

  lemma StreamedMatches<P, C, D>(s: State<P, C, D>, h: History<P, C>, r: Report<D>, number: int, count: int, pages: seq<D>, cursor: C)
    requires Matches(ViewOf(s), h, r) && h.cv == Waiting
    ensures Matches(ViewOf(OnStreamedPage(s, number, count, pages, cursor)), h, Heard(r, h, h, StreamedPage(number, count, pages, cursor)))
  {
    hide Pump, Uncredited, PushPages;
    if !s.cancelled && !s.finishRequested {
      var counted := s.(total := Max(s.total, Max(count, number)), cursor := cursor);
      PushPagesView(counted, pages);
      PumpView(PushPages(counted, pages).(next := number + 1));
    }
  }

  lemma PageMatches<P, C, D>(cfg: Config<P, C, D>, s: State<P, C, D>, h: History<P, C>, r: Report<D>, number: int, page: P)
    requires Inv(cfg, s, h) && AtRest(s) && Allowed(cfg, s, h, Page(number, page)) && Matches(ViewOf(s), h, r)
    ensures Matches(ViewOf(OnPage(cfg, s, number, page)), Note(cfg, s, h, Page(number, page)), r)
  {
    hide Inv, AtRest, OnPage, Uncredited, Same, Drain;
    if !s.cancelled {
      WindowHolds(cfg, s, h, number, page);
      PageDrains(cfg, s, number, page);
      PumpView(Drain(cfg, WithPage(s, number, page)));
      DrainView(cfg, WithPage(s, number, page));
      SameNext(ViewOf(s), r, Drain(cfg, WithPage(s, number, page)).next);
    } else {
      CancelledPage(cfg, s, number, page);
    }
  }

  lemma SameNext<D>(v: View<D>, r: Report<D>, next: int)
    requires Same(v, r)
    ensures Same(v.(next := next), r)
  {
  }

  lemma CancelledPage<P, C, D>(cfg: Config<P, C, D>, s: State<P, C, D>, number: int, page: P)
    requires s.cancelled
    ensures OnPage(cfg, s, number, page) == s && !Accepts(cfg, s)
  {
  }

  lemma SubmitFailedMatches<P, C, D>(cfg: Config<P, C, D>, s: State<P, C, D>, h: History<P, C>, r: Report<D>, status: Status, repair: bool)
    requires Inv(cfg, s, h) && Matches(ViewOf(s), h, r) && h.cv == Open && !status.Okay?
    ensures Matches(ViewOf(OnSubmitFailed(s, status, repair)), h.(cv := Closed), Settled(Failed(r, status), h.(cv := Closed), repair))
  {
    hide Inv, PartDone, Pump, Uncredited, Same, Settled, Failed;
    FinishStartedRequested(cfg, s, h);
    RunReports(ViewOf(s), h, r);
    FailureSettles(s, h.(cv := Closed), r, status, repair);
  }

  lemma SubmitMatches<P, C, D>(cfg: Config<P, C, D>, s: State<P, C, D>, h: History<P, C>, r: Report<D>)
    requires Matches(ViewOf(s), h, r) && h.legs > 0 && h.cv == Waiting && h.planned
    ensures Matches(ViewOf(s), Note(cfg, s, h, SubmitCv), r)
  {
    hide Uncredited, Same;
  }

  lemma TicketView<P, C, D>(s: State<P, C, D>)
    ensures ViewOf(OnTicket(s)) == ViewOf(s)
  {
    hide Uncredited;
  }

  lemma KnownMatches<P, C, D>(cfg: Config<P, C, D>, s: State<P, C, D>, h: History<P, C>, r: Report<D>, expected: int)
    requires Inv(cfg, s, h) && Matches(ViewOf(s), h, r) && h.cv == Open && h.delivered == map[]
    ensures Matches(ViewOf(OnDocument(s, expected)), h, r.(total := r.next - 1 + expected))
  {
    FinishStartedRequested(cfg, s, h);
    hide Inv, Uncredited;
  }

  lemma NotedMatches<P, C, D>(s: State<P, C, D>, h: History<P, C>, r: Report<D>, status: Status)
    requires Matches(ViewOf(s), h, r) && h.planned && !status.Okay?
    ensures Matches(ViewOf(RecordFailure(s, status)), h, Failed(r, status))
  {
    hide Uncredited, Same;
    FailedSame(ViewOf(s), r, status);
    assert ViewOf(RecordFailure(s, status)) == ViewOf(s).(failure := if s.failure.Okay? then status else s.failure);
  }

  lemma StepMatches<P, C, D>(cfg: Config<P, C, D>, s: State<P, C, D>, h: History<P, C>, r: Report<D>, a: Action<P, C, D>)
    requires Inv(cfg, s, h) && AtRest(s) && Allowed(cfg, s, h, a) && Matches(ViewOf(s), h, r)
    ensures Matches(ViewOf(Step(cfg, s, a)), Note(cfg, s, h, a), Heard(r, h, Note(cfg, s, h, a), a))
  {
    hide Inv, AtRest, Matches, ViewOf, OnWriteDone, RequestFinish, OnPlan, OnSubmitFailed, OnPage, OnStreamedPage,
      OnSchedulerFinish, OnCollectorDone, OnTicket, OnDocument, RecordFailure, Settled, Ask, Failed, EveryPage;
    FinishStartedRequested(cfg, s, h);
    match a
    case WriteDone(ok) => WriteNoted(s, h, r, ok);
    case Cancel => CancelMatches(s, h, r);
    case Fault(status) => AskedMatches(s, h, r, status);
    case Plan(runnable, unwired) => PlanMatches(cfg, s, h, r, runnable, unwired);
    case SubmitCv => SubmitMatches(cfg, s, h, r);
    case TicketReady => TicketView(s);
    case SubmitFailed(status, repair) => SubmitFailedMatches(cfg, s, h, r, status, repair);
    case PagesKnown(expected) => KnownMatches(cfg, s, h, r, expected);
    case Page(number, page) => PageMatches(cfg, s, h, r, number, page);
    case StreamedPage(number, count, pages, cursor) => StreamedMatches(s, h, r, number, count, pages, cursor);
    case SchedulerFinish(ending, contextCancelled, repair) => SchedulerMatches(cfg, s, h, r, ending, contextCancelled, repair);
    case CollectorDone(outcome, repair) => CollectorMatches(cfg, s, h, r, outcome, repair);
    case NoteFailure(status) => NotedMatches(s, h, r, status);
  }

  lemma WriteNoted<P, C, D>(s: State<P, C, D>, h: History<P, C>, r: Report<D>, ok: bool)
    requires Matches(ViewOf(s), h, r) && (s.finishStarted ==> s.finishRequested) && s.events != []
    ensures Matches(ViewOf(OnWriteDone(s, ok)), h.(writesDone := h.writesDone + 1), if ok then r else Ask(r.(gone := true), Error(Cancelled)))
  {
    WriteMatches(s, h, r, ok);
    hide ViewOf, OnWriteDone, Same, Ask;
  }

  lemma CancelMatches<P, C, D>(s: State<P, C, D>, h: History<P, C>, r: Report<D>)
    requires Matches(ViewOf(s), h, r) && (s.finishStarted ==> s.finishRequested)
    ensures Matches(ViewOf(OnCancel(s)), h, Ask(r.(gone := true), Error(Cancelled)))
  {
    AskMatches(s, h, r, Error(Cancelled), true);
    hide ViewOf, RequestFinish, Matches, Ask;
  }

  lemma {:induction false} RunMatches<P, C, D>(cfg: Config<P, C, D>, cursor: C, actions: seq<Action<P, C, D>>)
    requires AllowedRun(cfg, cursor, actions)
    ensures Matches(ViewOf(Run(cfg, cursor, actions).0), Run(cfg, cursor, actions).1, Reported(cfg, cursor, actions))
  {
    hide Matches, ViewOf, Heard, Step, Note, Allowed, Inv, AtRest;
    if actions == [] {
      NothingMatches<P, C, D>(cursor);
    } else {
      var before := actions[..|actions| - 1];
      RunMatches(cfg, cursor, before);
      RunInv(cfg, cursor, before);
      var (s, h) := Run(cfg, cursor, before);
      StepMatches(cfg, s, h, Reported(cfg, cursor, before), actions[|actions| - 1]);
    }
  }

  lemma NothingMatches<P, C, D>(cursor: C)
    ensures Matches(ViewOf(Initial<P, C, D>(cursor)), NoHistory<P, C>(cursor), Nothing())
  {
  }

  // ----- What the call makes of it.

  /** Over every run: the counters are what was reported, the call is asked to finish exactly when a report
      asks for it, and an error once asked for is its status. */
  lemma ReportsDecide<P, C, D>(cfg: Config<P, C, D>, cursor: C, actions: seq<Action<P, C, D>>)
    requires AllowedRun(cfg, cursor, actions)
    ensures
      var (s, r) := (Run(cfg, cursor, actions).0, Reported(cfg, cursor, actions));
      && s.succeeded == r.succeeded && s.failure == FirstFailure(r.failures) && s.total == r.total
      && (s.finishRequested <==> r.asked.Some?)
      && (r.asked.Some? && !r.asked.value.Okay? ==> s.finishStatus == r.asked.value)
      && (s.finishRequested && s.finishStatus.Okay? ==> r.asked == Some(Okay))
  {
    hide Run, Reported, AllowedRun, Uncredited;
    RunMatches(cfg, cursor, actions);
  }

  /** Over every run: the queue holds, besides the scheduler's pages, what was announced and in that order:
      the streamed pages, every successful collector's document behind its own pages, the complete event. */
  lemma QueueIsAnnounced<P, C, D>(cfg: Config<P, C, D>, cursor: C, actions: seq<Action<P, C, D>>)
    requires AllowedRun(cfg, cursor, actions)
    ensures Uncredited(Run(cfg, cursor, actions).0.queued) == Reported(cfg, cursor, actions).announced
  {
    hide Run, Reported, AllowedRun, Uncredited;
    RunMatches(cfg, cursor, actions);
  }

  /** A good finish was asked for by the last part, some part having reported success. */
  ghost predicate WellAsked<D>(r: Report<D>) {
    r.asked == Some(Okay) ==> r.succeeded > 0 && r.announced != [] && r.announced[|r.announced| - 1].CompleteEvent?
  }

  lemma SettledWell<P, C, D>(r: Report<D>, h: History<P, C>, repair: bool)
    requires WellAsked(r) && (forall f :: f in r.failures ==> !f.Okay?)
    ensures WellAsked(Settled(r, h, repair))
  {
    if r.failures != [] { assert r.failures[0] in r.failures; }
    var closed := r.announced + Closing(repair);
    assert closed[|closed| - 1] == Closing<D>(repair)[|Closing<D>(repair)| - 1];
  }

  lemma PlanWell<D>(r: Report<D>, unwired: nat)
    requires WellAsked(r) && (forall f :: f in r.failures ==> !f.Okay?) && unwired > 0
    ensures WellAsked(Ask(Failed(r, Error(OtherCode(12))), FirstFailure(Failed(r, Error(OtherCode(12))).failures)))
  {
    if r.failures != [] { assert r.failures[0] in r.failures; }
  }

  lemma HeardWell<P, C, D>(r: Report<D>, h: History<P, C>, h': History<P, C>, a: Action<P, C, D>)
    requires WellAsked(r) && (forall f :: f in r.failures ==> !f.Okay?)
    requires match a
             case Fault(status) => !status.Okay?
             case Plan(runnable, unwired) => runnable + unwired > 0
             case SubmitFailed(status, _) => !status.Okay?
             case _ => true
    ensures WellAsked(Heard(r, h, h', a))
  {
    hide EveryPage, Pages, Brought, Settled, Closing;
    match a
    case Plan(runnable, unwired) => if unwired > 0 { PlanWell(r, unwired); }
    case SubmitFailed(status, repair) => SettledWell(Failed(r, status), h', repair);
    case SchedulerFinish(ending, contextCancelled, repair) =>
      SettledWell(r.(succeeded := r.succeeded + 1), h', repair);
      var failure := if ending.Okay? then Error(Internal) else ending;
      SettledWell(Failed(r, failure), h', repair);
    case CollectorDone(outcome, repair) =>
      if r.asked.None? {
        if !outcome.status.Okay? { SettledWell(Failed(r, outcome.status), h', repair); }
        SettledWell(r.(succeeded := r.succeeded + 1, announced := r.announced + Brought(outcome),
                       total := if outcome.pages == [] then r.total else Max(r.total, |outcome.pages|)), h', repair);
      }
    case _ =>
  }

  lemma {:induction false} RunWell<P, C, D>(cfg: Config<P, C, D>, cursor: C, actions: seq<Action<P, C, D>>)
    requires AllowedRun(cfg, cursor, actions)
    ensures WellAsked(Reported(cfg, cursor, actions))
  {
    hide WellAsked, Heard, Step, Note, Matches, ViewOf;
    if actions == [] {
      NothingWell<D>();
    } else {
      var before, a := actions[..|actions| - 1], actions[|actions| - 1];
      RunWell(cfg, cursor, before);
      RunMatches(cfg, cursor, before);
      ReportedErrors(ViewOf(Run(cfg, cursor, before).0), Run(cfg, cursor, before).1, Reported(cfg, cursor, before));
      HeardWell(Reported(cfg, cursor, before), Run(cfg, cursor, before).1, Run(cfg, cursor, actions).1, a);
    }
  }

  lemma NothingWell<D>()
    ensures WellAsked(Nothing<D>())
  {
  }

  lemma ReportedErrors<P, C, D>(v: View<D>, h: History<P, C>, r: Report<D>)
    requires Matches(v, h, r)
    ensures forall f :: f in r.failures ==> !f.Okay?
  {
  }

  /** Finish is called at most once. A call that finished well had some part report success, exactly one
      complete event, queued last, and every event ever queued written, in order. */
  lemma FinishedWell<P, C, D>(cfg: Config<P, C, D>, cursor: C, actions: seq<Action<P, C, D>>)
    requires AllowedRun(cfg, cursor, actions)
    ensures
      var (s, r) := (Run(cfg, cursor, actions).0, Reported(cfg, cursor, actions));
      && |s.finishes| <= 1
      && (s.finishes == [Okay] ==>
            && r.asked == Some(Okay) && r.succeeded > 0
            && Completes(s.queued) == 1
            && s.queued[|s.queued| - 1].CompleteEvent?
            && s.written == s.queued
            && s.pending == 0)
  {
    hide Run, Reported, AllowedRun, Completes, Uncredited;
    FinishesOnce(cfg, cursor, actions);
    ReportsDecide(cfg, cursor, actions);
    RunWell(cfg, cursor, actions);
  }

  lemma {:induction false} PushPagesQueue<P, C, D>(s: State<P, C, D>, pages: seq<D>)
    ensures PushPages(s, pages).queued == s.queued + Pages(pages)
  {
    if pages == [] {
      assert s.queued + Pages(pages) == s.queued;
    } else {
      var before, last := pages[..|pages| - 1], PageEvent(pages[|pages| - 1], false);
      PushPagesQueue(s, before);
      assert Pages(pages) == Pages(before) + [last];
      assert s.queued + Pages(before) + [last] == s.queued + Pages(pages);
    }
  }

  lemma DocumentQueue<P, C, D>(s: State<P, C, D>, outcome: Outcome<D>)
    ensures PushDocument(s, outcome).queued == s.queued + Brought(outcome)
  {
    hide PushPages, Pages;
    PushPagesQueue(s.(total := if outcome.pages == [] then s.total else Max(s.total, |outcome.pages|)), outcome.pages);
    BroughtIs(s.queued, outcome);
  }

  lemma PartDoneQueue<P, C, D>(s: State<P, C, D>, repair: bool)
    ensures s.queued <= Pump(PartDone(s, repair)).queued
  {
    hide RequestFinish, Pump, PartDone;
    PartDoneIs(s, repair);
    PumpFrame(PartDone(s, repair));
    var settled := s.(pending := if s.pending > 0 then s.pending - 1 else 0);
    FinishFrame(settled, if s.failure.Okay? then Error(Internal) else s.failure);
    FinishFrame(Push(if repair then Push(settled, RepairEvent) else settled, CompleteEvent), Okay);
  }

  /** A successful collector's pages, repair event and document are queued together, with nothing between. */
  lemma DocumentInOnePiece<P, C, D>(s: State<P, C, D>, outcome: Outcome<D>, repair: bool)
    requires !s.cancelled && !s.finishRequested && outcome.status.Okay? && outcome.structure.Okay?
    ensures s.queued + Brought(outcome) <= OnCollectorDone(s, outcome, repair).queued
  {
    hide Pump, PartDone, PushDocument, OnCollectorDone, Brought;
    CollectorIs(s, outcome, repair);
    DocumentQueue(s, outcome);
    PartDoneQueue(RecordPart(PushDocument(s, outcome), Okay), repair);
  }

  // ----- A call the environment does not break off.

  /** The action is no cancellation, fault or failed write, and breaks no enforced rule. */
  predicate Undisturbing<P, C, D>(a: Action<P, C, D>) {
    match a
    case WriteDone(ok) => ok
    case Cancel => false
    case Fault(_) => false
    case SchedulerFinish(_, contextCancelled, _) => !contextCancelled
    case CollectorDone(outcome, _) => outcome.status.Okay? ==> outcome.structure.Okay?
    case _ => true
  }

  /** The verdict of the parts: good if one succeeded, else the first failure's. */
  ghost function Verdict<D>(r: Report<D>): Status {
    if r.succeeded > 0 then Okay else FirstFailure(r.failures)
  }

  ghost predicate DecidedByParts<P, C, D>(h: History<P, C>, r: Report<D>) {
    && !r.gone && !r.spoiled
    && (r.asked.Some? <==> h.planned && !PartsOut(h))
    && (r.asked.Some? ==> r.asked.value == Verdict(r) && (r.succeeded == 0 ==> r.failures != []))
    && (!h.planned ==> h.legs == 0 && h.cv == Waiting && r.succeeded == 0 && r.failures == [])
  }

  lemma HeardDecides<P, C, D>(cfg: Config<P, C, D>, s: State<P, C, D>, h: History<P, C>, r: Report<D>, a: Action<P, C, D>)
    requires DecidedByParts(h, r) && Allowed(cfg, s, h, a) && Undisturbing(a)
    ensures DecidedByParts(Note(cfg, s, h, a), Heard(r, h, Note(cfg, s, h, a), a))
  {
    hide EveryPage, Pages, Brought, Accepts;
  }

  lemma {:induction false} RunDecided<P, C, D>(cfg: Config<P, C, D>, cursor: C, actions: seq<Action<P, C, D>>)
    requires AllowedRun(cfg, cursor, actions) && forall a :: a in actions ==> Undisturbing(a)
    ensures DecidedByParts(Run(cfg, cursor, actions).1, Reported(cfg, cursor, actions))
  {
    hide DecidedByParts, Heard, Step, Note, Undisturbing, Allowed;
    if actions == [] {
      NothingDecided<P, C, D>(cursor);
    } else {
      var before, a := actions[..|actions| - 1], actions[|actions| - 1];
      RunDecided(cfg, cursor, before);
      HeardDecides(cfg, Run(cfg, cursor, before).0, Run(cfg, cursor, before).1, Reported(cfg, cursor, before), a);
    }
  }

  lemma NothingDecided<P, C, D>(cursor: C)
    ensures DecidedByParts(NoHistory<P, C>(cursor), Nothing<D>())
  {
  }

  /** Without cancellation, fault or failed write, the parts decide: the call is asked to finish exactly when
      the plan is made and every part has reported, well if one of them succeeded and with the first failure's
      status if none did. */
  lemma PartsDecide<P, C, D>(cfg: Config<P, C, D>, cursor: C, actions: seq<Action<P, C, D>>)
    requires AllowedRun(cfg, cursor, actions) && forall a :: a in actions ==> Undisturbing(a)
    ensures
      var ((s, h), r) := (Run(cfg, cursor, actions), Reported(cfg, cursor, actions));
      && (s.finishRequested <==> h.planned && !PartsOut(h))
      && (s.finishRequested ==> s.finishStatus == if r.succeeded > 0 then Okay else FirstFailure(r.failures))
      && (s.finishRequested && r.succeeded == 0 ==> r.failures != [])
  {
    hide Run, Reported, AllowedRun, Undisturbing, Uncredited, PartsOut;
    RunDecided(cfg, cursor, actions);
    RunMatches(cfg, cursor, actions);
  }
}
