/** The crawl dispatcher (`BatchAssignCrawlingController.execute`): for each
    tracked (performance code, koenKi) item, in order, it opens a session,
    asks for the year-month tokens the performance can be crawled by, and puts
    one AssignCrawling event per token on the event bus. Any error ends the
    run; the handler logs it and returns normally.

    The crawling invoker and the event bus are oracles; the run is described
    by the calls it makes, in order, and the failure it logged, if any. */
module BatchAssignCrawling {
  import opened Wrappers
  import opened PerformanceValue

  /** A crawling session, only passed back to the invoker. */
  datatype Session = Session(id: string)

  /** One entry of the worklist: a performance and its koenKi (the period
      qualifier the crawler's calendar is organised by). */
  datatype Item = Item(performanceCode: PerformanceCode, koenKi: string)

  datatype DetailType = AssignCrawling

  /** The event payload: code, year-month token, koenKi. */
  datatype BatchAssignCrawlingDetail = BatchAssignCrawlingDetail(performanceCode: string, yyyymm: string, koenKi: string)

  datatype Event = Event(detailType: DetailType, detail: BatchAssignCrawlingDetail)

  /** A call the dispatcher makes to a collaborator. */
  datatype Call =
    | GetSession
    | GetYearAndMonthList(session: Session, performanceCode: PerformanceCode, koenKi: string)
    | PutEvents(event: Event)

  /** Which collaborator call rejected. */
  datatype Failure = SessionFailure | YearAndMonthListFailure | PutEventsFailure

  /** The collaborators' answers. `getSession` is indexed by how many sessions
      the run has asked for before. `putEvents(n, i, event)` is the outcome of
      the `i`-th put the `n`-th item issues, so every put call has an outcome
      of its own, even for equal events. `None` and `false` are rejections. */
  datatype Collaborators = Collaborators(
    getSession: nat -> Option<Session>,
    getYearAndMonthList: (Session, PerformanceCode, string) -> Option<seq<string>>,
    putEvents: (nat, nat, Event) -> bool
  )

  /** The calls of a run, in the order they are issued, and the error the
      handler logged. */
  datatype Run = Run(calls: seq<Call>, failure: Option<Failure>)

  function EventFor(item: Item, yyyymm: string): Event
  {
    Event(AssignCrawling, BatchAssignCrawlingDetail(item.performanceCode.ToString(), yyyymm, item.koenKi))
  }

  /** One event per token, in token order, duplicates kept. */
  function EventsFor(item: Item, months: seq<string>): (events: seq<Event>)
    ensures |events| == |months|
    ensures forall i :: 0 <= i < |months| ==>
      && events[i].detailType == AssignCrawling
      && events[i].detail.performanceCode == item.performanceCode.value
      && events[i].detail.yyyymm == months[i]
      && events[i].detail.koenKi == item.koenKi
  {
    if months == [] then [] else [EventFor(item, months[0])] + EventsFor(item, months[1..])
  }

  /** The year-month token each event carries. */
  function MonthsOf(events: seq<Event>): (months: seq<string>)
    ensures |months| == |events|
  {
    if events == [] then [] else [events[0].detail.yyyymm] + MonthsOf(events[1..])
  }

  function PutAll(events: seq<Event>): (calls: seq<Call>)
    ensures |calls| == |events|
    ensures forall i :: 0 <= i < |events| ==> calls[i] == PutEvents(events[i])
  {
    if events == [] then [] else [PutEvents(events[0])] + PutAll(events[1..])
  }

  /** Every put the `n`-th item issues succeeds. */
  predicate AllPut(events: seq<Event>, n: nat, putEvents: (nat, nat, Event) -> bool)
  {
    forall i :: 0 <= i < |events| ==> putEvents(n, i, events[i])
  }

  /** Reference definition: the `n`-th item goes through iff it gets a
      session, then a year-month list, and every put of its events succeeds. */
  predicate ItemSucceeds(item: Item, n: nat, c: Collaborators)
  {
    && c.getSession(n).Some?
    && c.getYearAndMonthList(c.getSession(n).value, item.performanceCode, item.koenKi).Some?
    && AllPut(EventsFor(item, c.getYearAndMonthList(c.getSession(n).value, item.performanceCode, item.koenKi).value), n, c.putEvents)
  }

  /** One iteration of the loop, for the `n`-th item. */
  function DispatchItem(item: Item, n: nat, c: Collaborators): (run: Run)
    ensures run.failure.None? <==> ItemSucceeds(item, n, c)
    // the session comes first, the year-month list second, the events after both
    ensures |run.calls| >= 1 && run.calls[0] == GetSession
    ensures forall i :: 0 <= i < |run.calls| && !run.calls[i].PutEvents? ==> i <= 1
    ensures forall i :: 0 <= i < |run.calls| && run.calls[i].PutEvents? ==> 2 <= i && run.calls[1].GetYearAndMonthList?
    // a rejected session stops the item before anything else
    ensures c.getSession(n).None? <==> run.failure == Some(SessionFailure)
    ensures c.getSession(n).None? ==> run.calls == [GetSession]
    // with a session, the list is asked for this item's code and koenKi
    ensures c.getSession(n).Some? ==>
      |run.calls| >= 2 && run.calls[1] == GetYearAndMonthList(c.getSession(n).value, item.performanceCode, item.koenKi)
    // with a year-month list, exactly one put per token, in token order
    ensures c.getSession(n).Some? ==>
      var months := c.getYearAndMonthList(c.getSession(n).value, item.performanceCode, item.koenKi);
      && (months.None? ==> |run.calls| == 2 && run.failure == Some(YearAndMonthListFailure))
      && (months.Some? ==>
            && |run.calls| == 2 + |months.value|
            && (forall i :: 0 <= i < |months.value| ==> run.calls[2 + i] == PutEvents(EventFor(item, months.value[i])))
            && (run.failure.Some? ==> run.failure == Some(PutEventsFailure)))
  {
    match c.getSession(n)
    case None => Run([GetSession], Some(SessionFailure))
    case Some(session) =>
      var ask := [GetSession, GetYearAndMonthList(session, item.performanceCode, item.koenKi)];
      match c.getYearAndMonthList(session, item.performanceCode, item.koenKi)
      case None => Run(ask, Some(YearAndMonthListFailure))
      case Some(months) =>
        var events := EventsFor(item, months);
        Run(ask + PutAll(events), if AllPut(events, n, c.putEvents) then None else Some(PutEventsFailure))
  }

  function StepOf(c: Collaborators): (Item, nat) -> Run
  {
    (item: Item, n: nat) => DispatchItem(item, n, c)
  }

  /** The step for the item at offset `k` of a worklist whose first item is
      numbered `n` goes through. */
  predicate StepSucceeds(items: seq<Item>, n: nat, k: nat, step: (Item, nat) -> Run)
    requires k < |items|
  {
    step(items[k], n + k).failure.None?
  }

  /** The worklist loop from the `n`-th item on, for any per-item step:
      each item's step in turn, all of an item's calls before the next item
      starts, and the first failure ends the loop. */
  function Loop(items: seq<Item>, n: nat, step: (Item, nat) -> Run): Run
    decreases |items|
  {
    if items == [] then Run([], None)
    else
      var head := step(items[0], n);
      if head.failure.Some? then head
      else
        var tail := Loop(items[1..], n + 1, step);
        Run(head.calls + tail.calls, tail.failure)
  }

  /** The loop ends without a failure iff every item's step goes through. */
  lemma {:induction false} LoopSucceedsIffEveryStepDoes(items: seq<Item>, n: nat, step: (Item, nat) -> Run)
    ensures Loop(items, n, step).failure.None? <==> forall k: nat :: k < |items| ==> StepSucceeds(items, n, k, step)
    decreases |items|
  {
    if items != [] {
      if step(items[0], n).failure.Some? {
        assert !StepSucceeds(items, n, 0, step);
      } else {
        assert StepSucceeds(items, n, 0, step);
      }
      LoopSucceedsIffEveryStepDoes(items[1..], n + 1, step);
      forall j: nat {:trigger StepSucceeds(items[1..], n + 1, j, step)} | j < |items[1..]|
        ensures StepSucceeds(items[1..], n + 1, j, step) == StepSucceeds(items, n, j + 1, step)
      {
        assert items[1..][j] == items[j + 1];
      }
      assert forall k: nat :: 1 <= k < |items| ==> StepSucceeds(items, n, k, step) == StepSucceeds(items[1..], n + 1, k - 1, step);
    }
  }

  /** The item at offset `k` of a worklist whose first item is numbered `n`
      goes through. */
  predicate ItemSucceedsAt(items: seq<Item>, n: nat, k: nat, c: Collaborators)
    requires k < |items|
  {
    ItemSucceeds(items[k], n + k, c)
  }

  /** The items of a worklist, the first one numbered `n`. */
  function Dispatch(items: seq<Item>, n: nat, c: Collaborators): (run: Run)
    ensures run.failure.None? <==> forall k: nat :: k < |items| ==> ItemSucceedsAt(items, n, k, c)
  {
    assert forall k: nat :: k < |items| ==> StepSucceeds(items, n, k, StepOf(c)) == ItemSucceedsAt(items, n, k, c) by {
      forall k: nat | k < |items| ensures StepSucceeds(items, n, k, StepOf(c)) == ItemSucceedsAt(items, n, k, c) {
        assert StepOf(c)(items[k], n + k) == DispatchItem(items[k], n + k, c);
      }
    }
    LoopSucceedsIffEveryStepDoes(items, n, StepOf(c));
    Loop(items, n, StepOf(c))
  }

  /** `execute` over a worklist. It returns normally whatever happens, and
      the run ends without a logged failure iff every item goes through. */
  function Execute(items: seq<Item>, c: Collaborators): (run: Run)
    ensures run.failure.None? <==> forall k: nat {:trigger ItemSucceeds(items[k], k, c)} :: k < |items| ==> ItemSucceeds(items[k], k, c)
    ensures items == [] ==> run == Run([], None)
  {
    assert forall k: nat :: k < |items| ==> ItemSucceedsAt(items, 0, k, c) == ItemSucceeds(items[k], k, c);
    Dispatch(items, 0, c)
  }
}
