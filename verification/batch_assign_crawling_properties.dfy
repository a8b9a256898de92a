/** Properties of the crawl dispatcher across items: the fan-out is a
    bijection onto the tokens, items run in worklist order, and a failure
    stops every later item. */
module BatchAssignCrawlingProperties {
  import opened Wrappers
  import opened PerformanceValue
  import opened BatchAssignCrawling

  /** Reading the tokens back off the events gives the year-month list
      itself: nothing dropped, merged or reordered. */
  lemma {:induction false} EventsCarryEveryToken(item: Item, months: seq<string>)
    ensures MonthsOf(EventsFor(item, months)) == months
  {
    if months != [] {
      EventsCarryEveryToken(item, months[1..]);
      assert months == [months[0]] + months[1..];
      var events := EventsFor(item, months);
      assert events[1..] == EventsFor(item, months[1..]);
    }
  }

  lemma {:induction false} LoopAppend(a: seq<Item>, b: seq<Item>, n: nat, step: (Item, nat) -> Run)
    ensures Loop(a + b, n, step) ==
      var first := Loop(a, n, step);
      if first.failure.Some? then first
      else Run(first.calls + Loop(b, n + |a|, step).calls, Loop(b, n + |a|, step).failure)
  {
    if a == [] {
      assert a + b == b;
    } else {
      assert (a + b)[0] == a[0];
      assert (a + b)[1..] == a[1..] + b;
      LoopAppend(a[1..], b, n + 1, step);
      var head := step(a[0], n);
      if head.failure.None? {
        var mid := Loop(a[1..], n + 1, step);
        var rest := Loop(b, n + |a|, step);
        if mid.failure.None? {
          assert head.calls + (mid.calls + rest.calls) == (head.calls + mid.calls) + rest.calls;
        }
      }
    }
  }

  /** Running a worklist is running its first part and, unless that part
      failed, then running the rest: the rest is never started after a
      failure, and its calls come after all of the first part's. */
  lemma DispatchAppend(a: seq<Item>, b: seq<Item>, n: nat, c: Collaborators)
    ensures Dispatch(a + b, n, c) ==
      var first := Dispatch(a, n, c);
      if first.failure.Some? then first
      else Run(first.calls + Dispatch(b, n + |a|, c).calls, Dispatch(b, n + |a|, c).failure)
  {
    LoopAppend(a, b, n, StepOf(c));
  }

  /** A worklist of one item runs just that item. */
  lemma DispatchSingle(item: Item, n: nat, c: Collaborators)
    ensures Dispatch([item], n, c) == DispatchItem(item, n, c)
  {
    var head := DispatchItem(item, n, c);
    assert [item][1..] == [];
    assert StepOf(c)(item, n) == head;
    assert Loop([item][1..], n + 1, StepOf(c)) == Run([], None);
    if head.failure.None? {
      assert head.calls + [] == head.calls;
      assert head == Run(head.calls, None);
    }
  }

  /** A step's own calls open the loop over a worklist it heads. */
  lemma HeadCallsComeFirst(item: Item, rest: seq<Item>, n: nat, step: (Item, nat) -> Run)
    ensures var own := step(item, n).calls;
      |own| <= |Loop([item] + rest, n, step).calls| && Loop([item] + rest, n, step).calls[..|own|] == own
  {
    assert ([item] + rest)[0] == item && ([item] + rest)[1..] == rest;
  }

  /** Once a part of the worklist has failed, nothing after it runs. */
  lemma FailedPartStops(a: seq<Item>, b: seq<Item>, n: nat, c: Collaborators)
    requires Dispatch(a, n, c).failure.Some?
    ensures Dispatch(a + b, n, c) == Dispatch(a, n, c)
  {
    DispatchAppend(a, b, n, c);
  }

  /** After a part that went through, the next item decides the failure. */
  lemma NextItemDecides(a: seq<Item>, item: Item, n: nat, c: Collaborators)
    requires Dispatch(a, n, c).failure.None?
    ensures Dispatch(a + [item], n, c).failure == DispatchItem(item, n + |a|, c).failure
  {
    DispatchAppend(a, [item], n, c);
    DispatchSingle(item, n + |a|, c);
  }

  /** `p` is an initial segment of `s`. */
  ghost predicate IsPrefix<T>(p: seq<T>, s: seq<T>)
  {
    |p| <= |s| && s[..|p|] == p
  }

  lemma PrefixOfAppend<T>(x: seq<T>, y: seq<T>, z: seq<T>)
    requires |z| <= |y| && y[..|z|] == z
    ensures IsPrefix(x + z, x + y)
  {
    assert (x + y)[..|x| + |z|] == x + y[..|z|];
  }

  lemma SplitAt<T>(s: seq<T>, k: nat)
    requires k < |s|
    ensures s == s[..k] + ([s[k]] + s[k + 1..])
  {
  }

  /** The loop runs its steps in worklist order: once every step before
      offset `k` has gone through, step `k`'s calls follow all of theirs. */
  lemma LoopRunsInOrder(items: seq<Item>, k: nat, n: nat, step: (Item, nat) -> Run)
    requires k < |items|
    requires Loop(items[..k], n, step).failure.None?
    ensures
      var before := Loop(items[..k], n, step).calls;
      var own := step(items[k], n + k).calls;
      IsPrefix(before + own, Loop(items, n, step).calls)
  {
    var rest := [items[k]] + items[k + 1..];
    SplitAt(items, k);
    LoopAppend(items[..k], rest, n, step);
    HeadCallsComeFirst(items[k], items[k + 1..], n + k, step);
    PrefixOfAppend(Loop(items[..k], n, step).calls, Loop(rest, n + k, step).calls, step(items[k], n + k).calls);
  }

  /** Items run in worklist order: once every item before `k` has succeeded,
      item `k`'s calls follow all of theirs directly. */
  lemma ItemsRunInOrder(items: seq<Item>, k: nat, c: Collaborators)
    requires k < |items|
    requires Execute(items[..k], c).failure.None?
    ensures
      var before := Execute(items[..k], c).calls;
      var own := DispatchItem(items[k], k, c).calls;
      IsPrefix(before + own, Execute(items, c).calls)
  {
    ExecuteIsLoop(items, c);
    ExecuteIsLoop(items[..k], c);
    assert StepOf(c)(items[k], 0 + k) == DispatchItem(items[k], k, c);
    LoopRunsInOrder(items, k, 0, StepOf(c));
  }

  /** `execute` is the worklist loop from position 0. */
  lemma ExecuteIsLoop(items: seq<Item>, c: Collaborators)
    ensures Execute(items, c) == Loop(items, 0, StepOf(c))
  {
  }

  /** A failing item ends the run: the run is the run of the worklist cut
      just after that item, and logs that item's failure. */
  lemma FailureStopsLaterItems(items: seq<Item>, k: nat, c: Collaborators)
    requires k < |items|
    requires forall j :: 0 <= j < k ==> ItemSucceeds(items[j], j, c)
    requires !ItemSucceeds(items[k], k, c)
    ensures Execute(items, c) == Execute(items[..k + 1], c)
    ensures Execute(items, c).failure == DispatchItem(items[k], k, c).failure
  {
    var a := items[..k];
    assert Dispatch(a, 0, c).failure.None? by {
      forall j: nat | j < k ensures ItemSucceedsAt(a, 0, j, c) {
        assert a[j] == items[j];
      }
    }
    assert items[..k + 1] == a + [items[k]];
    NextItemDecides(a, items[k], 0, c);
    assert items == items[..k + 1] + items[k + 1..];
    FailedPartStops(items[..k + 1], items[k + 1..], 0, c);
  }

  /** The worked configuration: one item (code 1011, koenKi 6) whose session
      lists 2024-05 and 2024-06 gives exactly two puts, one per month. */
  lemma OneItemTwoMonths(c: Collaborators, session: Session)
    requires c.getSession(0) == Some(session)
    requires c.getYearAndMonthList(session, PerformanceCode("1011"), "6") == Some(["2024-05", "2024-06"])
    ensures Execute([Item(PerformanceCode("1011"), "6")], c).calls ==
      [ GetSession,
        GetYearAndMonthList(session, PerformanceCode("1011"), "6"),
        PutEvents(Event(AssignCrawling, BatchAssignCrawlingDetail("1011", "2024-05", "6"))),
        PutEvents(Event(AssignCrawling, BatchAssignCrawlingDetail("1011", "2024-06", "6"))) ]
  {
    var item := Item(PerformanceCode("1011"), "6");
    DispatchSingle(item, 0, c);
    assert |DispatchItem(item, 0, c).calls| == 4;
  }

  /** Two identical items whose sessions both list one month put the same
      event twice. When the first item's put succeeds and the second's
      rejects, the first item goes through, the second fails, and the run
      logs the put failure after both items' calls. */
  lemma EqualPutsFailApart(c: Collaborators, item: Item, session: Session, month: string)
    requires c.getSession(0) == Some(session) && c.getSession(1) == Some(session)
    requires c.getYearAndMonthList(session, item.performanceCode, item.koenKi) == Some([month])
    requires c.putEvents(0, 0, EventFor(item, month)) && !c.putEvents(1, 0, EventFor(item, month))
    ensures ItemSucceeds(item, 0, c) && !ItemSucceeds(item, 1, c)
    ensures Execute([item, item], c).failure == Some(PutEventsFailure)
    ensures |Execute([item, item], c).calls| == 6
  {
    assert EventsFor(item, [month]) == [EventFor(item, month)];
    DispatchSingle(item, 1, c);
    DispatchAppend([item], [item], 0, c);
  }
}
