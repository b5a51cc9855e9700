/**
 * The `when_any` test scenarios, each run against the race operation
 * state: children built from `just`, `just_error` and `just_stopped`
 * complete inside their own `start`; children on the thread scheduler
 * complete later, as separate events.
 */
module RaceScenarios {
  import opened Environment
  import opened Holders
  import opened WhenAny
  import opened RaceOperations

  /** Two children that both complete inside their own start arrive in start order. */
  lemma SyncPair(a: Completion<int>, b: Completion<int>)
    ensures SyncArrivals([Some(a), Some(b)], 2) == [ChildDone(0, a), ChildDone(1, b)]
  {
    SyncArrivalsInOrder([Some(a), Some(b)], 2);
  }

  /** Connect and start a race over two synchronous children; return what the receiver saw. */
  method RaceTwo(p: Policy, a: Completion<int>, b: Completion<int>) returns (delivered: seq<Completion<int>>)
    ensures delivered == [Call(Outcome(p, [ChildDone(0, a), ChildDone(1, b)]))]
  {
    var op := new RaceOperation<int>(p, 2, false);
    op.Start([Some(a), Some(b)]);
    SyncPair(a, b);
    delivered := op.state.delivered;
  }

  /** `when_any(just(42), just(17))` completes once, with 42. */
  method WhenAnyFirstValue() returns (delivered: seq<Completion<int>>)
    ensures delivered == [SetValue([42])]
  {
    delivered := RaceTwo(WhenAnyPolicy, SetValue([42]), SetValue([17]));
    FirstArrivalWins(WhenAnyPolicy, [ChildDone(0, SetValue([42])), ChildDone(1, SetValue([17]))]);
  }

  /** `when_any(just_error(42), just_error(17))` completes once, with error 42. */
  method WhenAnyFirstError() returns (delivered: seq<Completion<int>>)
    ensures delivered == [SetError(42)]
  {
    delivered := RaceTwo(WhenAnyPolicy, SetError(42), SetError(17));
    FirstArrivalWins(WhenAnyPolicy, [ChildDone(0, SetError(42)), ChildDone(1, SetError(17))]);
  }

  /** `when_any(just_stopped(), just_stopped())` completes once, stopped. */
  method WhenAnyAllStopped() returns (delivered: seq<Completion<int>>)
    ensures delivered == [SetStopped]
  {
    delivered := RaceTwo(WhenAnyPolicy, SetStopped, SetStopped);
    AllStoppedOutcome<int>(WhenAnyPolicy, [ChildDone(0, SetStopped), ChildDone(1, SetStopped)]);
  }

  /** `when_any(just(), just(17))` completes once, with the empty value pack. */
  method WhenAnyFirstVoidValue() returns (delivered: seq<Completion<int>>)
    ensures delivered == [SetValue([])]
  {
    delivered := RaceTwo(WhenAnyPolicy, SetValue([]), SetValue([17]));
    FirstArrivalWins(WhenAnyPolicy, [ChildDone(0, SetValue([])), ChildDone(1, SetValue([17]))]);
  }

  /** `when_any(s)` over one `just(42)` child (move-only, copied or moved) completes with 42. */
  method WhenAnySingleChild() returns (delivered: seq<Completion<int>>)
    ensures delivered == [SetValue([42])]
  {
    var op := new RaceOperation<int>(WhenAnyPolicy, 1, false);
    op.Start([Some(SetValue([42]))]);
    FirstArrivalWins(WhenAnyPolicy, op.history);
    delivered := op.state.delivered;
  }

  /**
   * Two children on the thread scheduler, child `first` finishing before
   * the other: the race delivers the earlier finisher's result.
   */
  method RaceThreads(first: nat, x: Completion<int>, y: Completion<int>) returns (delivered: seq<Completion<int>>)
    requires first < 2
    ensures delivered == [Call(Outcome(WhenAnyPolicy, [ChildDone(first, x), ChildDone(1 - first, y)]))]
  {
    var op := new RaceOperation<int>(WhenAnyPolicy, 2, false);
    op.Start([None, None]);
    assert op.history == [];
    op.ChildCompleted(first, x);
    op.ChildCompleted(1 - first, y);
    assert op.state.finished[0] && op.state.finished[1];
    assert op.history == [ChildDone(first, x), ChildDone(1 - first, y)];
    delivered := op.state.delivered;
  }

  /**
   * `when_any` over two thread-scheduler children: whichever finishes
   * first (`first`, 0 or 1) provides the single value delivered.
   */
  method WhenAnyThreads(first: nat) returns (delivered: seq<Completion<int>>)
    requires first < 2
    ensures delivered == [SetValue([if first == 0 then 42 else 17])]
    ensures delivered == [SetValue([42])] || delivered == [SetValue([17])]
  {
    var x := SetValue([if first == 0 then 42 else 17]);
    var y := SetValue([if first == 0 then 17 else 42]);
    delivered := RaceThreads(first, x, y);
    FirstArrivalWins(WhenAnyPolicy, [ChildDone(first, x), ChildDone(1 - first, y)]);
  }

  /** `first_successful(just_error(42), just(17))` skips the error and completes with 17. */
  method FirstSuccessfulSkipsError() returns (delivered: seq<Completion<int>>)
    ensures delivered == [SetValue([17])]
  {
    delivered := RaceTwo(FirstSuccessfulPolicy, SetError(42), SetValue([17]));
    FirstSuccessfulOutcome([ChildDone(0, SetError(42)), ChildDone(1, SetValue([17]))], 1);
  }

  /** `stop_when(just_stopped(), just(17))` completes with the first completion: stopped. */
  method StopWhenFirstComplete() returns (delivered: seq<Completion<int>>)
    ensures delivered == [SetStopped]
  {
    delivered := RaceTwo(StopWhenPolicy, SetStopped, SetValue([17]));
    FirstArrivalWins(StopWhenPolicy, [ChildDone(0, SetStopped), ChildDone(1, SetValue([17]))]);
  }

  /** `just(42) | stop_when(just(17))`: the piped sender is started first and wins with 42. */
  method StopWhenPiped() returns (delivered: seq<Completion<int>>)
    ensures delivered == [SetValue([42])]
  {
    delivered := RaceTwo(StopWhenPolicy, SetValue([42]), SetValue([17]));
    FirstArrivalWins(StopWhenPolicy, [ChildDone(0, SetValue([42])), ChildDone(1, SetValue([17]))]);
  }

  /** `when_any()` started without a stop request never completes. */
  method ZeroChildrenNeverComplete() returns (delivered: seq<Completion<int>>)
    ensures delivered == []
  {
    var op := new RaceOperation<int>(WhenAnyPolicy, 0, false);
    op.Start([]);
    delivered := op.state.delivered;
  }

  /** `when_any()` with stop requested before start completes stopped inside `start`. */
  method ZeroChildrenStopBeforeStart() returns (delivered: seq<Completion<int>>)
    ensures delivered == [SetStopped]
  {
    var op := new RaceOperation<int>(WhenAnyPolicy, 0, true);
    op.RequestStop();
    op.Start([]);
    delivered := op.state.delivered;
  }

  /** `when_any()` started first: nothing until the stop request, which completes it stopped. */
  method ZeroChildrenStopAfterStart() returns (afterStart: seq<Completion<int>>, afterStop: seq<Completion<int>>)
    ensures afterStart == []
    ensures afterStop == [SetStopped]
  {
    var op := new RaceOperation<int>(WhenAnyPolicy, 0, true);
    op.Start([]);
    afterStart := op.state.delivered;
    op.RequestStop();
    assert op.history == [StopArrived];
    FirstArrivalWins(WhenAnyPolicy, op.history);
    afterStop := op.state.delivered;
  }

  /** Stop requested before start: the child is never started and the race completes stopped. */
  method CancelBeforeStart() returns (delivered: seq<Completion<int>>, childrenStarted: nat)
    ensures delivered == [SetStopped]
    ensures childrenStarted == 0
  {
    var op := new RaceOperation<int>(WhenAnyPolicy, 1, true);
    op.RequestStop();
    op.Start([None]);
    delivered := op.state.delivered;
    childrenStarted := op.state.childrenStarted;
  }

  /**
   * Stop requested while the only child runs: the child is asked to stop,
   * nothing is delivered until it retires, and then the race completes
   * stopped even though the child itself completes with a value.
   */
  method CancelDuringOperation() returns (afterStop: seq<Completion<int>>, childAsked: bool, afterChild: seq<Completion<int>>)
    ensures afterStop == [] && childAsked
    ensures afterChild == [SetStopped]
  {
    var op := new RaceOperation<int>(WhenAnyPolicy, 1, true);
    op.Start([None]);
    op.RequestStop();
    afterStop := op.state.delivered;
    childAsked := op.state.childStopRequested;
    op.ChildCompleted(0, SetValue([]));
    assert op.history == [StopArrived, ChildDone(0, SetValue([]))];
    FirstArrivalWins(WhenAnyPolicy, op.history);
    afterChild := op.state.delivered;
  }
}
