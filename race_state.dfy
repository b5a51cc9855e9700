/**
 * The state of a race operation as a value: the per-child bookkeeping, the
 * decision (winner, last error, internal stop request) and what has been
 * delivered downstream, with the invariant that ties it to the decision
 * protocol and the transitions a child completion and a stop request make.
 */
module RaceStates {
  import opened Environment
  import opened Holders
  import opened WhenAny

  /** How many children have not completed yet: the unfinished entries of `finished`. */
  function Unfinished(f: seq<bool>): nat {
    if |f| == 0 then 0 else (if f[0] then 0 else 1) + Unfinished(f[1..])
  }

  /** The count is zero exactly when every child has finished. */
  lemma {:induction false} UnfinishedZero(f: seq<bool>)
    ensures Unfinished(f) == 0 <==> forall i :: 0 <= i < |f| ==> f[i]
  {
    if |f| > 0 {
      UnfinishedZero(f[1..]);
      if f[0] {
        forall i | 0 < i < |f| && (forall j :: 0 <= j < |f| - 1 ==> f[1..][j])
          ensures f[i]
        {
          assert f[i] == f[1..][i - 1];
        }
      }
    }
  }

  /** Marking one unfinished child as finished decrements the count by exactly one. */
  lemma {:induction false} UnfinishedMark(f: seq<bool>, i: nat)
    requires i < |f| && !f[i]
    ensures Unfinished(f) >= 1
    ensures Unfinished(f[i := true]) == Unfinished(f) - 1
  {
    if i == 0 {
      assert f[i := true][1..] == f[1..];
    } else {
      assert f[i := true][1..] == f[1..][i - 1 := true];
      UnfinishedMark(f[1..], i - 1);
    }
  }

  /** No child finished. */
  function NoneFinished(n: nat): (f: seq<bool>)
    ensures |f| == n
    ensures forall i :: 0 <= i < n ==> !f[i]
  {
    if n == 0 then [] else [false] + NoneFinished(n - 1)
  }

  /** Before any child completes, every child is outstanding. */
  lemma {:induction false} UnfinishedNone(n: nat)
    ensures Unfinished(NoneFinished(n)) == n
  {
    if n > 0 {
      UnfinishedNone(n - 1);
      assert NoneFinished(n)[1..] == NoneFinished(n - 1);
    }
  }

  /** The fields of a race operation that its steps change, as one value. */
  datatype RaceState<V> = RaceState(
    /** Stop was requested on the downstream stop source. */
    stopRequested: bool,
    started: bool,
    /** Stop was already requested at start, so no child was started. */
    bypassed: bool,
    /** Children are started left to right; this many have been. */
    childrenStarted: nat,
    /** finished[i]: child i has completed. */
    finished: seq<bool>,
    /** Children that have not completed yet. */
    outstanding: nat,
    /** The decided winner; decided exactly when it is present, never replaced. */
    winner: Option<Holder<V>>,
    /** The last error seen, forwarded by `first_successful` when nothing succeeds. */
    lastError: Option<Holder<V>>,
    /** The internal stop source the children's tokens observe. */
    childStopRequested: bool,
    /** The log of completion calls made on the downstream receiver; a call appends to it. */
    delivered: seq<Completion<V>>)
  {
    /** Every child has retired (or, with no children, a stop request decided the race). */
    predicate Retired(arity: nat) {
      outstanding == 0 && (arity > 0 || winner.Some?)
    }

    /**
     * The operation state agrees with the decision protocol run on the
     * arrivals so far (`history`), and at most one completion is ever
     * delivered: exactly one once every child has retired.
     */
    ghost predicate Consistent(policy: Policy, arity: nat, stoppable: bool, history: seq<Arrival<V>>) {
      && |finished| == arity
      && childrenStarted <= arity
      && outstanding == Unfinished(finished)
      && (forall i :: 0 <= i < arity && finished[i] ==> i < childrenStarted)
      && winner == Decision(policy, history)
      && lastError == LastError(history)
      && childStopRequested == winner.Some?
      && (stopRequested ==> stoppable)
      && (StopArrived in history ==> stopRequested)
      && (!started ==> !bypassed && childrenStarted == 0 && history == [] && delivered == [])
      && (bypassed ==> started && stopRequested && childrenStarted == 0 && history == [StopArrived])
      && (started && !bypassed ==> (delivered != [] <==> Retired(arity)))
      && |delivered| <= 1
      && (delivered != [] ==> delivered == [Call(Outcome(policy, history))])
    }

    /** Child `i` completes with `c`. */
    function AfterChild(policy: Policy, i: nat, c: Completion<V>): RaceState<V>
      requires i < |finished| && outstanding > 0
    {
      var w := if winner.None? && Accepts(policy, c) then Some(Park(c)) else winner;
      var e := if c.SetError? then Some(Park(c)) else lastError;
      var n := outstanding - 1;
      this.(winner := w, childStopRequested := w.Some?, lastError := e,
            finished := finished[i := true], outstanding := n,
            delivered := if n == 0 then delivered + [Call(FinalOf(w, e))] else delivered)
    }

    /** A stop request takes effect on the race: after start and before delivery. */
    predicate StopDecides() {
      !stopRequested && started && |delivered| == 0
    }

    /** Stop is requested on the downstream stop source. */
    function AfterStop(): RaceState<V> {
      if StopDecides() then
        var w := if winner.Some? then winner else Some(StoppedHolder);
        this.(stopRequested := true, winner := w, childStopRequested := true,
              delivered := if outstanding == 0 then delivered + [Call(FinalOf(w, lastError))] else delivered)
      else this.(stopRequested := true)
    }

    /** `start()` with stop already requested: complete stopped, start no child. */
    function Bypassed(): RaceState<V> {
      this.(started := true, bypassed := true, winner := Some(StoppedHolder),
            childStopRequested := true, delivered := delivered + [SetStopped])
    }
  }

  /** The arrivals a stop request adds to the history. */
  function StopArrivals<V>(s: RaceState<V>): seq<Arrival<V>> {
    if s.StopDecides() then [StopArrived] else []
  }

  /** `connect`: one slot per child, nothing started, nothing decided. */
  function Connected<V>(arity: nat): (s: RaceState<V>)
    ensures forall policy, stoppable :: s.Consistent(policy, arity, stoppable, [])
    ensures !s.started && !s.stopRequested && s.outstanding == arity && s.winner.None? && s.delivered == []
  {
    UnfinishedNone(arity);
    RaceState(false, false, false, 0, NoneFinished(arity), arity, None, None, false, [])
  }

  /**
   * Once started (and not bypassed), the receiver has been given the race's
   * outcome exactly when every child has retired, and nothing otherwise.
   */
  lemma RetiredDelivers<V>(s: RaceState<V>, policy: Policy, arity: nat, stoppable: bool, history: seq<Arrival<V>>)
    requires s.Consistent(policy, arity, stoppable, history) && s.started && !s.bypassed
    ensures s.outstanding == 0 <==> forall i :: 0 <= i < arity ==> s.finished[i]
    ensures s.delivered == if s.Retired(arity) then [Call(Outcome(policy, history))] else []
  {
    UnfinishedZero(s.finished);
  }

  /**
   * A completion of a started, unfinished child keeps the state consistent;
   * it never follows a delivery, and it delivers the race's outcome exactly
   * when it is the last child to retire.
   */
  lemma ChildCompletedStep<V>(s: RaceState<V>, policy: Policy, arity: nat, stoppable: bool,
                              history: seq<Arrival<V>>, i: nat, c: Completion<V>)
    requires s.Consistent(policy, arity, stoppable, history) && s.started && !s.bypassed
    requires i < s.childrenStarted && !s.finished[i]
    ensures s.outstanding > 0 && s.delivered == []
    ensures s.AfterChild(policy, i, c).Consistent(policy, arity, stoppable, history + [ChildDone(i, c)])
    ensures var t := s.AfterChild(policy, i, c);
      t.delivered == if t.outstanding == 0 then [Call(Outcome(policy, history + [ChildDone(i, c)]))] else []
  {
    UnfinishedMark(s.finished, i);
    DecisionSnoc(policy, history, ChildDone(i, c));
    assert StopArrived in history + [ChildDone(i, c)] ==> StopArrived in history;
  }

  /**
   * A stop request keeps the state consistent. After start and before
   * delivery it decides an undecided race with stopped and delivers at once
   * when nothing is outstanding; otherwise it only records the request.
   */
  lemma StopStep<V>(s: RaceState<V>, policy: Policy, arity: nat, stoppable: bool, history: seq<Arrival<V>>)
    requires s.Consistent(policy, arity, stoppable, history) && stoppable
    ensures s.AfterStop().Consistent(policy, arity, stoppable, history + StopArrivals(s))
    ensures var t := s.AfterStop();
      s.StopDecides() ==>
        t.delivered == if t.outstanding == 0 then [Call(Outcome(policy, history + [StopArrived]))] else []
  {
    if s.StopDecides() {
      DecisionSnoc(policy, history, StopArrived);
    } else {
      assert history + StopArrivals(s) == history;
    }
  }
}
