/**
 * The operation state of a race combinator: the shared decision state
 * (winner, outstanding-children counter, last error), the stop source the
 * children observe, and the single downstream completion. Concurrent child
 * completions are modelled as a sequence of events applied one at a time.
 */
module RaceOperations {
  import opened Environment
  import opened Holders
  import opened WhenAny
  import opened RaceStates

  /** The arrivals produced while the first `n` children are started, for children that complete inline. */
  function SyncArrivals<V>(sync: seq<Option<Completion<V>>>, n: nat): seq<Arrival<V>>
    requires n <= |sync|
  {
    if n == 0 then []
    else
      match sync[n - 1]
      case Some(c) => SyncArrivals(sync, n - 1) + [ChildDone(n - 1, c)]
      case None => SyncArrivals(sync, n - 1)
  }

  /** When every child completes inside its own start, completions arrive in start order. */
  lemma {:induction false} SyncArrivalsInOrder<V>(sync: seq<Option<Completion<V>>>, n: nat)
    requires n <= |sync|
    requires forall i :: 0 <= i < n ==> sync[i].Some?
    ensures |SyncArrivals(sync, n)| == n
    ensures forall i :: 0 <= i < n ==> SyncArrivals(sync, n)[i] == ChildDone(i, sync[i].value)
  {
    if n > 0 {
      SyncArrivalsInOrder(sync, n - 1);
    }
  }

  /** An event the operation reacts to after it has started. */
  datatype Event<V> = Completes(child: nat, result: Completion<V>) | Stop

  predicate Completed<V>(events: seq<Event<V>>, i: nat) {
    exists k :: 0 <= k < |events| && events[k].Completes? && events[k].child == i
  }

  /**
   * Events that can happen: each completion is of a child that has not
   * completed yet, no child completes twice, and stop is requested only
   * through a stoppable environment.
   */
  predicate EventsFit<V>(events: seq<Event<V>>, finished: seq<bool>, stoppable: bool) {
    && (forall k :: 0 <= k < |events| && events[k].Completes? ==>
          events[k].child < |finished| && !finished[events[k].child])
    && (forall k, l :: 0 <= k < l < |events| && events[k].Completes? && events[l].Completes? ==>
          events[k].child != events[l].child)
    && (forall k :: 0 <= k < |events| && events[k].Stop? ==> stoppable)
  }

  /** One more event completes exactly the children it names. */
  lemma CompletedExtend<V>(events: seq<Event<V>>, k: nat, j: nat)
    requires k < |events|
    ensures Completed(events[..k + 1], j) <==>
      Completed(events[..k], j) || (events[k].Completes? && events[k].child == j)
  {
    if events[k].Completes? && events[k].child == j {
      assert events[..k + 1][k] == events[k];
    }
    if Completed(events[..k + 1], j) {
      var l :| 0 <= l < k + 1 && events[..k + 1][l].Completes? && events[..k + 1][l].child == j;
      if l < k {
        assert events[..k][l] == events[..k + 1][l];
      }
    }
    if Completed(events[..k], j) {
      var l :| 0 <= l < k && events[..k][l].Completes? && events[..k][l].child == j;
      assert events[..k + 1][l] == events[..k][l];
    }
  }

  /** After the first event, the remaining events still fit the updated completion flags. */
  lemma EventsFitRest<V>(events: seq<Event<V>>, finished: seq<bool>, stoppable: bool)
    requires |events| > 0 && EventsFit(events, finished, stoppable)
    ensures events[0].Completes? ==> events[0].child < |finished| && !finished[events[0].child]
    ensures events[0].Stop? ==> stoppable
    ensures EventsFit(events[1..], if events[0].Completes? then finished[events[0].child := true] else finished, stoppable)
  {
    var rest := events[1..];
    var f := if events[0].Completes? then finished[events[0].child := true] else finished;
    forall k | 0 <= k < |rest| && rest[k].Completes?
      ensures rest[k].child < |f| && !f[rest[k].child]
    {
      assert rest[k] == events[k + 1];
    }
    forall k, l | 0 <= k < l < |rest| && rest[k].Completes? && rest[l].Completes?
      ensures rest[k].child != rest[l].child
    {
      assert rest[k] == events[k + 1] && rest[l] == events[l + 1];
    }
  }

  class RaceOperation<V> {
    const policy: Policy
    /** The number of children. */
    const arity: nat
    /** Whether the downstream receiver's environment has a stop token. */
    const stoppable: bool

    /** The shared operation state the children and the stop callback update. */
    var state: RaceState<V>
    /** What reached the decision protocol, in order. */
    ghost var history: seq<Arrival<V>>

    ghost predicate Valid()
      reads this
    {
      state.Consistent(policy, arity, stoppable, history)
    }

    /** `connect`: one slot per child, nothing started, nothing decided. */
    constructor (policy: Policy, arity: nat, stoppable: bool)
      ensures Valid()
      ensures this.policy == policy && this.arity == arity && this.stoppable == stoppable
      ensures state == Connected(arity) && history == []
    {
      this.policy := policy;
      this.arity := arity;
      this.stoppable := stoppable;
      state := Connected(arity);
      history := [];
    }

    /**
     * A child's completion: parked in a holder, offered to the policy (the
     * first acceptable one becomes the winner and stops the other
     * children), counted; the last one to retire delivers downstream.
     */
    method ChildCompleted(i: nat, c: Completion<V>)
      requires Valid() && state.started && !state.bypassed
      requires i < state.childrenStarted && !state.finished[i]
      modifies this
      ensures Valid()
      ensures old(state.delivered) == []
      ensures state == old(state).AfterChild(policy, i, c)
      ensures history == old(history) + [ChildDone(i, c)]
      ensures state.delivered == if forall j :: 0 <= j < arity ==> state.finished[j]
                                 then [Call(Outcome(policy, history))] else []
    {
      ChildCompletedStep(state, policy, arity, stoppable, history, i, c);
      state := state.AfterChild(policy, i, c);
      history := history + [ChildDone(i, c)];
      RetiredDelivers(state, policy, arity, stoppable, history);
    }

    /**
     * `start()`: with stop already requested, complete stopped without
     * starting any child; otherwise start the children left to right, each
     * of which may complete inside its own start (`sync[i]`).
     */
    method Start(sync: seq<Option<Completion<V>>>)
      requires Valid() && !state.started && |sync| == arity
      modifies this
      ensures Valid() && state.started && state.stopRequested == old(state.stopRequested)
      ensures old(state.stopRequested) ==> state.bypassed && state.childrenStarted == 0 && state.delivered == [SetStopped]
      ensures !old(state.stopRequested) ==>
        !state.bypassed && state.childrenStarted == arity && history == SyncArrivals(sync, arity)
      ensures !old(state.stopRequested) ==> forall i :: 0 <= i < arity ==> state.finished[i] == sync[i].Some?
      ensures !old(state.stopRequested) ==>
        state.delivered == if arity > 0 && forall i :: 0 <= i < arity ==> sync[i].Some?
                           then [Call(Outcome(policy, history))] else []
    {
      if state.stopRequested {
        Bypass();
      } else {
        StartChildren(sync);
      }
    }

    /** Start with stop already requested: complete stopped, start no child. */
    method Bypass()
      requires Valid() && !state.started && state.stopRequested
      modifies this
      ensures Valid()
      ensures state == old(state).Bypassed() && history == [StopArrived]
    {
      state := state.Bypassed();
      history := [StopArrived];
      assert history[..0] == [];
    }

    /** Start the children left to right; child i may complete inside its own start (`sync[i]`). */
    method StartChildren(sync: seq<Option<Completion<V>>>)
      requires Valid() && !state.started && !state.stopRequested && |sync| == arity
      modifies this
      ensures Valid() && state.started && !state.stopRequested
      ensures !state.bypassed && state.childrenStarted == arity && history == SyncArrivals(sync, arity)
      ensures forall i :: 0 <= i < arity ==> state.finished[i] == sync[i].Some?
      ensures state.delivered == if arity > 0 && forall i :: 0 <= i < arity ==> sync[i].Some?
                                 then [Call(Outcome(policy, history))] else []
    {
      Begin();
      var i := 0;
      while i < arity
        invariant 0 <= i <= arity
        invariant Valid() && state.started && !state.bypassed && !state.stopRequested
        invariant state.childrenStarted == i
        invariant history == SyncArrivals(sync, i)
        invariant forall j :: 0 <= j < arity ==> state.finished[j] == (j < i && sync[j].Some?)
      {
        StartChild(sync, i);
        i := i + 1;
      }
      RetiredDelivers(state, policy, arity, stoppable, history);
      if arity == 0 {
        assert history == [];
      }
    }

    /** Mark the operation started, before any child is. */
    method Begin()
      requires Valid() && !state.started && !state.stopRequested
      modifies this
      ensures Valid() && history == old(history)
      ensures state == old(state).(started := true)
    {
      state := state.(started := true);
    }

    /**
     * Start child `i`, the next one; `sync[i]` is its completion when it
     * completes inside its own start.
     */
    method StartChild(sync: seq<Option<Completion<V>>>, i: nat)
      requires Valid() && state.started && !state.bypassed && !state.stopRequested
      requires i < arity == |sync| && state.childrenStarted == i
      requires history == SyncArrivals(sync, i)
      requires forall j :: 0 <= j < arity ==> state.finished[j] == (j < i && sync[j].Some?)
      modifies this
      ensures Valid() && state.started && !state.bypassed && !state.stopRequested
      ensures state.childrenStarted == i + 1
      ensures history == SyncArrivals(sync, i + 1)
      ensures forall j :: 0 <= j < arity ==> state.finished[j] == (j < i + 1 && sync[j].Some?)
    {
      StartNext();
      match sync[i] {
        case Some(c) =>
          ChildCompleted(i, c);
        case None =>
      }
    }

    /** Start the next child; it has not completed yet. */
    method StartNext()
      requires Valid() && state.started && !state.bypassed && state.childrenStarted < arity
      modifies this
      ensures Valid() && history == old(history)
      ensures state == old(state).(childrenStarted := old(state.childrenStarted) + 1)
    {
      state := state.(childrenStarted := state.childrenStarted + 1);
    }

    /**
     * `request_stop()` on the downstream stop source. Before start it is only
     * recorded; after start (and before completion) it decides the race with
     * stopped if nothing has won yet and stops the children; with no
     * children outstanding it completes at once. A repeated request does
     * nothing.
     */
    method RequestStop()
      requires Valid() && stoppable
      modifies this
      ensures Valid() && state.stopRequested
      ensures state == old(state).AfterStop()
      ensures history == old(history) + StopArrivals(old(state))
      ensures old(state).StopDecides() ==>
        state.delivered == if state.outstanding == 0 then [Call(Outcome(policy, history))] else []
    {
      StopStep(state, policy, arity, stoppable, history);
      history := history + StopArrivals(state);
      state := state.AfterStop();
    }

    /**
     * Any admissible sequence of child completions and stop requests after
     * start: the receiver is invoked at most once, and exactly once, with
     * the race's outcome, when the last child retires.
     */
    method Run(events: seq<Event<V>>)
      requires Valid() && state.started && !state.bypassed && state.childrenStarted == arity
      requires EventsFit(events, state.finished, stoppable)
      modifies this
      ensures Valid() && |state.delivered| <= 1
      ensures forall j :: 0 <= j < arity ==> state.finished[j] == (old(state.finished)[j] || Completed(events, j))
      ensures arity > 0 && (forall j :: 0 <= j < arity ==> state.finished[j]) ==>
        state.delivered == [Call(Outcome(policy, history))]
      ensures old(state.delivered) <= state.delivered
      ensures old(state.delivered) != [] ==> state.delivered == old(state.delivered)
    {
      var k := 0;
      while k < |events|
        invariant 0 <= k <= |events|
        invariant Valid() && state.started && !state.bypassed && state.childrenStarted == arity
        invariant EventsFit(events[k..], state.finished, stoppable)
        invariant forall j :: 0 <= j < arity ==> state.finished[j] == (old(state.finished)[j] || Completed(events[..k], j))
        invariant old(state.delivered) <= state.delivered
        invariant old(state.delivered) != [] ==> state.delivered == old(state.delivered)
      {
        assert events[k..][0] == events[k] && events[k..][1..] == events[k + 1..];
        EventsFitRest(events[k..], state.finished, stoppable);
        forall j | 0 <= j < arity {
          CompletedExtend(events, k, j);
        }
        match events[k] {
          case Completes(i, c) =>
            ChildCompleted(i, c);
          case Stop =>
            RequestStop();
        }
        k := k + 1;
      }
      assert events[..k] == events;
      UnfinishedZero(state.finished);
    }
  }
}
