/**
 * The race combinators `when_any`, `first_successful` and `stop_when`, as
 * values: the policy that decides which child completion wins, the outcome
 * of a race as a function of the order in which completions (and stop
 * requests) arrive, the completion signatures the combinator advertises,
 * and its cardinality (single-use or reusable).
 */
module WhenAny {
  import opened Environment
  import opened Signatures
  import opened Holders

  /** The acceptance rule of each combinator. */
  datatype Policy = WhenAnyPolicy | FirstSuccessfulPolicy | StopWhenPolicy

  /**
   * Whether a child completion decides the race: `when_any` and `stop_when`
   * (its "first complete" policy) take any completion, `first_successful`
   * only a value.
   */
  predicate Accepts<V>(p: Policy, c: Completion<V>) {
    match p
    case FirstSuccessfulPolicy => c.SetValue?
    case _ => true
  }

  /** What reaches the shared race state: a child's completion, or a stop request from downstream. */
  datatype Arrival<V> = ChildDone(child: nat, result: Completion<V>) | StopArrived

  /** A stop request always decides (with stopped); a child completion decides when the policy accepts it. */
  predicate Decides<V>(p: Policy, a: Arrival<V>) {
    a.StopArrived? || Accepts(p, a.result)
  }

  /** The holder an arrival is parked in. */
  function Parked<V>(a: Arrival<V>): Holder<V> {
    match a
    case ChildDone(_, c) => Park(c)
    case StopArrived => StoppedHolder
  }

  predicate IsError<V>(a: Arrival<V>) {
    a.ChildDone? && a.result.SetError?
  }

  predicate IsValue<V>(a: Arrival<V>) {
    a.ChildDone? && a.result.SetValue?
  }

  /** The winner after the arrivals `hist`: the holder of the first arrival that decides. */
  function Decision<V>(p: Policy, hist: seq<Arrival<V>>): Option<Holder<V>> {
    if hist == [] then None
    else
      var prev := Decision(p, hist[..|hist| - 1]);
      if prev.Some? then prev
      else if Decides(p, hist[|hist| - 1]) then Some(Parked(hist[|hist| - 1]))
      else None
  }

  /** The holder of the last error among the arrivals `hist`, if any. */
  function LastError<V>(hist: seq<Arrival<V>>): Option<Holder<V>> {
    if hist == [] then None
    else if IsError(hist[|hist| - 1]) then Some(Parked(hist[|hist| - 1]))
    else LastError(hist[..|hist| - 1])
  }

  /** The race is undecided exactly while no arrival has decided it. */
  lemma {:induction false} DecisionNone<V>(p: Policy, hist: seq<Arrival<V>>)
    ensures Decision(p, hist).None? <==> forall k :: 0 <= k < |hist| ==> !Decides(p, hist[k])
  {
    if hist != [] {
      var init := hist[..|hist| - 1];
      DecisionNone(p, init);
      assert forall k :: 0 <= k < |init| ==> init[k] == hist[k];
    }
  }

  /** The winner is the holder of the first deciding arrival. */
  lemma {:induction false} DecisionFirst<V>(p: Policy, hist: seq<Arrival<V>>, k: nat)
    requires k < |hist| && Decides(p, hist[k])
    requires forall j :: 0 <= j < k ==> !Decides(p, hist[j])
    ensures Decision(p, hist) == Some(Parked(hist[k]))
  {
    var init := hist[..|hist| - 1];
    if k < |init| {
      DecisionFirst(p, init, k);
    } else {
      DecisionNone(p, init);
    }
  }

  /** A decided winner is the holder of one of the arrivals. */
  lemma {:induction false} DecisionIsArrival<V>(p: Policy, hist: seq<Arrival<V>>)
    requires Decision(p, hist).Some?
    ensures exists k :: 0 <= k < |hist| && Decision(p, hist).value == Parked(hist[k])
  {
    var init := hist[..|hist| - 1];
    if Decision(p, init).Some? {
      DecisionIsArrival(p, init);
      var k :| 0 <= k < |init| && Decision(p, init).value == Parked(init[k]);
      assert init[k] == hist[k];
    } else {
      assert Decision(p, hist).value == Parked(hist[|hist| - 1]);
    }
  }

  /** There is no last error exactly when no arrival is an error. */
  lemma {:induction false} LastErrorNone<V>(hist: seq<Arrival<V>>)
    ensures LastError(hist).None? <==> forall k :: 0 <= k < |hist| ==> !IsError(hist[k])
  {
    if hist != [] {
      var init := hist[..|hist| - 1];
      LastErrorNone(init);
      assert forall k :: 0 <= k < |init| ==> init[k] == hist[k];
    }
  }

  /** The last error is the holder of the error arrival after which no error arrives. */
  lemma {:induction false} LastErrorLast<V>(hist: seq<Arrival<V>>, k: nat)
    requires k < |hist| && IsError(hist[k])
    requires forall j :: k < j < |hist| ==> !IsError(hist[j])
    ensures LastError(hist) == Some(Parked(hist[k]))
  {
    var init := hist[..|hist| - 1];
    if k < |init| {
      LastErrorLast(init, k);
    }
  }

  /**
   * What the combinator delivers once every child has retired: the winner;
   * without one, the last error seen (the `first_successful` fallback);
   * without that, stopped.
   */
  function FinalOf<V>(winner: Option<Holder<V>>, lastError: Option<Holder<V>>): Holder<V> {
    match winner
    case Some(h) => h
    case None =>
      match lastError
      case Some(h) => h
      case None => StoppedHolder
  }

  /** The race's outcome after a sequence of arrivals. */
  function Outcome<V>(p: Policy, hist: seq<Arrival<V>>): Holder<V> {
    FinalOf(Decision(p, hist), LastError(hist))
  }

  /** One more arrival: the winner stays if there is one, otherwise the arrival decides if the policy lets it. */
  lemma DecisionSnoc<V>(p: Policy, hist: seq<Arrival<V>>, a: Arrival<V>)
    ensures Decision(p, hist + [a]) ==
      if Decision(p, hist).Some? then Decision(p, hist)
      else if Decides(p, a) then Some(Parked(a)) else None
    ensures LastError(hist + [a]) == if IsError(a) then Some(Parked(a)) else LastError(hist)
  {
    assert (hist + [a])[..|hist|] == hist;
  }

  /** Once decided, the winner never changes, whatever arrives later. */
  lemma {:induction false} DecisionStable<V>(p: Policy, hist: seq<Arrival<V>>, more: seq<Arrival<V>>)
    requires Decision(p, hist).Some?
    ensures Decision(p, hist + more) == Decision(p, hist)
  {
    if more == [] {
      assert hist + more == hist;
    } else {
      var init := more[..|more| - 1];
      DecisionStable(p, hist, init);
      assert (hist + more)[..|hist + more| - 1] == hist + init;
    }
  }

  /** Under `when_any` and `stop_when` the first arrival wins: with synchronous children, the first started one. */
  lemma FirstArrivalWins<V>(p: Policy, hist: seq<Arrival<V>>)
    requires p != FirstSuccessfulPolicy
    requires hist != []
    ensures Outcome(p, hist) == Parked(hist[0])
  {
    DecisionFirst(p, hist, 0);
  }

  /**
   * Under `first_successful` (without a stop request) the first value wins;
   * with no value the last error is forwarded, and if every child stopped
   * the outcome is stopped.
   */
  lemma FirstSuccessfulOutcome<V>(hist: seq<Arrival<V>>, k: nat)
    requires forall j :: 0 <= j < |hist| ==> hist[j].ChildDone?
    ensures k < |hist| && IsValue(hist[k]) && (forall j :: 0 <= j < k ==> !IsValue(hist[j])) ==>
              Outcome(FirstSuccessfulPolicy, hist) == Parked(hist[k])
    ensures (forall j :: 0 <= j < |hist| ==> !IsValue(hist[j])) && LastError(hist).Some? ==>
              Outcome(FirstSuccessfulPolicy, hist) == LastError(hist).value
    ensures (forall j :: 0 <= j < |hist| ==> hist[j].result.SetStopped?) ==>
              Outcome(FirstSuccessfulPolicy, hist) == StoppedHolder
  {
    DecisionNone(FirstSuccessfulPolicy, hist);
    LastErrorNone(hist);
    if k < |hist| && IsValue(hist[k]) && (forall j :: 0 <= j < k ==> !IsValue(hist[j])) {
      DecisionFirst(FirstSuccessfulPolicy, hist, k);
    }
  }

  /** If every arrival is a stopped child or a stop request, every combinator completes stopped. */
  lemma AllStoppedOutcome<V>(p: Policy, hist: seq<Arrival<V>>)
    requires forall j :: 0 <= j < |hist| ==> Parked(hist[j]) == StoppedHolder
    ensures Outcome(p, hist) == StoppedHolder
  {
    LastErrorNone(hist);
    if Decision(p, hist).Some? {
      DecisionIsArrival(p, hist);
    }
  }

  // ---------------------------------------------------------------------
  // Advertised completion signatures and cardinality
  // ---------------------------------------------------------------------

  const StoppedSig: Sig := Sig(StoppedChannel, [])

  /**
   * The list with later repetitions dropped. It is built left to right, so
   * first occurrences keep their order; the contract states only that the
   * members are the same and none is repeated.
   */
  function Dedup(s: SigSet): (r: SigSet)
    ensures forall x :: x in r <==> x in s
    ensures forall i, j :: 0 <= i < j < |r| ==> r[i] != r[j]
  {
    if s == [] then []
    else
      var prev := Dedup(s[..|s| - 1]);
      if s[|s| - 1] in prev then prev else prev + [s[|s| - 1]]
  }

  /** The children's lists, one after the other. */
  function Flatten(css: seq<SigSet>): (r: SigSet)
    ensures forall x :: x in r <==> exists i :: 0 <= i < |css| && x in css[i]
  {
    if css == [] then []
    else
      var r := Flatten(css[..|css| - 1]) + css[|css| - 1];
      assert forall i :: 0 <= i < |css| - 1 ==> css[..|css| - 1][i] == css[i];
      r
  }

  /** Every child's signatures in `env`; None if one of them has none. */
  function ChildSignatures(children: seq<Sender>, env: Env): (r: Option<seq<SigSet>>)
    ensures r.Some? <==> forall i :: 0 <= i < |children| ==> CompletionSignaturesOf(children[i], env).Some?
    ensures r.Some? ==> |r.value| == |children|
    ensures r.Some? ==> forall i :: 0 <= i < |children| ==> r.value[i] == CompletionSignaturesOf(children[i], env).value
  {
    if children == [] then Some([])
    else
      match (ChildSignatures(children[..|children| - 1], env), CompletionSignaturesOf(children[|children| - 1], env))
      case (Some(css), Some(last)) => Some(css + [last])
      case _ => None
  }

  /**
   * The combinator's answer to the signature query: every child's
   * completions, each once, plus stopped when the environment can request
   * a stop.
   */
  function RaceSignatures(children: seq<Sender>, env: Env): Option<SigSet> {
    match ChildSignatures(children, env)
    case Some(css) => Some(Dedup(Flatten(css) + (if env.stopToken then [StoppedSig] else [])))
    case None => None
  }

  /**
   * The sender `when_any(children...)`, `first_successful(children...)` or
   * `stop_when(children...)` (the policy does not change what is
   * advertised): it answers the signature query and is single-use when one
   * of its children is.
   */
  function RaceSender(children: seq<Sender>): (s: Sender)
    ensures s.singleShot <==> exists i :: 0 <= i < |children| && children[i].singleShot
    ensures s.declared.None?
  {
    Sender(env => RaceSignatures(children, env), None, exists i :: 0 <= i < |children| && children[i].singleShot)
  }

  /**
   * The combinator advertises each child's completions and nothing else
   * (stopped aside, when the environment is stoppable), each exactly once.
   */
  lemma RaceAdvertises(children: seq<Sender>, env: Env, x: Sig)
    requires forall i :: 0 <= i < |children| ==> CompletionSignaturesOf(children[i], env).Some?
    ensures CompletionSignaturesOf(RaceSender(children), env).Some?
    ensures x in CompletionSignaturesOf(RaceSender(children), env).value <==>
      (exists i :: 0 <= i < |children| && x in CompletionSignaturesOf(children[i], env).value) ||
      (env.stopToken && x == StoppedSig)
    ensures var sigs := CompletionSignaturesOf(RaceSender(children), env).value;
      forall i, j :: 0 <= i < j < |sigs| ==> sigs[i] != sigs[j]
  {
    var css := ChildSignatures(children, env).value;
    if x in Flatten(css) {
      var i :| 0 <= i < |css| && x in css[i];
      assert x in CompletionSignaturesOf(children[i], env).value;
    }
  }

  /** A duplicate-free list whose only possible member is stopped is `[stopped]` or empty. */
  lemma OnlyStopped(s: SigSet, stop: bool)
    requires forall i, j :: 0 <= i < j < |s| ==> s[i] != s[j]
    requires forall x :: x in s <==> stop && x == StoppedSig
    ensures s == if stop then [StoppedSig] else []
  {
    assert |s| == 0 || s[0] in s;
    if stop {
      DistinctSingleton(s, StoppedSig);
    }
  }

  /**
   * Over children that advertise at most stopped (and stopped only in a
   * stoppable environment), the race advertises the same.
   */
  lemma RaceOverStoppedOnly(children: seq<Sender>, env: Env)
    requires forall i :: 0 <= i < |children| ==>
      CompletionSignaturesOf(children[i], env) == Some(if env.stopToken then [StoppedSig] else [])
    ensures CompletionSignaturesOf(RaceSender(children), env) == Some(if env.stopToken then [StoppedSig] else [])
  {
    forall x
      ensures x in CompletionSignaturesOf(RaceSender(children), env).value <==> env.stopToken && x == StoppedSig
    {
      RaceAdvertises(children, env, x);
    }
    RaceAdvertises(children, env, StoppedSig);
    OnlyStopped(CompletionSignaturesOf(RaceSender(children), env).value, env.stopToken);
  }

  /** Zero children advertise nothing, or only stopped in a stoppable environment; nesting one keeps that. */
  lemma ZeroChildSignatures(env: Env)
    ensures CompletionSignaturesOf(RaceSender([]), env) == Some(if env.stopToken then [StoppedSig] else [])
    ensures CompletionSignaturesOf(RaceSender([RaceSender([])]), env) == Some(if env.stopToken then [StoppedSig] else [])
  {
    RaceOverStoppedOnly([], env);
    RaceOverStoppedOnly([RaceSender([])], env);
  }

  /** `just(v...)`, `just_error(e)`, `just_stopped()` as far as their signatures go. */
  function Just(payload: seq<Ty>, singleShot: bool): Sender {
    Sender(NoQuery, Some([Sig(ValueChannel, payload)]), singleShot)
  }

  function JustError(e: Ty): Sender {
    Sender(NoQuery, Some([Sig(ErrorChannel, [e])]), false)
  }

  /** A duplicate-free list holding only `v`, and `v` itself, is `[v]`. */
  lemma DistinctSingleton(s: SigSet, v: Sig)
    requires forall i, j :: 0 <= i < j < |s| ==> s[i] != s[j]
    requires forall x :: x in s <==> x == v
    ensures s == [v]
  {
    assert v in s;
    assert |s| < 2 || s[0] != s[1];
    forall i | 0 <= i < |s|
      ensures s[i] == v
    {
      assert s[i] in s;
    }
  }

  /** `when_any(just(42), just(17))` sends `set_value_t(int)` and nothing else. */
  lemma WhenAnyAdvertisesValues()
    ensures CompletionSignaturesOf(RaceSender([Just([IntTy], false), Just([IntTy], false)]), EmptyEnv) ==
      Some([Sig(ValueChannel, [IntTy])])
  {
    var v := Sig(ValueChannel, [IntTy]);
    var two := [Just([IntTy], false), Just([IntTy], false)];
    assert forall i :: 0 <= i < |two| ==> CompletionSignaturesOf(two[i], EmptyEnv) == Some([v]);
    forall x
      ensures x in CompletionSignaturesOf(RaceSender(two), EmptyEnv).value <==> x == v
    {
      RaceAdvertises(two, EmptyEnv, x);
      if x == v {
        assert x in CompletionSignaturesOf(two[0], EmptyEnv).value;
      }
    }
    RaceAdvertises(two, EmptyEnv, v);
    DistinctSingleton(CompletionSignaturesOf(RaceSender(two), EmptyEnv).value, v);
  }

  /** `when_any(just(42), just_error(17))` also sends `set_error_t(int)`. */
  lemma WhenAnyAdvertisesErrors()
    ensures Sig(ErrorChannel, [IntTy]) in CompletionSignaturesOf(RaceSender([Just([IntTy], false), JustError(IntTy)]), EmptyEnv).value
  {
    var children := [Just([IntTy], false), JustError(IntTy)];
    RaceAdvertises(children, EmptyEnv, Sig(ErrorChannel, [IntTy]));
    assert Sig(ErrorChannel, [IntTy]) in CompletionSignaturesOf(children[1], EmptyEnv).value;
  }

  /** Over a move-only (single-use) child the combinator is single-use; over a copyable one it is reusable. */
  lemma Cardinality()
    ensures RaceSender([Just([Prim("move_only<int>")], true)]).singleShot
    ensures !RaceSender([Just([IntTy], false)]).singleShot
  {
    var moveOnly := [Just([Prim("move_only<int>")], true)];
    assert moveOnly[0].singleShot;
  }
}
