/**
 * The completion-signature algebra: how a sender advertises the ways it can
 * complete, how a caller obtains that list for an environment, the
 * per-channel views of it, and the gathering of one channel's payload types
 * into an aggregate type.
 */
module Signatures {
  import opened Environment

  /** The three completion channels of a receiver. */
  datatype Channel = ValueChannel | ErrorChannel | StoppedChannel

  /**
   * One completion signature: `set_value_t(int)` is Sig(ValueChannel, [int]),
   * `set_error_t(float)` is Sig(ErrorChannel, [float]), `set_stopped_t()` is
   * Sig(StoppedChannel, []).
   */
  datatype Sig = Sig(channel: Channel, payload: seq<Ty>)

  /** `completion_signatures<...>`: an ordered, possibly empty list. */
  type SigSet = seq<Sig>

  /**
   * A sender, as far as the algebra sees it: an environment-aware query
   * (answering None where it is not satisfiable for that environment), an
   * optional declared `completion_signatures` member type, and whether it
   * can be connected only once (single-use) or repeatedly (reusable).
   */
  datatype Sender = Sender(query: Env -> Option<SigSet>, declared: Option<SigSet>, singleShot: bool)

  /** The query of a sender that has none. */
  function NoQuery(env: Env): Option<SigSet> {
    None
  }

  /**
   * `completion_signatures_of_t<S, Env>`: the query's answer when it has one,
   * otherwise the declared default; None when neither exists (the alias is
   * ill-formed).
   */
  function CompletionSignaturesOf(s: Sender, env: Env): (r: Option<SigSet>)
    ensures r.None? <==> s.query(env).None? && s.declared.None?
    ensures s.query(env).Some? ==> r == s.query(env)
    ensures s.query(env).None? ==> r == s.declared
  {
    match s.query(env)
    case Some(sigs) => Some(sigs)
    case None => s.declared
  }

  /** The completions of `sigs` on channel `c`, in their original order. */
  function Filter(sigs: SigSet, c: Channel): (r: SigSet)
    ensures forall x :: x in r <==> x in sigs && x.channel == c
    ensures |r| <= |sigs|
    ensures (forall i :: 0 <= i < |sigs| ==> sigs[i].channel == c) ==> r == sigs
    ensures (forall i :: 0 <= i < |sigs| ==> sigs[i].channel != c) ==> r == []
  {
    if sigs == [] then []
    else if sigs[0].channel == c then [sigs[0]] + Filter(sigs[1..], c)
    else Filter(sigs[1..], c)
  }

  /** Filtering distributes over concatenation, so it keeps the order of `sigs`. */
  lemma {:induction false} FilterConcat(a: SigSet, b: SigSet, c: Channel)
    ensures Filter(a + b, c) == Filter(a, c) + Filter(b, c)
  {
    if a == [] {
      assert a + b == b;
    } else {
      assert (a + b)[0] == a[0];
      assert (a + b)[1..] == a[1..] + b;
      FilterConcat(a[1..], b, c);
      if a[0].channel == c {
        assert [a[0]] + (Filter(a[1..], c) + Filter(b, c)) == ([a[0]] + Filter(a[1..], c)) + Filter(b, c);
      }
    }
  }

  /** Every completion lands in exactly one of the three channel views. */
  lemma {:induction false} FilterPartition(sigs: SigSet)
    ensures |Filter(sigs, ValueChannel)| + |Filter(sigs, ErrorChannel)| + |Filter(sigs, StoppedChannel)| == |sigs|
  {
    if sigs != [] {
      FilterPartition(sigs[1..]);
    }
  }

  /** A view keeps nothing of any other channel, and filtering a view again changes nothing. */
  lemma FilterOtherChannel(sigs: SigSet, c: Channel, d: Channel)
    ensures Filter(Filter(sigs, c), c) == Filter(sigs, c)
    ensures c != d ==> Filter(Filter(sigs, c), d) == []
  {
  }

  /** `value_signatures_of_t`, `error_signatures_of_t`, `stopped_signatures_of_t`. */
  function SignaturesOf(c: Channel, s: Sender, env: Env): (r: Option<SigSet>)
    ensures r.Some? <==> CompletionSignaturesOf(s, env).Some?
    ensures r.Some? ==> forall x :: x in r.value <==> x in CompletionSignaturesOf(s, env).value && x.channel == c
  {
    match CompletionSignaturesOf(s, env)
    case Some(sigs) => Some(Filter(sigs, c))
    case None => None
  }

  /** `sends_stopped<S, Env>`: the stopped view is not `completion_signatures<>`. */
  predicate SendsStopped(s: Sender, env: Env) {
    var v := SignaturesOf(StoppedChannel, s, env);
    v.Some? && v.value != []
  }

  /** A sender sends stopped exactly when one of its advertised completions is on the stopped channel. */
  lemma SendsStoppedIffAdvertised(s: Sender, env: Env)
    ensures SendsStopped(s, env) <==>
      CompletionSignaturesOf(s, env).Some? &&
      exists i :: 0 <= i < |CompletionSignaturesOf(s, env).value| &&
                  CompletionSignaturesOf(s, env).value[i].channel == StoppedChannel
  {
    if SendsStopped(s, env) {
      var v := Filter(CompletionSignaturesOf(s, env).value, StoppedChannel);
      assert v[0] in v;
    }
  }

  // ---------------------------------------------------------------------
  // Gathering
  // ---------------------------------------------------------------------

  /**
   * A template used to aggregate types: a variadic one (`tuple`, `variant`),
   * a one-parameter one (`optional`), or the alias that is its one argument
   * (`std::type_identity_t`, and the `unary_tuple_t`/`unary_variant_t` of the
   * tests).
   */
  datatype Aggregator = Variadic(name: string) | Unary(name: string) | Identity

  /** Instantiating an aggregator; None when the instantiation is ill-formed. */
  function Apply(agg: Aggregator, args: seq<Ty>): (r: Option<Ty>)
    ensures r.Some? <==> agg.Variadic? || |args| == 1
    ensures r.Some? && agg.Identity? ==> r.value == args[0]
    ensures r.Some? && !agg.Identity? ==> r.value == App(agg.name, args)
  {
    match agg
    case Variadic(n) => Some(App(n, args))
    case Unary(n) => if |args| == 1 then Some(App(n, args)) else None
    case Identity => if |args| == 1 then Some(args[0]) else None
  }

  /** The per-completion aggregator applied to each completion's payload list, in order. */
  function GatherEach(sigs: SigSet, tuple: Aggregator): (r: Option<seq<Ty>>)
    ensures r.Some? <==> forall i :: 0 <= i < |sigs| ==> Apply(tuple, sigs[i].payload).Some?
    ensures r.Some? ==> |r.value| == |sigs|
    ensures r.Some? ==> forall i :: 0 <= i < |sigs| ==> Some(r.value[i]) == Apply(tuple, sigs[i].payload)
  {
    if sigs == [] then Some([])
    else
      match (Apply(tuple, sigs[0].payload), GatherEach(sigs[1..], tuple))
      case (Some(t), Some(ts)) => Some([t] + ts)
      case _ => None
  }

  lemma GatherOne(x: Sig, tuple: Aggregator)
    requires Apply(tuple, x.payload).Some?
    ensures GatherEach([x], tuple) == Some([Apply(tuple, x.payload).value])
  {
    assert [x][1..] == [];
    assert GatherEach([], tuple) == Some([]);
    var t := Apply(tuple, x.payload).value;
    assert [t] + [] == [t];
  }

  /**
   * `detail::gather_signatures<Tag, S, Env, Tuple, Variant>` on a list of
   * signatures: filter by channel, aggregate each completion with `tuple`,
   * then all of them with `variant`.
   */
  function GatherSigs(c: Channel, sigs: SigSet, tuple: Aggregator, variant: Aggregator): (r: Option<Ty>)
    ensures r.Some? <==> GatherEach(Filter(sigs, c), tuple).Some? && (variant.Variadic? || |Filter(sigs, c)| == 1)
  {
    var f := Filter(sigs, c);
    match GatherEach(f, tuple)
    case Some(ts) => Apply(variant, ts)
    case None => None
  }

  /** `gather_signatures` for a sender in an environment. */
  function GatherSignatures(c: Channel, s: Sender, env: Env, tuple: Aggregator, variant: Aggregator): (r: Option<Ty>)
    ensures r.Some? ==> CompletionSignaturesOf(s, env).Some?
    ensures tuple.Variadic? && variant.Variadic? ==> (r.Some? <==> CompletionSignaturesOf(s, env).Some?)
  {
    match CompletionSignaturesOf(s, env)
    case Some(sigs) => GatherSigs(c, sigs, tuple, variant)
    case None => None
  }

  /**
   * With variadic aggregators gathering always succeeds and wraps, in
   * order, exactly the completions of the channel.
   */
  lemma GatherVariadic(c: Channel, sigs: SigSet, tuple: string, variant: string)
    ensures var f := Filter(sigs, c);
      GatherSigs(c, sigs, Variadic(tuple), Variadic(variant)) ==
        Some(App(variant, seq(|f|, i requires 0 <= i < |f| => App(tuple, f[i].payload))))
  {
    var f := Filter(sigs, c);
    var ts := GatherEach(f, Variadic(tuple)).value;
    assert ts == seq(|f|, i requires 0 <= i < |f| => App(tuple, f[i].payload));
  }

  /** An empty channel gathers to the cross-completion aggregator applied to nothing (`variant<>`). */
  lemma GatherEmptyChannel(c: Channel, sigs: SigSet, tuple: Aggregator, variant: Aggregator)
    requires forall i :: 0 <= i < |sigs| ==> sigs[i].channel != c
    ensures GatherSigs(c, sigs, tuple, variant) == Apply(variant, [])
    ensures variant.Variadic? ==> GatherSigs(c, sigs, tuple, variant) == Some(App(variant.name, []))
  {
  }

  /**
   * The single-completion mode: with identity aggregators, gathering is
   * available exactly when one completion of the channel has exactly one
   * payload type, and then it is that type.
   */
  lemma IdentityGather(c: Channel, sigs: SigSet, t: Ty)
    ensures GatherSigs(c, sigs, Identity, Identity) == Some(t) <==>
      |Filter(sigs, c)| == 1 && Filter(sigs, c)[0].payload == [t]
  {
    var f := Filter(sigs, c);
    if |f| == 1 && f[0].payload == [t] {
      assert f == [f[0]];
      GatherOne(f[0], Identity);
    }
  }

  /** Single-completion gathering is unavailable on a channel with no completion. */
  lemma IdentityGatherEmpty(c: Channel, sigs: SigSet)
    requires Filter(sigs, c) == []
    ensures GatherSigs(c, sigs, Identity, Identity).None?
  {
  }

  /** `value_types_of_t`, `error_types_of_t` and `stopped_types_of_t`. */
  function ValueTypesOf(s: Sender, env: Env, tuple: Aggregator, variant: Aggregator): (r: Option<Ty>)
    ensures r.Some? ==> CompletionSignaturesOf(s, env).Some?
    ensures r.Some? ==> variant.Variadic? || |Filter(CompletionSignaturesOf(s, env).value, ValueChannel)| == 1
  {
    GatherSignatures(ValueChannel, s, env, tuple, variant)
  }

  function ErrorTypesOf(s: Sender, env: Env, tuple: Aggregator, variant: Aggregator): (r: Option<Ty>)
    ensures r.Some? ==> CompletionSignaturesOf(s, env).Some?
    ensures r.Some? ==> variant.Variadic? || |Filter(CompletionSignaturesOf(s, env).value, ErrorChannel)| == 1
  {
    GatherSignatures(ErrorChannel, s, env, tuple, variant)
  }

  function StoppedTypesOf(s: Sender, env: Env, tuple: Aggregator, variant: Aggregator): (r: Option<Ty>)
    ensures r.Some? ==> CompletionSignaturesOf(s, env).Some?
    ensures r.Some? ==> variant.Variadic? || |Filter(CompletionSignaturesOf(s, env).value, StoppedChannel)| == 1
  {
    GatherSignatures(StoppedChannel, s, env, tuple, variant)
  }

  // ---------------------------------------------------------------------
  // The senders of the type-trait tests
  // ---------------------------------------------------------------------

  const TupleAgg: Aggregator := Variadic("tuple")
  const VariantAgg: Aggregator := Variadic("variant")

  /** `set_value_t(int), set_error_t(float), set_stopped_t()`. */
  const ThreeChannels: SigSet :=
    [Sig(ValueChannel, [IntTy]), Sig(ErrorChannel, [FloatTy]), Sig(StoppedChannel, [])]

  /** Senders that only declare `completion_signatures`. */
  const TypedSender1: Sender := Sender(NoQuery, Some(ThreeChannels), false)
  const TypedSender2: Sender := Sender(NoQuery, Some([]), false)

  /** The queries of the queryable senders: fixed answers, and one that names `Env::type`. */
  function AnswerThreeChannels(env: Env): Option<SigSet> {
    Some(ThreeChannels)
  }

  function AnswerNothing(env: Env): Option<SigSet> {
    Some([])
  }

  function AnswerDependentType(env: Env): Option<SigSet> {
    match env.dependentType
    case Some(t) => Some([Sig(ValueChannel, [t])])
    case None => None
  }

  /** Senders that answer the query; the second also declares a default the query overrides. */
  const QueryableSender1: Sender := Sender(AnswerThreeChannels, None, false)
  const QueryableSender2: Sender := Sender(AnswerNothing, Some(ThreeChannels), false)

  /** A sender whose value type is the environment's member `type`; unsatisfiable without one. */
  const QueryableSender3: Sender := Sender(AnswerDependentType, None, false)

  /** A sender with only a declared set reports exactly that set, the empty one included. */
  lemma DeclaredSignatures()
    ensures CompletionSignaturesOf(TypedSender1, EmptyEnv) == Some(ThreeChannels)
    ensures CompletionSignaturesOf(TypedSender2, EmptyEnv) == Some([])
  {
  }

  /** The query wins over the declared default. */
  lemma QueriedSignatures(env: Env)
    ensures CompletionSignaturesOf(QueryableSender1, env) == Some(ThreeChannels)
    ensures CompletionSignaturesOf(QueryableSender2, env) == Some([])
    ensures QueryableSender2.declared == Some(ThreeChannels)
  {
  }

  /** Each channel view of `ThreeChannels` holds that channel's one completion. */
  lemma ThreeChannelsFiltered()
    ensures Filter(ThreeChannels, ValueChannel) == [Sig(ValueChannel, [IntTy])]
    ensures Filter(ThreeChannels, ErrorChannel) == [Sig(ErrorChannel, [FloatTy])]
    ensures Filter(ThreeChannels, StoppedChannel) == [Sig(StoppedChannel, [])]
    ensures GatherEach([Sig(ValueChannel, [IntTy])], TupleAgg) == Some([App("tuple", [IntTy])])
    ensures GatherEach([Sig(ErrorChannel, [FloatTy])], TupleAgg) == Some([App("tuple", [FloatTy])])
    ensures GatherEach([Sig(StoppedChannel, [])], TupleAgg) == Some([App("tuple", [])])
    ensures GatherEach([Sig(ValueChannel, [IntTy])], Identity) == Some([IntTy])
    ensures GatherEach([Sig(ValueChannel, [IntTy])], Unary("optional")) == Some([App("optional", [IntTy])])
  {
    GatherOne(Sig(ValueChannel, [IntTy]), TupleAgg);
    GatherOne(Sig(ErrorChannel, [FloatTy]), TupleAgg);
    GatherOne(Sig(StoppedChannel, []), TupleAgg);
    GatherOne(Sig(ValueChannel, [IntTy]), Identity);
    GatherOne(Sig(ValueChannel, [IntTy]), Unary("optional"));
    assert ThreeChannels[1..] == [Sig(ErrorChannel, [FloatTy]), Sig(StoppedChannel, [])];
    assert ThreeChannels[1..][1..] == [Sig(StoppedChannel, [])];
  }

  /** The channel views of the three-channel senders hold one completion each. */
  lemma ThreeChannelViews(s: Sender, env: Env)
    requires s == TypedSender1 || s == QueryableSender1
    ensures SignaturesOf(ValueChannel, s, env) == Some([Sig(ValueChannel, [IntTy])])
    ensures SignaturesOf(ErrorChannel, s, env) == Some([Sig(ErrorChannel, [FloatTy])])
    ensures SignaturesOf(StoppedChannel, s, env) == Some([Sig(StoppedChannel, [])])
    ensures SendsStopped(s, env)
  {
    ThreeChannelsFiltered();
  }

  /** Gathering the three-channel senders with `tuple` and `variant`. */
  lemma ThreeChannelTypes(s: Sender, env: Env)
    requires s == TypedSender1 || s == QueryableSender1
    ensures ValueTypesOf(s, env, TupleAgg, VariantAgg) == Some(App("variant", [App("tuple", [IntTy])]))
    ensures ErrorTypesOf(s, env, TupleAgg, VariantAgg) == Some(App("variant", [App("tuple", [FloatTy])]))
    ensures StoppedTypesOf(s, env, TupleAgg, VariantAgg) == Some(App("variant", [App("tuple", [])]))
  {
    ThreeChannelsFiltered();
  }

  /** Senders that advertise nothing gather to `variant<>` on every channel and do not send stopped. */
  lemma EmptySignatureTypes(s: Sender, env: Env)
    requires s == TypedSender2 || s == QueryableSender2
    ensures ValueTypesOf(s, env, TupleAgg, VariantAgg) == Some(App("variant", []))
    ensures ErrorTypesOf(s, env, TupleAgg, VariantAgg) == Some(App("variant", []))
    ensures StoppedTypesOf(s, env, TupleAgg, VariantAgg) == Some(App("variant", []))
    ensures !SendsStopped(s, env)
  {
  }

  /** The environment's member type becomes the value payload, so the gathered type follows the environment. */
  lemma {:induction false} DependentSignatures(t: Ty)
    ensures CompletionSignaturesOf(QueryableSender3, DependentEnv(t)) == Some([Sig(ValueChannel, [t])])
    ensures ValueTypesOf(QueryableSender3, DependentEnv(t), TupleAgg, VariantAgg) == Some(App("variant", [App("tuple", [t])]))
    ensures CompletionSignaturesOf(QueryableSender3, EmptyEnv).None?
  {
    var sigs := [Sig(ValueChannel, [t])];
    assert Filter(sigs, ValueChannel) == sigs;
    GatherOne(sigs[0], TupleAgg);
  }

  /** Non-variadic aggregators: identity, `optional`, and the fully collapsed `int`. */
  lemma NonVariadicTypes()
    ensures ValueTypesOf(TypedSender1, EmptyEnv, TupleAgg, Identity) == Some(App("tuple", [IntTy]))
    ensures ErrorTypesOf(TypedSender1, EmptyEnv, TupleAgg, Identity) == Some(App("tuple", [FloatTy]))
    ensures ValueTypesOf(TypedSender1, EmptyEnv, Unary("optional"), VariantAgg) == Some(App("variant", [App("optional", [IntTy])]))
    ensures ValueTypesOf(TypedSender1, EmptyEnv, Identity, Identity) == Some(IntTy)
  {
    ThreeChannelsFiltered();
  }

  /** The `single_sender` concept: available for one-completion channels only. */
  lemma SingleSenderConcept()
    ensures GatherSignatures(ValueChannel, TypedSender1, EmptyEnv, Identity, Identity).Some?
    ensures GatherSignatures(ErrorChannel, TypedSender1, EmptyEnv, Identity, Identity).Some?
    ensures GatherSignatures(ValueChannel, TypedSender2, EmptyEnv, Identity, Identity).None?
  {
    ThreeChannelsFiltered();
  }
}
