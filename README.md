# Senders, race combinators and allocators — a Dafny model

This project models three pieces of a C++ senders/receivers library. Their
behaviour is fixed by the library's own tests.

- **Completion signatures** (`Signatures`, `Holders`). A sender advertises an
  ordered list of completions. Each completion is a channel (value, error or
  stopped) plus a payload type list. The list comes from an environment-aware
  query when the sender has one, and otherwise from its declared
  `completion_signatures`. Per-channel views filter that list.
  `sends_stopped` asks whether the stopped view is non-empty. "Gathering"
  folds one channel through a per-completion aggregator (`tuple`, `optional`,
  identity) and then a cross-completion aggregator (`variant`, identity).
  Channel holders park one outcome and make the matching receiver call.
- **The race combinators** `when_any`, `first_successful` and `stop_when`
  (`WhenAny`, `RaceOperations`, `RaceScenarios`).
  - The decision protocol is a pure function of the order in which child
    completions and stop requests arrive (`Decision`, `LastError`,
    `Outcome`).
  - The operation state is the record `RaceState` (`RaceStates`). It holds
    the winner, the outstanding-children counter, the last error, the
    internal stop source and the completions delivered downstream. Its
    transitions are functions (`AfterChild`, `AfterStop`, `Bypassed`).
    `Consistent` is the invariant that ties them to the decision protocol.
  - The class `RaceOperation` holds one such record and replaces it in
    place. `Start`, `ChildCompleted` and `RequestStop` step it. `Run`
    applies any admissible sequence of later events.
  - The advertised completion set of a race is the de-duplicated union of
    the children's sets. Stopped is added when the environment has a stop
    token.
- **Allocators** (`Allocators`).
  - `allocator_of_t` is a lookup through sender environments.
  - The static allocator's per-domain live counts are bounded by
    `static_allocation_limit`, which is 1 unless specialised. The counts are
    static storage: every `static_allocator` value of a domain shares them.
    The model holds them in one object, `StaticSlots`, that every
    construction in a scenario goes through.
  - The stack allocator always succeeds and constructs each object exactly
    once.

Payload types are first-order terms (`Ty`). Type lists are sequences, so an
ill-formed instantiation in C++ becomes `None`. Concurrency is modelled as a
sequence of events applied one at a time, so exactly-once delivery is an
invariant of the class (`Valid`: at most one completion is ever delivered,
and exactly one once every child has retired).

Where the library's description and its tests disagree, the model follows the tests:
- `stop_when` decides on the first completion of any kind. The description
  says the controller's completion always yields stopped. The pipe test
  (`just(42) | stop_when(just(17))`) completes with 42, however.
- The pipe form puts the piped sender first. The description calls it
  equivalent to `stop_when(controller, sender)`.

Two choices rest on the library's description alone, because no test decides
them:
- `when_any` accepts a stopped completion as the winner, like a value or an
  error (`WhenAny.Accepts`). Its tests show stopped winning only when every
  child stops (test/when_any.cpp:80-92). For `stop_when` a test does decide
  it: in `stop_when(just_stopped(), just(17))` the stopped completion wins
  although the other child sends a value (test/when_any.cpp:173-185,
  `RaceScenarios.StopWhenFirstComplete`). That test is named "first_complete
  policy", which could suggest that `when_any`'s policy differs.
- A stop request made after `start` decides the race with stopped only while
  nothing has won yet. A winner that is already decided is kept and
  delivered once every child retires (`RaceStates.RaceState.AfterStop`).

## Model

| member | source | states |
|---|---|---|
| Signatures.CompletionSignaturesOf | test/type_traits.cpp:64-87 | the query's answer is used whenever it exists; otherwise the declared set; undefined only when neither exists |
| Signatures.DeclaredSignatures | test/type_traits.cpp:31-38 | a sender with only a declared set reports exactly that set, the empty set included |
| Signatures.QueriedSignatures | test/type_traits.cpp:79-88 | the query's set wins over a declared default, in every environment |
| Signatures.Filter | test/type_traits.cpp:40-50 | a channel view holds exactly the completions of that channel, no longer than the list, all of it when every completion is on the channel, nothing when none is |
| Signatures.FilterConcat | test/type_traits.cpp:40-50 | a view distributes over concatenation, so it keeps the advertised order |
| Signatures.FilterPartition | test/type_traits.cpp:40-50 | the three channel views together account for every completion exactly once |
| Signatures.FilterOtherChannel | test/type_traits.cpp:40-50 | a view contains nothing of another channel and is unchanged by filtering again |
| Signatures.SignaturesOf | test/type_traits.cpp:90-100 | `value/error/stopped_signatures_of_t` exist exactly when the sender's set does and keep exactly that channel's completions |
| Signatures.ThreeChannelsFiltered | test/type_traits.cpp:40-50 | each view of `set_value_t(int), set_error_t(float), set_stopped_t()` is that channel's single completion |
| Signatures.ThreeChannelViews | test/type_traits.cpp:90-100 | for the declared and the queried three-channel sender every view is one completion and the sender sends stopped |
| Signatures.SendsStoppedIffAdvertised | test/type_traits.cpp:146-160 | `sends_stopped` holds if and only if some advertised completion is on the stopped channel |
| Signatures.SendsStopped | test/type_traits.cpp:146-160 | `sends_stopped`: the stopped view exists and is non-empty; `SendsStoppedIffAdvertised` states it over the advertised set |
| Signatures.GatherSigs | test/type_traits.cpp:133-145 | gathering a channel succeeds exactly when the per-completion aggregator succeeds on each of the channel's completions and the cross aggregator is variadic or the channel has exactly one completion |
| Signatures.GatherSignatures | test/type_traits.cpp:133-145 | `gather_signatures`: defined only when the sender's set is; with `tuple`/`variant` defined exactly when it is |
| Signatures.ValueTypesOf | test/type_traits.cpp:133-137 | `value_types_of_t`: defined only for a sender with a set, and for a non-variadic cross aggregator only when the value channel has exactly one completion |
| Signatures.ErrorTypesOf | test/type_traits.cpp:138-141 | `error_types_of_t`: the same for the error channel |
| Signatures.StoppedTypesOf | test/type_traits.cpp:142-145 | `stopped_types_of_t`: the same for the stopped channel |
| Signatures.Apply | test/type_traits.cpp:205-222 | a variadic aggregator accepts any argument count; a one-parameter one or the identity alias only exactly one argument, and the identity returns it unchanged |
| Signatures.GatherEach | test/type_traits.cpp:133-145 | the per-completion aggregator is applied to every completion, in order, and succeeds only when it succeeds on each |
| Signatures.GatherVariadic | test/type_traits.cpp:133-145 | with `tuple`/`variant`, gathering is `variant<tuple<payload>...>` over exactly the channel's completions in order |
| Signatures.GatherEmptyChannel | test/type_traits.cpp:148-159 | an empty channel gathers to the cross aggregator applied to nothing, `variant<>` |
| Signatures.ThreeChannelTypes | test/type_traits.cpp:163-176 | the three-channel senders gather to `variant<tuple<int>>`, `variant<tuple<float>>`, `variant<tuple<>>` |
| Signatures.EmptySignatureTypes | test/type_traits.cpp:178-190 | senders advertising nothing gather to `variant<>` on every channel and do not send stopped |
| Signatures.DependentSignatures | test/type_traits.cpp:119-125 | the environment's member type becomes the value payload, so gathering follows the environment; with no such member the query is unsatisfiable |
| Signatures.NonVariadicTypes | test/type_traits.cpp:205-223 | identity and `optional` aggregators give `tuple<int>`, `tuple<float>`, `variant<optional<int>>` and plain `int` |
| Signatures.IdentityGather | test/type_traits.cpp:219-222 | single-completion gathering yields type `t` if and only if the channel has exactly one completion whose payload is exactly `t` |
| Signatures.IdentityGatherEmpty | test/type_traits.cpp:236-247 | single-completion gathering is unavailable on an empty channel |
| Signatures.SingleSenderConcept | test/type_traits.cpp:243-247 | `single_sender` holds for the value and error channels of the three-channel sender and fails for the empty sender |
| Holders.Park | test/type_traits.cpp:249-271 | an arriving completion is parked in the holder of its own channel |
| Holders.Call | test/type_traits.cpp:249-271 | a holder calls its own channel with the stored payload |
| Holders.ParkCallInverse | test/type_traits.cpp:249-271 | parking and calling are inverse: a holder delivers exactly what was parked in it |
| Holders.Invoke | test/type_traits.cpp:249-271 | invoking a holder on a receiver makes a call exactly when the receiver implements the holder's channel, and the call re-parks to the same holder |
| Holders.HoldersDeliver | test/type_traits.cpp:249-271 | value 42, error 42 and stopped reach the matching receivers; a value holder cannot be invoked on an error receiver |
| WhenAny.Accepts | test/when_any.cpp:159-185 | the policies: `first_successful` accepts only a value; `when_any` and `stop_when` accept any completion. No contract; `DecisionFirst` and `FirstSuccessfulOutcome` state its effect |
| WhenAny.Decides | test/when_any.cpp:187-226 | an arrival decides the race when it is a stop request or a completion the policy accepts. No contract; `DecisionNone` states its effect |
| WhenAny.Decision | test/when_any.cpp:52-92 | the winner after a sequence of arrivals. No contract of its own; characterised by `DecisionNone`, `DecisionFirst`, `DecisionIsArrival`, `DecisionSnoc` and `DecisionStable` |
| WhenAny.LastError | test/when_any.cpp:159-171 | the latest error arrival. No contract of its own; characterised by `LastErrorNone` and `LastErrorLast` |
| WhenAny.Outcome | test/when_any.cpp:52-92 | what the race delivers: the winner, otherwise the last error, otherwise stopped. No contract of its own; characterised by `FirstArrivalWins`, `FirstSuccessfulOutcome` and `AllStoppedOutcome` |
| WhenAny.DecisionNone | test/when_any.cpp:52-92 | the race is undecided exactly when no arrival so far is acceptable to the policy |
| WhenAny.DecisionFirst | test/when_any.cpp:52-78 | the winner is the holder of the first acceptable arrival |
| WhenAny.DecisionIsArrival | test/when_any.cpp:52-92 | a winner is always the parked outcome of some arrival |
| WhenAny.LastErrorNone | test/when_any.cpp:159-171 | there is no last error exactly when no child has completed with an error |
| WhenAny.LastErrorLast | test/when_any.cpp:159-171 | the last error recorded is the latest error arrival |
| WhenAny.DecisionSnoc | test/when_any.cpp:52-92 | one more arrival keeps an existing winner and otherwise decides exactly when the policy accepts it |
| WhenAny.DecisionStable | test/when_any.cpp:58-61 | once decided the winner never changes, whatever arrives later |
| WhenAny.FirstArrivalWins | test/when_any.cpp:52-78 | under `when_any` and `stop_when` the first arrival's outcome is delivered |
| WhenAny.FirstSuccessfulOutcome | test/when_any.cpp:159-171 | under `first_successful` the first value wins; with no value the last error is forwarded; if every child stopped the outcome is stopped |
| WhenAny.AllStoppedOutcome | test/when_any.cpp:80-92 | if every arrival is stopped, every policy completes stopped |
| WhenAny.Dedup | test/when_any.cpp:37-50 | de-duplication keeps exactly the same completions, each once |
| WhenAny.Flatten | test/when_any.cpp:37-50 | the union holds exactly the completions of some child |
| WhenAny.ChildSignatures | test/when_any.cpp:37-50 | the children's sets exist exactly when each child's does, one per child, in order |
| WhenAny.RaceSender | test/when_any.cpp:108-138 | the combinator is single-use if and only if some child is single-use |
| WhenAny.RaceSignatures | test/when_any.cpp:37-50 | the race's signature query. No contract of its own; characterised by `RaceAdvertises` |
| WhenAny.RaceOverStoppedOnly | test/when_any.cpp:239-264 | over children that advertise nothing but an optional stopped, the race advertises exactly stopped in a stoppable environment and nothing otherwise |
| WhenAny.RaceAdvertises | test/when_any.cpp:37-50 | the race advertises a completion if and only if some child does, or it is stopped and the environment has a stop token; each at most once |
| WhenAny.ZeroChildSignatures | test/when_any.cpp:239-264 | with no children the set is empty, or just stopped in a stoppable environment, also when nested |
| WhenAny.WhenAnyAdvertisesValues | test/when_any.cpp:37-43 | `when_any(just(42), just(17))` advertises exactly `set_value_t(int)` and no error |
| WhenAny.WhenAnyAdvertisesErrors | test/when_any.cpp:45-50 | `when_any(just(42), just_error(17))` advertises `set_error_t(int)` |
| WhenAny.Cardinality | test/when_any.cpp:108-138 | a move-only child makes the race single-use; a copyable one leaves it reusable |
| RaceStates.RaceState.Consistent | test/when_any.cpp:52-92 | the invariant: the winner and last error are those of the decision protocol on the arrivals so far, the counter counts unfinished children, the internal stop source is requested once decided, and the delivery log holds at most one call, the outcome, present exactly once every child has retired |
| RaceStates.RaceState.AfterChild | test/when_any.cpp:52-92 | a child's completion: decides if undecided and acceptable, records an error, marks the child, decrements the counter, and the last one appends the outcome call. No contract of its own; `ChildCompletedStep` states its effect |
| RaceStates.RaceState.AfterStop | test/when_any.cpp:208-282 | a stop request: after start and before delivery it decides stopped when undecided, requests the internal stop, and appends the outcome call when nothing is outstanding. No contract of its own; `StopStep` states its effect |
| RaceStates.RaceState.Bypassed | test/when_any.cpp:187-206 | `start` with stop already requested: appends stopped and starts nothing. No contract of its own; `RaceOperation.Bypass` states its effect |
| RaceStates.UnfinishedZero | test/when_any.cpp:52-92 | the outstanding count is zero exactly when every child has finished |
| RaceStates.UnfinishedMark | test/when_any.cpp:52-92 | a child's completion decrements the outstanding count by exactly one |
| RaceStates.UnfinishedNone | test/when_any.cpp:58-61 | before any completion every child is outstanding |
| RaceStates.Connected | test/when_any.cpp:58-61 | the connected state is consistent under every policy: not started, no stop request, every child outstanding, nothing decided or delivered |
| RaceStates.RetiredDelivers | test/when_any.cpp:52-92 | once started, the receiver has been given the race's outcome exactly when every child has retired, and nothing before |
| RaceStates.ChildCompletedStep | test/when_any.cpp:52-92 | a child's completion never follows a delivery, keeps the state consistent with the decision protocol, and delivers the outcome exactly when it is the last to retire |
| RaceStates.StopStep | test/when_any.cpp:208-282 | a stop request keeps the state consistent; after start and before delivery it delivers the outcome at once when nothing is outstanding |
| RaceOperations.SyncArrivalsInOrder | test/when_any.cpp:52-64 | children that complete inside their own start arrive in start order |
| RaceOperations.RaceOperation.constructor | test/when_any.cpp:58-61 | `connect`: nothing started, nothing decided, every child outstanding |
| RaceOperations.RaceOperation.ChildCompleted | test/when_any.cpp:52-92 | a completion is recorded, decides the race if undecided and acceptable, never replaces a winner, decrements the counter, and the last one delivers the outcome exactly once |
| RaceOperations.RaceOperation.Start | test/when_any.cpp:52-106 | with stop already requested it delivers stopped and starts no child; otherwise it starts every child left to right and delivers once all of them completed inside their start |
| RaceOperations.RaceOperation.Bypass | test/when_any.cpp:187-206 | stop before start: stopped is delivered and no child is started |
| RaceOperations.RaceOperation.StartChildren | test/when_any.cpp:52-64 | children are started in order; arrivals are exactly the inline completions in start order |
| RaceOperations.RaceOperation.Begin | test/when_any.cpp:52-64 | marking the operation started keeps it consistent and changes nothing else |
| RaceOperations.RaceOperation.StartChild | test/when_any.cpp:52-64 | starting child `i` adds its arrival when it completes inside its start, and marks exactly that child finished |
| RaceOperations.RaceOperation.StartNext | test/when_any.cpp:52-64 | starting the next child changes nothing else |
| RaceOperations.RaceOperation.RequestStop | test/when_any.cpp:208-282 | a stop after start decides the race with stopped unless already decided, asks the children to stop, and delivers at once with nothing outstanding; before start it is only recorded |
| RaceOperations.RaceOperation.Run | test/when_any.cpp:58-61 | under any admissible interleaving of completions and stop requests the receiver is invoked at most once, exactly once when every child has finished, and never again afterwards |
| RaceScenarios.RaceTwo | test/when_any.cpp:52-64 | a race over two inline children delivers exactly the outcome of their arrivals in start order |
| RaceScenarios.WhenAnyFirstValue | test/when_any.cpp:52-64 | `when_any(just(42), just(17))` delivers 42, once |
| RaceScenarios.WhenAnyFirstError | test/when_any.cpp:66-78 | `when_any(just_error(42), just_error(17))` delivers error 42, once |
| RaceScenarios.WhenAnyAllStopped | test/when_any.cpp:80-92 | two stopped children: stopped, once |
| RaceScenarios.WhenAnyFirstVoidValue | test/when_any.cpp:94-106 | `when_any(just(), just(17))` delivers the empty value pack |
| RaceScenarios.WhenAnySingleChild | test/when_any.cpp:108-138 | one `just(42)` child, move-only, copied or moved, delivers 42 |
| RaceScenarios.RaceThreads | test/when_any.cpp:140-157 | two later-completing children: the outcome of the earlier finisher's arrival followed by the other's is delivered |
| RaceScenarios.WhenAnyThreads | test/when_any.cpp:140-157 | two later-completing children: whichever finishes first provides the single value, 42 or 17 |
| RaceScenarios.FirstSuccessfulSkipsError | test/when_any.cpp:159-171 | `first_successful(just_error(42), just(17))` delivers 17 |
| RaceScenarios.StopWhenFirstComplete | test/when_any.cpp:173-185 | `stop_when(just_stopped(), just(17))` delivers stopped |
| RaceScenarios.StopWhenPiped | test/when_any.cpp:228-237 | `just(42)` piped into `stop_when(just(17))` delivers 42 |
| RaceScenarios.ZeroChildrenNeverComplete | test/when_any.cpp:239-248 | `when_any()` never completes without a stop request |
| RaceScenarios.ZeroChildrenStopBeforeStart | test/when_any.cpp:250-264 | stop before start: stopped is delivered inside `start` |
| RaceScenarios.ZeroChildrenStopAfterStart | test/when_any.cpp:266-282 | nothing after `start`, stopped exactly upon the stop request |
| RaceScenarios.CancelBeforeStart | test/when_any.cpp:187-206 | stop before start: stopped, and the child's work never runs |
| RaceScenarios.CancelDuringOperation | test/when_any.cpp:208-226 | stop during the operation: the child is asked to stop, nothing is delivered until it retires, then stopped |
| Allocators.EnvOf | test/allocator.cpp:23-43 | the environment of a pipeline: an inline scheduler names the stack allocator, a thread scheduler names none, `then` and `seq` take the later sender's. No contract of its own; `AllocatorFollowsLastScheduler` and `AllocatorLookups` state its effect |
| Allocators.AllocatorOf | test/allocator.cpp:18-21 | an environment naming no allocator selects the static allocator; otherwise the one it names |
| Allocators.AllocatorFollowsLastScheduler | test/allocator.cpp:23-43 | through `then` and `seq`, a pipeline's allocator is that of the scheduler run last |
| Allocators.AllocatorLookups | test/allocator.cpp:18-43 | empty env gives static; inline-scheduled gives stack; thread-scheduled gives static; `seq` takes the later sender's |
| Allocators.StaticSlots.constructor | test/allocator.cpp:55-57 | at program start no domain has a live object |
| Allocators.StaticSlots.Construct | test/allocator.cpp:55-100 | succeeds if and only if the domain is under its limit, hands the object to the callback only then, occupies one slot of that domain only, and keeps every domain within its limit |
| Allocators.StaticSlots.Destruct | test/allocator.cpp:55-100 | frees exactly one slot of the domain and no other |
| Allocators.StaticDefaultLimit | test/allocator.cpp:55-63 | default limit 1: the first construction succeeds and the callback sees 42 |
| Allocators.StaticLimitReached | test/allocator.cpp:65-76 | at the limit the construction fails and its callback sees nothing |
| Allocators.StaticMultiDomain | test/allocator.cpp:78-100 | a domain limited to 2 admits two nested constructions, 42 and 17, and rejects the third |
| Allocators.StackAllocator.Construct | test/allocator.cpp:175-187 | always succeeds and adds exactly one construction, whether the callback takes the object by reference or by value |
| Allocators.StackConstructOnce | test/allocator.cpp:175-187 | the callback observes a construction count of exactly 1 for both kinds of callback |

## Left out

- Concept checks that have no behaviour: the operation-state concept of `connect_result_t` (test/type_traits.cpp:12-17), and the `allocator` concept (test/allocator.cpp:189-195).
- Real concurrency, atomics, thread-scheduler sleeps, randomness and `phase_control`. Interleavings are an event sequence. A thread-scheduler child is a child that does not complete inside its own start.
- `upon_stopped` and `sync_wait`, which wrap the race in the tests. The model observes the race's own delivered completion.
- Real stop-token callbacks and their registration. The internal stop source is the flag `childStopRequested`. A child is not made to react to it; it still retires by completing.
- Move-only and non-movable object mechanics, and memory placement. Only the values handed over are modelled. The non-movable test (test/allocator.cpp:157-165) is the default-limit scenario with another type.
- `task_manager`, the priority scheduler, `hal` injection and `start_on`/`start_detached` (test/allocator.cpp:102-147). They depend on scheduler internals that are not part of this model.
- The destruct calls of the two-slot test name the other domain (test/allocator.cpp:94 and 97). The model destructs in the domain that was allocated from.
- Allocators.StaticSlots.Construct: the callback is not a parameter. The object is returned, and the caller does the callback's work (nested constructions, the destruct) after the slot is taken, which is the order the callback runs in.
- RaceOperations.RaceOperation.Run: applies events only after every child has started. A thread-scheduler child that completes, or a stop request that arrives, while later children are still being started is not modelled. For example, in `when_any(thread child, just(17))` the model cannot let child 0 finish before child 1 starts. Run also states delivery and finished children, not the exact arrival history. The scenarios that need the history step the operation event by event.
- RaceStates.RaceState.AfterStop: a stop request after a winner was decided keeps that winner. The library's description says the race then completes stopped once every child retires. No test covers this case.
- Payload types are terms, not C++ types: no reference or cv qualifiers, and no decay.

