/**
 * Allocators: which allocator an environment selects, the static
 * allocator's per-domain live-allocation accounting, and the stack
 * allocator's construct-exactly-once behaviour.
 */
module Allocators {
  import opened Environment

  // ---------------------------------------------------------------------
  // Allocator lookup through environments
  // ---------------------------------------------------------------------

  datatype Scheduler = InlineScheduler | ThreadScheduler

  /** The sender pipelines whose environments the allocator is read from. */
  datatype SenderExpr =
    | Schedule(on: Scheduler)
    | Then(upstream: SenderExpr)
    | Sequence(first: SenderExpr, second: SenderExpr)

  /**
   * The environment a sender exposes: the inline scheduler's sender
   * advertises the stack allocator, the thread scheduler's advertises
   * nothing; `then` forwards its upstream's environment and `seq` the
   * environment of the sender run second.
   */
  function EnvOf(s: SenderExpr): Env {
    match s
    case Schedule(InlineScheduler) => Env(None, false, Some(StackAllocator))
    case Schedule(ThreadScheduler) => EmptyEnv
    case Then(u) => EnvOf(u)
    case Sequence(_, second) => EnvOf(second)
  }

  /** `allocator_of_t<Env>`: the allocator the environment names, the static allocator by default. */
  function AllocatorOf(env: Env): (a: AllocatorKind)
    ensures env.allocator.None? ==> a == StaticAllocator
    ensures env.allocator.Some? ==> a == env.allocator.value
  {
    match env.allocator
    case Some(k) => k
    case None => StaticAllocator
  }

  /** The scheduler whose `schedule()` runs last in a pipeline. */
  function LastScheduler(s: SenderExpr): Scheduler {
    match s
    case Schedule(sch) => sch
    case Then(u) => LastScheduler(u)
    case Sequence(_, second) => LastScheduler(second)
  }

  /** The allocator each scheduler's work uses. */
  function SchedulerAllocator(sch: Scheduler): AllocatorKind {
    match sch
    case InlineScheduler => StackAllocator
    case ThreadScheduler => StaticAllocator
  }

  /** A pipeline allocates with the allocator of the scheduler that runs last in it. */
  lemma {:induction false} AllocatorFollowsLastScheduler(s: SenderExpr)
    ensures AllocatorOf(EnvOf(s)) == SchedulerAllocator(LastScheduler(s))
  {
    match s
    case Schedule(_) =>
    case Then(u) =>
      AllocatorFollowsLastScheduler(u);
    case Sequence(_, second) =>
      AllocatorFollowsLastScheduler(second);
  }

  /** The lookups the allocator tests pin down. */
  lemma AllocatorLookups()
    ensures AllocatorOf(EmptyEnv) == StaticAllocator
    ensures AllocatorOf(EnvOf(Then(Schedule(InlineScheduler)))) == StackAllocator
    ensures AllocatorOf(EnvOf(Then(Schedule(ThreadScheduler)))) == StaticAllocator
    ensures AllocatorOf(EnvOf(Sequence(Schedule(ThreadScheduler), Schedule(InlineScheduler)))) == StackAllocator
  {
    AllocatorFollowsLastScheduler(Then(Schedule(InlineScheduler)));
    AllocatorFollowsLastScheduler(Then(Schedule(ThreadScheduler)));
    AllocatorFollowsLastScheduler(Sequence(Schedule(ThreadScheduler), Schedule(InlineScheduler)));
  }

  // ---------------------------------------------------------------------
  // Static allocator
  // ---------------------------------------------------------------------

  /** An allocation domain (a tag type in the library). */
  datatype Domain = Domain(name: string)

  /**
   * The static storage behind `static_allocator`: each domain has a fixed
   * number of slots (`static_allocation_limit<Domain>`, 1 unless
   * specialised), and a construction occupies one until it is destructed.
   * `static_allocator` itself holds no state: every value of it, whether
   * built by the caller or default-constructed by another sender (as
   * `start_detached<Domain>` does), allocates from this one per-domain
   * table, so a program has a single object of this class and its
   * `construct`/`destruct` are the methods below.
   */
  class StaticSlots {
    /** The specialised limits; every other domain has limit 1. */
    const limits: map<Domain, nat>
    /** Objects currently constructed, per domain. */
    var live: map<Domain, nat>

    function Limit(d: Domain): nat {
      if d in limits then limits[d] else 1
    }

    function Live(d: Domain): nat
      reads this
    {
      if d in live then live[d] else 0
    }

    /** No domain ever has more live objects than its limit. */
    ghost predicate Valid()
      reads this
    {
      forall d :: d in live ==> live[d] <= Limit(d)
    }

    /** Program start: the table is empty in every domain. */
    constructor (limits: map<Domain, nat>)
      ensures Valid()
      ensures this.limits == limits
      ensures forall d :: Live(d) == 0
    {
      this.limits := limits;
      live := map[];
    }

    /**
     * `static_allocator::construct<Domain, T>(callback, args...)`: succeeds exactly while the
     * domain is under its limit, occupying one slot; the callback receives
     * the constructed object only on success (the object is returned here
     * and the callback's work is done by the caller).
     */
    method Construct(d: Domain, x: int) returns (ok: bool, handed: Option<int>)
      requires Valid()
      modifies this
      ensures Valid()
      ensures ok <==> old(Live(d)) < Limit(d)
      ensures handed == if ok then Some(x) else None
      ensures Live(d) == old(Live(d)) + (if ok then 1 else 0)
      ensures forall e :: e != d ==> Live(e) == old(Live(e))
    {
      if Live(d) < Limit(d) {
        live := live[d := Live(d) + 1];
        ok, handed := true, Some(x);
      } else {
        ok, handed := false, None;
      }
    }

    /** `static_allocator::destruct<Domain>(p)`: frees the slot of a live object of the domain. */
    method Destruct(d: Domain)
      requires Valid() && Live(d) > 0
      modifies this
      ensures Valid()
      ensures Live(d) == old(Live(d)) - 1
      ensures forall e :: e != d ==> Live(e) == old(Live(e))
    {
      live := live[d := Live(d) - 1];
    }
  }

  /** The domain of the tests, with the default limit. */
  const SingleDomain := Domain("domain")
  /** The domain whose limit is specialised to 2. */
  const MultiDomain := Domain("multi_domain")
  const TestLimits: map<Domain, nat> := map[MultiDomain := 2]

  /** Default limit 1: the first construction succeeds and hands over 42; destructing frees the slot. */
  method StaticDefaultLimit() returns (ok: bool, seen: Option<int>, liveAfter: nat)
    ensures ok && seen == Some(42) && liveAfter == 0
  {
    var slots := new StaticSlots(map[]);
    ok, seen := slots.Construct(SingleDomain, 42);
    slots.Destruct(SingleDomain);
    liveAfter := slots.Live(SingleDomain);
  }

  /** At the limit a second construction fails and its callback never sees an object. */
  method StaticLimitReached() returns (first: bool, second: bool, secondSeen: Option<int>)
    ensures first && !second && secondSeen.None?
  {
    var slots := new StaticSlots(map[]);
    var p;
    first, p := slots.Construct(SingleDomain, 42);
    second, secondSeen := slots.Construct(SingleDomain, 17);
    slots.Destruct(SingleDomain);
  }

  /** A domain limited to 2 admits two nested constructions and rejects a third. */
  method StaticMultiDomain() returns (first: Option<int>, second: Option<int>, third: Option<int>)
    ensures first == Some(42) && second == Some(17) && third.None?
  {
    var slots := new StaticSlots(TestLimits);
    var ok;
    ok, first := slots.Construct(MultiDomain, 42);
    ok, second := slots.Construct(MultiDomain, 17);
    ok, third := slots.Construct(MultiDomain, 0);
    slots.Destruct(MultiDomain);
    slots.Destruct(MultiDomain);
  }

  // ---------------------------------------------------------------------
  // Stack allocator
  // ---------------------------------------------------------------------

  /** `stack_allocator`; `constructions` counts the constructor calls of the objects it builds. */
  class StackAllocator {
    var constructions: nat

    constructor ()
      ensures constructions == 0
    {
      constructions := 0;
    }

    /**
     * `construct<Domain, T>(callback, args...)`: always succeeds, building
     * the object exactly once whether the callback takes it by reference
     * (`byValue` false) or by value (`byValue` true, the object is moved):
     * the two kinds of callback behave the same.
     */
    method Construct(x: int, byValue: bool) returns (ok: bool, handed: int, countSeen: nat)
      modifies this
      ensures ok && handed == x
      ensures constructions == old(constructions) + 1
      ensures countSeen == constructions
    {
      constructions := constructions + 1;
      ok, handed, countSeen := true, x, constructions;
    }
  }

  /** Both kinds of callback see exactly one construction. */
  method StackConstructOnce(byValue: bool) returns (ok: bool, countSeen: nat)
    ensures ok && countSeen == 1
  {
    var alloc := new StackAllocator();
    var handed;
    ok, handed, countSeen := alloc.Construct(42, byValue);
  }
}
