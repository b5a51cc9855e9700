/**
 * Shared vocabulary: an optional value, the type terms that completion
 * signatures and environments talk about, and the environment a receiver
 * (or a sender's attributes) exposes to queries.
 */
module Environment {

  datatype Option<+T> = None | Some(value: T)

  /**
   * A C++ type as a first-order term: a named type such as `int`, or a
   * template applied to type arguments such as `variant<tuple<int>>`.
   */
  datatype Ty = Prim(name: string) | App(ctor: string, args: seq<Ty>)

  const IntTy: Ty := Prim("int")
  const FloatTy: Ty := Prim("float")

  /** The two allocators an environment can name. */
  datatype AllocatorKind = StaticAllocator | StackAllocator

  /**
   * An environment: a set of answered queries. `dependentType` is the
   * member type `Env::type` (present in `dependent_env<T>`), `stopToken`
   * says whether a stop token can be obtained from it, and `allocator` is
   * the answer to the allocator query, if it has one.
   */
  datatype Env = Env(dependentType: Option<Ty>, stopToken: bool, allocator: Option<AllocatorKind>)

  /** `empty_env`: no query is satisfied. */
  const EmptyEnv: Env := Env(None, false, None)

  /** `dependent_env<T>`: exposes only the member type `type = T`. */
  function DependentEnv(t: Ty): Env {
    Env(Some(t), false, None)
  }
}
