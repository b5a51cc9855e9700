/**
 * Channel holders: `value_holder<Ts...>`, `error_holder<E>` and
 * `stopped_holder<>` store one pending outcome and, when invoked with a
 * receiver, make the matching completion call with the stored payload.
 */
module Holders {
  import opened Environment
  import opened Signatures

  /** A parked outcome, one alternative per channel. */
  datatype Holder<V> = ValueHolder(values: seq<V>) | ErrorHolder(error: V) | StoppedHolder

  /** One completion call on a receiver: `set_value(vs...)`, `set_error(e)` or `set_stopped()`. */
  datatype Completion<V> = SetValue(values: seq<V>) | SetError(error: V) | SetStopped

  function HolderChannel<V>(h: Holder<V>): Channel {
    match h
    case ValueHolder(_) => ValueChannel
    case ErrorHolder(_) => ErrorChannel
    case StoppedHolder => StoppedChannel
  }

  function CompletionChannel<V>(c: Completion<V>): Channel {
    match c
    case SetValue(_) => ValueChannel
    case SetError(_) => ErrorChannel
    case SetStopped => StoppedChannel
  }

  /**
   * A receiver, as the set of channels it implements (`receiver` handles
   * values, `error_receiver` errors, `stopped_receiver` stopped).
   */
  datatype Receiver = Receiver(channels: set<Channel>)

  /** Wrapping an arriving completion in the holder of its channel. */
  function Park<V>(c: Completion<V>): (h: Holder<V>)
    ensures HolderChannel(h) == CompletionChannel(c)
  {
    match c
    case SetValue(vs) => ValueHolder(vs)
    case SetError(e) => ErrorHolder(e)
    case SetStopped => StoppedHolder
  }

  /** The completion call a holder makes: the stored payload on the holder's channel. */
  function Call<V>(h: Holder<V>): (c: Completion<V>)
    ensures CompletionChannel(c) == HolderChannel(h)
    ensures h.ValueHolder? ==> c == SetValue(h.values)
    ensures h.ErrorHolder? ==> c == SetError(h.error)
  {
    match h
    case ValueHolder(vs) => SetValue(vs)
    case ErrorHolder(e) => SetError(e)
    case StoppedHolder => SetStopped
  }

  /** Parking and calling are inverse: a holder delivers exactly what was parked in it. */
  lemma ParkCallInverse<V>(h: Holder<V>, c: Completion<V>)
    ensures Park(Call(h)) == h
    ensures Call(Park(c)) == c
  {
  }

  /**
   * `h(r)`: the call made on the receiver, or None when the receiver does
   * not implement the holder's channel (the call would not compile).
   */
  function Invoke<V>(h: Holder<V>, r: Receiver): (c: Option<Completion<V>>)
    ensures c.Some? <==> HolderChannel(h) in r.channels
    ensures c.Some? ==> CompletionChannel(c.value) == HolderChannel(h) && Park(c.value) == h
  {
    if HolderChannel(h) in r.channels then Some(Call(h)) else None
  }

  const ValueReceiver: Receiver := Receiver({ValueChannel})
  const ErrorReceiver: Receiver := Receiver({ErrorChannel})
  const StoppedReceiver: Receiver := Receiver({StoppedChannel})

  /** Each holder delivers its stored payload to the receiver method of its channel. */
  lemma HoldersDeliver()
    ensures Invoke(ValueHolder([42]), ValueReceiver) == Some(SetValue([42]))
    ensures Invoke(ErrorHolder(42), ErrorReceiver) == Some(SetError(42))
    ensures Invoke<int>(StoppedHolder, StoppedReceiver) == Some(SetStopped)
    ensures Invoke(ValueHolder([42]), ErrorReceiver).None?
  {
  }
}
