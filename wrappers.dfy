/** Failure-carrying values shared by the model: an optional value, a value
    or an error, and the Python exceptions the modelled code raises. */
module Wrappers {

  datatype Option<+T> = None | Some(value: T)

  datatype Result<+T, +E> = Success(value: T) | Failure(error: E)

  /** The index of the first present value, from `from` on. */
  function FirstSome<T>(options: seq<Option<T>>, from: nat): (r: Option<nat>)
    ensures r.Some? ==> from <= r.value < |options| && options[r.value].Some?
    ensures r.Some? ==> forall i :: from <= i < r.value ==> options[i].None?
    ensures r.None? ==> forall i :: from <= i < |options| ==> options[i].None?
    decreases |options| - from
  {
    if from >= |options| then None
    else if options[from].Some? then Some(from)
    else FirstSome(options, from + 1)
  }

  /** The Python exceptions that the tunnel code lets escape. The message is
      the one the code (or the Python runtime) attaches. */
  datatype PyError =
    | IndexError(message: string)
    | ValueError(message: string)
    | TimeoutError(message: string)
    | StopIteration
    | AttributeError(message: string)
    | NameError(message: string)
    | TypeError(message: string)
}
