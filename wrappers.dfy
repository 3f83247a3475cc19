/** Failure-carrying datatypes shared by the whole model, and the Python
    exceptions the agent's code can raise, modelled as values. */
module Wrappers {

  datatype Option<+T> = None | Some(value: T)

  datatype Result<+T, +E> = Success(value: T) | Failure(error: E) {
    predicate IsFailure() { Failure? }
    function PropagateFailure<U>(): Result<U, E> requires Failure? { Failure(error) }
    function Extract(): T requires Success? { value }
  }

  /** The exception classes the modelled code raises or lets escape. */
  datatype Error =
    | RadosError(text: string)     // rados.Error and its subclass AdminSocketError
    | KeyError(key: string)        // a missing dictionary key
    | TypeError                    // subscripting something that is not a dict
    | ValueError(text: string)     // int() or json.loads on malformed text
    | IndexError                   // a list index out of range
    | AttributeError               // calling .groups() / .get() on the wrong thing
    | AssertionError               // a failed `assert`
    | RuntimeError(text: string)
    | Unavailable(text: string)    // calamari_common.remote.base.Unavailable
}
