/** Failure-carrying results for the operations of the generator.
    The source signals failure by throwing .NET exceptions; the model names the
    exception kind and returns it instead. */
module Wrappers {

  /** The exception kinds the modelled code can raise. */
  datatype Error =
    | ArgumentException          // a validation failure raised on purpose
    | ArgumentOutOfRange         // an index or a random-range argument out of range
    | InvalidOperation           // `First`/`Average` on an empty sequence
    | IndexOutOfRange            // a missing CSV field
    | KeyNotFound                // a dictionary lookup of an absent key

  datatype Option<+T> = None | Some(value: T)

  datatype Result<+T> = Success(value: T) | Failure(error: Error) {
    predicate IsFailure() {
      Failure?
    }

    function PropagateFailure<U>(): Result<U>
      requires Failure?
    {
      Failure(error)
    }

    function Extract(): T
      requires Success?
    {
      value
    }
  }
}
