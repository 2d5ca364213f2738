/** Errors the Python code raises, as values.  Each engine returns a `Result`
    instead of throwing, so that the failing inputs are part of the model. */
module Errors {

  /** The exceptions the modelled code can raise. */
  datatype Error =
    | IndexOutOfRange     // a list or array subscript past its end (IndexError)
    | MissingAttribute    // an attribute read off a value that has none (AttributeError)
    | EmptyChoice         // numpy's random.choice over an empty range (ValueError)
    | InvalidProbability  // numpy's random.choice with a negative probability (ValueError)
    | ZeroDivision        // a division by zero (ZeroDivisionError)

  datatype Result<+T> = Ok(value: T) | Fail(error: Error) {
    predicate IsFailure() { Fail? }

    function PropagateFailure<U>(): Result<U>
      requires Fail?
    {
      Fail(error)
    }

    function Extract(): T
      requires Ok?
    {
      value
    }
  }

  datatype Option<+T> = None | Some(value: T)
}
