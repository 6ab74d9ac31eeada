/** The exceptions the stand model can raise, and a failure-compatible result type. */
module Outcome {
  /** The Python exceptions reachable from the modelled code. */
  datatype Fault =
    | AssertionFailed  // the action-space assertion at the start of a step
    | ZeroDivision     // a growth or volume formula divided by an age of zero
    | MathDomain       // math.log applied to a non-positive number
    | UnboundLocal     // the reward rule read a volume that no branch assigned

  datatype Result<+T> = Ok(value: T) | Err(fault: Fault) {
    predicate IsFailure() { Err? }

    function PropagateFailure<U>(): Result<U>
      requires Err?
    {
      Err(fault)
    }

    function Extract(): T
      requires Ok?
    {
      value
    }
  }
}
