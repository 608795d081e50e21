/** Failure outcomes of the merge. The source signals each of these by throwing
    (or by a failing test assertion); here they are values. */
module Outcomes {

  datatype Error =
    | UnsupportedConflict   // the resolver got a command pair it has no rule for
    | UnsupportedCommand    // the applier got a command that is not a rename
    | EmptyOldValue         // string.Replace with an empty old value throws
    | QuestionMismatch      // the dialog was asked a question it did not expect
    | ScriptExhausted       // a scripted dialog was asked after its last exchange
    | ScriptNotCompleted    // a scripted dialog still holds unconsumed exchanges
    | NotExactlyOne         // Single() on a branch that does not hold exactly one command

  datatype Result<+T> = Success(value: T) | Failure(error: Error) {
    predicate IsFailure() { Failure? }

    function PropagateFailure<U>(): Result<U>
      requires Failure?
    {
      Failure(error)
    }

    function Extract(): T
      requires Success?
    {
      value
    }
  }
}
