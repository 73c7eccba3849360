/** Failure kinds raised by the core and the result wrappers that carry them. */
module Outcomes {

  /** One constructor per distinct cause. The source raises the last three as
      InvalidOperationException with different messages. */
  datatype Failure =
    | Concurrency              // ConcurrencyException
    | AggregateNotFound        // AggregateNotFoundException
    | EntityNotFound           // projection fetch found no inventory item row
    | DuplicateCommandHandler  // a command type registered twice
    | NoCommandHandler         // a command sent with no handler registered

  /** A value or the failure that replaced it; usable with `:-`. */
  datatype Result<+T> = Ok(value: T) | Err(failure: Failure) {
    predicate IsFailure() { Err? }

    function PropagateFailure<U>(): Result<U>
      requires Err?
    {
      Err(failure)
    }

    function Extract(): T
      requires Ok?
    {
      value
    }
  }

  /** Success or failure of an operation whose only product is a new state. */
  datatype Outcome = Pass | Fail(failure: Failure)

  /** A value that may be absent (a null reference in the source). */
  datatype Option<+T> = None | Some(value: T)
}
