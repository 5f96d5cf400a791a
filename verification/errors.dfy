/** The exceptions the template engine can raise. Any of them ends the script
    before the document is saved, so a pass that fails has no useful result. */
module Errors {

  /** The Python exception each failing line of main.py raises. */
  datatype Error =
    | KeyError            // variables[p.text] with a key that is only present trimmed
    | IndexError          // a run or paragraph index past the end of its list
    | ValueError          // int() of a repeat count that is not an integer
    | UnboundLocalError   // repeat_end_paragraph read before any terminator was found

  /** A value, or the exception that aborted its computation. */
  datatype Result<+T> = Ok(value: T) | Err(error: Error) {
    predicate IsFailure() { Err? }

    function PropagateFailure<U>(): Result<U>
      requires Err?
    {
      Err(error)
    }

    function Extract(): T
      requires Ok?
    {
      value
    }
  }

  /** What a pass that changes the document in place reports. */
  datatype Outcome = Pass | Fail(error: Error)

  /** The outcome of a computation, forgetting its value. */
  function OutcomeOf<T>(r: Result<T>): Outcome
  {
    if r.Ok? then Pass else Fail(r.error)
  }
}
