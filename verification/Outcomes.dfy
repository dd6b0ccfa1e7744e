/** How a step of the pipeline can end. */
module Outcomes {

  /** A value; a refusal the caller reports (the source's `PreservedError` and its siblings); or an exception nobody
      catches (`csv.Error`, `IndexError`, `struct.error`), which ends the run before anything more is written. */
  datatype Outcome<+T> = Ok(value: T) | Refused | Crashed {

    predicate IsFailure() {
      !Ok?
    }

    function PropagateFailure<U>(): Outcome<U>
      requires IsFailure()
    {
      if Refused? then Refused else Crashed
    }

    function Extract(): T
      requires Ok?
    {
      value
    }
  }

  /** A check that refuses. */
  function Require(cond: bool): Outcome<()> {
    if cond then Ok(()) else Refused
  }
}
