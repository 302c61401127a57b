/** The outcome of code guarded by CHECK: a value, or the process aborts. */
module Checks {

  datatype Checked<+T> = Passed(value: T) | CheckFailed {

    predicate IsFailure() {
      CheckFailed?
    }

    function PropagateFailure<U>(): Checked<U>
      requires CheckFailed?
    {
      CheckFailed
    }

    function Extract(): T
      requires Passed?
    {
      value
    }
  }
}
