/** Outcomes of operations that the C# code can abort with an exception. */
module Results {

  /** The only exception the modelled code can raise on its own: a `List<T>` or
      array read outside `0 .. Count-1` (`ArgumentOutOfRangeException` /
      `IndexOutOfRangeException`). */
  datatype Fault = IndexOutOfRange

  /** A value, or the exception that aborted the computation. */
  datatype Result<+T> = Ok(value: T) | Err(fault: Fault) {

    predicate IsFailure() {
      Err?
    }

    function PropagateFailure<U>(): Result<U>
      requires Err?
    {
      Err(fault)
    }

    function Extract(): T
      requires Ok?
    {
      value
    }
  }
}
