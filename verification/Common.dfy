// Failure-compatible results shared by the other modules.
module Common {

  datatype Option<+T> = None | Some(value: T)

  // Result is the source's `Result<T>` or its exceptions: an operation that does
  // not finish leaves its durable effects behind and reports why it stopped.
  datatype Result<+T, +E> = Ok(value: T) | Err(error: E)
  {
    predicate IsFailure() { Err? }

    function PropagateFailure<U>(): Result<U, E>
      requires Err?
    {
      Err(error)
    }

    function Extract(): T
      requires Ok?
    {
      value
    }
  }

  ghost predicate Distinct<T>(s: seq<T>) {
    forall i, j :: 0 <= i < j < |s| ==> s[i] != s[j]
  }
}
