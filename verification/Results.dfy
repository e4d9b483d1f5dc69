/** Values or errors, for the operations that fail without panicking. */
module Results {
  datatype Fallible<+T, +E> = Ok(value: T) | Err(error: E)
  {
    predicate IsFailure() { Err? }

    function PropagateFailure<U>(): Fallible<U, E>
      requires Err?
    { Err(error) }

    function Extract(): T
      requires Ok?
    { value }
  }
}
