/** Results shared by the whole model. The interpreter can return an API error to its caller,
    stop in `lai_panic`, or reach a step the C language leaves undefined. */
module Outcomes {

  datatype Option<+T> = None | Some(value: T)

  datatype ApiError =
    | ExecutionFailure
    | IllegalArguments
    | UnexpectedResult
    | TypeMismatch
    | EndReached

  datatype Fault =
    | Api(error: ApiError)  // an error code returned to the host
    | Panic                 // lai_panic() or a failed LAI_ENSURE() that AML code can provoke
    | Internal              // a failed internal assertion: a stack or a table is not as it must be
    | Undefined             // undefined behaviour in C: reads out of bounds, division by zero, wide shifts
    | Unmodelled            // VarPackage and BankField, which the model leaves out
    | Unknown               // depends on strings, buffers, packages, fields or the host: see `Machine.Answered`

  datatype Res<+T> = Ok(value: T) | Fail(fault: Fault) {
    predicate IsFailure() {
      Fail?
    }

    function PropagateFailure<U>(): Res<U>
      requires Fail?
    {
      Fail(fault)
    }

    function Extract(): T
      requires Ok?
    {
      value
    }
  }

  /** A stack or list with its most recent element first. */
  datatype List<+T> = Nil | Cons(head: T, tail: List<T>)

  function Length<T>(l: List<T>): nat {
    match l
    case Nil => 0
    case Cons(_, t) => 1 + Length(t)
  }
}
