/** Results of the patchers and resolvers: a value, or the exception the
    PHP code throws instead of returning. */
module Outcomes {

  datatype Option<+T> = None | Some(value: T)

  /** The kinds of Throwable the modelled code raises. `EngineError` stands
      for the PHP engine's own `\Error`/`\TypeError` (a scalar used as an
      array, a `false` passed where `strict_types` demands a string, an
      undefined enum case). */
  datatype Failure =
    | Runtime(message: string)
    | InvalidArgument(message: string)
    | EngineError(message: string)

  datatype Result<+T> = Ok(value: T) | Err(failure: Failure) {

    predicate IsFailure() {
      Err?
    }

    function PropagateFailure<U>(): Result<U>
      requires Err?
    {
      Err(failure)
    }

    function Extract(): T
      requires Ok?
    {
      value
    }
  }
}
