/** Option, Result and the errors a statement can end in. */
module Wrappers {

  datatype Option<+T> = None | Some(value: T)

  /** What the engine reports to a client instead of a result. The `Panic` cases are not
      error values in the engine: they stand for a panic of the serving thread. */
  datatype Error =
    | StarNotEvaluable
    | ColumnNotFound(column: string)
    | AggregateNotEvaluable(func: string)
    | InvalidOperands(op: string)
    | DivisionByZero
    | UnsupportedOperator(op: string)
    | NotNumeric
    | UnsupportedAggregate(func: string)
    | StarHasNoType
    | TableNotInCatalog(table: string)
    | TableNotInStorage(table: string)
    | TransactionAlreadyActive
    | NoActiveTransaction
    | TableAlreadyExists(table: string)
    | ColumnCountMismatch
    | PanicIndexOutOfBounds
    | PanicUnknownAggregate(func: string)
    | PanicDivisionOverflow
    | PanicSortOrder
  {
    predicate IsPanic() {
      PanicIndexOutOfBounds? || PanicUnknownAggregate? || PanicDivisionOverflow? || PanicSortOrder?
    }
  }

  datatype Result<+T> = Ok(value: T) | Err(error: Error) {

    predicate IsFailure() {
      Err?
    }

    function PropagateFailure<U>(): Result<U>
      requires Err?
    {
      Err(error)
    }

    function Extract(): T
      requires Ok?
    {
      value
    }
  }
}
