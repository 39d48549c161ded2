/** Optional values and failure-carrying results shared by every module. */
module Wrappers {

  /** A value that may be absent: JavaScript's `undefined`/`null`, SQL's NULL. */
  datatype Option<+T> = None | Some(value: T)

  /** Why a SQL statement was rejected by the engine. */
  datatype SqlError =
    | ForeignKeyViolation  // a child row would reference a missing parent row
    | SyntaxError          // the statement text is malformed

  /** The outcome of running one statement: a value, or the error it threw. */
  datatype Result<+T> = Ok(value: T) | Err(error: SqlError)
}
