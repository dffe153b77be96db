/**
 * The error codes raised through DatabaseException, plus the Option and
 * Result wrappers every fallible operation of the model returns.
 *
 * A thrown DatabaseException becomes `Err(code)`. A PHP engine error
 * (TypeError, ValueError, a failed string conversion) that the code does
 * not catch becomes `Err(EngineError)`.
 */
module Errors {

  datatype ErrorCode =
    | CorruptedObject          // EXCEPTION_CORRUPTED_OBJECT = 4
    | InputInvalidType         // EXCEPTION_INPUT_INVALID_TYPE = 1001
    | InputNotValid            // EXCEPTION_INPUT_NOT_VALID = 1002
    | MissingRequiredArgument  // EXCEPTION_MISSING_REQUIRED_ARGUMENT = 1003
    | MissingDefinition        // EXCEPTION_MISSING_DEFINITION = 1004
    | InputArrayTooDeep        // EXCEPTION_INPUT_ARRAY_TOO_DEEP = 1005
    | AlreadyExists            // EXCEPTION_ALREADY_EXISTS = 1009
    | GenericDatabaseError     // EXCEPTION_GENERIC_DATABASE_ERROR = 2000
    | InvalidDatabaseType      // EXCEPTION_INVALID_DATABASE_TYPE (referenced, never declared)
    | EngineError              // an uncaught PHP engine error

  datatype Option<T> = None | Some(value: T)

  datatype Result<T> = Ok(value: T) | Err(error: ErrorCode)
  {
    predicate IsFailure() {
      Err?
    }

    function PropagateFailure<U>(): Result<U>
      requires Err?
    {
      Err(error)
    }

    function Extract(): T
      requires Ok?
    {
      value
    }
  }
}
