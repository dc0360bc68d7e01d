/** Optional values, results and the exceptions the scripts can end with. */
module Wrappers {

  datatype Option<+T> = None | Some(value: T)

  /** The Python exceptions that escape the modelled functions. */
  datatype Exception =
    | FileNotFound(pattern: string)   // no file matches the pattern `read_file` was given
    | IndexError                      // indexing an empty list, or `split` giving too few parts
    | KeyError(key: string)
    | TypeError                       // subscripting a JSON value that is not an object
    | ValueError                      // text that is not a number, or not a timestamp
    | ZeroDivisionError
    | Usage                           // wrong number of command-line arguments (exit status 1)

  datatype Result<+T> = Ok(value: T) | Err(error: Exception) {
    predicate IsFailure() {
      Err?
    }

    function PropagateFailure<U>(): Result<U>
      requires Err?
    {
      Err(error)
    }

    function Extract(): T
      requires Ok?
    {
      value
    }
  }

  /** The outcome of a step run for its effect: it completes or raises. */
  datatype Outcome = Done | Raised(error: Exception)
}
