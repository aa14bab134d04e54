/** How a script step ends: with a value, or with the exception that stops the script. */
module Outcome {

  datatype Error =
    | SubstringNotFound                 // str.index found nothing
    | FileMissing(path: string)         // FileNotFoundError
    | FilesMissing(paths: set<string>)  // the same, for one of these
    | Unreadable(path: string)          // not the JSON that was expected
    | GuardFailed                       // AssertionError

  datatype Option<+T> = None | Some(value: T)

  datatype Result<+T> = Ok(value: T) | Err(error: Error) {
    predicate IsFailure() { Err? }

    function PropagateFailure<U>(): Result<U>
      requires Err?
    {
      Err(error)
    }

    function Extract(): T
      requires Ok?
    {
      value
    }
  }
}
