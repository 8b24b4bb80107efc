/** Failure-carrying values shared by every stage of `compile`: an Option for
    JavaScript's `undefined`, the ways a compilation is rejected, and a Result
    usable with `:-`. */
module Results {

  /** `None` stands for JavaScript's `undefined`. */
  datatype Option<+T> = None | Some(value: T)

  /** Every reason `compile` rejects its promise (index.js:80-267). */
  datatype Failure =
    | InvalidOptions                  // options is not an object
    | InvalidRunOption                // optimize_runs failed its guard
    | InvalidInputFiles               // files is not a string/array, or an entry is empty or not a string
    | RelativeInputPath               // an entry is not an absolute path
    | LaunchFailed(reason: string)    // the compiler process could not be started
    | UnexpectedOutput(file: string)  // empty/unparsable stdout, or unusable contract metadata
    | TypeError                       // a property read on `null`, thrown by the runtime

  /** The text of the `Error` each failure is rejected with. */
  function Message(f: Failure): string
  {
    match f
    case InvalidOptions => "Supplied options are invalid"
    case InvalidRunOption => "Invalid optimizer run option"
    case InvalidInputFiles => "Invalid input files"
    case RelativeInputPath => "Input filename must be an absolute path"
    case LaunchFailed(reason) => "Unable to execute run compiler [" + reason + "]"
    case UnexpectedOutput(file) => "Unexpected output while compiling " + file
    case TypeError => "TypeError"
  }

  datatype Result<+T> = Ok(value: T) | Err(error: Failure) {

    predicate IsFailure() {
      Err?
    }

    function PropagateFailure<U>(): Result<U>
      requires Err?
    {
      Err(error)
    }

    function Extract(): T
      requires Ok?
    {
      value
    }
  }
}
