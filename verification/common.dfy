/** Small shared datatypes: optional values, results, and the exceptions that can
    escape the interpreter loop. */
module Common {

  /** A value that may be absent (Python's `None`). */
  datatype Option<+T> = None | Some(value: T)

  /** Either a value or the exception that ended the computation. */
  datatype Result<+T, +E> = Success(value: T) | Failure(error: E)

  /** Why a script was rejected with `IscriptError`. */
  datatype ScriptFault =
    | UnknownCommand(name: string)     // the resolved command word is not in the schema
    | MediaNotFound(name: string)      // a transform names a medium that is not registered
    | MissingArgument(command: string) // `tti` with no argument at all

  /** The exceptions that propagate out of the interpreter loop. */
  datatype Exception =
    | IscriptError(fault: ScriptFault)
    | IndexError                    // a positional argument the line does not have
    | ValueError                    // `float(...)` of text that is not a number
    | OverflowError                 // `float(...)` of an integer beyond the range of a double
    | TypeError                     // `float(...)` of some other object, or an attachment without a file
    | NameError                     // `explode`'s strength variable is never bound
    | SystemError                   // the colour-table generator of `hueshifthsv` failed
    | FileNotFoundError(path: string) // an attachment whose working file does not exist

  /** `f` applied to every element, in order. */
  function Map<A, B>(f: A --> B, xs: seq<A>): (r: seq<B>)
    requires forall i :: 0 <= i < |xs| ==> f.requires(xs[i])
    ensures |r| == |xs|
    ensures forall i :: 0 <= i < |xs| ==> r[i] == f(xs[i])
  {
    if xs == [] then [] else [f(xs[0])] + Map(f, xs[1..])
  }
}
