/** Failure-carrying values used throughout the model.

    Python raises exceptions; the model returns `Err(e)` instead, with one
    `Error` constructor per exception class the core can raise. */
module Outcome {

  datatype Option<T> = None | Some(value: T)

  /** The exceptions the moderation core can raise. */
  datatype Error =
    | AssertionError                 // `assert isinstance(x, str)` failed
    | TypeError                      // an operation applied to a value of the wrong type
    | ValueError(message: string)    // `raise ValueError(...)`, or `int(...)` of a non-number
    | KeyError(key: string)          // a missing dictionary key
    | IntKeyError(code: int)         // a missing integer dictionary key
    | IndexError                     // a list or string index out of range
    | AttributeError                 // a method called on `None` (an unset environment variable)
    | MissingApiKey                  // "A key should be provided to invoke the endpoint"
    | ServiceError                   // transport failure or undecodable reply of a remote model

  datatype Result<T> = Ok(value: T) | Err(error: Error)

  /** A Python argument that may or may not be a `str`. */
  datatype Arg = Text(s: string) | NotText

  /** The `(score, evidence)` pair most detectors return. */
  datatype Verdict = Verdict(code: int, values: seq<string>)

  /** `(1, found) if found else (0, [])`: a verdict scored 1 exactly when it
      carries evidence. */
  function Scored(found: seq<string>): (v: Verdict)
    ensures v.values == found
    ensures v.code == 1 <==> found != []
    ensures v.code == 0 <==> found == []
  {
    Verdict(if found != [] then 1 else 0, found)
  }
}
