/** Optional values, the four ways a translation can fail, and a failure-compatible
    result type, so that every failure aborts the whole call with no partial output. */
module Failures {

  /** A value that may be absent: a regex group that did not participate, a probe that failed. */
  datatype Option<+T> = None | Some(value: T)

  /** The four diagnostics the translator raises; each carries the offending text. */
  datatype Error =
    | MismatchedGenerics(text: string)     // "Mismatched <>s: " + text
    | InvalidDeclaration(text: string)     // "Invalid identifier declaration: " + text
    | InvalidMethod(text: string)          // "Invalid method descriptor: " + text
    | UnknownType(name: string)            // "Unknown type: " + name

  /** Either a translated value or the error that aborted the translation. */
  datatype Result<+T> = Success(value: T) | Failure(error: Error) {

    predicate IsFailure() {
      Failure?
    }

    function PropagateFailure<U>(): Result<U>
      requires Failure?
    {
      Failure(error)
    }

    function Extract(): T
      requires Success?
    {
      value
    }
  }
}
