/** Failure-carrying datatypes shared by every part of the model.

    The curator and the import signal malformed metadata and failed
    repository look-ups by raising; a raised exception becomes a `Failure`
    here and is propagated with `:-` exactly where Python lets it propagate.
 */
module Base {

  /** Python's `None` versus a present value. */
  datatype Option<+T> = None | Some(value: T) {
    function GetOr(default: T): T {
      match this
      case Some(v) => v
      case None => default
    }
  }

  /** What Python raises. */
  datatype Fault =
    | NotAMapping      // `.get`, `.keys` or `.items` on a value that is not a dict
    | NotIterable      // a `for` over a value that is neither a list, a dict nor a string
    | NotAString       // `.replace` on a value that is not a string
    | MissingCoordinate // `min`/`max` over a handle coordinate that is absent or not a number
    | UnknownId        // a repository look-up of an id the repository does not hold
    | UndefinedClient  // the name `fw` evaluated where no such global exists
    | MissingKey       // `dict.pop` of a key that is not there
    | MissingAttribute // `getattr` of an attribute the container lacks
    | MergeIntoNonMapping // a recursive merge into a value that is not a dict
    | ZeroDivision     // a division by zero

  datatype Result<+R> = Success(value: R) | Failure(error: Fault) {
    predicate IsFailure() {
      Failure?
    }

    function PropagateFailure<U>(): Result<U>
      requires Failure?
    {
      Failure(error)
    }

    function Extract(): R
      requires Success?
    {
      value
    }
  }

  /** A non-empty sequence is its prefix followed by its last element. */
  lemma LemmaSnoc<T>(s: seq<T>)
    requires s != []
    ensures s == s[..|s| - 1] + [s[|s| - 1]]
  {
  }
}
