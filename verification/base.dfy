/** Values shared by every layer: optional values, success-or-failure results
    and the error codes the API attaches to the errors it raises. */
module Base {

  /** A value that may be missing: JavaScript's `null` / `undefined`. */
  datatype Option<T> = None | Some(value: T) {

    /** The value, or `default` when it is missing: JavaScript's `??`. */
    function GetOr(default: T): (r: T)
      ensures Some? ==> r == value
      ensures None? ==> r == default
    {
      match this
      case Some(v) => v
      case None => default
    }
  }

  /** The outcome of an operation that either returns or throws. */
  datatype Result<T, E> = Success(value: T) | Failure(error: E)

  /** The `extensions.code` of the errors the API raises. `Internal` stands
      for an unclassified failure that propagates from a collaborator (the
      database), which the transport layer reports as a server error. */
  datatype ErrorCode = BadUserInput | Conflict | Unauthenticated | Forbidden | Internal
}
