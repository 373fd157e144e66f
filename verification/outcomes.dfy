/** Outcomes of a request to the goal tracker: either the value it produced or
    the kind of error it ended in. */
module Outcomes {

  /** The error kinds a request can end in.
      - ValidationError: raised by a serializer (HTTP 400).
      - PermissionDenied: raised by a serializer or an object permission (HTTP 403).
      - NotAuthenticated: refused by IsAuthenticated before anything else runs.
      - NotFound: the view's object lookup found nothing in its queryset (HTTP 404).
      - ServerError: the database refused a write and nothing caught it (HTTP 500). */
  datatype Error =
    | ValidationError
    | PermissionDenied
    | NotAuthenticated
    | NotFound
    | ServerError

  datatype Option<+T> = None | Some(value: T) {

    /** The value, or `default` when absent (a model field default). */
    function GetOr(default: T): T {
      match this
      case Some(v) => v
      case None => default
    }
  }

  /** A value, or the error that stopped the request. Failure-compatible, so
      `:-` propagates the first error. */
  datatype Result<+T> = Ok(value: T) | Err(error: Error) {

    predicate IsFailure() {
      Err?
    }

    function PropagateFailure<U>(): Result<U>
      requires Err?
    {
      Err(error)
    }

    function Extract(): T
      requires Ok?
    {
      value
    }
  }
}
