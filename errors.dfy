/**
 * The errors the stores raise and what the route's and the action's `catch` clauses see of
 * them. Mongoose reports validation failures as a `ValidationError` with one
 * `ValidatorError` per failing path; MongoDB reports a unique-index
 * violation as a server error with code 11000; a pre-save hook fails with the
 * plain `Error` it throws.
 */
module Errors {
  import opened Wrappers

  /** One entry of `ValidationError.errors`: the path and its message. */
  datatype FieldError = FieldError(path: string, message: string)

  function ErrorPath(e: FieldError): string {
    e.path
  }

  datatype StoreError =
    | Validation(model: string, errors: seq<FieldError>)
    | DuplicateKey(index: string)
    | Thrown(message: string)

  /** Mongoose's default message of a failed `required` validator. */
  function RequiredMessage(path: string): string {
    "Path `" + path + "` is required."
  }

  /** `e.name`. */
  function Name(e: StoreError): string {
    match e
    case Validation(_, _) => "ValidationError"
    case DuplicateKey(_) => "MongoServerError"
    case Thrown(_) => "Error"
  }

  /** `e.code`: only the duplicate-key error carries one. */
  function Code(e: StoreError): Option<int> {
    if e.DuplicateKey? then Some(11000) else None
  }

  /** `path: message` entries joined by `, `, as in a `ValidationError` message. */
  function JoinFieldErrors(errors: seq<FieldError>): string {
    if errors == [] then ""
    else
      var head := errors[0].path + ": " + errors[0].message;
      if |errors| == 1 then head else head + ", " + JoinFieldErrors(errors[1..])
  }

  /** `e.message`. */
  function Message(e: StoreError): string {
    match e
    case Validation(model, errors) => model + " validation failed: " + JoinFieldErrors(errors)
    case DuplicateKey(index) => "E11000 duplicate key error index: " + index
    case Thrown(message) => message
  }

  /** `Object.values(e.errors).map(err => err.message)`. */
  function FieldMessages(errors: seq<FieldError>): (r: seq<string>)
    ensures |r| == |errors|
    ensures forall i :: 0 <= i < |errors| ==> r[i] == errors[i].message
  {
    if errors == [] then [] else [errors[0].message] + FieldMessages(errors[1..])
  }

  /** A value caught by a `catch` clause: an `Error` object, or anything else that was thrown. */
  datatype Exception = ErrorObject(message: string) | NonError

  /** `e instanceof Error ? e.message : fallback`. */
  function CatchMessage(e: Exception, fallback: string): (m: string)
    ensures e.ErrorObject? ==> m == e.message
    ensures e.NonError? ==> m == fallback
  {
    match e
    case ErrorObject(message) => message
    case NonError => fallback
  }

  /** Every store error is an `Error` object. */
  function AsException(e: StoreError): (x: Exception)
    ensures x.ErrorObject?
  {
    ErrorObject(Message(e))
  }
}
