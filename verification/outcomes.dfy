/** Optional values, the router's failure kinds and the `Result` every
    handler returns. Each failure kind is one error response of
    src/routes/Posts.ts, so precedence between checks can be stated exactly. */
module Outcomes {

  datatype Option<+T> = None | Some(value: T)

  /** The HTTP status classes the router answers with. */
  datatype Status = BadRequest | Unauthorized | NotFound

  /** One variant per `res.status(..).json({ error })` in the router. */
  datatype Failure =
    | MissingAuthorization      // no (or an empty) Authorization header
    | InvalidTokenFormat        // header does not match `^Bearer (.+)$`
    | InvalidToken              // the token verifier rejected the token
    | TextOrStartNumberRequired // create: neither usable text nor a number
    | TextRequired              // comment: text missing or blank
    | PostNotFound              // no post with the given id
    | InvalidOp                 // node: op outside add/sub/mul/div
    | OperandNotNumber          // node: rightOperand is not a number
    | ParentNodeNotFound        // node: parentIndex names no node
    | DivisionByZero            // node: div with a zero operand
  {
    /** The JSON `error` message the router sends with this failure. */
    function Message(): string {
      match this
      case MissingAuthorization => "Missing Authorization header"
      case InvalidTokenFormat => "Invalid token format"
      case InvalidToken => "Invalid token"
      case TextOrStartNumberRequired => "Either text or startNumber is required"
      case TextRequired => "text required"
      case PostNotFound => "post not found"
      case InvalidOp => "invalid op"
      case OperandNotNumber => "rightOperand must be number"
      case ParentNodeNotFound => "parent node not found"
      case DivisionByZero => "division by zero"
    }
  }

  /** The status class each failure is answered with: the three
      authentication failures are 401, a missing post is 404, and every
      other validation failure, an unknown parent node included, is 400. */
  function StatusOf(f: Failure): (st: Status)
    ensures st == Unauthorized <==> f in {MissingAuthorization, InvalidTokenFormat, InvalidToken}
    ensures st == NotFound <==> f == PostNotFound
    ensures st == BadRequest <==>
      f in {TextOrStartNumberRequired, TextRequired, InvalidOp, OperandNotNumber,
            ParentNodeNotFound, DivisionByZero}
  {
    match f
    case MissingAuthorization => Unauthorized
    case InvalidTokenFormat => Unauthorized
    case InvalidToken => Unauthorized
    case PostNotFound => NotFound
    case _ => BadRequest
  }

  /** The numeric HTTP status of a status class; distinct classes get
      distinct codes. */
  function Code(s: Status): (code: nat)
    ensures code == 400 <==> s == BadRequest
    ensures code == 401 <==> s == Unauthorized
    ensures code == 404 <==> s == NotFound
  {
    match s
    case BadRequest => 400
    case Unauthorized => 401
    case NotFound => 404
  }

  datatype Result<+T> = Ok(value: T) | Fail(failure: Failure) {
    predicate IsFailure() {
      Fail?
    }

    function PropagateFailure<U>(): Result<U>
      requires Fail?
    {
      Fail(failure)
    }

    function Extract(): T
      requires Ok?
    {
      value
    }
  }
}
