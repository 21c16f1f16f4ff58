/** Shared vocabulary of the feed service: identifiers, the abstract clock,
    request outcomes and the answers of the external image uploader. */
module Base {

  /** Store keys. Posts and users are numbered in insertion order. */
  type PostId = nat
  type UserId = nat

  /** An abstract timestamp standing for the wall clock read at request time. */
  type Time = nat

  /** A durable URL handed back by the image uploader. */
  type Url = string

  datatype Option<+T> = None | Some(value: T)

  /** The answer of the object store for one uploaded file. */
  datatype Upload = Uploaded(location: Url) | UploadFailed

  /** One constructor per distinct error message the request handlers send. */
  datatype Reason =
    | ContentAndTypeRequired
    | ContentTooLong
    | InvalidPostType
    | TooManyImages
    | ImageUploadFailed
    | PostNotFound
    | CommentRequired
    | CommentTooLong
    | AllFieldsRequired
    | PasswordTooShort
    | MobileNotTenDigits
    | UserExists
    | SchemaViolation
    | CredentialsRequired
    | InvalidCredentials
    | UserNotFound
    | BioTooLong
    | ProfileUploadFailed

  /** How a request ends when it does not succeed. */
  datatype Error =
    | BadRequest(reason: Reason)    // HTTP 400
    | Unauthorized(reason: Reason)  // HTTP 401
    | NotFound(reason: Reason)      // HTTP 404
    | ServerError(reason: Reason)   // HTTP 500
    | NoResponse(reason: Reason)    // the handler's promise rejects and no response is sent

  datatype Result<+T> = Ok(value: T) | Err(error: Error)

  /** The HTTP status code sent for an error, 0 when no response is sent. */
  function Status(e: Error): int
  {
    match e
    case BadRequest(_) => 400
    case Unauthorized(_) => 401
    case NotFound(_) => 404
    case ServerError(_) => 500
    case NoResponse(_) => 0
  }

  /** A request field that JavaScript treats as false: not sent, or the empty string. */
  predicate Absent(s: Option<string>)
  {
    s.None? || s.value == ""
  }
}
