/** Responses of the HTTP routes: optional request fields, the failures the
    server answers with, and their status codes. */
module Http {

  /** A request field that may be absent (JavaScript `undefined`). */
  datatype Option<+T> = None | Some(value: T)

  /** Every way a route can fail, one alternative per distinct answer. */
  datatype Failure =
    | MissingFields        // 400 "Missing fields"
    | UsernameTaken        // 400 "Username taken"
    | InvalidCredentials   // 401 "Invalid credentials"
    | NoToken              // 401 "No token"
    | InvalidToken         // 401 "Invalid token" (bad signature or expired)
    | Forbidden            // 403 "Forbidden"
    | UserNotFound         // 404 "User not found"
    | TooManyMessages      // 429 "Too many messages, slow down!"
    | UnexpectedField      // multer: a file under a field other than "audio"
    | AudioOnly            // multer fileFilter: Error('Audio only')
    | FileTooLarge         // multer: LIMIT_FILE_SIZE
    | StorageError         // sqlite rejected the statement (a NOT NULL column)
    | Unanswered           // the handler's promise rejects before any response

  datatype Result<+T> = Ok(value: T) | Err(failure: Failure)

  /** The `{ success: true }` acknowledgement. */
  datatype Ack = Success

  /** JavaScript truthiness of a string field: present and non-empty. */
  predicate Truthy(field: Option<string>) {
    field.Some? && field.value != ""
  }

  /** Destructuring default `{ x = d } = req.body`: applies only when absent. */
  function OrDefault<T>(field: Option<T>, default: T): T {
    match field
    case Some(v) => v
    case None => default
  }

  /** The HTTP status sent for a failure. Errors raised inside middleware
      (multer) or statements (sqlite) carry no status of their own, so the
      express default error handler, or the route's own 500 branch, answers 500. */
  function Status(f: Failure): (code: nat)
    requires f != Unanswered
    ensures 400 <= code <= 500
    ensures code == 500 <==> f.UnexpectedField? || f.AudioOnly? || f.FileTooLarge? || f.StorageError?
    ensures code == 401 <==> f.InvalidCredentials? || f.NoToken? || f.InvalidToken?
  {
    match f
    case MissingFields => 400
    case UsernameTaken => 400
    case InvalidCredentials => 401
    case NoToken => 401
    case InvalidToken => 401
    case Forbidden => 403
    case UserNotFound => 404
    case TooManyMessages => 429
    case UnexpectedField => 500
    case AudioOnly => 500
    case FileTooLarge => 500
    case StorageError => 500
  }
}
