/** back_end/src/errors.rs: the error catalogue, its messages and the HTTP error type. */
module Errors {
  import opened Strings

  /** `ErrorMessage`. The source spells the credentials variant `WrongCrendentials`. */
  datatype ErrorMessage =
    | EmptyPassword
    | ExceededMaxPasswordLength(maxLength: nat)
    | HashingError
    | InvalidHashFormat
    | InvalidToken
    | WrongCredentials
    | EmailExist
    | UsernameExist
    | UserNoLongerExist
    | TokenNotProvided

  const ExceededPrefix: string := "Password must not be more than "
  const ExceededSuffix: string := " characters"

  /** `ErrorMessage::to_str`: one fixed text per variant; the length limit is printed in decimal. */
  function ToStr(e: ErrorMessage): (s: string)
    ensures e.ExceededMaxPasswordLength? ==>
              s == ExceededPrefix + NatToDecimal(e.maxLength) + ExceededSuffix
  {
    match e
    case WrongCredentials => "Invalid username or password"
    case EmailExist => "This Email already exists"
    case UsernameExist => "This username already exists"
    case UserNoLongerExist => "This user is no longer exist"
    case EmptyPassword => "Please fill the password"
    case HashingError => "Error while hashing the password"
    case InvalidHashFormat => "Invalid password hash format"
    case ExceededMaxPasswordLength(maxLength) => ExceededPrefix + NatToDecimal(maxLength) + ExceededSuffix
    case InvalidToken => "Authentication token is invalid or expired"
    case TokenNotProvided => "You are not logged in, please provide token"
  }

  /** Every error has its own message: the text identifies the variant and the embedded limit. */
  lemma ToStrInjective(a: ErrorMessage, b: ErrorMessage)
    requires ToStr(a) == ToStr(b)
    ensures a == b
  {
    var s, t := ToStr(a), ToStr(b);
    if a.ExceededMaxPasswordLength? && b.ExceededMaxPasswordLength? {
      var p, q := |ExceededPrefix|, |ExceededSuffix|;
      assert s[p..|s| - q] == NatToDecimal(a.maxLength);
      assert t[p..|s| - q] == NatToDecimal(b.maxLength);
      NatToDecimalInjective(a.maxLength, b.maxLength);
    } else if a.ExceededMaxPasswordLength? {
      ExceededMessageShape(a.maxLength);
    } else if b.ExceededMaxPasswordLength? {
      ExceededMessageShape(b.maxLength);
    } else {
      // the fixed messages differ in length or at index 0, 8 or 9
      assert |s| == |t| && s[0] == t[0];
      assert |s| == 28 ==> s[8] == t[8] && s[9] == t[9];
    }
  }

  /** The length-limit message is at least 43 characters long and starts with 'P',
      which no fixed message of that length does. */
  lemma ExceededMessageShape(n: nat)
    ensures |ToStr(ExceededMaxPasswordLength(n))| >= 43
    ensures ToStr(ExceededMaxPasswordLength(n))[0] == 'P'
  {
  }

  /** `http::StatusCode`: a three-digit code. */
  type StatusCode = c: int | 100 <= c <= 999 witness 200

  const OK: StatusCode := 200
  const CREATED: StatusCode := 201
  const BAD_REQUEST: StatusCode := 400
  const UNAUTHORIZED: StatusCode := 401
  const CONFLICT: StatusCode := 409
  const INTERNAL_SERVER_ERROR: StatusCode := 500

  /** `HttpError`. */
  datatype HttpError = HttpError(message: string, status: StatusCode)

  /** `HttpError::new`. */
  function New(message: string, status: StatusCode): (e: HttpError)
    ensures e.message == message && e.status == status
  {
    HttpError(message, status)
  }

  /** `HttpError::server_error`. */
  function ServerError(message: string): (e: HttpError)
    ensures e.status == INTERNAL_SERVER_ERROR && e.message == message
  {
    HttpError(message, INTERNAL_SERVER_ERROR)
  }

  /** `HttpError::bad_request`. */
  function BadRequest(message: string): (e: HttpError)
    ensures e.status == BAD_REQUEST && e.message == message
  {
    HttpError(message, BAD_REQUEST)
  }

  /** `HttpError::unique_constraint_violation`. */
  function UniqueConstraintViolation(message: string): (e: HttpError)
    ensures e.status == CONFLICT && e.message == message
  {
    HttpError(message, CONFLICT)
  }

  /** `HttpError::unauthorized`. */
  function Unauthorized(message: string): (e: HttpError)
    ensures e.status == UNAUTHORIZED && e.message == message
  {
    HttpError(message, UNAUTHORIZED)
  }

  /** The canonical reason phrase `http` prints after the code, for the codes this core produces. */
  function ReasonPhrase(c: StatusCode): string {
    if c == OK then "OK"
    else if c == CREATED then "Created"
    else if c == BAD_REQUEST then "Bad Request"
    else if c == UNAUTHORIZED then "Unauthorized"
    else if c == CONFLICT then "Conflict"
    else if c == INTERNAL_SERVER_ERROR then "Internal Server Error"
    else ""
  }

  /** `StatusCode::to_string`: the code in decimal, a space, then the reason phrase. */
  function StatusText(c: StatusCode): string {
    NatToDecimal(c) + " " + ReasonPhrase(c)
  }

  /** The status text starts with the code itself, so a client can read the code back from the body. */
  lemma StatusTextStartsWithCode(c: StatusCode)
    ensures |StatusText(c)| >= 4 && AllDigits(StatusText(c)[..3]) && StatusText(c)[3] == ' '
    ensures DecimalValue(StatusText(c)[..3]) == c
  {
    DecimalOfThreeDigits(c);
    assert StatusText(c)[..3] == NatToDecimal(c);
    DecimalRoundTrip(c);
  }

  /** The JSON body `ErrorResponse`. */
  datatype ErrorResponse = ErrorResponse(status: string, message: string)

  /** What `into_http_response` sends: a status line and a JSON body. */
  datatype ErrorReply = ErrorReply(status: StatusCode, body: ErrorResponse)

  /** `HttpError::into_http_response`. */
  function IntoHttpResponse(e: HttpError): (r: ErrorReply)
    ensures r.status == e.status
    ensures r.body.message == e.message
    ensures |r.body.status| >= 4 && AllDigits(r.body.status[..3])
    ensures DecimalValue(r.body.status[..3]) == e.status
  {
    StatusTextStartsWithCode(e.status);
    ErrorReply(e.status, ErrorResponse(StatusText(e.status), e.message))
  }
}
