/** back_end/src/handler/auth.rs: the `register` and `login` handlers.

    The database, the JWT issuer and the text of a `ValidationErrors` value are parameters:
    `describe` renders the violations, `saved` is what `save_user` returned, `store` answers
    `get_user`, and `createToken` is `token::create_token`. */
module AuthHandler {
  import opened Wrappers
  import opened Models
  import opened Strings
  import opened Errors
  import opened Dtos
  import opened Password

  /** The JSON body `Response`. */
  datatype MessageBody = MessageBody(status: string, message: string)

  /** A successful reply: a status and a JSON body. */
  datatype Reply = Reply(status: StatusCode, body: MessageBody)

  const RegisterSuccessMessage: string := "Success register, you can login right now"

  /** A failed `save_user`: `sqlx::Error::Database` or any other sqlx error. */
  datatype DbError =
    | DatabaseError(isUniqueViolation: bool, constraint: Option<string>, text: string)
    | OtherError(text: string)

  /** `db_err.constraint().unwrap_or_default()`. */
  function ConstraintName(e: DbError): string
    requires e.DatabaseError?
  {
    match e.constraint
    case Some(name) => name
    case None => ""
  }

  ghost predicate NamesConstraint(e: DbError, word: string) {
    e.DatabaseError? && e.isUniqueViolation && exists i :: OccursAt(ConstraintName(e), word, i)
  }

  /** How `register` turns a failed save into an HTTP error. */
  function SaveErrorToHttp(e: DbError): (h: HttpError)
    ensures NamesConstraint(e, "email") ==> h == UniqueConstraintViolation(ToStr(EmailExist))
    ensures !NamesConstraint(e, "email") && NamesConstraint(e, "username") ==>
              h == UniqueConstraintViolation(ToStr(UsernameExist))
    ensures h.status == CONFLICT <==> NamesConstraint(e, "email") || NamesConstraint(e, "username")
    ensures h.status != CONFLICT ==> h.status == INTERNAL_SERVER_ERROR
    ensures e.DatabaseError? && e.isUniqueViolation && h.status != CONFLICT ==> h.message == "unique contains violation"
    ensures !(e.DatabaseError? && e.isUniqueViolation) ==> h == ServerError(e.text)
  {
    match e
    case DatabaseError(isUnique, _, text) =>
      if isUnique then
        var constraint := ConstraintName(e);
        if Contains(constraint, "email") then UniqueConstraintViolation(ToStr(EmailExist))
        else if Contains(constraint, "username") then UniqueConstraintViolation(ToStr(UsernameExist))
        else ServerError("unique contains violation")
      else ServerError(text)
    case OtherError(text) => ServerError(text)
  }

  /** `register`: validation first; the save's outcome matters only for a valid body. */
  function Register(body: RegisterUserDto, isEmail: string -> bool, describe: set<Violation> -> string,
                    saved: Result<User, DbError>): (r: Result<Reply, HttpError>)
    ensures RegisterViolations(body, isEmail) != {} ==>
              r == Failure(BadRequest(describe(RegisterViolations(body, isEmail))))
    ensures r.Success? <==> RegisterViolations(body, isEmail) == {} && saved.Success?
    ensures r.Success? ==> r.value == Reply(CREATED, MessageBody("success", RegisterSuccessMessage))
    ensures RegisterViolations(body, isEmail) == {} && saved.Failure? ==> r == Failure(SaveErrorToHttp(saved.error))
    ensures r.Failure? ==> (r.error.status == BAD_REQUEST <==> RegisterViolations(body, isEmail) != {})
  {
    var violations := RegisterViolations(body, isEmail);
    if violations != {} then Failure(BadRequest(describe(violations)))
    else match saved
      case Success(_) => Success(Reply(CREATED, MessageBody("success", RegisterSuccessMessage)))
      case Failure(e) => Failure(SaveErrorToHttp(e))
  }

  /** A body that passes validation carries a password `hash` accepts: 6 to 12 characters are
      at most 48 bytes. */
  lemma RegisteredPasswordIsHashable(body: RegisterUserDto, isEmail: string -> bool, salt: string, argon: Argon2)
    requires RegisterViolations(body, isEmail) == {}
    ensures Hash(body.password, salt, argon).Success? || Hash(body.password, salt, argon) == Failure(HashingError)
  {
  }

  // ---------------------------------------------------------------------------------
  // login
  // ---------------------------------------------------------------------------------

  /** The two `get_user` calls `login` can make: by the third slot, then by the second. */
  datatype Lookup = ByEmail(identifier: string) | ByUsername(identifier: string)

  /** The database behind `get_user(None, None, Some(x))` and `get_user(None, Some(x), None)`. */
  datatype UserStore = UserStore(
    byEmail: string -> Result<Option<User>, string>,
    byUsername: string -> Result<Option<User>, string>)

  datatype Env = Env(jwtSecret: string, jwtMaxAge: int)

  /** The `Set-Cookie` header `login` sends. */
  datatype Cookie = Cookie(name: string, value: string, path: string, maxAgeMinutes: int, httpOnly: bool)

  datatype UserLoginResponseDto = UserLoginResponseDto(status: string, user: FilterUserDto, token: string)

  datatype LoginReply = LoginReply(status: StatusCode, body: UserLoginResponseDto, setCookie: Cookie)

  /** How a call of `login` ends: a reply, an HTTP error, or a panic in `unwrap`. */
  datatype LoginOutcome = LoggedIn(reply: LoginReply) | Refused(error: HttpError) | Panicked

  /** The user `login` ends up with: the second lookup is consulted only when the first finds nobody. */
  function FindUser(store: UserStore, identifier: string): Result<Option<User>, string> {
    match store.byEmail(identifier)
    case Success(None) => store.byUsername(identifier)
    case other => other
  }

  /** The cookie that carries `token`: max-age `jwt_maxage * 60` minutes, path "/", HTTP only. */
  function TokenCookie(token: string, env: Env): Cookie {
    Cookie("token", token, "/", env.jwtMaxAge * 60, true)
  }

  /** The lookups `login` performs for a valid body. */
  function LookupsFor(store: UserStore, identifier: string): seq<Lookup> {
    if store.byEmail(identifier) == Success(None) then [ByEmail(identifier), ByUsername(identifier)]
    else [ByEmail(identifier)]
  }

  ghost predicate PasswordMatches(body: LoginUserDto, store: UserStore, argon: Argon2) {
    var found := FindUser(store, body.identifier);
    found.Success? && found.value.Some? && Compare(body.password, found.value.value.passwordHash, argon) == Success(true)
  }

  /** `login`. `lookups` records the `get_user` calls, in order. */
  method Login(body: LoginUserDto, env: Env, describe: set<Violation> -> string, store: UserStore,
               argon: Argon2, createToken: (Uuid, string, int) -> Result<string, string>)
    returns (outcome: LoginOutcome, lookups: seq<Lookup>)
    ensures LoginViolations(body) != {} ==>
              outcome == Refused(BadRequest(describe(LoginViolations(body)))) && lookups == []
    ensures LoginViolations(body) == {} ==> lookups == LookupsFor(store, body.identifier)
    ensures LoginViolations(body) == {} && FindUser(store, body.identifier).Failure? ==>
              outcome == Refused(ServerError(FindUser(store, body.identifier).error))
    ensures LoginViolations(body) == {} && FindUser(store, body.identifier) == Success(None) ==>
              outcome == Refused(BadRequest(ToStr(WrongCredentials)))
    ensures LoginViolations(body) == {} && FindUser(store, body.identifier).Success?
            && FindUser(store, body.identifier).value.Some? && !PasswordMatches(body, store, argon) ==>
              outcome == Refused(BadRequest(ToStr(WrongCredentials)))
    ensures outcome.LoggedIn? ==>
              && LoginViolations(body) == {} && PasswordMatches(body, store, argon)
              && var user := FindUser(store, body.identifier).value.value;
              && var token := createToken(user.id, env.jwtSecret, env.jwtMaxAge);
              && token.Success? && FilterUser(user).Some?
              && outcome.reply == LoginReply(OK, UserLoginResponseDto("success", FilterUser(user).value, token.value),
                                             TokenCookie(token.value, env))
    ensures LoginViolations(body) == {} && PasswordMatches(body, store, argon) ==>
              var user := FindUser(store, body.identifier).value.value;
              match createToken(user.id, env.jwtSecret, env.jwtMaxAge)
              case Failure(e) => outcome == Refused(ServerError(e))
              case Success(_) => (outcome.LoggedIn? <==> FilterUser(user).Some?) && (FilterUser(user).None? ==> outcome == Panicked)
  {
    var violations := LoginViolations(body);
    if violations != {} {
      return Refused(BadRequest(describe(violations))), [];
    }
    var result := store.byEmail(body.identifier);
    lookups := [ByEmail(body.identifier)];
    if result.Failure? {
      return Refused(ServerError(result.error)), lookups;
    }
    if result.value.None? {
      result := store.byUsername(body.identifier);
      lookups := lookups + [ByUsername(body.identifier)];
      if result.Failure? {
        return Refused(ServerError(result.error)), lookups;
      }
    }
    if result.value.None? {
      return Refused(BadRequest(ToStr(WrongCredentials))), lookups;
    }
    var user := result.value.value;
    var matches := Compare(body.password, user.passwordHash, argon);
    if matches.Failure? || !matches.value {
      return Refused(BadRequest(ToStr(WrongCredentials))), lookups;
    }
    var token := createToken(user.id, env.jwtSecret, env.jwtMaxAge);
    if token.Failure? {
      return Refused(ServerError(token.error)), lookups;
    }
    var cookie := TokenCookie(token.value, env);
    var filtered := FilterUser(user);
    if filtered.None? {
      return Panicked, lookups;
    }
    outcome := LoggedIn(LoginReply(OK, UserLoginResponseDto("success", filtered.value, token.value), cookie));
  }

  /** A body that passes validation never trips `compare`'s length checks: 1 to 12 characters are
      1 to 48 bytes. */
  lemma LoginPasswordIsComparable(body: LoginUserDto, hashedPassword: string, argon: Argon2)
    requires LoginViolations(body) == {}
    ensures Compare(body.password, hashedPassword, argon).Success? ||
            Compare(body.password, hashedPassword, argon) == Failure(InvalidHashFormat)
  {
  }
}
