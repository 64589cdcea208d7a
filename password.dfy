/** back_end/src/utils/password.rs: the checks in front of the Argon2 hasher.

    Argon2 itself, the salt drawn from `OsRng`, and the parsing and verification of stored
    hashes belong to the `argon2` crate; they are the fields of the `Argon2` parameter. */
module Password {
  import opened Wrappers
  import opened Errors

  const MAX_PASSWORD_LENGTH: nat := 64

  /** The number of bytes UTF-8 uses for `c`. */
  function Utf8Width(c: char): nat {
    if c as int < 0x80 then 1 else if c as int < 0x800 then 2 else if c as int < 0x1_0000 then 3 else 4
  }

  /** `str::len`: the length of the UTF-8 encoding, in bytes. */
  function Utf8Len(s: string): (n: nat)
    ensures |s| <= n <= 4 * |s|
  {
    if s == [] then 0 else Utf8Width(s[0]) + Utf8Len(s[1..])
  }

  /** A run of one character is as long in bytes as its width times its length. */
  lemma {:induction false} Utf8LenOfRun(n: nat, c: char)
    ensures Utf8Len(seq(n, _ => c)) == n * Utf8Width(c)
  {
    if n > 0 {
      var s := seq(n, _ => c);
      assert s[1..] == seq(n - 1, _ => c);
      Utf8LenOfRun(n - 1, c);
    }
  }

  /** The foreign hashing library, as the core sees it. */
  datatype Argon2 = Argon2(
    paramsOk: bool,                             // Params::new(15 * 1024, 2, 1, None) succeeded
    hashPassword: (string, string) -> Option<string>, // hash_password(bytes, salt), as a PHC string
    parses: string -> bool,                     // PasswordHash::new accepts the stored text
    verify: (string, string) -> bool)           // verify_password succeeds

  /** Both entry points refuse an empty password first, then one over 64 bytes. */
  predicate PassesLengthChecks(password: string) {
    password != "" && Utf8Len(password) <= MAX_PASSWORD_LENGTH
  }

  /** `hash`. */
  function Hash(password: string, salt: string, argon: Argon2): (r: Result<string, ErrorMessage>)
    ensures r == Failure(EmptyPassword) <==> password == ""
    ensures r == Failure(ExceededMaxPasswordLength(MAX_PASSWORD_LENGTH)) <==>
              password != "" && Utf8Len(password) > MAX_PASSWORD_LENGTH
    ensures r == Failure(HashingError) <==>
              PassesLengthChecks(password) && (!argon.paramsOk || argon.hashPassword(password, salt).None?)
    ensures r.Success? <==> PassesLengthChecks(password) && argon.paramsOk && argon.hashPassword(password, salt).Some?
    ensures r.Success? ==> argon.hashPassword(password, salt) == Some(r.value)
    ensures r.Failure? ==> r.error in {EmptyPassword, ExceededMaxPasswordLength(MAX_PASSWORD_LENGTH), HashingError}
  {
    if password == "" then Failure(EmptyPassword)
    else if Utf8Len(password) > MAX_PASSWORD_LENGTH then Failure(ExceededMaxPasswordLength(MAX_PASSWORD_LENGTH))
    else if !argon.paramsOk then Failure(HashingError)
    else match argon.hashPassword(password, salt)
      case None => Failure(HashingError)
      case Some(hashed) => Success(hashed)
  }

  /** `compare`. A failed verification is `Ok(false)`, never an error. */
  function Compare(password: string, hashedPassword: string, argon: Argon2): (r: Result<bool, ErrorMessage>)
    ensures r == Failure(EmptyPassword) <==> password == ""
    ensures r == Failure(ExceededMaxPasswordLength(MAX_PASSWORD_LENGTH)) <==>
              password != "" && Utf8Len(password) > MAX_PASSWORD_LENGTH
    ensures r == Failure(InvalidHashFormat) <==> PassesLengthChecks(password) && !argon.parses(hashedPassword)
    ensures r.Success? <==> PassesLengthChecks(password) && argon.parses(hashedPassword)
    ensures r.Success? ==> r.value == argon.verify(password, hashedPassword)
    ensures r.Failure? ==> r.error in {EmptyPassword, ExceededMaxPasswordLength(MAX_PASSWORD_LENGTH), InvalidHashFormat}
  {
    if password == "" then Failure(EmptyPassword)
    else if Utf8Len(password) > MAX_PASSWORD_LENGTH then Failure(ExceededMaxPasswordLength(MAX_PASSWORD_LENGTH))
    else if !argon.parses(hashedPassword) then Failure(InvalidHashFormat)
    else Success(argon.verify(password, hashedPassword))
  }

  /** The limit is in bytes, not characters: 22 euro signs (66 bytes) are refused. */
  lemma LimitCountsBytes(salt: string, argon: Argon2)
    ensures |seq(22, _ => '€')| <= MAX_PASSWORD_LENGTH
    ensures Hash(seq(22, _ => '€'), salt, argon) == Failure(ExceededMaxPasswordLength(MAX_PASSWORD_LENGTH))
  {
    Utf8LenOfRun(22, '€');
  }

  /** `hash` and `compare` refuse the same passwords before Argon2 runs, with the same error. */
  lemma SamePreconditionErrors(password: string, salt: string, hashedPassword: string, argon: Argon2)
    ensures !PassesLengthChecks(password) <==>
              Hash(password, salt, argon).Failure? && Hash(password, salt, argon).error != HashingError
    ensures !PassesLengthChecks(password) ==>
              && Compare(password, hashedPassword, argon).Failure?
              && Hash(password, salt, argon).error == Compare(password, hashedPassword, argon).error
  {
  }
}
