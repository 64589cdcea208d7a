/** back_end/src/dtos.rs: request validation rules, the two pattern checks and the
    response projections.

    The `validator` crate checks every rule of a value and collects every failure, so a
    validation is modelled as the set of violated rules; the value passes when that set is
    empty. Its `length` rules count characters, which is what `|s|` counts here. */
module Dtos {
  import opened Wrappers
  import opened Models

  // ---------------------------------------------------------------------------------
  // Character classes of the two regular expressions
  // ---------------------------------------------------------------------------------

  predicate IsAsciiDigit(c: char) {
    '0' <= c <= '9'
  }

  predicate IsAsciiLetter(c: char) {
    'a' <= c <= 'z' || 'A' <= c <= 'Z'
  }

  /** `[a-zA-Z0-9_]` */
  predicate IsWordChar(c: char) {
    IsAsciiLetter(c) || IsAsciiDigit(c) || c == '_'
  }

  /** `[a-z]` under `(?i)`: the ASCII letters of both cases plus the two characters whose
      simple case folding lands in `a-z`: U+017F (long s) and U+212A (Kelvin sign). */
  predicate IsLetterIgnoringCase(c: char) {
    IsAsciiLetter(c) || c == '\U{017F}' || c == '\U{212A}'
  }

  /** `[a-z0-9._%+-]` under `(?i)`: the local part of an address. */
  predicate IsEmailLocalChar(c: char) {
    IsLetterIgnoringCase(c) || IsAsciiDigit(c) || c == '.' || c == '_' || c == '%' || c == '+' || c == '-'
  }

  /** `[a-z0-9.-]` under `(?i)`: the domain of an address. */
  predicate IsEmailDomainChar(c: char) {
    IsLetterIgnoringCase(c) || IsAsciiDigit(c) || c == '.' || c == '-'
  }

  /** The length of the longest prefix of `s` whose characters all belong to `inClass`:
      how far a greedy `[...]*` reaches. */
  function Span(s: string, inClass: char -> bool): (n: nat)
    ensures n <= |s|
    ensures forall i :: 0 <= i < n ==> inClass(s[i])
    ensures n < |s| ==> !inClass(s[n])
  {
    if s == [] || !inClass(s[0]) then 0 else 1 + Span(s[1..], inClass)
  }

  /** The only index at which a greedy span can stop. */
  lemma SpanIsExact(s: string, inClass: char -> bool, n: nat)
    requires n <= |s|
    requires forall i :: 0 <= i < n ==> inClass(s[i])
    requires n < |s| ==> !inClass(s[n])
    ensures Span(s, inClass) == n
  {
  }

  /** The index of the last `c` in `s`, or -1. */
  function LastIndexOf(s: string, c: char): (k: int)
    ensures -1 <= k < |s|
    ensures k >= 0 ==> s[k] == c
    ensures forall j :: k < j < |s| ==> s[j] != c
  {
    if s == [] then -1
    else if s[|s| - 1] == c then |s| - 1
    else LastIndexOf(s[..|s| - 1], c)
  }

  predicate AllWordChars(s: string) {
    forall i :: 0 <= i < |s| ==> IsWordChar(s[i])
  }

  // ---------------------------------------------------------------------------------
  // validate_username and validate_identifier
  // ---------------------------------------------------------------------------------

  /** `validate_username`: the regex `^[a-zA-Z0-9_]+$`. */
  function ValidateUsername(username: string): (ok: bool)
    ensures ok <==> |username| > 0 && AllWordChars(username)
  {
    |username| > 0 && Span(username, IsWordChar) == |username|
  }

  /** The address regex `(?i)^[a-z0-9._%+-]+@[a-z0-9.-]+\.[a-z]{2,}$` read as a shape:
      a non-empty local part, `@` at index `at`, a non-empty domain, `.` at index `dot`, and
      at least two letters to the end. */
  ghost predicate EmailShape(s: string, at: int, dot: int) {
    && 1 <= at && at + 2 <= dot && dot + 3 <= |s|
    && s[at] == '@' && s[dot] == '.'
    && (forall i :: 0 <= i < at ==> IsEmailLocalChar(s[i]))
    && (forall i :: at < i < dot ==> IsEmailDomainChar(s[i]))
    && (forall i :: dot < i < |s| ==> IsLetterIgnoringCase(s[i]))
  }

  ghost predicate EmailPattern(s: string) {
    exists at, dot :: EmailShape(s, at, dot)
  }

  /** A deterministic matcher for the address regex: the `@` is where the local part ends,
      and the separating `.` is the last one, because the final letters contain none. */
  function MatchesEmail(s: string): (ok: bool)
    ensures ok <==> EmailPattern(s)
  {
    var at := Span(s, IsEmailLocalChar);
    if at == 0 || at == |s| || s[at] != '@' then
      NoEmailShapeWithoutAt(s, at);
      false
    else
      var rest := s[at + 1..];
      var dot := LastIndexOf(rest, '.');
      var ok := dot >= 1 && dot + 3 <= |rest|
        && Span(rest, IsEmailDomainChar) >= dot
        && Span(rest[dot + 1..], IsLetterIgnoringCase) == |rest| - dot - 1;
      MatchesEmailCorrect(s, at, rest, dot, ok);
      ok
  }

  lemma NoEmailShapeWithoutAt(s: string, at: nat)
    requires at == Span(s, IsEmailLocalChar)
    requires at == 0 || at == |s| || s[at] != '@'
    ensures !EmailPattern(s)
  {
    if a, d :| EmailShape(s, a, d) {
      SpanIsExact(s, IsEmailLocalChar, a);
    }
  }

  lemma MatchesEmailCorrect(s: string, at: nat, rest: string, dot: int, ok: bool)
    requires at == Span(s, IsEmailLocalChar) && 0 < at < |s| && s[at] == '@'
    requires rest == s[at + 1..] && dot == LastIndexOf(rest, '.')
    requires ok == (dot >= 1 && dot + 3 <= |rest|
        && Span(rest, IsEmailDomainChar) >= dot
        && Span(rest[dot + 1..], IsLetterIgnoringCase) == |rest| - dot - 1)
    ensures ok <==> EmailPattern(s)
  {
    if ok {
      MatchedIsEmail(s, at, rest, dot);
    }
    if a, d :| EmailShape(s, a, d) {
      EmailShapeIsMatched(s, a, d, at, rest, dot);
    }
  }

  /** What the matcher accepts has the address shape. */
  lemma MatchedIsEmail(s: string, at: nat, rest: string, dot: int)
    requires at == Span(s, IsEmailLocalChar) && 0 < at < |s| && s[at] == '@'
    requires rest == s[at + 1..] && 0 <= dot < |rest| && rest[dot] == '.'
    requires dot >= 1 && dot + 3 <= |rest|
    requires Span(rest, IsEmailDomainChar) >= dot
    requires Span(rest[dot + 1..], IsLetterIgnoringCase) == |rest| - dot - 1
    ensures EmailShape(s, at, at + 1 + dot)
  {
    var d := at + 1 + dot;
    forall i | at < i < d ensures IsEmailDomainChar(s[i]) {
      assert s[i] == rest[i - at - 1];
    }
    forall i | d < i < |s| ensures IsLetterIgnoringCase(s[i]) {
      assert s[i] == rest[dot + 1..][i - d - 1];
    }
  }

  /** Every string of the address shape is accepted by the matcher. */
  lemma EmailShapeIsMatched(s: string, a: int, d: int, at: nat, rest: string, dot: int)
    requires EmailShape(s, a, d)
    requires at == Span(s, IsEmailLocalChar) && 0 < at < |s| && s[at] == '@'
    requires rest == s[at + 1..] && dot == LastIndexOf(rest, '.')
    ensures dot >= 1 && dot + 3 <= |rest|
    ensures Span(rest, IsEmailDomainChar) >= dot
    ensures Span(rest[dot + 1..], IsLetterIgnoringCase) == |rest| - dot - 1
  {
    SpanIsExact(s, IsEmailLocalChar, a);
    var k := d - at - 1;
    assert rest[k] == '.';
    forall j | k < j < |rest| ensures rest[j] != '.' {
      assert rest[j] == s[j + at + 1];
    }
    assert dot == k;
    DomainSpan(s, a, d, rest);
    var tld := rest[k + 1..];
    forall i | 0 <= i < |tld| ensures IsLetterIgnoringCase(tld[i]) {
      assert tld[i] == s[d + 1 + i];
    }
    SpanIsExact(tld, IsLetterIgnoringCase, |tld|);
  }

  lemma DomainSpan(s: string, a: int, d: int, rest: string)
    requires EmailShape(s, a, d) && rest == s[a + 1..]
    ensures Span(rest, IsEmailDomainChar) >= d - a - 1
  {
    var k := d - a - 1;
    forall i | 0 <= i < k ensures IsEmailDomainChar(rest[i]) {
      assert rest[i] == s[i + a + 1];
    }
  }

  /** `validate_identifier`: an address, or at least three characters of `[a-zA-Z0-9_]`. */
  function ValidateIdentifier(identifier: string): (ok: bool)
    ensures ok <==> EmailPattern(identifier) || (|identifier| >= 3 && AllWordChars(identifier))
  {
    MatchesEmail(identifier) || (|identifier| >= 3 && Span(identifier, IsWordChar) == |identifier|)
  }

  /** Two-character user names are refused and three-character ones accepted. */
  lemma IdentifierLengthBoundary()
    ensures !ValidateIdentifier("ab")
    ensures ValidateIdentifier("abc")
  {
    assert !MatchesEmail("ab") by {
      assert Span("ab", IsEmailLocalChar) == 2 by {
        SpanIsExact("ab", IsEmailLocalChar, 2);
      }
    }
  }

  // ---------------------------------------------------------------------------------
  // Validation of the request bodies
  // ---------------------------------------------------------------------------------

  /** One failed rule: the field it is attached to, the rule's code and its message. */
  datatype Violation = Violation(field: string, code: string, message: Option<string>)

  function Rule(holds: bool, field: string, code: string, message: Option<string>): set<Violation> {
    if holds then {} else {Violation(field, code, message)}
  }

  predicate FieldFails(violations: set<Violation>, field: string) {
    exists v :: v in violations && v.field == field
  }

  datatype RegisterUserDto = RegisterUserDto(username: string, email: string, password: string, confirmPassword: string)

  /** `RegisterUserDto::validate`. The `email` rule belongs to the validator crate and is the
      parameter `isEmail`. */
  function RegisterViolations(body: RegisterUserDto, isEmail: string -> bool): (r: set<Violation>)
    ensures FieldFails(r, "username") <==> !(|body.username| >= 3 && ValidateUsername(body.username))
    ensures FieldFails(r, "email") <==> !(|body.email| >= 1 && isEmail(body.email))
    ensures FieldFails(r, "password") <==> !(6 <= |body.password| <= 12)
    ensures FieldFails(r, "confirm_password") <==>
              !(|body.confirmPassword| >= 1 && body.confirmPassword == body.password)
    ensures r == {} <==>
              && 3 <= |body.username| && ValidateUsername(body.username)
              && 1 <= |body.email| && isEmail(body.email)
              && 6 <= |body.password| <= 12
              && body.confirmPassword == body.password
  {
    Rule(|body.username| >= 3, "username", "length", Some("Username must be at least 3 characters long"))
    + Rule(ValidateUsername(body.username), "username", "invalid_username", None)
    + Rule(|body.email| >= 1, "email", "length", Some("Email must be filled"))
    + Rule(isEmail(body.email), "email", "email", Some("Email is invalid"))
    + Rule(|body.password| >= 6, "password", "length", Some("Password must be at least 6 characters long"))
    + Rule(|body.password| <= 12, "password", "length", Some("Password must be at most 12 characters long"))
    + Rule(|body.confirmPassword| >= 1, "confirm_password", "length", Some("Confirm password is required"))
    + Rule(body.confirmPassword == body.password, "confirm_password", "must_match", Some("Confirm password does not match"))
  }

  datatype LoginUserDto = LoginUserDto(identifier: string, password: string)

  /** `LoginUserDto::validate`. */
  function LoginViolations(body: LoginUserDto): (r: set<Violation>)
    ensures FieldFails(r, "identifier") <==> !ValidateIdentifier(body.identifier)
    ensures FieldFails(r, "password") <==> !(1 <= |body.password| <= 12)
    ensures r == {} <==> ValidateIdentifier(body.identifier) && 1 <= |body.password| <= 12
  {
    Rule(ValidateIdentifier(body.identifier), "identifier", "invalid_identifier", None)
    + Rule(|body.password| >= 1, "password", "length", Some("Password is required"))
    + Rule(|body.password| <= 12, "password", "length", Some("Password must be at most 12 characters long"))
  }

  datatype RequestQueryDto = RequestQueryDto(page: Option<nat>, limit: Option<nat>)

  /** `RequestQueryDto::validate`: a `range` rule checks a present value only. */
  function QueryViolations(query: RequestQueryDto): (r: set<Violation>)
    ensures FieldFails(r, "page") <==> query.page.Some? && query.page.value < 1
    ensures FieldFails(r, "limit") <==> query.limit.Some? && !(1 <= query.limit.value <= 50)
    ensures r == {} <==> (query.page.None? || query.page.value >= 1) && (query.limit.None? || 1 <= query.limit.value <= 50)
    ensures query.page.None? && query.limit.None? ==> r == {}
  {
    Rule(query.page.None? || query.page.value >= 1, "page", "range", None)
    + Rule(query.limit.None? || 1 <= query.limit.value <= 50, "limit", "range", None)
  }

  datatype UserPasswordUpdateDto = UserPasswordUpdateDto(newPassword: string, newPasswordConfirm: string, oldPassword: string)

  /** `UserPasswordUpdateDto::validate`. */
  function PasswordUpdateViolations(body: UserPasswordUpdateDto): (r: set<Violation>)
    ensures FieldFails(r, "new_password") <==> !(1 <= |body.newPassword| <= 12)
    ensures FieldFails(r, "new_password_confirm") <==>
              !(1 <= |body.newPasswordConfirm| <= 12 && body.newPasswordConfirm == body.newPassword)
    ensures FieldFails(r, "old_password") <==> !(1 <= |body.oldPassword| <= 12)
    ensures r == {} <==>
              && 1 <= |body.newPassword| <= 12
              && body.newPasswordConfirm == body.newPassword
              && 1 <= |body.oldPassword| <= 12
  {
    Rule(|body.newPassword| >= 1, "new_password", "length", Some("New password is required"))
    + Rule(|body.newPassword| <= 12, "new_password", "length", Some("Password must be at most 12 characters long"))
    + Rule(|body.newPasswordConfirm| >= 1, "new_password_confirm", "length", Some("Confirm new password is required"))
    + Rule(|body.newPasswordConfirm| <= 12, "new_password_confirm", "length", Some("Password must be at most 12 characters long"))
    + Rule(body.newPasswordConfirm == body.newPassword, "new_password_confirm", "must_match", Some("New passwords do not match"))
    + Rule(|body.oldPassword| >= 1, "old_password", "length", Some("Old password is required"))
    + Rule(|body.oldPassword| <= 12, "old_password", "length", Some("Password must be at most 12 characters long"))
  }

  datatype NameUpdateDto = NameUpdateDto(name: string)

  /** `NameUpdateDto::validate`. */
  function NameUpdateViolations(body: NameUpdateDto): (r: set<Violation>)
    ensures r == {} <==> |body.name| >= 1
    ensures r != {} ==> r == {Violation("name", "length", Some("Name is required"))}
  {
    Rule(|body.name| >= 1, "name", "length", Some("Name is required"))
  }

  // ---------------------------------------------------------------------------------
  // Response projections
  // ---------------------------------------------------------------------------------

  /** `FilterUserDto`. The id stays a `Uuid`; its text form is the uuid crate's. */
  datatype FilterUserDto = FilterUserDto(id: Uuid, username: string, email: string, createdAt: Timestamp, updatedAt: Timestamp)

  /** `FilterUserDto::filter_user`. `None` stands for the panic of `unwrap` on a missing timestamp. */
  function FilterUser(user: User): (r: Option<FilterUserDto>)
    ensures r.Some? <==> user.createdAt.Some? && user.updatedAt.Some?
    ensures r.Some? ==> r.value.id == user.id && r.value.username == user.username
                        && r.value.email == user.email
                        && Some(r.value.createdAt) == user.createdAt && Some(r.value.updatedAt) == user.updatedAt
  {
    match (user.createdAt, user.updatedAt)
    case (Some(created), Some(updated)) => Some(FilterUserDto(user.id, user.username, user.email, created, updated))
    case _ => None
  }

  /** `TrackDto`: one row of the track queries. */
  datatype TrackDto = TrackDto(
    id: Uuid,
    title: Option<string>,
    artist: Option<string>,
    duration: Duration,
    fileName: Option<string>,
    uploadStatus: Option<string>,
    thumbnailName: Option<string>,
    isFavorite: Option<bool>,
    durationPlayed: Duration,
    playedAt: Option<Timestamp>,
    isCreatedByUser: Option<bool>)

  /** `FilterTrackDto` without its three floating-point duration fields. */
  datatype FilterTrackDto = FilterTrackDto(
    id: Uuid,
    title: Option<string>,
    artist: Option<string>,
    fileName: Option<string>,
    thumbnailName: Option<string>,
    isFavorite: Option<bool>,
    playedAt: Option<Timestamp>,
    isCreatedByUser: Option<bool>)

  /** The projected row carries the track's fields unchanged. */
  ghost predicate Copies(f: FilterTrackDto, t: TrackDto) {
    && f.id == t.id && f.title == t.title && f.artist == t.artist
    && f.fileName == t.fileName && f.thumbnailName == t.thumbnailName
    && f.isFavorite == t.isFavorite && f.playedAt == t.playedAt
    && f.isCreatedByUser == t.isCreatedByUser
  }

  /** `FilterTrackDto::filter_track` (non-float fields). */
  function FilterTrack(track: TrackDto): (f: FilterTrackDto)
    ensures Copies(f, track)
  {
    FilterTrackDto(track.id, track.title, track.artist, track.fileName, track.thumbnailName,
                   track.isFavorite, track.playedAt, track.isCreatedByUser)
  }

  /** `FilterTrackDto::filter_tracks`: one projected row per input row, in the same order. */
  function FilterTracks(tracks: seq<TrackDto>): (r: seq<FilterTrackDto>)
    ensures |r| == |tracks|
    ensures forall i :: 0 <= i < |tracks| ==> Copies(r[i], tracks[i])
  {
    if tracks == [] then [] else [FilterTrack(tracks[0])] + FilterTracks(tracks[1..])
  }

  /** `PlayListDto`: one row of the user's playlist listing. */
  datatype PlayListDto = PlayListDto(id: Uuid, title: string, thumbnailPath: Option<string>, maxTrackOrder: Option<Int32>)
}
