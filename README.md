# music_platform back end, modelled in Dafny

This project models the core of the `back_end` crate of `music_platform`, a music streaming
service written in Rust (axum, sqlx over PostgreSQL, argon2, JWT). What it models:

- **Input validation** (`dtos.rs`). This covers the username and identifier patterns and the
  field rules of the request bodies: registration, login, pagination, password update and
  name update. The `validator` crate reports every failing rule, so each body's validation is
  a function to the *set* of violations, with the source's field names, codes and messages.
  The regexes become explicit character-class predicates. Case-insensitive `[a-z]` also
  admits U+017F and U+212A, as simple case folding in Rust's `regex` does.
- **Conversions** (`models.rs`, and the projections in `dtos.rs`): interval to `Duration`
  with its zero default, `filter_user`, and `filter_tracks` without its floating-point
  fields.
- **Errors** (`errors.rs`): the fixed message of each `ErrorMessage`, the `HttpError`
  constructors and `into_http_response`.
- **Password preconditions** (`utils/password.rs`). The empty and 64-byte checks run in
  front of an abstract Argon2. Length is counted in UTF-8 bytes, as `String::len` counts it.
- **The `register` and `login` handlers** (`handler/auth.rs`). `register` is a decision
  function from the validation result and the save result. `login` is an imperative method
  that records the `get_user` calls it makes. The user store, the token issuer and the text
  of a validation error are parameters.
- **The data-access layer** (`databases/*.rs`). The tables are held in memory in one class,
  `Tables.Database`. Writes are methods that change the table fields. Queries are functions
  of the tables.
  - IDs that PostgreSQL would generate come from a counter.
  - `CURRENT_TIMESTAMP` is a parameter `now`.
  - `ORDER BY RANDOM()` is a parameter: the order the database drew.

One module per source file:

| file | module |
|---|---|
| wrappers.dfy | `Wrappers` (Option, Result) |
| strings.dfy | `Strings` (decimal rendering, substring search) |
| models.dfy | `Models` |
| errors.dfy | `Errors` |
| dtos.dfy | `Dtos` |
| password.dfy | `Password` |
| auth_handler.dfy | `AuthHandler` |
| tables.dfy | `Tables` (rows, the joined track row, `Database`) |
| history.dfy | `History` |
| playlists.dfy | `Playlists` |
| favorites.dfy | `Favorites` |
| tracks.dfy | `Tracks` |

The source does not compile in several places. The model follows the evident intent at
each of them:

- `register` hashes with an undefined `hash_password` (handler/auth.rs:32). The stored
  hash is opaque, so the model does not include the hash step.
- `login` has `Ok(response);` with a semicolon (handler/auth.rs:115). It also uses the
  spelling `WrongCredentials` next to the variant `WrongCrendentials`, and the call
  `e.to_string` without parentheses (handler/auth.rs:97).
- `register` calls `unique_constrain_violation` for `unique_constraint_violation`
  (handler/auth.rs:48, 53).
- history.rs has two mistakes. It tests an undefined `existing_entry` where the
  lookup's result is `query` (history.rs:30-47). It also mixes up `query` and `rows` in
  `get_user_playback_history` (history.rs:80-113). The model reads the first lookup row as
  the existing entry, and returns the joined rows.
- `Duration::microseconds` is declared `i32` but is assigned the `i64` microseconds of a
  `PgInterval` (models.rs:12, 30). The model gives it the `i64` range.
- `get_user_playlists` returns `Vec<PlayListDto>` while its trait declares
  `Vec<TrackDto>` (playlists.rs:31, 105). The model returns `PlayListDto` rows.

## Model

| member | source | states |
|---|---|---|
| Strings.NatToDecimal | back_end/src/errors.rs:54 | the `{}` rendering of a count: non-empty, all digits, no leading zero |
| Strings.DecimalRoundTrip | back_end/src/errors.rs:54 | reading back the rendered digits gives the number again |
| Strings.NatToDecimalInjective | back_end/src/errors.rs:54 | different numbers render differently |
| Strings.Contains | back_end/src/handler/auth.rs:47-52 | `str::contains` holds iff the pattern occurs at some index |
| Models.DefaultDuration | back_end/src/models.rs:16-22 | months, days and microseconds are all 0 |
| Models.FromInterval | back_end/src/models.rs:25-33 | months, days and microseconds are copied unchanged |
| Models.FromOptionalInterval | back_end/src/models.rs:35-42 | `None` gives the all-zero duration; `Some(i)` gives the conversion of `i`; the result is zero iff the option is `None` or the zero interval |
| Errors.ToStr | back_end/src/errors.rs:44-58 | each variant maps to its fixed message; `ExceededMaxPasswordLength(n)` yields prefix, decimal `n`, suffix |
| Errors.ToStrInjective | back_end/src/errors.rs:44-58 | distinct error values have distinct messages |
| Errors.New | back_end/src/errors.rs:68-73 | keeps the given message and status |
| Errors.ServerError | back_end/src/errors.rs:75-80 | status 500, message unchanged |
| Errors.BadRequest | back_end/src/errors.rs:82-87 | status 400, message unchanged |
| Errors.UniqueConstraintViolation | back_end/src/errors.rs:89-94 | status 409, message unchanged |
| Errors.Unauthorized | back_end/src/errors.rs:96-101 | status 401, message unchanged |
| Errors.StatusTextStartsWithCode | back_end/src/errors.rs:105 | the rendered status begins with the three digits of the code |
| Errors.IntoHttpResponse | back_end/src/errors.rs:103-109 | the reply has the error's status; the body's message is the error's message; the body's status text starts with that code in decimal |
| Dtos.ValidateUsername | back_end/src/dtos.rs:33-39 | accepts exactly the non-empty strings of ASCII letters, digits and `_` |
| Dtos.MatchesEmail | back_end/src/dtos.rs:54 | accepts exactly the strings of the form local `@` domain `.` two or more letters, case-insensitive |
| Dtos.ValidateIdentifier | back_end/src/dtos.rs:53-62 | accepts iff the email pattern matches or the string has at least 3 word characters |
| Dtos.IdentifierLengthBoundary | back_end/src/dtos.rs:55 | "ab" is rejected and "abc" accepted |
| Dtos.RegisterViolations | back_end/src/dtos.rs:8-31 | for each field, the violations present iff its rule fails: username length ≥ 3 and pattern; email non-empty and an email; password 6..12; confirmation non-empty and equal; no violations iff all hold |
| Dtos.LoginViolations | back_end/src/dtos.rs:41-51 | identifier rule; password 1..12 characters; no violations iff both hold |
| Dtos.QueryViolations | back_end/src/dtos.rs:64-71 | a present page must be ≥ 1 and a present limit must be 1..50; no violations iff both hold, so absent values pass |
| Dtos.PasswordUpdateViolations | back_end/src/dtos.rs:137-157 | all three fields 1..12 characters and the confirmation equal to the new password |
| Dtos.NameUpdateViolations | back_end/src/dtos.rs:266-270 | the name must be non-empty |
| Dtos.FilterUser | back_end/src/dtos.rs:86-96 | copies id, username and email; no result (the `unwrap` panic) iff a timestamp is missing |
| Dtos.FilterTrack | back_end/src/dtos.rs:197-211 | copies id, title, artist, file name, thumbnail, favourite flag, played-at and created-by-user |
| Dtos.FilterTracks | back_end/src/dtos.rs:213-215 | one projected row per input row, in the same order |
| Password.Utf8Len | back_end/src/utils/password.rs:26 | the byte length `len()` measures: between 1 and 4 bytes per character |
| Password.Hash | back_end/src/utils/password.rs:19-50 | empty gives `EmptyPassword`; over 64 bytes gives `ExceededMaxPasswordLength(64)`; otherwise `HashingError` iff the parameters or the hasher fail, else the hasher's output |
| Password.Compare | back_end/src/utils/password.rs:52-66 | the same two checks in the same order; then `InvalidHashFormat` iff the stored hash does not parse; otherwise `Ok` of the verifier's answer, never an error |
| Password.LimitCountsBytes | back_end/src/utils/password.rs:17-28 | a 22-character password of 3-byte characters is refused as too long |
| Password.SamePreconditionErrors | back_end/src/utils/password.rs:22-59 | `hash` and `compare` refuse the same passwords with the same error |
| AuthHandler.SaveErrorToHttp | back_end/src/handler/auth.rs:42-65 | an `email` constraint gives 409 `EmailExist`, checked before `username`, which gives 409 `UsernameExist`; any other unique violation and any other error give 500 |
| AuthHandler.Register | back_end/src/handler/auth.rs:27-67 | an invalid body gives 400 before the save matters; a successful save gives 201 with the fixed message; a failed save gives that classification |
| AuthHandler.RegisteredPasswordIsHashable | back_end/src/handler/auth.rs:30-32 | a valid registration password passes `hash`'s preconditions |
| AuthHandler.Login | back_end/src/handler/auth.rs:69-120 | an invalid body gives 400 with no lookup; the username lookup happens only when the email lookup finds nobody; nobody found, a mismatch or a compare error give 400 wrong credentials; a login sets the cookie `token` with max-age `jwt_maxage*60` minutes, path "/", HTTP only, carrying the body's token; a token error gives 500; a user with a missing timestamp makes the handler panic |
| AuthHandler.LoginPasswordIsComparable | back_end/src/handler/auth.rs:74-89 | a valid login password passes `compare`'s preconditions |
| Tables.FindHistoryIndex | back_end/src/databases/history.rs:30-39 | the first row keyed by `(user, track)`, or none when no row is |
| Tables.FindHistory | back_end/src/databases/history.rs:30-39 | a row of that pair, and none iff no row has that pair |
| Tables.JoinedTrack | back_end/src/databases/playlists.rs:135-144 | the track's columns; favourite flag as given; created-by-user iff the owner is the user; zero duration and no time without a play |
| History.PlayedInterval | back_end/src/databases/history.rs:41-45 | no months or days; microseconds equal `duration_time * 1_000_000` exactly when the product fits `i64` (wrapping otherwise) |
| History.SetWhereId | back_end/src/databases/history.rs:48-58 | only rows with that id get the new duration and time |
| History.UpdateInsertPlaybackHistory | back_end/src/databases/history.rs:24-74 | the history becomes the upsert of the play; a new id only when inserting; other tables unchanged |
| History.UpdateInsertPlaybackHistoryAsWritten | back_end/src/databases/history.rs:59-70 | the same with the insert's two ids swapped; a new id only when inserting; other tables unchanged |
| History.UpsertReplaces | back_end/src/databases/history.rs:47-58 | afterwards the lookup finds the pair with exactly the new duration and time (replaced, not summed) |
| History.UpsertTouchesOneRow | back_end/src/databases/history.rs:47-70 | only the found row changes, or exactly one row is appended; ids stay unique |
| History.UpsertLeavesOtherPairs | back_end/src/databases/history.rs:47-70 | the lookup of every other pair is unchanged |
| History.UpsertKeepsPairsUnique | back_end/src/databases/history.rs:30-70 | at most one row per `(user, track)` is kept |
| History.SwappedInsertIsNeverFound | back_end/src/databases/history.rs:31-66 | as written, with two different ids, neither the first nor a second play is found by the lookup, and both insert a row |
| History.SwapHarmlessForEqualIds | back_end/src/databases/history.rs:62-66 | the swap changes nothing when the two ids coincide |
| History.UserPlays | back_end/src/databases/history.rs:94-101 | exactly the rows of the user whose track exists, each as often as in the table |
| History.PlaybackHistoryOf | back_end/src/databases/history.rs:80-102 | one row per play of the user, each the played track with that play's duration and time; no status filter |
| Playlists.CreatePlaylist | back_end/src/databases/playlists.rs:42-61 | exactly one playlist is added, owned by the user, with the given title and thumbnail |
| Playlists.AddTrackToPlaylist | back_end/src/databases/playlists.rs:82-101 | exactly one `(playlist, track, order)` row is appended, the rest unchanged; the table invariant is kept |
| Playlists.MaxTrackOrder | back_end/src/databases/playlists.rs:113 | SQL `MAX`: the largest non-NULL order of the playlist, NULL iff there is none |
| Playlists.LastTrackOrder | back_end/src/databases/playlists.rs:113 | the largest non-NULL order of the playlist (no order exceeds it and one equals it), or 0 when there is none |
| Playlists.LastTrackOrderAsWritten | back_end/src/databases/playlists.rs:67-79 | fails with no row iff the playlist is empty; any NULL order gives 0 |
| Playlists.AsWrittenAgreesWithoutNulls | back_end/src/databases/playlists.rs:67-79 | for a non-empty playlist without NULL orders the lookup as written is the maximum |
| Playlists.EmptyPlaylistFails | back_end/src/databases/playlists.rs:76 | an empty playlist fails as written where the intended order is 0 |
| Playlists.NullOrderHidesMaximum | back_end/src/databases/playlists.rs:72-79 | orders 3 and NULL give 0 as written, 3 intended |
| Playlists.AppendAtNextOrder | back_end/src/databases/playlists.rs:63-98 | appending at last + 1 makes that the last order, above every earlier one, leaving other playlists alone |
| Playlists.OwnedPlaylists | back_end/src/databases/playlists.rs:116 | exactly the user's playlists, each as often as in the table |
| Playlists.UserSummaries | back_end/src/databases/playlists.rs:109-117 | one row per playlist the user owns, in table order, each with its last order |
| Playlists.TitleLeTotal | back_end/src/databases/playlists.rs:118 | any two titles are ordered |
| Playlists.TitleLeTransitive | back_end/src/databases/playlists.rs:118 | the title order is transitive |
| Playlists.InsertByTitle | back_end/src/databases/playlists.rs:118 | inserting keeps the rows sorted and adds exactly one |
| Playlists.GetUserPlaylists | back_end/src/databases/playlists.rs:102-126 | sorted by title, a permutation of the user's playlist rows, each with its largest order or 0 |
| Playlists.PlaylistEntries | back_end/src/databases/playlists.rs:141-145 | exactly the playlist's rows whose track exists, each as often as in the table |
| Playlists.GetPlaylistTracks | back_end/src/databases/playlists.rs:127-154 | one row per entry of the playlist, each the joined track |
| Playlists.PlaylistTrackFlags | back_end/src/databases/playlists.rs:135-146 | each row is in the playlist; favourite iff saved; created-by-user iff owned; zero duration without a play |
| Favorites.SaveFavorite | back_end/src/databases/favorites.rs:28-46 | the pair `(user, track)` is appended to `user_favorites`, nothing else changes; the table invariant is kept |
| Favorites.RemovePair | back_end/src/databases/favorites.rs:54-57 | keeps exactly the rows other than the pair, each as often as before |
| Favorites.DeleteFavorite | back_end/src/databases/favorites.rs:49-66 | deleting from `user_favorites` removes the pair; the table invariant is kept |
| Favorites.DeleteFavoriteAsWritten | back_end/src/databases/favorites.rs:49-66 | deleting from `favorites` fails when that table is missing and never changes `user_favorites` |
| Favorites.DeleteUndoesSave | back_end/src/databases/favorites.rs:34-57 | deleting a saved pair restores the other rows and removes it |
| Favorites.SaveThenDeleteAsWritten | back_end/src/databases/favorites.rs:34-63 | as written, a saved favourite survives its deletion |
| Favorites.SaveThenDelete | back_end/src/databases/favorites.rs:34-63 | with the intended table the favourite is gone |
| Favorites.FavoriteEntries | back_end/src/databases/favorites.rs:87-96 | exactly the user's favourite rows whose track is `complete`, each as often as in the table |
| Favorites.GetUserFavoriteTracks | back_end/src/databases/favorites.rs:68-104 | one row per such favourite, each the joined track marked favourite |
| Favorites.FavoriteTrackFlags | back_end/src/databases/favorites.rs:83-96 | each row is a saved `complete` track, marked favourite, created-by-user iff owned, with zero duration without a play |
| Tracks.CompleteIds | back_end/src/databases/track.rs:33 | exactly the drawn ids of `complete` tracks, each as often as drawn and in the drawn order; distinct when the draw is |
| Tracks.RandomTracks | back_end/src/databases/track.rs:16-43 | at most 20 rows, the first `complete` tracks of the draw, each with favourite, created-by-user and play columns |
| Tracks.GetRandomTracksAsWritten | back_end/src/databases/track.rs:26 | every call fails with the planner's type error: the typing of `COALESCE` rejects an interval with the integer 0 |
| Tracks.CoalesceType | back_end/src/databases/track.rs:24-26 | `COALESCE` has a type iff its typed arguments agree, and then it is their type |
| Tracks.RunRandomTracks | back_end/src/databases/track.rs:20-43 | the query is accepted iff the duration default is an interval or `NULL`, and then it yields the random tracks; otherwise it fails naming both types |
| Tracks.GetRandomTracks | back_end/src/databases/track.rs:20-43 | with an interval default the query succeeds with the random tracks |
| Tracks.CoalesceTyping | back_end/src/databases/track.rs:24-26 | interval with integer has no type; two intervals are an interval; a timestamp with `NULL` is a timestamp |
| Tracks.AnyDrawnOrder | back_end/src/databases/track.rs:34-35 | for any draw of every track once: no track twice, and with fewer than 20 rows every `complete` track appears |

## Left out

- The chunked upload (back_end/src/databases/upload.rs:56-106) is not modelled. Its
  chunk methods are unfinished or have no body, so there is no behaviour to model.
- The floating-point `convert_duration_to_minutes` and `convert_duration_to_seconds`
  (back_end/src/dtos.rs:218-229) are not modelled, nor are the three fields of
  `FilterTrackDto` they fill. They also multiply `i32` fields before widening, which can
  overflow.
- Argon2, `SaltString::generate(&mut OsRng)` and JWT creation are foreign code. They are
  abstract parameters: a hasher, a parser, a verifier and a token issuer.
- The `validator` crate's `email` rule (back_end/src/dtos.rs:16) is the parameter
  `isEmail`. The text of a `ValidationErrors` value is the parameter `describe`.
- main.rs, config.rs, routes.rs, dbs.rs, the auth.rs middleware and handler/users.rs
  are transport plumbing. users.rs is thin handlers over calls that are not part of
  this model. The middleware reads the cookie `jwt_token` while `login` sets `token`;
  that mismatch is noted but not modelled.
- Concurrency is not modelled. The read-then-write upsert in history.rs is modelled as
  one sequential step.
- Joins that duplicate rows are not modelled. Where a track has several history rows of
  the user, the model joins the first. Where a favourite pair is saved twice, the queries
  that left-join `user_favorites` still show the track once.
- Schema constraints are not modelled: foreign keys, unique keys and column defaults
  that the migrations (not part of this model) would impose. In particular, playlist and
  favourite inserts always succeed.
- Dtos.FilterUser: the id is the `Uuid` itself, not its hyphenated text form.
- AuthHandler.Login: `jwt_maxage * 60` is unbounded arithmetic here; the `i64` overflow is
  not modelled.
- Errors.IntoHttpResponse: reason phrases are modelled for the six status codes the
  crate uses, and are empty for any other code.
- Playlists.GetUserPlaylists: `ORDER BY title` is modelled as code-point order, which is
  the order of a byte-wise collation; other collations are not modelled. Where titles tie,
  the model shows one permitted ordering.
- Playlists.GetPlaylistTracks, Favorites.GetUserFavoriteTracks and
  History.PlaybackHistoryOf list rows in table order. The queries have no `ORDER BY`, so
  that is one permitted order.
- Tracks.CoalesceType models only the four types the query uses, and leaves an all-`NULL`
  list untyped where PostgreSQL would choose `text`.
- Register's hash step is not modelled. `hash_password` is undefined at
  back_end/src/handler/auth.rs:32, so `save_user` (not part of this model) gets the
  outcome as a parameter.

## Findings

| source | as written | input that shows it | evidently intended | confidence | as-written member | corrected member |
|---|---|---|---|---|---|---|
| back_end/src/databases/history.rs:62-66 | the insert binds `track_id` into `user_id` and `user_id` into `track_id` | a user `u` plays track `t` with `u != t` twice | one history row per `(user, track)`, its duration replaced on each play | high, not executed | History.SwappedInsertIsNeverFound | History.UpsertReplaces |
| back_end/src/databases/favorites.rs:55 | `delete_favorite` deletes from `favorites` while favourites are saved in `user_favorites` (favorites.rs:36) | save `(u, t)`, then delete `(u, t)` | the pair is removed from `user_favorites` | high, not executed | Favorites.SaveThenDeleteAsWritten | Favorites.SaveThenDelete |
| back_end/src/databases/playlists.rs:72-79 | `fetch_one` on the rows ordered `DESC` fails on an empty playlist, and NULLs sort first | a playlist with no tracks; a playlist with orders 3 and NULL | `COALESCE(MAX(track_order), 0)`, as `get_user_playlists` computes it | high, not executed | Playlists.NullOrderHidesMaximum | Playlists.AppendAtNextOrder |
| back_end/src/databases/track.rs:26 | `COALESCE(ph.duration_played, 0)` mixes an interval with an integer | any call of `get_random_tracks` | `INTERVAL '0 seconds'`, as the other track queries write it | medium, not executed | Tracks.GetRandomTracksAsWritten | Tracks.GetRandomTracks |
