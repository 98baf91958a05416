# Txtme anonymous-message server, modelled in Dafny

This project models the API server of Txtme, an anonymous-message service. Anyone who knows a user's handle can drop a
text or voice note into that user's inbox. The user gets a push notification, and can then list and delete the
messages with a bearer credential.

The server is modelled as a state machine. Its state is the `users` and `messages` tables, the messages table's
AUTOINCREMENT counter, and the per-client request counter in front of `/send`. Each route handler is one atomic
method of the `Server` class (`routes.dfy`). Each method answers with a `Result`: the route's success value or the
failure it answers with.

Each external library is reduced to what the handlers rely on:

- bcrypt becomes `Identity.Hash`/`Identity.Matches`.
- jsonwebtoken becomes `Identity.Sign`/`Identity.Verify`.
- The `auth` middleware becomes `Identity.Authenticate`.
- multer becomes `Upload.Admit`.
- express-rate-limit becomes `RateLimit.SendLimiter`.
- The Expo client becomes `Push.SendPush`. Its token-format check `isPushToken` and the provider's answer `accepted`
  are parameters.

Everything that is not logic is a parameter:

- Request fields are `Option` values, where `None` is an absent field (`undefined`).
- The clock is `nowMs`, in milliseconds.
- The bcrypt salt is a string.
- The client address is a string.

Files:

- `http.dfy`: `Option`, `Result`, the failure kinds and their status codes, and JavaScript truthiness and defaults.
- `jsnumber.dfy`: `parseInt` (the one in `/messages/:userId`) and `String(n)` (the one in the clients' paths and in
  multer's file names), with their round trip.
- `identity.dfy`: password hashing, token signing and verification, and the `auth` middleware.
- `ratelimit.dfy`: the `/send` limiter, its replay function and the burst lemmas.
- `upload.dfy`: the attachment admission rules and the stored name.
- `push.dfy`: the push guard and the body choice.
- `tables.dfy`: rows, table invariants, and the SQL statements as functions, with the lemmas about them.
- `routes.dfy`: the `Server` class.
- `scenarios.dfy`: request sequences checked against the routes' contracts.

The class invariant `Server.Valid()` holds that:

- user ids are 1, 2, … in row order;
- usernames are unique and non-empty;
- a stored push token is never empty;
- message ids strictly increase in row order and never exceed the messages table's counter; every route keeps that counter or raises it by one.

Every state-changing route preserves this invariant.

The server is permissive in several places, and the model follows the code:

- `send` does not check that the recipient exists, that `burnAfter` is non-negative, or that `type` agrees with the
  presence of a file. A missing `recipientId` fails only because the `recipient_id` column is NOT NULL.
- The inbox listing does not drop messages past their `burn_after` (`Tables.InboxIgnoresBurnAfter`).
- multer's three refusals (wrong field, a media type that is not audio, too large) reach the express default error
  handler. They answer 500.
- A login whose user exists but whose body has no password makes `bcrypt.compare` reject. The handler then never
  answers (`Unanswered`).
- `update-profile` with `themeId` or `avatarId` absent writes NULL into that column.

## Model

| member | source | states |
|---|---|---|
| `Http.Status` | server/index.js:84-137 | Answers 401 exactly for the credential failures and 500 exactly for multer and sqlite errors. Every other failure is a 4xx. |
| `Http.Truthy` | server/index.js:84 | JavaScript truthiness of an optional string field: present and non-empty. Used by `Routes.Server.Register` (line 84), `Routes.Server.Login` (line 101) and `Routes.PushFor` (line 119). |
| `Http.OrDefault` | server/index.js:113 | A destructuring default: the field when present, otherwise the default. `Routes.Server.Send` states the stored defaults. |
| `JsNumber.ParseInt` | server/index.js:126 | `NaN` exactly when no digit follows the optional sign. The sign decides the sign of the result. |
| `JsNumber.Decimal` | server/index.js:54 | `String(n)` is a non-empty digit string with no leading zero. |
| `JsNumber.DecimalValue` | server/index.js:54 | The digits of `String(n)` denote `n`. |
| `JsNumber.ParseDecimal` | server/index.js:126 | `parseInt(String(n)) == n`, so a client's own `/messages/<id>` path parses back to its id. |
| `JsNumber.DecimalInjective` | server/index.js:54 | Different numbers have different decimal spellings. |
| `JsNumber.ParseIntTrailing` | server/index.js:126 | `parseInt` stops at the first non-digit, so `"12abc"` reads as 12. |
| `Identity.Hash` | server/index.js:87 | The stored hash carries cost 12 and the given salt. |
| `Identity.Matches` | server/index.js:99 | `bcrypt.compare`: re-derives the digest of the attempt with the stored cost and salt and compares. Its law is `Identity.HashMatches`. |
| `Identity.HashMatches` | server/index.js:87-99 | The stand-in hash accepts an attempt exactly when it equals the hashed password (see the truncation under Left out). |
| `Identity.Sign` | server/index.js:90 | A token's subject is the given id, issued at the current second and expiring 30 days later. |
| `Identity.Verify` | server/index.js:67 | A token verifies, to its own id, exactly when its signature covers its claims under this secret and the current second is before its expiry. A bad signature is reported as such whatever the time. |
| `Identity.SignThenVerify` | server/index.js:67-100 | `Verify(Sign(id, t0), t)` is `id` while `t` is before the expiry, and `Expired` from then on. |
| `Identity.OtherSecretRejected` | server/index.js:16 | A token signed under another secret never verifies. |
| `Identity.Authenticate` | server/index.js:63-70 | No token gives "No token". A refused token gives "Invalid token". Otherwise the result is exactly the verified id. |
| `Identity.SignedAuthenticates` | server/index.js:63-70 | A token issued by register or login authenticates as its id for 30 days. |
| `RateLimit.Next` | server/index.js:42-44 | One more request: a new client, or one whose window has ended, opens a 60 s window with one hit; otherwise the hit count grows by one. Its laws are `RateLimit.ReplayInsideWindow` and `RateLimit.WindowResets`. |
| `RateLimit.Allowed` | server/index.js:44-45 | A request passes while its window's count is at most 12, and is answered 429 beyond. `RateLimit.Burst` gives the resulting count. |
| `RateLimit.ReplayInsideWindow` | server/index.js:42-49 | Inside an open window with `h` hits, the k-th further request passes iff `h + k + 1 <= 12`. This gives the exact accepted count. |
| `RateLimit.Burst` | server/index.js:42-49 | Requests from a new client within 60 s of its first: the first 12 pass and the 13th and later are rejected, so min(n, 12) are accepted. |
| `RateLimit.WindowResets` | server/index.js:43 | After the 60 s window has ended, the next request opens a fresh window and passes. |
| `RateLimit.SendLimiter.constructor` | server/index.js:42-48 | The limiter starts with no counters. |
| `RateLimit.SendLimiter.Hit` | server/index.js:42-49 | Counts the request, rejected ones included, against the client's window. The request passes iff the count is at most 12. |
| `Upload.FileFilter` | server/index.js:59 | A mimetype starting `audio/`, or exactly `application/octet-stream`. Its edges are `Upload.FilterExamples`. |
| `Upload.StoredName` | server/index.js:54 | The decimal milliseconds followed by `.mp3`. `Upload.StoredNamesDistinct` says when two names coincide. |
| `Upload.Admit` | server/index.js:56-60 | Checks run in multer's order: field `audio`, then the filter, then the size. A file passes iff all three hold, and then becomes the `Date.now() + '.mp3'` name. No file passes through. |
| `Upload.SizeBoundary` | server/index.js:58 | Exactly 15 MiB is accepted. 15 MiB + 1 byte fails with the size error. |
| `Upload.FilterExamples` | server/index.js:59 | `audio/mpeg`, a bare `audio/` and exactly `application/octet-stream` pass the filter. A bare `audio`, other types, a mere prefix of the octet-stream type, and the `text/plain` default of a part without a Content-Type do not. |
| `Upload.StoredNamesDistinct` | server/index.js:54 | Stored names coincide exactly when the two uploads happen in the same millisecond. |
| `Push.Body` | server/index.js:119 | "Voice note" for type 'audio' and "Secret message" for every other type. Its laws are `Scenarios.SendTextNotifies` and `Scenarios.SendAudioNotifies`. |
| `Push.SendPush` | server/index.js:72-79 | A token failing the format check is dropped with no provider call. Otherwise exactly one note with title "New Txtme!" and the given body goes to that token. |
| `Tables.FindByUsername` | server/index.js:98 | Returns the first row with the name, or none. An absent name (NULL) matches nothing. |
| `Tables.FindById` | server/index.js:118 | Returns a row with the id, or none if no row has it. |
| `Tables.Public` | server/index.js:107 | The row's id, name, theme and avatar, without password or push token. `Routes.Server.LookupPublic` states the reply built from it. |
| `Tables.FindByIdValid` | server/index.js:33 | In a valid table, the user with id k is row k. |
| `Tables.FindByUsernameUnique` | server/index.js:33 | Usernames are unique, so a name finds exactly its row. |
| `Tables.NewUser` | server/index.js:88 | The inserted row: the next id, the name, the hash, theme 0, avatar 0 and no push token. `Tables.AddUserValid` keeps the table valid with it. |
| `Tables.AddUserValid` | server/index.js:88 | Inserting a fresh, non-empty name keeps ids sequential and names unique. The new id is unused. |
| `Tables.SetProfile` | server/index.js:137 | The UPDATE of theme and avatar on the row with the id. Its laws are `Tables.SetProfileEffect`, `Tables.SetProfileIdempotent` and `Tables.SetProfileValid`. |
| `Tables.SetPushToken` | server/index.js:101 | The UPDATE of `push_token` on the row with the id. Its law is `Tables.SetPushTokenEffect`. |
| `Tables.SetProfileEffect` | server/index.js:137 | Only the caller's row changes, and only its theme and avatar. |
| `Tables.SetProfileIdempotent` | server/index.js:137 | Repeating a profile update changes nothing more. |
| `Tables.SetProfileValid` | server/index.js:137 | A profile update keeps the users table valid. |
| `Tables.SetPushTokenEffect` | server/index.js:101 | The login-time update sets only that user's push token and keeps the table valid. |
| `Tables.AppendValid` | server/index.js:115-116 | A message with the next id keeps ids strictly increasing, and its id exceeds every existing id. |
| `Tables.InboxOf` | server/index.js:127 | The SELECT of the recipient's rows in descending id order. Its laws are `Tables.InboxMembers` and `Tables.InboxDescending`. |
| `Tables.InboxMembers` | server/index.js:127 | The listing holds exactly the messages whose recipient is the caller. |
| `Tables.InboxDescending` | server/index.js:127 | The listing is in strictly descending id order. |
| `Tables.InboxIgnoresBurnAfter` | server/index.js:127 | A message past its `burn_after` is still listed. |
| `Tables.Targeted` | server/index.js:132 | The WHERE clause `id=? AND recipient_id=?`; an absent id (NULL) matches no row. |
| `Tables.DeleteOwned` | server/index.js:132 | The DELETE: the table without its targeted rows, in order. Its laws are `Tables.DeleteOwnedMembers` to `Tables.DeleteIdempotent` below. |
| `Tables.DeleteOwnedMembers` | server/index.js:132 | A delete removes exactly the rows matching both the id and the caller. Every other user's message survives. |
| `Tables.DeleteOwnedValid` | server/index.js:132 | A delete keeps the messages table valid. |
| `Tables.DeleteUntargeted` | server/index.js:132 | A delete that matches no row, such as another user's message id, changes nothing. |
| `Tables.DeleteAtMostOne` | server/index.js:132 | One delete removes at most one row. |
| `Tables.DeleteIdempotent` | server/index.js:132 | Repeating a delete changes nothing more. |
| `Routes.Reply` | server/index.js:102 | The login reply: the row as read, without its password, plus the token. `Routes.Server.Login` states when it is sent. |
| `Routes.FinalContent` | server/index.js:114 | The stored file's name when a file came, otherwise the text or ''. `Routes.Server.Send` states the stored content. |
| `Routes.PushFor` | server/index.js:118-119 | A push is attempted iff the recipient row exists and has a truthy `push_token`. It goes to that token with the kind's body. |
| `Routes.Server.constructor` | server/index.js:32-35 | Empty tables, message counter 0, no rate-limit counters. |
| `Routes.Server.Register` | server/index.js:82-94 | A missing field fails "Missing fields" and a taken name fails "Username taken", both with no change. Otherwise exactly one user is appended with the next id, the hash (not the password), theme 0, avatar 0 and no push token. The reply is that id, the name, and a token for that id. |
| `Routes.Server.Login` | server/index.js:96-104 | An unknown name or a wrong password fails "Invalid credentials" with no change, and a known name with no password is never answered. On success the reply is the old row without its password, plus a token for that id. The push token is overwritten only when a truthy one is supplied. |
| `Routes.Server.LookupPublic` | server/index.js:106-110 | Not found iff no user has the name. Otherwise the reply is that row's id, name, theme and avatar, with no password or push token. |
| `Routes.Server.Send` | server/index.js:112-123 | Checks run in order: rate limit, then upload rules, then NOT NULL `recipient_id`, and each failure leaves the tables unchanged. Otherwise one message is appended with a fresh greatest id, the file name or text (default ''), and defaults 'text', 'none', 0, and the answer is success. The push outcome does not affect the answer or the tables. |
| `Routes.Server.Insert` | server/index.js:115-116 | The INSERT appends exactly the given row with the next AUTOINCREMENT id, keeps both tables valid, and that id exceeds every stored one. |
| `Routes.Server.ListMessages` | server/index.js:125-128 | Authentication failures pass through. A path whose `parseInt` is not the caller's id is Forbidden. Otherwise the reply is exactly the caller's messages, newest first, and no state changes. |
| `Routes.Server.DeleteMessage` | server/index.js:130-133 | Once authenticated, always answers success. It removes only a message with that id whose recipient is the caller. |
| `Routes.Server.UpdateProfile` | server/index.js:135-138 | Once authenticated, always answers success. It overwrites theme and avatar (NULL when absent) in the caller's row only. |
| `Scenarios.RegisterThenLogin` | server/index.js:82-104 | Registering a fresh name and then logging in with the same password, at any later time, succeeds. The login's token authenticates as the new id for 30 days from the login. |
| `Scenarios.RegisterTwice` | server/index.js:85-86 | Registering a name a second time fails "Username taken", whatever the password. |
| `Scenarios.DeleteOthersMessage` | server/index.js:132 | Deleting another user's message answers success, and the message stays stored. |
| `Scenarios.SendToUnknownRecipient` | server/index.js:113-121 | A message to an id that no user has, from a client the limiter lets through, is stored and acknowledged, with no push. |
| `Scenarios.SendTextNotifies` | server/index.js:72-79 | A text message to a user whose push token passes the format check is acknowledged and notifies that token with "Secret message" under the title "New Txtme!" (line 119). |
| `Scenarios.SendAudioNotifies` | server/index.js:112-121 | A voice note with an `audio/mpeg` file within the size limit is stored under its file name and notifies the recipient with "Voice note". |
| `Scenarios.AliceJoins` | server/index.js:82-110 | On a fresh server, one user registers, logs in and is looked up. The result is one row with id 1, no push token, no messages, and the login's token. |
| `Scenarios.Alice` | server/index.js:112-128 | That user then receives "hi", with no push attempted, and lists exactly that message. |

## Left out

- sqlite I/O and its error callbacks are not modelled. Every statement succeeds except the NOT NULL violation in
  `send`. Because handlers are atomic, register's INSERT cannot hit the UNIQUE constraint after its SELECT.
- Express plumbing is not modelled: routing, `cors`, JSON parsing, static serving of `/uploads`, the `/` route and
  `listen`.
- bcrypt's cost and timing, and jwt's cryptography, are not modelled. Hashing and signing are injective stand-ins.
  The model cannot express that a hash is one-way or that a signature is hard to forge.
- `Identity.HashMatches`: bcryptjs uses only the first 72 bytes of the UTF-8 password, so two passwords that agree on
  those bytes match the same hash. The stand-in compares whole passwords. `Routes.Server.Login` therefore answers
  "Invalid credentials" to a long password that differs only after byte 72, which the server accepts.
- The `Authorization` header's `split(' ')[1]` is not modelled. The bearer credential is given as an optional token.
  A malformed token string corresponds to a token whose signature does not match.
- Request bodies carry only strings, integers or nothing. JSON `null`, numbers in place of strings, and sqlite type
  affinity are not modelled.
- `JsNumber.ParseInt`: does not model leading whitespace, the `0x` hex prefix, or precision loss beyond 2^53.
- `JsNumber.Decimal`: is exact for every `nat`, while JavaScript's `String(n)` is exact only up to 2^53 and switches to
  exponent notation from 1e21 on (`String(1e21)` is `"1e+21"`). Ids and millisecond clocks stay far below both bounds.
- `RateLimit.SendLimiter.Hit`: follows a per-client fixed window that opens at the client's first request. The
  library version decides the exact windowing, which is not modelled. Neither are the rate-limit response headers.
- `Upload.Admit`: takes multer's already normalised `file.mimetype`. The multipart parser's normalisation of the
  part's Content-Type (lower-casing, dropping parameters such as `; x=1`, the `text/plain` default) is not
  modelled, so `Audio/MPEG` or `application/octet-stream; x=1` as declared reach the filter as `audio/mpeg` and
  `application/octet-stream`.
- multer's disk writes are not modelled, nor the removal of a partly written file, requests with several files, or
  file parts without a file name.
- The stored file name is `Date.now() + '.mp3'`. `Upload.StoredNamesDistinct` shows that two uploads in the same
  millisecond get the same name. The resulting overwrite on disk is not modelled.
- `created_at` is kept as whole seconds, not sqlite's `YYYY-MM-DD HH:MM:SS` text.
- The Expo provider call and its network behaviour are not modelled. The format check is the parameter
  `isPushToken` and the provider's answer is the parameter `accepted`. The unused Telegram and cron imports are not
  modelled either.
- Async interleavings are not modelled: each handler is atomic. `send` answers before its push lookup completes,
  which the model does not show.
- `Routes.Server.Login`: models the rejected `bcrypt.compare` as "never answered". It does not model that an
  unhandled rejection may end the process on recent Node versions.
- The mobile and web clients and `shared/themeConfig.js` are presentation and device I/O, and are not modelled.
