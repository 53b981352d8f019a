# shield, modelled in Dafny

This project models the core of `shield`, a Go toolkit for web
authentication that runs on PostgreSQL. It covers:

- **CSRF.** The double-submit token: a random value and its keyed checksum,
  carried in a base64url cookie and compared with the copy a request submits.
  The middleware mints a token on every request and validates the
  state-changing ones.
- **Password credentials.** Registration, login and password change, each in
  one transaction.
- **Password reset.** Requesting a reset mails a random token. Confirming it
  marks the token used, rewrites the credential and expires the user's
  sessions.
- **Sessions.** The server-side session authenticator (issue, the
  authentication ladder, expiry of the other sessions, logout). Also the older
  cookie and bearer-token strategies, the ordered "union" authenticators, and
  the request-context accessors and middlewares that decide whether a request
  is authenticated.
- **Recovery codes.** Batches of one-time codes: generated, hashed, stored,
  and evicted when replaced.
- **Smaller pieces.** The password-strength verifier and its `::` list of
  required character groups, `sliceutil.Filter`, hex token generation, the
  memoised MFA list of a user, the change-email handler, and the workspace
  invite and create handlers.

Layout:

- **`Sql`** gives the SQL statements as functions on a value of all the
  tables.
- **`Database`** holds the `Store` class. It is the connection pool with one
  transaction: a snapshot taken on begin, installed on commit, and dropped by
  the deferred rollback. Its `faults` map says which statements the server
  refuses and with what error, so every error path of a handler can be
  reached.
- **Handlers** are imperative, as in Go. Each one is a method on the store,
  the id source, the entropy source and the outbox. Its `ensures` ties the
  result and the new state to a specification function of the state before
  the call. Lemmas about those functions state what the handler promises:
  all or nothing, which error for which input, and round trips such as
  register-then-login.
- **Pure code** is functions and lemmas: the codecs, the verifier, the
  parser and the filter.

Each module's doc comment names the Go file it models.

The handlers follow the code as written, including the places where it does
something other than what its names and comments promise. Where the
evidently intended behaviour is clear, a corrected definition sits beside
the as-written one, with its property proved (see "Findings"). The following
are modelled as written with a lemma that shows them, and have no
corrected twin:

- The login hook is called with the zero user id. See
  `PasswordHandler.LoginHookGetsNilId`.
- The reset confirmation puts the user id in the credential-id column and
  leaves the credential's user id zero. See
  `PasswordReset.ConfirmCredential`.
- A user whose earlier reset left a used token cannot confirm a new one,
  because marking it used collides on `(user_id, is_used)`. See
  `PasswordReset.ConfirmAfterEarlierReset`.
- An empty union answers no session and no error. See
  `Strategies.EmptyUnionAnswersNil` and `Authenticators.UnionFromNone`.
- `ErrTokenNotFound` is never produced: a missing CSRF cookie is a wrapped
  cookie error. See `CsrfToken.NeverTokenNotFound`.
- The MFA lookup of `User.MFA` swallows every error. See
  `Shield.User.MFA`.

- The older `shielduser.IsAuthenticated` recognises only sessions stored
  as `any` (shielduser/middleware.go:131-133). The password-reset request
  (shieldpasswordreset/handler.go:133) and
  `PreventAuthenticatedUserAccessMiddleware` (shielduser/middleware.go:100)
  use it as written, so a session stored by `Middleware[string]` passes
  both. See `PasswordReset.RequestServesTypedSession` and
  `ShieldUser.PreventAuthenticatedUserAccessPassesTypedSession`. The
  corrected predicate, `ShieldUser.IsAuthenticated`, is one of the findings
  below, but these two callers keep the as-written one.

In four places the program's own comments and names promise more than its
code does, and the model follows the code:

- The doc comment of `HandleChangeUserPassword`
  (shieldpassword/handler.go:123-129) says the password is changed. When a
  credential exists, the code only checks the old password.
- The reset-token query (internal/dbsqlc/password_query.sql.go:54-59) means
  to skip expired tokens. As written, the server refuses it.
- `ErrTokenNotFound` (shieldcsrf/token.go:22) is declared for a missing
  CSRF token, but nothing returns it.
- The reset confirmation upserts the credential with `ID: tok.UserID`
  (shieldpasswordreset/handler.go:214-219), so a credential it creates has
  the zero user id.

## Model

| member | source | states |
|---|---|---|
| Base.Join | shieldsession/union/union.go:50 | `errors.Join` is nil exactly for no errors, and otherwise matches every joined error and nothing else |
| Base.WrappedIs | shieldpassword/handler.go:303 | wrapping with `%w` keeps every error the cause matched under `errors.Is` |
| Base.RunOptions | shieldsession/serversession/session.go:91-100 | running the functional options in a loop gives the options applied in order |
| PasswordHash.Hash | shieldpassword/bcrypt.go:30-39 | hashing succeeds iff the password's UTF-8 encoding is within bcrypt's 72 bytes, and a failure is wrapped |
| PasswordHash.Verify | shieldpassword/bcrypt.go:41-55 | only an unreadable hash is an error; a mismatch is `false` with no error |
| PasswordHash.VerifyHash | shieldpassword/bcrypt.go:41-55 | a hash verifies the password it was made from |
| PasswordHash.VerifyMismatch | shieldpassword/bcrypt.go:41-55 | a hash gives `(false, nil)` for any other password |
| PasswordHash.VerifyEmpty | shieldpassword/bcrypt.go:41-52 | the empty stored hash never verifies anything |
| UuidText.Parse | internal/uuidv7/uuidv7.go:16-24 | parsing fails exactly on text that is not an id, with the wrapped parse error |
| UuidText.ParseFormat | internal/uuidv7/uuidv7.go:16-24 | parsing the text of an id gives the id back |
| UuidText.FormatInjective | internal/uuidv7/uuidv7.go:16-24 | distinct ids have distinct texts |
| UuidText.EmptyDoesNotParse | shieldsession/serversession/session.go:217-226 | the empty cookie value never parses as an id |
| Http.CookieOf | shieldcsrf/token.go:71-74 | `r.Cookie` gives the cookie's value or `http.ErrNoCookie` |
| Http.PostFormValue | shieldcsrf/token.go:115-117 | the first value of a post-form field, or the empty string |
| Http.QueryEscape | shielduser/middleware.go:47-50 | unreserved characters are kept, so an escaped URI is never shorter |
| Http.QueryEscapeExamples | shielduser/middleware.go:47-50 | a non-ASCII character is escaped as its UTF-8 bytes (`é` is `%C3%A9`), a reserved ASCII character as one byte, and a space as `+` |
| Http.Response.Set | shieldsession/serversession/session.go:198-204 | appends exactly one set-cookie to the response |
| Http.Response.Delete | shieldsession/serversession/session.go:224 | appends exactly one delete-cookie to the response |
| Sender.Outbox.Send | shieldsender/sender.go:11-15 | a sent message is appended to the outbox; a failing sender records nothing and returns its error |
| Sql.CreateUser | internal/dbsqlc/query.sql.go:32-45 | inserts `(id, email)` unverified; fails with a unique violation exactly when the id or the email is already taken, and keeps emails unique |
| Sql.FindUserByID | internal/dbsqlc/query.sql.go:64-79 | finds a row iff the id exists, returning that row; otherwise no rows |
| Sql.FindUserByEmail | internal/dbsqlc/query.sql.go:47-62 | finds a row iff some user has exactly that email, and it is the only such user; otherwise no rows |
| Sql.ChangeUserEmailByID | internal/dbsqlc/query.sql.go:14-30 | sets the email and clears `is_email_verified` on the matching id only; other users unchanged; taking another user's email is a unique violation |
| Sql.CreateUserPasswordCredential | internal/dbsqlc/password_query.sql.go:15-43 | inserts one row whose discriminator is `'password'`; a clash on `(name, key)` is a unique violation |
| Sql.UpsertPasswordCredentialByUserID | internal/dbsqlc/password_query.sql.go:130-166 | on a `(name, key)` conflict only the secret changes (id and user id kept); otherwise a new `'password'` row; other rows unchanged |
| Sql.FindUserWithPasswordCredentialByEmail | internal/dbsqlc/password_query.sql.go:76-117 | a found row has the asked email and belongs to a user with that email; the only error is no rows |
| Sql.FindUserWithPasswordCredentialByEmailJoin | internal/dbsqlc/password_query.sql.go:76-94 | a row is found iff a `'password'` credential is keyed by the email, a user has that email and the credential's user id is that user; it carries that credential's secret |
| Sql.ChangePasswordCredentialEmailByUserID | shielduser/handler.go:64-66 | the user's password credential is re-keyed by the new email, keeping its row; no credential means no change; a clash is a unique violation |
| Sql.RekeyLeavesOne | shielduser/handler.go:64-66 | after re-keying, the user's only password credential is the one under the new key |
| Sql.UpsertPasswordResetToken | internal/dbsqlc/password_query.sql.go:168-184 | inserts an unused token or updates the `(user_id, FALSE)` row; every other row is unchanged |
| Sql.UpsertPasswordResetTokenKeepsLaterExpiry | internal/dbsqlc/password_query.sql.go:171-180 | on conflict the surviving row keeps its id and token and its expiry is the later of old and new; otherwise the new row is returned |
| Sql.UpsertPasswordResetTokenIdempotent | internal/dbsqlc/password_query.sql.go:168-184 | repeating the same upsert changes nothing |
| Sql.FindPasswordResetTokenAsWritten | internal/dbsqlc/password_query.sql.go:54-59 | the statement as written (`LIMIT 1 AND expires_at > now()`) is rejected by the server whatever the tables hold |
| Sql.FindPasswordResetTokenAsWrittenNeverFinds | internal/dbsqlc/password_query.sql.go:54-59 | even when an unexpired row matches the token, the statement as written yields an error |
| Sql.MarkUsed | internal/dbsqlc/password_query.sql.go:119-123 | every unused matching row moves to the used key of its user and every other row stays; an existing used row for that user is a unique violation |
| Sql.MarkPasswordResetTokenAsUsed | internal/dbsqlc/password_query.sql.go:119-128 | afterwards no unused row carries the token; only the reset-token table changes |
| Sql.DeleteExpiredPasswordResetTokens | internal/dbsqlc/password_query.sql.go:45-52 | removes exactly the rows with `expires_at < now` and keeps the others unchanged |
| Sql.MarkUserEmailVerificationTokenAsUsed | internal/dbsqlc/query.sql.go:81-90 | afterwards no unused verification row carries the token; only that table changes |
| Sql.UpsertEmailVerificationTokenAsWritten | internal/dbsqlc/query.sql.go:92-104 | the statement as written (4 target columns, 5 values) is always rejected by the server |
| Sql.UpsertEmailVerificationToken | internal/dbsqlc/query.sql.go:92-104 | as intended: inserts an unused token when the user has none; `ON CONFLICT DO NOTHING` returns no row and keeps the table |
| Sql.UpsertEmailVerificationTokenKeepsExisting | internal/dbsqlc/query.sql.go:99 | an existing verification token row is never replaced by the upsert |
| Sql.CreateUserSession | shieldsession/serversession/session.go:161-175 | a new unexpired session row with the MFA flag; a clash on the id is a unique violation |
| Sql.FindActiveSessionByID | shieldsession/serversession/session.go:238-251 | finds the session iff it exists, is not expired and has not outlived its expiry |
| Sql.FindUserSessionByID | shieldstrategy/session/session.go:120-136 | finds the session with exactly that id, otherwise no rows |
| Sql.ExpireSessionByID | shieldsession/serversession/logout.go:54-60 | marks exactly that one session expired; an unknown id is no rows |
| Sql.ExpireAllSessionsByUserID | shieldpasswordreset/handler.go:224-229 | every session of the user is expired, every other session unchanged |
| Sql.ExpireSomeSessionsByUserID | shieldsession/serversession/session.go:299-310 | every session of the user not in the kept list is expired with `evicted_by` recorded; all others unchanged |
| Sql.ExpireSomeSessionsLeavesOnlyKept | shieldsession/serversession/session.go:299-310 | afterwards the user's only active sessions are kept ones, and other users' sessions are untouched |
| Sql.GetUserMFAs | shield.go:67-81 | the user's MFA names in order, or none |
| Sql.EvictUnconsumedRecoveryCodeBatch | shieldrecoverycode/handler.go:253-262 | the user's unconsumed codes record who evicted them, no other row changes, and afterwards none of the user's codes is unconsumed |
| Sql.CreateRecoveryCodeBatch | shieldrecoverycode/handler.go:268-283 | the new rows follow the stored codes in their order; the stored codes keep their places and no other table changes |
| Sql.CreateWorkspace | shieldworkspace/shieldworkspace.go:160-170 | a new workspace row; an id clash is a unique violation |
| Sql.InviteUserToWorkspaceByEmail | shieldworkspace/shieldworkspace.go:105-115 | exactly one invitation is added, after the earlier ones, carrying the given id, workspace, address and expiry; no other table changes |
| Database.Store.Begin | shieldpassword/handler.go:245-253 | a begin that the server accepts opens a transaction on a snapshot of the committed tables; a refused one leaves everything as it was |
| Database.Store.Commit | shieldpassword/handler.go:279-284 | a commit installs the snapshot; a failed one aborts the transaction and keeps the committed tables |
| Database.Store.Rollback | shieldpassword/handler.go:253 | the deferred rollback closes the transaction and never changes the committed tables, so after a commit it does nothing |
| Database.Store.FindUserWithPasswordCredentialByUserID | shieldpassword/handler.go:162-170 | a refused statement answers the server's error; otherwise the user's row, carrying the secret of one of its password credentials exactly when it has one, iff the user exists, and no rows when not |
| Database.Store.FindPasswordResetToken | internal/dbsqlc/password_query.sql.go:54-75 | the lookup with the expiry test in its WHERE clause: an unexpired row holding the token when there is one, otherwise no rows; a refused statement returns the server's error |
| Database.IdSource.Next | internal/uuidv7/uuidv7.go:11-14 | every call yields an id never handed out before and never the zero id |
| Base64Url.Encode | shieldcsrf/token.go:151-154 | `base64.URLEncoding`: padded output, a multiple of 4 symbols from the URL-safe alphabet of section 5 of RFC 4648 |
| Base64Url.Value | shieldcsrf/token.go:157 | each symbol of the alphabet decodes to the 6-bit value it encodes |
| Base64Url.ValueOfSymbol | shieldcsrf/token.go:151-157 | every 6-bit value encodes to a symbol that decodes back to it |
| Base64Url.DecodeQuantaEncode | shieldcsrf/token.go:151-160 | the quanta of an encoding decode to the original bytes |
| Base64Url.RoundTrip | shieldcsrf/token.go:151-160 | `DecodeString(EncodeToString(b))` gives `b` back |
| CsrfToken.FromToBytes | shieldcsrf/token.go:152-162 | `string([]byte(s))` is `s` |
| CsrfToken.CookieName | shieldcsrf/token.go:35-42 | the name is `"__Secure-" + CookieName` exactly when `CookieSecure`, and `CookieName` otherwise |
| CsrfToken.ComputeChecksum | shieldcsrf/token.go:173-178 | the checksum is a 64-character lower-case hex rendering of the 32-byte MAC |
| CsrfToken.String | shieldcsrf/token.go:133-135 | `String()` is the raw value, never the checksum |
| CsrfToken.NewToken | shieldcsrf/token.go:53-66 | a minted token has a value of 2·TokenLength hex digits and a checksum that validates; an entropy failure is a wrapped error |
| CsrfToken.Split | shieldcsrf/token.go:164 | `strings.Split` gives at least one part and no part holds the separator |
| CsrfToken.SplitJoined | shieldcsrf/token.go:164 | splitting `a + "|" + b` with `a` free of `|` gives `a` followed by the parts of `b` |
| CsrfToken.SplitTwo | shieldcsrf/token.go:164-169 | a string that splits into exactly two parts is those parts around one `|` |
| CsrfToken.TokenCookie | shieldcsrf/token.go:138-149 | the cookie is HTTP-only, has the prefixed name, the encoded value, and Secure/SameSite as configured |
| CsrfToken.DecodeCookieValue | shieldcsrf/token.go:156-170 | `ErrInvalidToken` exactly when base64url decoding fails or the content does not split on `|` into two parts; otherwise the content is the two parts joined by `|` |
| CsrfToken.CookieRoundTrip | shieldcsrf/token.go:151-170 | when neither value nor checksum holds `|`, decoding the cookie value gives back `(value, checksum)` |
| CsrfToken.MintedCookieRoundTrip | shieldcsrf/token.go:53-66 | a minted token's cookie value always decodes to its value and checksum, since hex never holds `|` |
| CsrfToken.FromRequest | shieldcsrf/token.go:69-91 | a token is returned only when its cookie decodes and its checksum validates; a missing cookie is a wrapped `http.ErrNoCookie`; every other failure is `ErrInvalidToken` |
| CsrfToken.ValidateSubmitted | shieldcsrf/token.go:108-130 | passes iff the token's value equals the submitted value (header, else post form, else first multipart value); otherwise `ErrTokenMismatch` |
| CsrfToken.NothingSubmittedMismatches | shieldcsrf/token.go:118-127 | a request that submits nothing is a mismatch |
| CsrfToken.HeaderFirst | shieldcsrf/token.go:112-115 | a non-empty header wins over both forms |
| CsrfToken.ValidateRequest | shieldcsrf/token.go:94-101 | passes iff the cookie yields a token whose value equals the submitted one; a cookie error is returned as is, otherwise a mismatch |
| CsrfToken.NeverTokenNotFound | shieldcsrf/token.go:22 | no validation failure is `ErrTokenNotFound` |
| CsrfToken.MintedTokenValidates | shieldcsrf/token.go:53-106 | a request carrying a minted token's cookie and submitting its value yields that token back |
| Random.Entropy.Read | internal/random/random.go:13 | `rand.Read` fills the whole buffer from the source, or fails and changes nothing |
| Random.SecureBytes | internal/random/random.go:10-22 | a fresh buffer of exactly `l` bytes, filled from the source on success; a read failure is wrapped |
| Random.HexEncode | internal/random/random.go:31 | `hex.EncodeToString` gives two lower-case hex digits per byte |
| Random.HexRoundTrip | internal/random/random.go:31 | decoding the hex rendering gives the bytes back |
| Random.HexHasNoBar | internal/random/random.go:31 | a hex rendering never contains `|` |
| Random.SecureHexString | internal/random/random.go:25-32 | `2·l` lower-case hex digits of the next `l` source bytes; on entropy failure `""` and the error |
| CsrfMiddleware.DefaultsAre | shieldcsrf/middleware.go:46-58 | ignored methods GET/HEAD/OPTIONS/TRACE, header `X-Csrf-Token`, field and cookie `csrf_token`, 32-byte tokens, SameSite Lax, not Secure |
| CsrfMiddleware.Middleware | shieldcsrf/middleware.go:44-67 | the options apply in order to the defaults and no error is ever returned, so an empty secret is accepted |
| CsrfMiddleware.TokenConfigOf | shieldcsrf/middleware.go:69-77 | the per-request token config copies the secret and the configured names, length and cookie flags |
| CsrfMiddleware.Serve | shieldcsrf/middleware.go:67-101 | a token is minted for every request; minting failure goes to the error handler; ignored methods and valid requests go on with the token in context; any other request gets a 403 "invalid CSRF token" and `next` is not called |
| CsrfMiddleware.FromContext | shieldcsrf/middleware.go:111-118 | the stored token, or an error when none is stored |
| CsrfMiddleware.ServedTokenIsInContext | shieldcsrf/middleware.go:85-88 | the token placed in the context is what `FromContext` returns |
| CsrfMiddleware.SetToken | shieldcsrf/middleware.go:121-123 | appends the token's cookie to the response |
| Shield.User.constructor | shield.go:53-57 | a new user has the given id and payload and an empty MFA cache |
| Shield.User.MFA | shield.go:62-82 | a non-empty cache is returned without a query; a no-rows result returns nothing and leaves the cache; otherwise the fetched names are cached and returned, any other query error being swallowed to an empty cached list; the error is always nil |
| ShieldSession.FromContext | shieldsession/middleware.go:147-153 | the stored session when one is stored under that type argument, otherwise `ErrUnauthenticatedUser` |
| ShieldSession.FromContextAuthenticated | shieldsession/middleware.go:147-158 | a session `FromContext` finds means `IsAuthenticated`; an authenticated context yields its session for the type it was stored under |
| ShieldSession.NewConfigDefaults | shieldsession/middleware.go:33-50 | `Passthrough` is false by default and `WithPassthrough` sets it |
| ShieldSession.AfterAuthenticate | shieldsession/middleware.go:76-102 | a success stores the session in the context given to `next`; an error without passthrough gives the error handler a 401 "unauthorized access"; with passthrough `next` gets the original context |
| ShieldSession.AfterAuthenticateStores | shieldsession/middleware.go:94-101 | after a success `FromContext` finds exactly the authenticated session, and a failed authentication never makes a context authenticated |
| ShieldSession.RedirectAuthenticatedUser | shieldsession/middleware.go:112-135 | an authenticated request is redirected with 307 to the URL and skips `next`; others go on unchanged |
| Authenticators.UnionFromFirst | shieldsession/union/union.go:41-48 | from any position, the first member that succeeds answers for the union with its session |
| Authenticators.UnionFromNone | shieldsession/union/union.go:39-50 | when every remaining member fails, the answer is the zero session and the collected errors joined with theirs, in order |
| Authenticators.FailedFromAllFail | shieldsession/union/union.go:43-44 | when every member fails, each contributes exactly one error |
| Authenticators.UnionAuthenticate | shieldsession/union/union.go:33-51 | the first succeeding member's session wins; if all of at least one member fail, the zero session and `errors.Join` of their errors in order; an empty union gives the zero session and no error |
| Authenticators.Authenticate | shieldsession/union/union.go:33-51 | the loop over members (with the server strategy as a member) returns what the recursive specification says, never changes the committed tables, and performs exactly the specified cookie operations |
| Authenticators.Issue | shieldsession/union/union.go:54-62 | a union answers the zero session and `ErrUnsupported` and changes nothing, drawing no id; a server strategy draws one session id and issues as `ServerSession.IssueSpec` says |
| Authenticators.ExpireSessionsUnsupported | shieldsession/union/union.go:64-66 | the union's `ExpireSessions` is `ErrUnsupported` and leaves the tables; the server strategy never answers plain `ErrUnsupported` |
| Authenticators.ExpireSessions | shieldsession/strategy.go:40-49 | dispatches: a union answers `ErrUnsupported`, the server strategy expires the other sessions of the context's user |
| Authenticators.Middleware | shieldsession/middleware.go:61-106 | the middleware's decision is `AfterAuthenticate` of what the authenticator answered, and authentication never changes the committed tables |
| ServerSession.NewConfig | shieldsession/serversession/session.go:85-103 | the options apply in order, then a zero cookie name or lifetime takes its default, so neither is ever zero; the hooker is what the options set |
| ServerSession.NewConfigDefaults | shieldsession/serversession/session.go:33-36 | without options: cookie `usid`, 12 hours, no hooker |
| ServerSession.SessionCookie | shieldsession/serversession/session.go:198-204 | the HTTP-only cookie carries text that parses back to the session id and lives as long as the session |
| ServerSession.IssueAtomic | shieldsession/serversession/session.go:143-196 | an issue that fails leaves the committed tables as they were; one that succeeds adds exactly one row under the new id, for the user, expiring at `now + ExpiresIn`, with `IsMfaRequired` iff the user has an MFA method |
| ServerSession.IssueReturnsRow | shieldsession/serversession/session.go:177-179 | without a hooker the issued session carries the new id, the user id and `now + ExpiresIn` |
| ServerSession.Issue | shieldsession/serversession/session.go:125-207 | Issue commits what `IssueSpec` says, and sets the session cookie only after a successful commit; any failure sets no cookie |
| ServerSession.IssueInTx | shieldsession/serversession/session.go:153-196 | the in-transaction steps (MFA lookup, row, hook, commit) end with the transaction closed and the state `IssueFrom` gives |
| ServerSession.HookAndCommitTx | shieldsession/serversession/session.go:181-196 | a failing issue hook rolls back; otherwise the commit installs the work |
| ServerSession.AuthenticateOnlyActive | shieldsession/serversession/session.go:209-285 | only a cookie naming an active session that needs no MFA authenticates, and without a hooker it returns that row's id, user id and expiry; the cookie is deleted only on `ErrUnauthenticatedUser` |
| ServerSession.IssueThenAuthenticate | shieldsession/serversession/session.go:125-285 | the cookie Issue sets authenticates the issued session until it expires; with an MFA method it yields `ErrMFARequired` |
| ServerSession.Authenticate | shieldsession/serversession/session.go:209-285 | empty cookie: `ErrUnauthenticatedUser`, nothing deleted; malformed id or no active session: cookie deleted and `ErrUnauthenticatedUser`; MFA pending: `ErrMFARequired`; the committed tables never change |
| ServerSession.ExpireSessionsKeepsCurrent | shieldsession/serversession/session.go:287-328 | after success the only active session of the context's user is the context's own, and other users' sessions are untouched; without a session in context nothing changes |
| ServerSession.ExpireSessions | shieldsession/serversession/session.go:287-328 | needs a session in context, expires the user's other sessions with `EvictedBy` the user, then calls the hook; state as `ExpireSessionsSpec` says |
| ServerSession.LogoutExpiresSession | shieldsession/serversession/logout.go:33-82 | a failed logout leaves the committed tables; a successful one makes exactly the context's session inactive and leaves every other session; no session in context is a 401 wrapping `ErrUnauthenticatedUser` |
| ServerSession.Logout | shieldsession/serversession/logout.go:33-82 | expires the context's session by id, runs the hook with the user id and that id, commits, and deletes the cookie only after a successful commit |
| Strategies.NewAsWritten | shieldstrategy/session/session.go:42-56 | the options apply to the defaults and the inverted logger test never supplies a missing logger |
| Strategies.New | shieldstrategy/session/session.go:42-56 | as intended: a missing logger is replaced by the default one; cookie name and lifetime are what the options leave |
| Strategies.NewDefaults | shieldstrategy/session/session.go:21-24 | without options: cookie `usid`, 12 hours; as written, no logger |
| Strategies.SessionCookie | shieldstrategy/session/session.go:77-83 | the HTTP-only cookie carries text that parses back to the session id and lives as long as the session |
| Strategies.NewTokenConfigAsWritten | shieldstrategy/token/token.go:59-69 | `NewConfig` applies the options to the zero config and never calls `defaults` |
| Strategies.TokenDefaults | shieldstrategy/token/token.go:71-74 | a zero lifetime becomes 15 minutes or 30 days, a set one is kept |
| Strategies.NewTokenConfig | shieldstrategy/token/token.go:59-74 | as intended: the options then the defaults, so both lifetimes are set |
| Strategies.NewTokenConfigDefaults | shieldstrategy/token/token.go:22-25 | without options the written config has zero lifetimes, the intended one 15 minutes and 30 days |
| Strategies.BearerFromRequest | shieldstrategy/token/token.go:86-89 | the bearer token of the `Authorization` header, or a 401 when it is missing or not a bearer token |
| Strategies.UnionFromFirst | shieldstrategy/union/union.go:31-38 | from any position, the first member that succeeds answers with its session |
| Strategies.UnionFromNone | shieldstrategy/union/union.go:29-40 | when every remaining member fails: a nil session, an error iff any error was collected, and it matches each collected error |
| Strategies.UnionFirstSuccess | shieldstrategy/union/union.go:31-38 | the first succeeding member decides the session, later members are not consulted |
| Strategies.UnionAllFailAnswer | shieldstrategy/union/union.go:29-40 | when every member fails, a nil session and an error that matches every member's error |
| Strategies.EmptyUnionAnswersNil | shieldstrategy/union/union.go:29-40 | an empty union answers `(nil, nil)` |
| Strategies.UnionAllFail | shieldstrategy/union/union.go:29-40 | the joined error matches the error of each failing member |
| Strategies.NewAsWrittenPanics | shieldstrategy/session/session.go:51-53 | with the written `New`, a cookie naming no session panics on the nil logger; with the intended one it deletes the cookie and answers `ErrUnauthenticatedUser` |
| Strategies.NewNeverPanics | shieldstrategy/session/session.go:116-135 | with the intended `New`, authentication never panics |
| Strategies.Authenticate | shieldstrategy/union/union.go:25-41 | session, token and union strategies answer what `AuthenticateSpec` says; the union loop stops at the first success; the committed tables never change |
| Strategies.SessionAuthenticate | shieldstrategy/session/session.go:92-147 | empty cookie: `ErrUnauthenticatedUser`; bad id or unknown session: cookie deleted and `ErrUnauthenticatedUser`; other errors wrapped; success returns the stored id and expiry with no MFA check |
| Strategies.Issue | shieldstrategy/session/session.go:58-90 | session strategy: a row inserted on the pool expiring at `now + ExpiresIn`, the cookie set only if the insert succeeded; token strategy: issuer errors wrapped with no id drawn, otherwise one fresh id expiring at `now + AccessTokenExpiresIn`; union: `ErrUnsupported` with no id drawn |
| Strategies.TokenIssueExpiresAtOnce | shieldstrategy/token/token.go:59-69 | with the written `NewConfig` and no options an issued session expires the instant it is issued |
| Strategies.IssueThenAuthenticate | shieldstrategy/session/session.go:58-147 | the cookie the session strategy issues authenticates the issued session |
| Strategies.HandleLogout | shieldstrategy/session/logout.go:24-41 | no user: 401 `ErrUnauthenticatedUser` and no change; otherwise the session with the context session's id is expired on the pool; a DB error is a 500 and keeps the cookie; success deletes the cookie |
| Strategies.Middleware | shielduser/middleware.go:57-92 | the middleware's decision is `ShieldUser.AfterAuthenticate` of what the strategy answered, and the committed tables never change |
| ShieldUser.FromContext | shielduser/middleware.go:120-126 | the session stored with the requested type argument, nil when none is stored, it is nil, or it was stored with another type argument |
| ShieldUser.IsAuthenticatedAsWrittenMissesTypedSessions | shielduser/middleware.go:131-133 | as written, `IsAuthenticated` implies a session is stored, agrees with the documented meaning for sessions stored as `any`, and is false for every other type argument |
| ShieldUser.IsAuthenticatedAsWrittenCounterexample | shielduser/middleware.go:131-133 | a session stored by `Middleware[string]` is authenticated but `IsAuthenticated` says no |
| ShieldUser.IsAuthenticatedMatchesFromContext | shielduser/middleware.go:128-133 | the documented meaning: `FromContext` finding a session means authenticated, and an authenticated request's session is found under its own type argument |
| ShieldUser.AfterAuthenticate | shielduser/middleware.go:69-89 | an error without passthrough goes to the error handler as a 401 `unauthorized access`; otherwise the next handler runs with the answered session stored |
| ShieldUser.AfterAuthenticateStores | shielduser/middleware.go:84-88 | the next handler finds exactly the answered session; under passthrough a failure leaves the request unauthenticated |
| ShieldUser.RedirectOnUnauthenticatedUser | shielduser/middleware.go:40-56 | an error matching `ErrUnauthenticatedUser`, and only such an error, redirects with 307 to `path?redirect_url=<escaped request URI>`; any other goes to the default handler unchanged |
| ShieldUser.MiddlewareErrorRedirects | shielduser/middleware.go:74-78 | the 401 wrapping the middleware hands over still matches `ErrUnauthenticatedUser`, so the redirecting handler redirects it |
| ShieldUser.PreventAuthenticatedUserAccess | shielduser/middleware.go:97-108 | a request that the as-written `IsAuthenticated` recognises, and only such a request, is redirected with 307 to the given URL; any other passes on unchanged |
| ShieldUser.PreventAuthenticatedUserAccessPassesTypedSession | shielduser/middleware.go:97-108 | a session stored by `Middleware[string]` is authenticated, yet it is passed on; a session stored as `any` is redirected |
| PasswordHandler.NewConfigDefaults | shieldpassword/handler.go:67-90 | without options there is no hooker; `WithHooker` installs the given one |
| PasswordHandler.RegisterAtomic | shieldpassword/handler.go:224-327 | registration is all or nothing: an authenticated request gets `ErrAuthenticatedUser` and uses no id; any failure returns the zero user and leaves the committed tables; success adds exactly one unverified user with the email and one `password` credential keyed by the email holding the hash, changes nothing else, and keeps the tables valid |
| PasswordHandler.RegisterEmailTaken | shieldpassword/handler.go:299-306 | once the user insert is reached, `ErrEmailAlreadyTaken` is answered exactly when the email (or the fresh id) is already taken |
| PasswordHandler.HandleUserRegistration | shieldpassword/handler.go:224-290 | the method's result, committed tables and ids drawn are those `RegisterSpec` gives; no transaction stays open |
| PasswordHandler.RegisterAndCommit | shieldpassword/handler.go:255-289 | the steps inside the opened transaction: insert, hook, commit, with a rollback on every failure |
| PasswordHandler.RegisterInTx | shieldpassword/handler.go:292-327 | the user row with a fresh id, then a credential with a second fresh id; a unique violation is `ErrEmailAlreadyTaken`, other errors are wrapped; the committed tables are untouched |
| PasswordHandler.LoginOutcome | shieldpassword/handler.go:329-412 | with no hooker and no failing statement, login succeeds iff the request is unauthenticated, the email's password credential exists and is non-empty and the password verifies; it then returns that user; `ErrUserNotFound` and `ErrPasswordIncorrect` are answered exactly for a missing or empty credential and for a wrong password |
| PasswordHandler.LoginHookGetsNilId | shieldpassword/handler.go:375-384 | the login hook is called with the zero user id, and its payload is what a successful login returns |
| PasswordHandler.RegisterThenLogin | shieldpassword/handler.go:224-412 | after a registration, the registered password logs the new user in and every other password is refused with `ErrPasswordIncorrect` |
| PasswordHandler.HandleUserLogin | shieldpassword/handler.go:329-412 | the result is `LoginSpec`'s, the committed tables do not change, and the password is verified only after the commit |
| PasswordHandler.ExpireAndCommit | shieldpassword/handler.go:200-221 | a failure leaves the committed tables; success commits the transaction's tables with only the sessions changed; `ErrUnsupported` from the authenticator is tolerated |
| PasswordHandler.ChangeUserPasswordLooksUpSessionUser | shieldpassword/handler.go:162-198 | for the session's user, an unknown user is refused with the wrapped no-rows error and nothing written; a known user's row carries a hash iff the user has a password credential; a wrong old password against it is `ErrPasswordIncorrect` with nothing written |
| PasswordHandler.ChangeUserPasswordAtomic | shieldpassword/handler.go:130-222 | a failed change leaves the committed tables; without a session in the context it fails; a wrong old password is `ErrPasswordIncorrect` |
| PasswordHandler.ChangeUserPasswordKeepsOldPassword | shieldpassword/handler.go:171-198 | as written, when the user already has a password a successful change leaves every credential unchanged |
| PasswordHandler.ChangeUserPasswordCounterexample | shieldpassword/handler.go:188-198 | a change from `old` to `new` succeeds, yet login refuses `new` and still accepts `old` |
| PasswordHandler.ExpireSessionsOnlySessions | shieldpassword/handler.go:200 | expiring sessions changes the sessions table and nothing else |
| PasswordHandler.ChangeUserPasswordThenLogin | shieldpassword/handler.go:124-133 | after a successful corrected change the user logs in with the new password and with no other |
| PasswordHandler.LoginWithCredential | shieldpassword/handler.go:350-411 | a user whose own password credential holds the hash of a password logs in with exactly that password |
| PasswordHandler.HandleChangeUserPassword | shieldpassword/handler.go:130-222 | once the session, the hash and the begin succeed, the lookup is of the session's user: its error when the server refuses it, otherwise that user's row exactly when the user exists and no rows when not; the error and committed tables are those `ChangeUserPasswordSpec` gives for that answer, and no transaction stays open |
| PasswordHandler.ChangeInTxMethod | shieldpassword/handler.go:162-221 | the lookup answers for the given user id as `LookedUp` allows (the server's error, the user's row iff the user exists, otherwise no rows); the result and state are `ChangeInTx`'s for that answer |
| PasswordHandler.ChangeFoundTx | shieldpassword/handler.go:171-221 | a first credential when there is no password and the old one is empty, otherwise only the old password checked; then expiry and commit |
| PasswordHandler.ExpireAndCommitTx | shieldpassword/handler.go:200-221 | the method ends the transaction as `ExpireAndCommit` says |
| PasswordReset.NewConfig | shieldpasswordreset/handler.go:51-77 | the options start from the defaults and whatever they set to zero falls back to them, so the token length and lifetime are never zero |
| PasswordReset.NewConfigDefaults | shieldpasswordreset/handler.go:27-30 | without options: 32 random bytes per token, valid for 12 hours |
| PasswordReset.RequestForOutcome | shieldpasswordreset/handler.go:148-175 | once the user is found: mail is sent iff the request succeeds; the tables change only once committed; success commits the upsert of the fresh hex token expiring `now + TokenExpiryIn` and mails the token the upsert kept |
| PasswordReset.RequestOutcome | shieldpasswordreset/handler.go:126-176 | a request that the as-written `shielduser.IsAuthenticated` recognises gets `ErrAuthenticatedUser` and an unknown email a wrapped no-rows error, both with nothing written or sent; mail is sent iff the request succeeds; the tables change only on success or a failed send after the commit |
| PasswordReset.RequestSuccess | shieldpasswordreset/handler.go:143-175 | a successful request leaves the user one unused token expiring no earlier than the lifetime from now and mails that token to the email; a fresh token is `2 * TokenLength` hex digits, an unused token the user already had is kept |
| PasswordReset.RequestServesTypedSession | shieldpasswordreset/handler.go:132-135 | a request whose session was stored by `Middleware[string]` is authenticated, yet it is handled exactly as an anonymous request |
| PasswordReset.HandlePasswordReset | shieldpasswordreset/handler.go:126-176 | the error, committed tables, mail sent, ids and random bytes drawn are those `RequestSpec` gives |
| PasswordReset.RequestTx | shieldpasswordreset/handler.go:148-175 | the steps after the user is found: token, upsert, commit, mail, as `RequestFor` says |
| PasswordReset.LookupResetToken | internal/dbsqlc/password_query.sql.go:54-75 | an unexpired row holding the token when there is one, otherwise no rows |
| PasswordReset.ConfirmTokenWrites | shieldpasswordreset/handler.go:205-221 | a confirmation that succeeds found the token's user and marked the token, then went on to the writes with that user's email |
| PasswordReset.ConfirmWriteAtomic | shieldpasswordreset/handler.go:214-238 | the writes mail only on success and change the tables only once committed; success mails the reset-success message |
| PasswordReset.ConfirmTokenAtomic | shieldpasswordreset/handler.go:201-238 | everything after the token is found mails only on success and changes the tables only once committed |
| PasswordReset.ConfirmSucceeds | shieldpasswordreset/handler.go:178-238 | a successful confirm hashed the password and found an unused token whose user exists and could be marked used |
| PasswordReset.ConfirmWriteSuccess | shieldpasswordreset/handler.go:214-238 | a successful write commits the credential upsert (the user id in the credential id slot) followed by the expiry of every session of the user, and mails the user |
| PasswordReset.ConfirmOutcome | shieldpasswordreset/handler.go:178-239 | mail is sent iff the confirm succeeds; the tables change only on success or a failed send after the commit; a used token is refused with `ErrUsedPasswordResetToken` and nothing written |
| PasswordReset.ConfirmSuccess | shieldpasswordreset/handler.go:197-238 | after success the token is no longer an unused token, the `password` credential keyed by the user's email holds the new hash, no user changed, every session of the user is expired, and the user is mailed |
| PasswordReset.ConfirmAfterEarlierReset | shieldpasswordreset/handler.go:210-212 | a user who already has a used reset token cannot confirm a new one: marking it used collides on `(user_id, is_used)` |
| PasswordReset.ConfirmCredential | shieldpasswordreset/handler.go:214-220 | a user with a credential of their own gets it updated to the new hash; one without gets a new credential whose user id is zero |
| PasswordReset.HandlePasswordResetConfirm | shieldpasswordreset/handler.go:178-239 | the error, committed tables and mail sent are those `ConfirmSpec` gives for the row the token lookup returned |
| PasswordReset.ConfirmTokenTx | shieldpasswordreset/handler.go:201-238 | the steps after the token is found, in the opened transaction, as `ConfirmToken` says |
| UserHandler.ChangeEmailAtomic | shielduser/handler.go:32-92 | the message goes out exactly on success; the tables change only when both updates and the commit succeed; a request without a session is refused with nothing written or sent |
| UserHandler.ChangeEmailToTakenAddress | shielduser/handler.go:53-61 | an address another user holds fails the first update with a unique violation, and nothing is written or sent |
| UserHandler.ChangeEmailSuccess | shielduser/handler.go:53-92 | success gives the user the new, unverified address, leaves every other user, moves the user's password credential to the new address as its only one, and sends the email-change message to the new address |
| UserHandler.ChangeEmailThenLogin | shielduser/handler.go:53-71 | after success the login lookup by the new address finds the user, unverified, with the secret of the former password credential |
| UserHandler.HandleChangeEmail | shielduser/handler.go:32-92 | the error, committed tables and message sent are those `ChangeEmailSpec` gives |
| RecoveryCode.Defaults | shieldrecoverycode/handler.go:67-82 | a zero count or length becomes the default of 16, a set one is kept |
| RecoveryCode.NewConfigDefaults | shieldrecoverycode/handler.go:23-26 | without options: 16 codes of 16 random bytes |
| RecoveryCode.GeneratedCodes | shieldrecoverycode/handler.go:41-57 | the default generator yields exactly `count` codes |
| RecoveryCode.GeneratedCodesAreHex | shieldrecoverycode/handler.go:39-40 | code `i` is `2 * length` lower-case hex digits, the hex of the `i`-th run of `length` bytes of the entropy stream |
| RecoveryCode.GenerateCodes | shieldrecoverycode/handler.go:41-57 | the generator succeeds iff the stream holds `count * length` bytes, returns exactly the codes `GeneratedCodes` describes and consumes that many bytes; on failure no codes and the wrapped read failure |
| RecoveryCode.FirstUnhashable | shieldrecoverycode/handler.go:141-148 | the index of the first code the hasher refuses: every earlier code hashes |
| RecoveryCode.HashAllOutcome | shieldrecoverycode/handler.go:139-153 | hashing succeeds iff every code fits the hasher's 72 bytes, then gives one hash per code that verifies its code and differs from it; a failure matches `ErrPasswordTooLong` |
| RecoveryCode.HashCodes | shieldrecoverycode/handler.go:139-153 | the hashing loop yields `HashAll`'s hashes, or no hashes and its error |
| RecoveryCode.GeneratedOutcome | shieldrecoverycode/handler.go:127-154 | `Generate` succeeds iff the stream has `count * length` bytes and each `2 * length`-digit code fits the hasher; it then returns `count` hashes, each verifying its generated code |
| RecoveryCode.DefaultGenerateSucceeds | shieldrecoverycode/handler.go:23-26 | with the defaults and at least 256 random bytes, `Generate` yields sixteen hashes |
| RecoveryCode.Generate | shieldrecoverycode/handler.go:127-154 | the method answers what `Generated` says of the entropy stream |
| RecoveryCode.BatchRows | shieldrecoverycode/handler.go:268-276 | one row per code, in order |
| RecoveryCode.CreateRecoveryCodesInTx | shieldrecoverycode/handler.go:262-286 | draws one id per code; on success the work tables gain the batch of consumable rows, on failure they stay and the error is wrapped |
| RecoveryCode.EvictRecoveryCodesInTx | shieldrecoverycode/handler.go:242-260 | on success the user's usable codes are marked evicted by `evictedBy`; on failure the work tables stay and the error is wrapped |
| RecoveryCode.ReplaceRecoveryCodesInTx | shieldrecoverycode/handler.go:224-240 | evicts, and inserts only when the eviction succeeded |
| RecoveryCode.StoreAtomic | shieldrecoverycode/handler.go:156-222 | both handlers are all or nothing: failure commits nothing; success commits exactly the new batch, in order, after the eviction when replacing, and changes no other table |
| RecoveryCode.ReplaceLeavesOnlyNewBatch | shieldrecoverycode/handler.go:224-240 | after a successful replacement a row is a usable code of the user iff it belongs to the new batch |
| RecoveryCode.EvictFailureInsertsNothing | shieldrecoverycode/handler.go:231-233 | a failed eviction stops the replacement before any insert, with nothing committed |
| RecoveryCode.StoreInTx | shieldrecoverycode/handler.go:176-186 | the step in the opened transaction and the commit, as `InsertBatch` says |
| RecoveryCode.CreateRecoveryCodes | shieldrecoverycode/handler.go:157-188 | the error and committed tables are those `StoreSpec` gives without replacement |
| RecoveryCode.ReplaceRecoveryCodes | shieldrecoverycode/handler.go:191-222 | the error and committed tables are those `StoreSpec` gives replacing by `replacedBy` |
| RecoveryCode.StoreCodes | shieldrecoverycode/handler.go:157-188 | generate, begin, the step in the transaction and the commit, as `StoreSpec` says |
| PasswordVerifier.Split | shieldpasswordverifier/password_require_chars.go:24 | `strings.Split` on `::` gives at least one piece, the first a prefix of the input |
| PasswordVerifier.JoinSplit | shieldpasswordverifier/password_require_chars.go:24 | splitting loses nothing: joining the pieces with `::` gives the input back |
| PasswordVerifier.SplitPiecesHaveNoSeparator | shieldpasswordverifier/password_require_chars.go:24 | no piece contains `::` |
| PasswordVerifier.ParsedGroups | shieldpasswordverifier/password_require_chars.go:22-31 | the parsed groups are exactly the non-empty pieces of the source, none containing `::` |
| PasswordVerifier.ParsedEmpty | shieldpasswordverifier/password_require_chars.go:11-17 | parsing `""`, as the default list is, gives no group |
| PasswordVerifier.SplitExample | shieldpasswordverifier/password_require_chars.go:24 | `ab::::1` splits into `ab`, an empty piece and `1` |
| PasswordVerifier.ParsedExample | shieldpasswordverifier/password_require_chars.go:23-26 | the empty piece of `ab::::1` is dropped |
| PasswordVerifier.RequiredChars.constructor | shieldpasswordverifier/password_require_chars.go:20 | a fresh list holds no group |
| PasswordVerifier.RequiredChars.Parse | shieldpasswordverifier/password_require_chars.go:22-31 | overwrites the receiver with the parsed groups and never fails |
| PasswordVerifier.Defaults | shieldpasswordverifier/verifier.go:53-61 | a nil group list becomes the default one and a zero minimum length becomes 8; set values are kept |
| PasswordVerifier.NewConfigDefaults | shieldpasswordverifier/verifier.go:39-61 | without options: minimum length 8 and no group |
| Base.ByteLength | shieldpasswordverifier/verifier.go:84 | `len` counts UTF-8 bytes, at least one per character |
| Base.ByteLengthAscii | shieldpasswordverifier/verifier.go:84 | the byte count equals the character count exactly when every character is ASCII |
| PasswordVerifier.Verify | shieldpasswordverifier/verifier.go:80-102 | the loop answers what `VerifySpec` says |
| PasswordVerifier.VerifyPassesIff | shieldpasswordverifier/verifier.go:80-102 | a password passes iff there is no group, or it is long enough and shares a character with every group |
| PasswordVerifier.VerifyReasons | shieldpasswordverifier/verifier.go:81-98 | a rejection has an empty message and one or two reasons: too short first exactly when the password is too short, a missing group at most once and last |
| PasswordVerifier.DefaultVerifierAcceptsEmptyPassword | shieldpasswordverifier/verifier.go:84-101 | with the default configuration the empty password is too short yet passes |
| PasswordVerifier.VerifyCorrectedPassesIff | shieldpasswordverifier/verifier.go:28-34 | the intended check passes exactly the long-enough passwords sharing a character with every group, rejects the empty password by default, and agrees with `Verify` wherever there is a group |
| SliceUtil.Filter | internal/sliceutil/sliceutil.go:4-14 | the result is the elements that satisfy `f`, in order, no longer than the input, and contains exactly the input's elements that satisfy `f` |
| SliceUtil.FilteredAppend | internal/sliceutil/sliceutil.go:7-11 | filtering distributes over concatenation, so the original order is kept |
| SliceUtil.FilteredLength | internal/sliceutil/sliceutil.go:5 | the result is never longer than the input |
| SliceUtil.FilteredMembers | internal/sliceutil/sliceutil.go:7-11 | an element is kept iff it is in the input and satisfies `f` |
| SliceUtil.FilteredAllTrue | internal/sliceutil/sliceutil_test.go:19-25 | an always-true predicate keeps the slice as it is |
| SliceUtil.FilteredAllFalse | internal/sliceutil/sliceutil_test.go:27-41 | an always-false predicate, or an empty input, gives an empty slice |
| SliceUtil.FilterOddExample | internal/sliceutil/sliceutil_test.go:11-17 | filtering `even, odd, even` for `odd` gives `odd` |
| Workspace.NewConfig | shieldworkspace/shieldworkspace.go:48-68 | an invitation lifetime is never zero: the one the options set is kept, a zero one becomes the default |
| Workspace.NewConfigDefaults | shieldworkspace/shieldworkspace.go:21 | without options an invitation is valid for seven days |
| Workspace.MemberIdAsWrittenInverted | shieldworkspace/shieldworkspace.go:100-103 | as written, a found invitee gets no member id and an unknown one gets the zero id of the row not found |
| Workspace.MemberIdNamesUser | shieldworkspace/shieldworkspace.go:70-74 | the intended member id names the registered user of the email exactly when there is one |
| Workspace.InviteForOutcome | shieldworkspace/shieldworkspace.go:105-142 | the invite writes only by committing one invitation row for the workspace and email, expiring the configured lifetime from now, appended last; it mails exactly on success, after the commit, with the member id given |
| Workspace.InviteSendsInvertedMemberId | shieldworkspace/shieldworkspace.go:92-134 | as written, inviting a registered email sends no member id and inviting an unknown one sends the zero id |
| Workspace.InviteCorrectedAgrees | shieldworkspace/shieldworkspace.go:77-143 | the corrected invite fails and writes exactly as the written one; only the message differs |
| Workspace.InviteCorrectedNamesMember | shieldworkspace/shieldworkspace.go:126-134 | corrected, a successful invite's message names the registered user of the email, or no one for an unknown email |
| Workspace.InviteUserToWorkspace | shieldworkspace/shieldworkspace.go:77-143 | the error, committed tables, mail and ids drawn are those `InviteSpec` gives; a lookup error other than no rows aborts |
| Workspace.InviteTx | shieldworkspace/shieldworkspace.go:105-142 | the steps after the lookup, as `InviteFor` says |
| Workspace.CreateWorkspaceNeverPersists | shieldworkspace/shieldworkspace.go:149-182 | as written, creation never changes the committed tables and returns the zero id, yet reports success whenever the insert under the zero id works |
| Workspace.CreateCorrectedPersists | shieldworkspace/shieldworkspace.go:145-148 | corrected, success returns a fresh id naming a committed workspace with that name and owner and nothing else changed; failure changes nothing; on a healthy store with a free id it succeeds |
| Workspace.CreateWorkspace | shieldworkspace/shieldworkspace.go:149-182 | the id, error and committed tables are those `CreateSpec` gives |

## Left out

- HTTP glue is not part of this model. That covers the form and JSON handlers and the request parsers of `shieldpassword` and `shieldpasswordreset`, and the mapping of errors to status codes outside the middlewares. The handlers are modelled on their plain inputs.
- bcrypt and NFKC normalisation (`shieldpassword/bcrypt.go`) are a stand-in. A hash is a fixed prefix followed by the password, and hashing fails when the UTF-8 encoding is above 72 bytes, as bcrypt does. Only the hasher's contract is used: a hash verifies its own password, a mismatch is `(false, nil)`, and an empty hash is refused.
- PasswordHash.Hash: the 72-byte limit is measured on the password as given. NFKC normalisation, which can change the byte count of text holding compatibility characters, is not modelled.
- HMAC-SHA256 is a stand-in keyed function yielding 64 hex digits. Only equality of checksums matters to the protocol.
- `crypto/rand` is an entropy stream held by an object. A read takes bytes from its front and fails when the stream runs short.
- UUIDv7 and typeid generation are a counter that never returns the zero id. An id's text form is its decimal digits. The time ordering of UUIDv7 and typeid prefixes are not modelled.
- The time is a `now` parameter, and cancellation of the request context is not modelled.
- Concurrency is not modelled: requests run one after another. The duplicate-email race appears as the store's unique-violation outcome.
- Logging and `debug.Assert` are not modelled. The one exception is the old session strategy: with the inverted logger check its logger stays nil, and the model records the nil-pointer panic a log call would cause.
- A hook's own writes through the transaction are not modelled. A hook is a function from the user id to a payload and an error.
- Sender messages are modelled as message kinds with their payloads. The Go `shieldsender.Message` has no `Key` field, although `shieldworkspace` and `shielduser` set one.
- The `users` table of `query.sql.go` and the `shield_users` table of `password_query.sql.go` are modelled as one users table.
- The statements whose SQL is not part of this model are specified from their names and call sites: session creation, lookup and expiry, the MFA list, the recovery-code batches, the credential re-keying, the credential lookup by user id (`FindUserWithPasswordCredentialByUserID`) and the workspace statements.
- Password hashers and verifiers other than the defaults cannot be configured, so `WithPasswordHasher` is not modelled.
- The handler constructors (`NewHandler`, `New`) only assert their arguments, and `FindWorkspace` is a single lookup outside the handlers; none of them is modelled.
- SSO, passkeys, JWT issuing and `shieldtoken` are not part of this model: they delegate to external providers. The bearer-token parser and the token storage of the token strategy are parameters.
- The stale copies under `strategy/`, `user/` and `db/` are not part of this model. They do not compile.
- Migrations, the command-line tool, the test helpers and `shieldtempl` are not part of this model.
- Type arguments of Go generics (`Session[T]`, `User[T]`) are modelled as strings naming the type. A context value is found only under the type argument it was stored with.
- RecoveryCode.Generated: requires a non-negative count and length. For a negative count, Go's `make` panics before any code is generated.
- The CSRF and password-reset token lengths (`CsrfToken`, `CsrfMiddleware`, `PasswordReset.Config`) are `nat`. A negative length, for which Go's `make` panics in `secureBytes` (internal/random/random.go), cannot be configured in the model.
- PasswordHandler.HandleChangeUserPassword: the row the credential lookup returns is a ghost out-parameter, tied to the session's user by `LookedUp`. When a user has several password credentials, the model lets the lookup return any one of them, as `LIMIT 1` without `ORDER BY` does.
- PasswordReset.HandlePasswordResetConfirm: the token lookup is the corrected one, `Database.Store.FindPasswordResetToken`. As written, the statement is refused by the server on every call (see "Findings").

## Findings

| source | as written | input that shows it | evidently intended | confidence | as-written member | corrected member |
|---|---|---|---|---|---|---|
| internal/dbsqlc/password_query.sql.go:54-59 | `LIMIT 1 AND expires_at > now()` puts the expiry test in the LIMIT clause, so the statement is refused | any token, including one with an unexpired row | `WHERE token = $1 AND expires_at > now() LIMIT 1` | high, not executed | Sql.FindPasswordResetTokenAsWrittenNeverFinds | Database.Store.FindPasswordResetToken |
| internal/dbsqlc/query.sql.go:95-98 | four target columns with five values, so the insert is refused | any call | insert `(id, user_id, token, is_used)` with `FALSE` last | high, not executed | Sql.UpsertEmailVerificationTokenAsWritten | Sql.UpsertEmailVerificationToken |
| shieldstrategy/session/session.go:51-53 | the logger check is inverted, so a missing logger stays nil | `New` without options, then a cookie naming no session | `if config.Logger == nil` | high, not executed | Strategies.NewAsWrittenPanics | Strategies.NewNeverPanics |
| shieldstrategy/token/token.go:59-69 | `NewConfig` never calls `defaults`, so both lifetimes stay zero | `NewConfig()` then `Issue` | apply the defaults after the options | high, not executed | Strategies.TokenIssueExpiresAtOnce | Strategies.NewTokenConfig |
| shieldpassword/handler.go:171-198 | when the user already has a password, the new hash is never stored | user with password `old` changes it to `new` | upsert the new hash after the old password verifies | high, not executed | PasswordHandler.ChangeUserPasswordCounterexample | PasswordHandler.ChangeUserPasswordThenLogin |
| shieldpasswordverifier/verifier.go:84-101 | the reasons are returned only inside the group loop, so without a group the length is never enforced | default config, password `""` | return the reasons after the loop as well | high, not executed | PasswordVerifier.DefaultVerifierAcceptsEmptyPassword | PasswordVerifier.VerifyCorrectedPassesIff |
| shieldworkspace/shieldworkspace.go:100-103 | the member id is set only when the lookup found nobody, and then to the zero id | inviting a registered email | `if err == nil { memberID = &invitedUser.ID }` | medium, not executed | Workspace.InviteSendsInvertedMemberId | Workspace.InviteCorrectedNamesMember |
| shieldworkspace/shieldworkspace.go:154-181 | the workspace is inserted under the zero id and never committed, yet success is reported | any healthy create | a fresh id and a commit | high, not executed | Workspace.CreateWorkspaceNeverPersists | Workspace.CreateCorrectedPersists |
| shielduser/middleware.go:131-133 | `IsAuthenticated` looks up `*Session[any]`, which no `Middleware[T]` with another `T` stores | a session stored by `Middleware[string]` | recognise a session stored under any type argument | medium, not executed | ShieldUser.IsAuthenticatedAsWrittenCounterexample | ShieldUser.IsAuthenticatedMatchesFromContext |
