/** internal/dbsqlc: the tables the toolkit keeps in PostgreSQL and what each
    statement does to them.  A table with a unique constraint is a map keyed
    by that constraint's columns, so "at most one row per key" holds by
    construction; a statement that would break a constraint is an error and
    leaves the tables as they were.  Statements whose SQL text is not part of
    this model (sessions, MFAs, recovery codes, workspaces) are specified
    from their names and call sites only. */
module Sql {
  import opened Base

  const PasswordCredential := "password"

  datatype UserRow = UserRow(email: string, isEmailVerified: bool)

  /** A credential row; its key is (name, user_credential_key). */
  datatype CredentialRow = CredentialRow(id: Uuid, userId: Uuid, secret: string)

  /** A password-reset token row; its key is (user_id, is_used). */
  datatype ResetTokenRow = ResetTokenRow(id: Uuid, token: string, expiresAt: Time)

  /** An email-verification token row; its key is (user_id, is_used). */
  datatype VerificationTokenRow = VerificationTokenRow(id: Uuid, token: string)

  datatype SessionRow = SessionRow(
    userId: Uuid, expiresAt: Time, isMfaRequired: bool, expired: bool, evictedBy: Option<Uuid>)

  datatype RecoveryCodeRow = RecoveryCodeRow(
    id: Uuid, userId: Uuid, hash: string, isConsumable: bool, evictedBy: Option<Uuid>)

  datatype WorkspaceRow = WorkspaceRow(name: string, ownedBy: Uuid)

  datatype InvitationRow = InvitationRow(id: Uuid, workspaceId: Uuid, email: string, expiresAt: Time)

  datatype Tables = Tables(
    users: map<Uuid, UserRow>,
    credentials: map<(string, string), CredentialRow>,
    resetTokens: map<(Uuid, bool), ResetTokenRow>,
    verificationTokens: map<(Uuid, bool), VerificationTokenRow>,
    sessions: map<Uuid, SessionRow>,
    mfas: map<Uuid, seq<string>>,
    recoveryCodes: seq<RecoveryCodeRow>,
    workspaces: map<Uuid, WorkspaceRow>,
    invitations: seq<InvitationRow>)

  const EmptyTables := Tables(map[], map[], map[], map[], map[], map[], [], map[], [])

  /** The unique constraint on users.email. */
  predicate Valid(t: Tables)
  {
    forall u, v :: u in t.users && v in t.users && t.users[u].email == t.users[v].email ==> u == v
  }

  predicate EmailTaken(t: Tables, email: string)
  {
    exists u :: u in t.users && t.users[u].email == email
  }

  // ---------------------------------------------------------------- users

  /** CreateUser: a new row (id, email), not yet verified; a clash on the id
      or on the email is a unique violation. */
  function CreateUser(t: Tables, id: Uuid, email: string): (r: Result<Tables>)
    ensures r.Err? <==> id in t.users || EmailTaken(t, email)
    ensures r.Err? ==> r.error == UniqueViolation
    ensures r.Ok? ==> r.value == t.(users := t.users[id := UserRow(email, false)])
    ensures r.Ok? && Valid(t) ==> Valid(r.value)
  {
    if id in t.users || EmailTaken(t, email) then Err(UniqueViolation)
    else Ok(t.(users := t.users[id := UserRow(email, false)]))
  }

  datatype UserRecord = UserRecord(id: Uuid, email: string, isEmailVerified: bool)

  /** FindUserByID: the row with exactly that id. */
  function FindUserByID(t: Tables, id: Uuid): (r: Result<UserRecord>)
    ensures r.Ok? <==> id in t.users
    ensures r.Ok? ==> r.value.id == id && r.value.email == t.users[id].email
    ensures r.Err? ==> r.error == NoRows
  {
    if id in t.users then Ok(UserRecord(id, t.users[id].email, t.users[id].isEmailVerified))
    else Err(NoRows)
  }

  /** FindUserByEmail: the one row with exactly that email (emails are
      unique, so the choice is determined). */
  ghost function FindUserByEmail(t: Tables, email: string): (r: Result<UserRecord>)
    requires Valid(t)
    ensures r.Ok? <==> EmailTaken(t, email)
    ensures r.Ok? ==> r.value.id in t.users && r.value.email == email
    ensures r.Ok? ==> forall u :: u in t.users && t.users[u].email == email ==> u == r.value.id
    ensures r.Err? ==> r.error == NoRows
  {
    if EmailTaken(t, email) then
      var u :| u in t.users && t.users[u].email == email;
      Ok(UserRecord(u, email, t.users[u].isEmailVerified))
    else Err(NoRows)
  }

  /** ChangeUserEmailByID: the new email, marked unverified, on the row with
      that id and on no other; taking another user's email is a unique
      violation, and an unknown id changes nothing. */
  function ChangeUserEmailByID(t: Tables, id: Uuid, email: string): (r: Result<Tables>)
    ensures r.Err? <==> id in t.users && exists u :: u in t.users && u != id && t.users[u].email == email
    ensures r.Ok? ==> r.value.users.Keys == t.users.Keys
    ensures r.Ok? && id in t.users ==> r.value.users[id] == UserRow(email, false)
    ensures r.Ok? ==> forall u :: u in t.users && u != id ==> r.value.users[u] == t.users[u]
    ensures r.Ok? ==> r.value == t.(users := r.value.users)
    ensures r.Ok? && Valid(t) ==> Valid(r.value)
  {
    if id !in t.users then Ok(t)
    else if exists u :: u in t.users && u != id && t.users[u].email == email then Err(UniqueViolation)
    else Ok(t.(users := t.users[id := UserRow(email, false)]))
  }

  // ---------------------------------------------------------- credentials

  /** CreateUserPasswordCredential: a new 'password' row; an existing row
      for the same key is a unique violation. */
  function CreateUserPasswordCredential(t: Tables, id: Uuid, userId: Uuid, key: string, secret: string): (r: Result<Tables>)
    ensures r.Err? <==> (PasswordCredential, key) in t.credentials
    ensures r.Ok? ==> r.value == t.(credentials := t.credentials[(PasswordCredential, key) := CredentialRow(id, userId, secret)])
  {
    if (PasswordCredential, key) in t.credentials then Err(UniqueViolation)
    else Ok(t.(credentials := t.credentials[(PasswordCredential, key) := CredentialRow(id, userId, secret)]))
  }

  /** UpsertPasswordCredentialByUserID: insert a 'password' row, or on a
      (name, key) conflict replace only the secret of the existing row. */
  function UpsertPasswordCredentialByUserID(t: Tables, id: Uuid, userId: Uuid, key: string, secret: string): (r: Tables)
    ensures r == t.(credentials := r.credentials)
    ensures r.credentials.Keys == t.credentials.Keys + {(PasswordCredential, key)}
    ensures r.credentials[(PasswordCredential, key)].secret == secret
    ensures (PasswordCredential, key) in t.credentials ==>
      r.credentials[(PasswordCredential, key)] == t.credentials[(PasswordCredential, key)].(secret := secret)
    ensures (PasswordCredential, key) !in t.credentials ==>
      r.credentials[(PasswordCredential, key)] == CredentialRow(id, userId, secret)
    ensures forall k :: k in t.credentials && k != (PasswordCredential, key) ==> r.credentials[k] == t.credentials[k]
  {
    var k := (PasswordCredential, key);
    if k in t.credentials then t.(credentials := t.credentials[k := t.credentials[k].(secret := secret)])
    else t.(credentials := t.credentials[k := CredentialRow(id, userId, secret)])
  }

  /** The row FindUserWithPasswordCredentialByEmail returns. */
  datatype UserWithPassword = UserWithPassword(id: Uuid, email: string, isEmailVerified: bool, passwordHash: string)

  /** FindUserWithPasswordCredentialByEmail: the 'password' credential keyed
      by the email, joined with the user of that email on user id. */
  function FindUserWithPasswordCredentialByEmail(t: Tables, email: string): (r: Result<UserWithPassword>)
    ensures r.Err? ==> r.error == NoRows
    ensures r.Ok? ==> r.value.email == email && r.value.id in t.users && t.users[r.value.id].email == email
  {
    var k := (PasswordCredential, email);
    if k in t.credentials && t.credentials[k].userId in t.users && t.users[t.credentials[k].userId].email == email then
      var u := t.credentials[k].userId;
      Ok(UserWithPassword(u, email, t.users[u].isEmailVerified, t.credentials[k].secret))
    else Err(NoRows)
  }

  /** The join finds a row exactly when a 'password' credential has the
      email as its key, a user has that email, and the credential belongs
      to that user; the row carries that credential's secret. */
  lemma FindUserWithPasswordCredentialByEmailJoin(t: Tables, email: string)
    ensures var r := FindUserWithPasswordCredentialByEmail(t, email);
      r.Ok? <==> (PasswordCredential, email) in t.credentials &&
                 exists u :: u in t.users && t.users[u].email == email && t.credentials[(PasswordCredential, email)].userId == u
    ensures var r := FindUserWithPasswordCredentialByEmail(t, email);
      r.Ok? ==> r.value.passwordHash == t.credentials[(PasswordCredential, email)].secret &&
                r.value.id == t.credentials[(PasswordCredential, email)].userId
  {
  }

  /** The 'password' credentials that belong to a user. */
  predicate IsPasswordCredentialOf(t: Tables, k: (string, string), userId: Uuid)
  {
    k in t.credentials && k.0 == PasswordCredential && t.credentials[k].userId == userId
  }

  predicate HasPasswordCredential(t: Tables, userId: Uuid)
  {
    exists k :: k in t.credentials && IsPasswordCredentialOf(t, k, userId)
  }

  /** The row FindUserWithPasswordCredentialByUserID returns: the user and,
      through a left join, the secret of one of its 'password' credentials. */
  datatype UserWithOptionalPassword = UserWithOptionalPassword(id: Uuid, email: string, passwordHash: Option<string>)

  /** The rows FindUserWithPasswordCredentialByUserID may return for a user
      that exists. */
  predicate IsUserWithOptionalPassword(t: Tables, userId: Uuid, r: UserWithOptionalPassword)
  {
    userId in t.users && r.id == userId && r.email == t.users[userId].email &&
    (r.passwordHash.Some? <==> HasPasswordCredential(t, userId)) &&
    (r.passwordHash.Some? ==> exists k :: k in t.credentials && IsPasswordCredentialOf(t, k, userId) && t.credentials[k].secret == r.passwordHash.value)
  }

  /** ChangePasswordCredentialEmailByUserID: the user's 'password'
      credential is re-keyed by the new email.  Two such credentials, or a
      different row already keyed by the new email, is a unique violation. */
  ghost function ChangePasswordCredentialEmailByUserID(t: Tables, userId: Uuid, email: string): (r: Result<Tables>)
    ensures r.Ok? ==> r.value == t.(credentials := r.value.credentials)
    ensures r.Ok? && !HasPasswordCredential(t, userId) ==> r.value == t
    ensures r.Ok? && HasPasswordCredential(t, userId) ==>
      (PasswordCredential, email) in r.value.credentials &&
      r.value.credentials[(PasswordCredential, email)].userId == userId &&
      !exists k :: k != (PasswordCredential, email) && IsPasswordCredentialOf(r.value, k, userId)
    ensures r.Ok? && HasPasswordCredential(t, userId) ==>
      exists k :: IsPasswordCredentialOf(t, k, userId) && r.value.credentials[(PasswordCredential, email)] == t.credentials[k]
    ensures r.Err? ==> r.error == UniqueViolation && HasPasswordCredential(t, userId)
  {
    if exists k1, k2 :: IsPasswordCredentialOf(t, k1, userId) && IsPasswordCredentialOf(t, k2, userId) && k1 != k2 then
      Err(UniqueViolation)
    else if HasPasswordCredential(t, userId) then
      var k :| IsPasswordCredentialOf(t, k, userId);
      var k' := (PasswordCredential, email);
      if k' in t.credentials && k' != k then Err(UniqueViolation)
      else
        RekeyLeavesOne(t, userId, k, k');
        Ok(t.(credentials := Rekeyed(t.credentials, k, k')))
    else Ok(t)
  }

  function Rekeyed(m: map<(string, string), CredentialRow>, k: (string, string), k': (string, string)): map<(string, string), CredentialRow>
    requires k in m
  {
    (m - {k})[k' := m[k]]
  }

  lemma RekeyLeavesOne(t: Tables, userId: Uuid, k: (string, string), k': (string, string))
    requires IsPasswordCredentialOf(t, k, userId) && k'.0 == PasswordCredential
    requires forall k2 :: IsPasswordCredentialOf(t, k2, userId) ==> k2 == k
    ensures var t' := t.(credentials := Rekeyed(t.credentials, k, k'));
      forall k2 :: IsPasswordCredentialOf(t', k2, userId) ==> k2 == k'
  {
    var t' := t.(credentials := Rekeyed(t.credentials, k, k'));
    forall k2 | IsPasswordCredentialOf(t', k2, userId)
      ensures k2 == k'
    {
      if k2 != k' {
        assert k2 in t.credentials && k2 != k;
        assert IsPasswordCredentialOf(t, k2, userId);
      }
    }
  }

  // ------------------------------------------------------ password resets

  /** UpsertPasswordResetToken: insert an unused token, or on a (user_id,
      is_used) conflict keep the existing row and its token and move its
      expiry to the later of the two. */
  function UpsertPasswordResetToken(t: Tables, id: Uuid, userId: Uuid, token: string, expiresAt: Time): (r: Tables)
    ensures r == t.(resetTokens := r.resetTokens)
    ensures r.resetTokens.Keys == t.resetTokens.Keys + {(userId, false)}
    ensures forall k :: k in t.resetTokens && k != (userId, false) ==> r.resetTokens[k] == t.resetTokens[k]
  {
    var k := (userId, false);
    if k in t.resetTokens then
      var row := t.resetTokens[k];
      t.(resetTokens := t.resetTokens[k := row.(expiresAt := if expiresAt > row.expiresAt then expiresAt else row.expiresAt)])
    else t.(resetTokens := t.resetTokens[k := ResetTokenRow(id, token, expiresAt)])
  }

  /** The row the upsert returns: the one now stored for (user_id, FALSE). */
  function UpsertedResetToken(t: Tables, id: Uuid, userId: Uuid, token: string, expiresAt: Time): ResetTokenRow
  {
    UpsertPasswordResetToken(t, id, userId, token, expiresAt).resetTokens[(userId, false)]
  }

  /** The surviving row keeps the earlier token and id when there was one,
      and its expiry is the later of the old and new expiries. */
  lemma UpsertPasswordResetTokenKeepsLaterExpiry(t: Tables, id: Uuid, userId: Uuid, token: string, expiresAt: Time)
    ensures var row := UpsertedResetToken(t, id, userId, token, expiresAt);
      if (userId, false) in t.resetTokens then
        var old_ := t.resetTokens[(userId, false)];
        row.token == old_.token && row.id == old_.id &&
        row.expiresAt >= expiresAt && row.expiresAt >= old_.expiresAt &&
        (row.expiresAt == expiresAt || row.expiresAt == old_.expiresAt)
      else row == ResetTokenRow(id, token, expiresAt)
  {
  }

  /** Repeating a reset request is harmless: the second upsert of the same
      row changes nothing. */
  lemma UpsertPasswordResetTokenIdempotent(t: Tables, id: Uuid, userId: Uuid, token: string, expiresAt: Time)
    ensures var t1 := UpsertPasswordResetToken(t, id, userId, token, expiresAt);
      UpsertPasswordResetToken(t1, id, userId, token, expiresAt) == t1
  {
  }

  /** One row of shield_password_reset_tokens, with its key. */
  datatype ResetToken = ResetToken(id: Uuid, userId: Uuid, isUsed: bool, token: string, expiresAt: Time)

  function ResetTokenAt(t: Tables, k: (Uuid, bool)): ResetToken
    requires k in t.resetTokens
  {
    var row := t.resetTokens[k];
    ResetToken(row.id, k.0, k.1, row.token, row.expiresAt)
  }

  /** FindPasswordResetToken as written: `LIMIT 1 AND expires_at > now()`
      puts a boolean test inside LIMIT, whose argument must be an integer
      expression free of column references, so the server rejects the
      statement whatever the tables hold. */
  function FindPasswordResetTokenAsWritten(t: Tables, token: string, now: Time): (r: Result<ResetToken>)
    ensures r.Err? && r.error.SqlError?
  {
    Err(SqlError("argument of AND must be type boolean, not type integer"))
  }

  /** The condition FindPasswordResetToken is evidently meant to select on:
      the token matches exactly and has not expired yet. */
  predicate MatchesResetToken(t: Tables, k: (Uuid, bool), token: string, now: Time)
  {
    k in t.resetTokens && t.resetTokens[k].token == token && t.resetTokens[k].expiresAt > now
  }

  /** The statement as written never yields a token, so no reset can be
      confirmed through it. */
  lemma FindPasswordResetTokenAsWrittenNeverFinds(t: Tables, token: string, now: Time)
    requires MatchesResetToken(t, (0, false), token, now)
    ensures FindPasswordResetTokenAsWritten(t, token, now).Err?
  {
  }

  /** Moving every unused row that satisfies `hit` to the used key of its
      user, which is UPDATE ... SET is_used = TRUE on a table keyed by
      (user_id, is_used).  A user who already has a used row conflicts. */
  function MarkUsed<R>(rows: map<(Uuid, bool), R>, hit: R -> bool): (r: Result<map<(Uuid, bool), R>>)
    ensures r.Err? <==> exists k :: k in rows && !k.1 && hit(rows[k]) && (k.0, true) in rows
    ensures r.Err? ==> r.error == UniqueViolation
    ensures r.Ok? ==> forall k :: k in rows && !k.1 && hit(rows[k]) ==>
      k !in r.value && (k.0, true) in r.value && r.value[(k.0, true)] == rows[k]
    ensures r.Ok? ==> forall k :: k in rows && !(!k.1 && hit(rows[k])) ==> k in r.value && r.value[k] == rows[k]
    ensures r.Ok? ==> forall k :: k in r.value ==> k in rows || (k.1 && (k.0, false) in rows && hit(rows[(k.0, false)]))
  {
    var moved := set k | k in rows && !k.1 && hit(rows[k]) :: k.0;
    if exists k :: k in rows && !k.1 && hit(rows[k]) && (k.0, true) in rows then Err(UniqueViolation)
    else
      var keys := (set k | k in rows && !(!k.1 && k.0 in moved)) + (set u | u in moved :: (u, true));
      Ok(map k | k in keys :: if k.1 && k.0 in moved then rows[(k.0, false)] else rows[k])
  }

  /** MarkPasswordResetTokenAsUsed: is_used becomes TRUE on every row whose
      token matches; nothing else changes. */
  function MarkPasswordResetTokenAsUsed(t: Tables, token: string): (r: Result<Tables>)
    ensures r.Err? ==> r.error == UniqueViolation
    ensures r.Ok? ==> r.value == t.(resetTokens := r.value.resetTokens)
    ensures r.Ok? ==> forall u :: (u, false) in r.value.resetTokens ==> r.value.resetTokens[(u, false)].token != token
  {
    match MarkUsed(t.resetTokens, (row: ResetTokenRow) => row.token == token)
    case Err(e) => Err(e)
    case Ok(rows) => Ok(t.(resetTokens := rows))
  }

  /** DeleteExpiredPasswordResetTokens: exactly the rows whose expiry is
      before `now` go. */
  function DeleteExpiredPasswordResetTokens(t: Tables, now: Time): (r: Tables)
    ensures r == t.(resetTokens := r.resetTokens)
    ensures forall k :: k in r.resetTokens <==> k in t.resetTokens && t.resetTokens[k].expiresAt >= now
    ensures forall k :: k in r.resetTokens ==> r.resetTokens[k] == t.resetTokens[k]
  {
    t.(resetTokens := map k | k in t.resetTokens && t.resetTokens[k].expiresAt >= now :: t.resetTokens[k])
  }

  // -------------------------------------------------- email verification

  /** MarkUserEmailVerificationTokenAsUsed: is_used becomes TRUE on every
      row whose token matches; nothing else changes. */
  function MarkUserEmailVerificationTokenAsUsed(t: Tables, token: string): (r: Result<Tables>)
    ensures r.Err? ==> r.error == UniqueViolation
    ensures r.Ok? ==> r.value == t.(verificationTokens := r.value.verificationTokens)
    ensures r.Ok? ==> forall u :: (u, false) in r.value.verificationTokens ==> r.value.verificationTokens[(u, false)].token != token
  {
    match MarkUsed(t.verificationTokens, (row: VerificationTokenRow) => row.token == token)
    case Err(e) => Err(e)
    case Ok(rows) => Ok(t.(verificationTokens := rows))
  }

  /** UpsertEmailVerificationToken as written: four target columns and five
      values, which the server rejects before looking at any row. */
  function UpsertEmailVerificationTokenAsWritten(t: Tables, id: Uuid, userId: Uuid, token: string): (r: Result<(Tables, VerificationTokenRow)>)
    ensures r.Err? && r.error.SqlError?
  {
    Err(SqlError("INSERT has more expressions than target columns"))
  }

  /** UpsertEmailVerificationToken as evidently intended: insert an unused
      token; ON CONFLICT DO NOTHING returns no row, which the caller sees as
      no rows, and the existing token stays. */
  function UpsertEmailVerificationToken(t: Tables, id: Uuid, userId: Uuid, token: string): (r: Result<(Tables, VerificationTokenRow)>)
    ensures r.Err? <==> (userId, false) in t.verificationTokens
    ensures r.Err? ==> r.error == NoRows
    ensures r.Ok? ==> r.value.1 == VerificationTokenRow(id, token)
    ensures r.Ok? ==> r.value.0 == t.(verificationTokens := t.verificationTokens[(userId, false) := r.value.1])
  {
    if (userId, false) in t.verificationTokens then Err(NoRows)
    else
      var row := VerificationTokenRow(id, token);
      Ok((t.(verificationTokens := t.verificationTokens[(userId, false) := row]), row))
  }

  /** An unused verification token is never replaced by a later upsert. */
  lemma UpsertEmailVerificationTokenKeepsExisting(t: Tables, id: Uuid, userId: Uuid, token: string, k: (Uuid, bool))
    requires k in t.verificationTokens
    ensures var r := UpsertEmailVerificationToken(t, id, userId, token);
      r.Ok? ==> k in r.value.0.verificationTokens && r.value.0.verificationTokens[k] == t.verificationTokens[k]
  {
  }

  // -------------------------------------------------------------- sessions

  /** CreateUserSession: a new, unexpired session row. */
  function CreateUserSession(t: Tables, id: Uuid, userId: Uuid, expiresAt: Time, isMfaRequired: bool): (r: Result<Tables>)
    ensures r.Err? <==> id in t.sessions
    ensures r.Err? ==> r.error == UniqueViolation
    ensures r.Ok? ==> r.value == t.(sessions := t.sessions[id := SessionRow(userId, expiresAt, isMfaRequired, false, None)])
  {
    if id in t.sessions then Err(UniqueViolation)
    else Ok(t.(sessions := t.sessions[id := SessionRow(userId, expiresAt, isMfaRequired, false, None)]))
  }

  predicate IsActive(row: SessionRow, now: Time)
  {
    !row.expired && row.expiresAt > now
  }

  /** FindActiveSessionByID: the session with that id, if it has been
      neither expired nor outlived. */
  function FindActiveSessionByID(t: Tables, id: Uuid, now: Time): (r: Result<SessionRow>)
    ensures r.Ok? <==> id in t.sessions && IsActive(t.sessions[id], now)
    ensures r.Ok? ==> r.value == t.sessions[id]
    ensures r.Err? ==> r.error == NoRows
  {
    if id in t.sessions && IsActive(t.sessions[id], now) then Ok(t.sessions[id]) else Err(NoRows)
  }

  /** FindUserSessionByID: the session with that id. */
  function FindUserSessionByID(t: Tables, id: Uuid): (r: Result<SessionRow>)
    ensures r.Ok? <==> id in t.sessions
    ensures r.Ok? ==> r.value == t.sessions[id]
    ensures r.Err? ==> r.error == NoRows
  {
    if id in t.sessions then Ok(t.sessions[id]) else Err(NoRows)
  }

  /** ExpireSessionByID: that one session is marked expired. */
  function ExpireSessionByID(t: Tables, id: Uuid): (r: Result<Tables>)
    ensures r.Ok? <==> id in t.sessions
    ensures r.Err? ==> r.error == NoRows
    ensures r.Ok? ==> r.value == t.(sessions := t.sessions[id := t.sessions[id].(expired := true)])
  {
    if id in t.sessions then Ok(t.(sessions := t.sessions[id := t.sessions[id].(expired := true)]))
    else Err(NoRows)
  }

  /** ExpireAllSessionsByUserID: every session of the user is expired. */
  function ExpireAllSessionsByUserID(t: Tables, userId: Uuid): (r: Tables)
    ensures r == t.(sessions := r.sessions)
    ensures r.sessions.Keys == t.sessions.Keys
    ensures forall s :: s in t.sessions ==>
      r.sessions[s] == if t.sessions[s].userId == userId then t.sessions[s].(expired := true) else t.sessions[s]
  {
    t.(sessions := map s | s in t.sessions ::
         if t.sessions[s].userId == userId then t.sessions[s].(expired := true) else t.sessions[s])
  }

  /** ExpireSomeSessionsByUserID: every session of the user except those
      listed is expired and records who evicted it. */
  function ExpireSomeSessionsByUserID(t: Tables, userId: Uuid, evictedBy: Uuid, keep: seq<Uuid>): (r: Tables)
    ensures r == t.(sessions := r.sessions)
    ensures r.sessions.Keys == t.sessions.Keys
    ensures forall s :: s in t.sessions ==>
      r.sessions[s] == if t.sessions[s].userId == userId && s !in keep
                       then t.sessions[s].(expired := true, evictedBy := Some(evictedBy))
                       else t.sessions[s]
  {
    t.(sessions := map s | s in t.sessions ::
         if t.sessions[s].userId == userId && s !in keep
         then t.sessions[s].(expired := true, evictedBy := Some(evictedBy))
         else t.sessions[s])
  }

  /** After the user's other sessions are expired, the only sessions of the
      user that can still be active are the kept ones, and sessions of other
      users are untouched. */
  lemma ExpireSomeSessionsLeavesOnlyKept(t: Tables, userId: Uuid, evictedBy: Uuid, keep: seq<Uuid>, now: Time)
    ensures var r := ExpireSomeSessionsByUserID(t, userId, evictedBy, keep);
      forall s :: s in r.sessions && r.sessions[s].userId == userId && IsActive(r.sessions[s], now) ==> s in keep
    ensures var r := ExpireSomeSessionsByUserID(t, userId, evictedBy, keep);
      forall s :: s in t.sessions && t.sessions[s].userId != userId ==> r.sessions[s] == t.sessions[s]
  {
  }

  /** GetUserMFAs: the names of the user's enabled MFA methods, in order. */
  function GetUserMFAs(t: Tables, userId: Uuid): (r: seq<string>)
    ensures userId in t.mfas ==> r == t.mfas[userId]
    ensures userId !in t.mfas ==> r == []
  {
    if userId in t.mfas then t.mfas[userId] else []
  }

  // -------------------------------------------------------- recovery codes

  predicate IsUnconsumedOf(row: RecoveryCodeRow, userId: Uuid)
  {
    row.userId == userId && row.isConsumable && row.evictedBy.None?
  }

  function Evicted(row: RecoveryCodeRow, userId: Uuid, evictedBy: Uuid): RecoveryCodeRow
  {
    if IsUnconsumedOf(row, userId) then row.(evictedBy := Some(evictedBy)) else row
  }

  /** EvictUnconsumedRecoveryCodeBatch: the user's codes that are still
      usable record who evicted them; every other row is untouched. */
  function EvictUnconsumedRecoveryCodeBatch(t: Tables, userId: Uuid, evictedBy: Uuid): (r: Tables)
    ensures r == t.(recoveryCodes := r.recoveryCodes)
    ensures |r.recoveryCodes| == |t.recoveryCodes|
    ensures forall i :: 0 <= i < |t.recoveryCodes| ==> r.recoveryCodes[i] == Evicted(t.recoveryCodes[i], userId, evictedBy)
    ensures forall i :: 0 <= i < |r.recoveryCodes| ==> !IsUnconsumedOf(r.recoveryCodes[i], userId)
  {
    t.(recoveryCodes := seq(|t.recoveryCodes|, i requires 0 <= i < |t.recoveryCodes| => Evicted(t.recoveryCodes[i], userId, evictedBy)))
  }

  /** CreateRecoveryCodeBatch: the rows are appended, in order; the codes
      already stored keep their places and nothing else changes. */
  function CreateRecoveryCodeBatch(t: Tables, rows: seq<RecoveryCodeRow>): (r: Tables)
    ensures r == t.(recoveryCodes := r.recoveryCodes)
    ensures |r.recoveryCodes| == |t.recoveryCodes| + |rows|
    ensures r.recoveryCodes[..|t.recoveryCodes|] == t.recoveryCodes
    ensures r.recoveryCodes[|t.recoveryCodes|..] == rows
  {
    t.(recoveryCodes := t.recoveryCodes + rows)
  }

  // ------------------------------------------------------------ workspaces

  /** CreateWorkspace: a new workspace row. */
  function CreateWorkspace(t: Tables, id: Uuid, name: string, ownedBy: Uuid): (r: Result<Tables>)
    ensures r.Err? <==> id in t.workspaces
    ensures r.Err? ==> r.error == UniqueViolation
    ensures r.Ok? ==> r.value == t.(workspaces := t.workspaces[id := WorkspaceRow(name, ownedBy)])
  {
    if id in t.workspaces then Err(UniqueViolation)
    else Ok(t.(workspaces := t.workspaces[id := WorkspaceRow(name, ownedBy)]))
  }

  /** InviteUserToWorkspaceByEmail: one new invitation row, last, with the
      given id, workspace, address and expiry; the earlier invitations and
      every other table are unchanged. */
  function InviteUserToWorkspaceByEmail(t: Tables, id: Uuid, workspaceId: Uuid, email: string, expiresAt: Time): (r: Tables)
    ensures r == t.(invitations := r.invitations)
    ensures |r.invitations| == |t.invitations| + 1
    ensures r.invitations[..|t.invitations|] == t.invitations
    ensures var last := r.invitations[|t.invitations|];
      last.id == id && last.workspaceId == workspaceId && last.email == email && last.expiresAt == expiresAt
  {
    t.(invitations := t.invitations + [InvitationRow(id, workspaceId, email, expiresAt)])
  }
}
