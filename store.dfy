/** The PostgreSQL pool and its transactions, as the handlers use them
    through internal/dbsqlc.  A transaction works on a snapshot taken at
    Begin; Commit installs the snapshot and the deferred Rollback discards
    it.  A statement run outside a transaction commits at once.  The server
    may refuse any statement: `faults` lists the statements that fail, and
    with which error, so every error path of a handler can be reached. */
module Database {
  import opened Base
  import Sql

  /** The statements of internal/dbsqlc, plus BEGIN and COMMIT. */
  datatype Stmt =
    | BeginTx | CommitTx
    | CreateUser | FindUserByID | FindUserByEmail | ChangeUserEmailByID
    | CreateUserPasswordCredential | UpsertPasswordCredentialByUserID
    | FindUserWithPasswordCredentialByEmail | FindUserWithPasswordCredentialByUserID
    | ChangePasswordCredentialEmailByUserID
    | UpsertPasswordResetToken | FindPasswordResetToken | MarkPasswordResetTokenAsUsed
    | DeleteExpiredPasswordResetTokens
    | MarkUserEmailVerificationTokenAsUsed | UpsertEmailVerificationToken
    | CreateUserSession | FindActiveSessionByID | FindUserSessionByID
    | ExpireSessionByID | ExpireAllSessionsByUserID | ExpireSomeSessionsByUserID
    | GetUserMFAs
    | EvictUnconsumedRecoveryCodeBatch | CreateRecoveryCodeBatch
    | CreateWorkspace | InviteUserToWorkspaceByEmail

  /** What a statement returns: the failure the server reports for it, if it
      is listed in `faults`, or else what its SQL computes. */
  function Outcome<T>(faults: map<Stmt, Error>, s: Stmt, r: Result<T>): (o: Result<T>)
    ensures s in faults ==> o == Err(faults[s])
    ensures s !in faults ==> o == r
  {
    if s in faults then Err(faults[s]) else r
  }

  /** pgxpool.Pool together with the one transaction a handler holds. */
  class Store {
    /** The state other connections see. */
    var committed: Sql.Tables
    /** The snapshot an open transaction works on. */
    var work: Sql.Tables
    var inTx: bool
    /** The statements the server refuses, and the error it gives. */
    const faults: map<Stmt, Error>

    constructor (tables: Sql.Tables, faults: map<Stmt, Error>)
      ensures committed == tables && !inTx && this.faults == faults
    {
      committed := tables;
      work := tables;
      inTx := false;
      this.faults := faults;
    }

    /** The tables a statement runs against: the snapshot inside a
        transaction, the committed state on the pool. */
    function Current(): Sql.Tables
      reads this
    {
      if inTx then work else committed
    }

    /** The effect of a statement that changes rows: it applies when the
        statement succeeds and nothing changes when it fails; outside a
        transaction the change is committed at once. */
    twostate predicate Stepped(r: Result<Sql.Tables>, err: Option<Error>)
      reads this
    {
      inTx == old(inTx) &&
      (if inTx then committed == old(committed) else work == old(work)) &&
      (err.None? ==> r.Ok? && Current() == r.value) &&
      (err.Some? ==> Current() == old(Current()))
    }

    method Apply(s: Stmt, r: Result<Sql.Tables>) returns (err: Option<Error>)
      modifies this
      ensures err == ErrorOf(Outcome(faults, s, r))
      ensures Stepped(r, err)
    {
      var o := Outcome(faults, s, r);
      if o.Err? {
        return Some(o.error);
      }
      if inTx {
        work := o.value;
      } else {
        committed := o.value;
      }
      err := None;
    }

    /** pool.Begin. */
    method Begin() returns (err: Option<Error>)
      requires !inTx
      modifies this
      ensures committed == old(committed)
      ensures err == ErrorOf(Outcome(faults, BeginTx, Ok(())))
      ensures err.None? ==> inTx && work == committed
      ensures err.Some? ==> !inTx && work == old(work)
    {
      if BeginTx in faults {
        return Some(faults[BeginTx]);
      }
      inTx, work := true, committed;
      err := None;
    }

    /** tx.Commit: the snapshot becomes the committed state.  A failed
        commit aborts the transaction. */
    method Commit() returns (err: Option<Error>)
      requires inTx
      modifies this
      ensures !inTx
      ensures err == ErrorOf(Outcome(faults, CommitTx, Ok(())))
      ensures err.None? ==> committed == old(work)
      ensures err.Some? ==> committed == old(committed)
    {
      inTx := false;
      if CommitTx in faults {
        return Some(faults[CommitTx]);
      }
      committed := work;
      err := None;
    }

    /** The deferred tx.Rollback: whatever the transaction did is dropped;
        after a commit it does nothing. */
    method Rollback()
      modifies this
      ensures !inTx && committed == old(committed)
    {
      inTx := false;
    }

    // ------------------------------------------------------------ users

    method CreateUser(id: Uuid, email: string) returns (err: Option<Error>)
      modifies this
      ensures err == ErrorOf(Outcome(faults, Stmt.CreateUser, Sql.CreateUser(old(Current()), id, email)))
      ensures Stepped(Sql.CreateUser(old(Current()), id, email), err)
    {
      err := Apply(Stmt.CreateUser, Sql.CreateUser(Current(), id, email));
    }

    method ChangeUserEmailByID(id: Uuid, email: string) returns (err: Option<Error>)
      modifies this
      ensures err == ErrorOf(Outcome(faults, Stmt.ChangeUserEmailByID, Sql.ChangeUserEmailByID(old(Current()), id, email)))
      ensures Stepped(Sql.ChangeUserEmailByID(old(Current()), id, email), err)
    {
      err := Apply(Stmt.ChangeUserEmailByID, Sql.ChangeUserEmailByID(Current(), id, email));
    }

    method FindUserByID(id: Uuid) returns (r: Result<Sql.UserRecord>)
      ensures r == Outcome(faults, Stmt.FindUserByID, Sql.FindUserByID(Current(), id))
    {
      r := Outcome(faults, Stmt.FindUserByID, Sql.FindUserByID(Current(), id));
    }

    /** FindUserByEmail; the unique constraint on users.email makes the row
        it finds the only candidate. */
    method FindUserByEmail(email: string) returns (r: Result<Sql.UserRecord>)
      requires Sql.Valid(Current())
      ensures r == Outcome(faults, Stmt.FindUserByEmail, Sql.FindUserByEmail(Current(), email))
    {
      if Stmt.FindUserByEmail in faults {
        return Err(faults[Stmt.FindUserByEmail]);
      }
      var t := Current();
      if u :| u in t.users && t.users[u].email == email {
        r := Ok(Sql.UserRecord(u, email, t.users[u].isEmailVerified));
      } else {
        r := Err(NoRows);
      }
    }

    // ------------------------------------------------------ credentials

    method UpsertPasswordCredentialByUserID(id: Uuid, userId: Uuid, key: string, secret: string) returns (err: Option<Error>)
      modifies this
      ensures err == ErrorOf(Outcome(faults, Stmt.UpsertPasswordCredentialByUserID, Ok(())))
      ensures Stepped(Ok(Sql.UpsertPasswordCredentialByUserID(old(Current()), id, userId, key, secret)), err)
    {
      err := Apply(Stmt.UpsertPasswordCredentialByUserID, Ok(Sql.UpsertPasswordCredentialByUserID(Current(), id, userId, key, secret)));
    }

    method FindUserWithPasswordCredentialByEmail(email: string) returns (r: Result<Sql.UserWithPassword>)
      ensures r == Outcome(faults, Stmt.FindUserWithPasswordCredentialByEmail, Sql.FindUserWithPasswordCredentialByEmail(Current(), email))
    {
      r := Outcome(faults, Stmt.FindUserWithPasswordCredentialByEmail, Sql.FindUserWithPasswordCredentialByEmail(Current(), email));
    }

    /** FindUserWithPasswordCredentialByUserID: the user, and the secret of
        its password credential when it has one. */
    method FindUserWithPasswordCredentialByUserID(userId: Uuid) returns (r: Result<Sql.UserWithOptionalPassword>)
      ensures Stmt.FindUserWithPasswordCredentialByUserID in faults ==> r == Err(faults[Stmt.FindUserWithPasswordCredentialByUserID])
      ensures Stmt.FindUserWithPasswordCredentialByUserID !in faults ==>
        (r.Ok? <==> userId in Current().users) &&
        (r.Ok? ==> Sql.IsUserWithOptionalPassword(Current(), userId, r.value)) &&
        (r.Err? ==> r.error == NoRows)
    {
      if Stmt.FindUserWithPasswordCredentialByUserID in faults {
        return Err(faults[Stmt.FindUserWithPasswordCredentialByUserID]);
      }
      var t := Current();
      if userId !in t.users {
        return Err(NoRows);
      }
      if k :| k in t.credentials && Sql.IsPasswordCredentialOf(t, k, userId) {
        r := Ok(Sql.UserWithOptionalPassword(userId, t.users[userId].email, Some(t.credentials[k].secret)));
      } else {
        r := Ok(Sql.UserWithOptionalPassword(userId, t.users[userId].email, None));
      }
    }

    method ChangePasswordCredentialEmailByUserID(userId: Uuid, email: string) returns (err: Option<Error>)
      modifies this
      ensures err == ErrorOf(Outcome(faults, Stmt.ChangePasswordCredentialEmailByUserID, Sql.ChangePasswordCredentialEmailByUserID(old(Current()), userId, email)))
      ensures Stepped(Sql.ChangePasswordCredentialEmailByUserID(old(Current()), userId, email), err)
    {
      if Stmt.ChangePasswordCredentialEmailByUserID in faults {
        return Some(faults[Stmt.ChangePasswordCredentialEmailByUserID]);
      }
      var t := Current();
      if exists k1, k2 :: k1 in t.credentials && k2 in t.credentials && Sql.IsPasswordCredentialOf(t, k1, userId) && Sql.IsPasswordCredentialOf(t, k2, userId) && k1 != k2 {
        return Some(UniqueViolation);
      }
      if k :| k in t.credentials && Sql.IsPasswordCredentialOf(t, k, userId) {
        var k' := (Sql.PasswordCredential, email);
        if k' in t.credentials && k' != k {
          return Some(UniqueViolation);
        }
        err := Apply(Stmt.ChangePasswordCredentialEmailByUserID, Ok(t.(credentials := Sql.Rekeyed(t.credentials, k, k'))));
      } else {
        err := None;
      }
    }

    // -------------------------------------------------- password resets

    method UpsertPasswordResetToken(id: Uuid, userId: Uuid, token: string, expiresAt: Time) returns (r: Result<Sql.ResetTokenRow>)
      modifies this
      ensures r == Outcome(faults, Stmt.UpsertPasswordResetToken, Ok(Sql.UpsertedResetToken(old(Current()), id, userId, token, expiresAt)))
      ensures Stepped(Ok(Sql.UpsertPasswordResetToken(old(Current()), id, userId, token, expiresAt)), ErrorOf(r))
    {
      var err := Apply(Stmt.UpsertPasswordResetToken, Ok(Sql.UpsertPasswordResetToken(Current(), id, userId, token, expiresAt)));
      if err.Some? {
        return Err(err.value);
      }
      r := Ok(Current().resetTokens[(userId, false)]);
    }

    /** FindPasswordResetToken, with the expiry test in the WHERE clause: one
        unexpired row whose token matches, if there is any. */
    method FindPasswordResetToken(token: string, now: Time) returns (r: Result<Sql.ResetToken>)
      ensures Stmt.FindPasswordResetToken in faults ==> r == Err(faults[Stmt.FindPasswordResetToken])
      ensures Stmt.FindPasswordResetToken !in faults ==>
        (r.Ok? <==> exists k :: Sql.MatchesResetToken(Current(), k, token, now)) &&
        (r.Ok? ==> var k := (r.value.userId, r.value.isUsed);
                   Sql.MatchesResetToken(Current(), k, token, now) && r.value == Sql.ResetTokenAt(Current(), k)) &&
        (r.Err? ==> r.error == NoRows)
    {
      if Stmt.FindPasswordResetToken in faults {
        return Err(faults[Stmt.FindPasswordResetToken]);
      }
      var t := Current();
      if k :| k in t.resetTokens && Sql.MatchesResetToken(t, k, token, now) {
        r := Ok(Sql.ResetTokenAt(t, k));
      } else {
        r := Err(NoRows);
      }
    }

    method MarkPasswordResetTokenAsUsed(token: string) returns (err: Option<Error>)
      modifies this
      ensures err == ErrorOf(Outcome(faults, Stmt.MarkPasswordResetTokenAsUsed, Sql.MarkPasswordResetTokenAsUsed(old(Current()), token)))
      ensures Stepped(Sql.MarkPasswordResetTokenAsUsed(old(Current()), token), err)
    {
      err := Apply(Stmt.MarkPasswordResetTokenAsUsed, Sql.MarkPasswordResetTokenAsUsed(Current(), token));
    }

    // --------------------------------------------------------- sessions

    method CreateUserSession(id: Uuid, userId: Uuid, expiresAt: Time, isMfaRequired: bool) returns (err: Option<Error>)
      modifies this
      ensures err == ErrorOf(Outcome(faults, Stmt.CreateUserSession, Sql.CreateUserSession(old(Current()), id, userId, expiresAt, isMfaRequired)))
      ensures Stepped(Sql.CreateUserSession(old(Current()), id, userId, expiresAt, isMfaRequired), err)
    {
      err := Apply(Stmt.CreateUserSession, Sql.CreateUserSession(Current(), id, userId, expiresAt, isMfaRequired));
    }

    method FindActiveSessionByID(id: Uuid, now: Time) returns (r: Result<Sql.SessionRow>)
      ensures r == Outcome(faults, Stmt.FindActiveSessionByID, Sql.FindActiveSessionByID(Current(), id, now))
    {
      r := Outcome(faults, Stmt.FindActiveSessionByID, Sql.FindActiveSessionByID(Current(), id, now));
    }

    method FindUserSessionByID(id: Uuid) returns (r: Result<Sql.SessionRow>)
      ensures r == Outcome(faults, Stmt.FindUserSessionByID, Sql.FindUserSessionByID(Current(), id))
    {
      r := Outcome(faults, Stmt.FindUserSessionByID, Sql.FindUserSessionByID(Current(), id));
    }

    /** ExpireSessionByID returns the id of the session it expired. */
    method ExpireSessionByID(id: Uuid) returns (r: Result<Uuid>)
      modifies this
      ensures ErrorOf(r) == ErrorOf(Outcome(faults, Stmt.ExpireSessionByID, Sql.ExpireSessionByID(old(Current()), id)))
      ensures r.Ok? ==> r.value == id
      ensures Stepped(Sql.ExpireSessionByID(old(Current()), id), ErrorOf(r))
    {
      var err := Apply(Stmt.ExpireSessionByID, Sql.ExpireSessionByID(Current(), id));
      r := if err.Some? then Err(err.value) else Ok(id);
    }

    method ExpireAllSessionsByUserID(userId: Uuid) returns (err: Option<Error>)
      modifies this
      ensures err == ErrorOf(Outcome(faults, Stmt.ExpireAllSessionsByUserID, Ok(())))
      ensures Stepped(Ok(Sql.ExpireAllSessionsByUserID(old(Current()), userId)), err)
    {
      err := Apply(Stmt.ExpireAllSessionsByUserID, Ok(Sql.ExpireAllSessionsByUserID(Current(), userId)));
    }

    method ExpireSomeSessionsByUserID(userId: Uuid, evictedBy: Uuid, keep: seq<Uuid>) returns (err: Option<Error>)
      modifies this
      ensures err == ErrorOf(Outcome(faults, Stmt.ExpireSomeSessionsByUserID, Ok(())))
      ensures Stepped(Ok(Sql.ExpireSomeSessionsByUserID(old(Current()), userId, evictedBy, keep)), err)
    {
      err := Apply(Stmt.ExpireSomeSessionsByUserID, Ok(Sql.ExpireSomeSessionsByUserID(Current(), userId, evictedBy, keep)));
    }

    method GetUserMFAs(userId: Uuid) returns (r: Result<seq<string>>)
      ensures r == Outcome(faults, Stmt.GetUserMFAs, Ok(Sql.GetUserMFAs(Current(), userId)))
    {
      r := Outcome(faults, Stmt.GetUserMFAs, Ok(Sql.GetUserMFAs(Current(), userId)));
    }

    // --------------------------------------------------- recovery codes

    method EvictUnconsumedRecoveryCodeBatch(userId: Uuid, evictedBy: Uuid) returns (err: Option<Error>)
      modifies this
      ensures err == ErrorOf(Outcome(faults, Stmt.EvictUnconsumedRecoveryCodeBatch, Ok(())))
      ensures Stepped(Ok(Sql.EvictUnconsumedRecoveryCodeBatch(old(Current()), userId, evictedBy)), err)
    {
      err := Apply(Stmt.EvictUnconsumedRecoveryCodeBatch, Ok(Sql.EvictUnconsumedRecoveryCodeBatch(Current(), userId, evictedBy)));
    }

    method CreateRecoveryCodeBatch(rows: seq<Sql.RecoveryCodeRow>) returns (err: Option<Error>)
      modifies this
      ensures err == ErrorOf(Outcome(faults, Stmt.CreateRecoveryCodeBatch, Ok(())))
      ensures Stepped(Ok(Sql.CreateRecoveryCodeBatch(old(Current()), rows)), err)
    {
      err := Apply(Stmt.CreateRecoveryCodeBatch, Ok(Sql.CreateRecoveryCodeBatch(Current(), rows)));
    }

    // ------------------------------------------------------- workspaces

    /** CreateWorkspace returns the id of the row it inserted. */
    method CreateWorkspace(id: Uuid, name: string, ownedBy: Uuid) returns (r: Result<Uuid>)
      modifies this
      ensures ErrorOf(r) == ErrorOf(Outcome(faults, Stmt.CreateWorkspace, Sql.CreateWorkspace(old(Current()), id, name, ownedBy)))
      ensures r.Ok? ==> r.value == id
      ensures Stepped(Sql.CreateWorkspace(old(Current()), id, name, ownedBy), ErrorOf(r))
    {
      var err := Apply(Stmt.CreateWorkspace, Sql.CreateWorkspace(Current(), id, name, ownedBy));
      r := if err.Some? then Err(err.value) else Ok(id);
    }

    method InviteUserToWorkspaceByEmail(id: Uuid, workspaceId: Uuid, email: string, expiresAt: Time) returns (err: Option<Error>)
      modifies this
      ensures err == ErrorOf(Outcome(faults, Stmt.InviteUserToWorkspaceByEmail, Ok(())))
      ensures Stepped(Ok(Sql.InviteUserToWorkspaceByEmail(old(Current()), id, workspaceId, email, expiresAt)), err)
    {
      err := Apply(Stmt.InviteUserToWorkspaceByEmail, Ok(Sql.InviteUserToWorkspaceByEmail(Current(), id, workspaceId, email, expiresAt)));
    }
  }

  /** uuidv7.Must and the typeid constructors: every call yields an id never
      handed out before.  Ids count up from 1, so none is the zero id. */
  class IdSource {
    var last: nat

    constructor ()
      ensures last == 0
    {
      last := 0;
    }

    method Next() returns (id: Uuid)
      modifies this
      ensures id == old(last) + 1 && last == id && id != NilId
    {
      last := last + 1;
      id := last;
    }
  }
}
