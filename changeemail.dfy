/** shielduser/handler.go: HandleChangeEmail, which moves the signed-in user
    to a new email address, re-keys the user's password credential to match
    in the same transaction, and then tells the new address. */
module UserHandler {
  import opened Base
  import Sql
  import Database
  import Context
  import ShieldSession
  import Sender

  const SessionFailed := "shielduser: failed to retrieve session"
  const BeginFailed := "shielduser: failed to begin transaction"
  const ChangeEmailFailed := "shielduser: failed to change user email"
  const ChangeCredentialFailed := "shielduser: failed to change password credential email"
  const CommitFailed := "shielduser: failed to commit transaction"
  const SendFailed := "shielduser: failed to send email change message"

  datatype Changed = Changed(err: Option<Error>, committed: Sql.Tables, sent: seq<Sender.Message>)

  /** The two updates of the transaction, in order, on the snapshot `t`:
      the user's row, then the user's password credential. */
  ghost function ChangeRows(faults: map<Database.Stmt, Error>, t: Sql.Tables, userId: Uuid, email: string): Result<Sql.Tables>
  {
    var u := Database.Outcome(faults, Database.ChangeUserEmailByID, Sql.ChangeUserEmailByID(t, userId, email));
    if u.Err? then Err(Wrapped(ChangeEmailFailed, u.error))
    else
      var c := Database.Outcome(faults, Database.ChangePasswordCredentialEmailByUserID,
                                Sql.ChangePasswordCredentialEmailByUserID(u.value, userId, email));
      if c.Err? then Err(Wrapped(ChangeCredentialFailed, c.error))
      else Ok(c.value)
  }

  /** HandleChangeEmail, given the session the context holds and whether the
      sender is down. */
  ghost function ChangeEmailSpec(faults: map<Database.Stmt, Error>, t: Sql.Tables, ctx: Context.Context,
                                 typeArg: string, email: string, sendFailure: Option<Error>): Changed
  {
    var s := ShieldSession.FromContext(ctx, typeArg);
    if s.Err? then Changed(Some(Wrapped(SessionFailed, s.error)), t, [])
    else if Database.BeginTx in faults then Changed(Some(Wrapped(BeginFailed, faults[Database.BeginTx])), t, [])
    else
      var w := ChangeRows(faults, t, s.value.userId, email);
      if w.Err? then Changed(Some(w.error), t, [])
      else if Database.CommitTx in faults then Changed(Some(Wrapped(CommitFailed, faults[Database.CommitTx])), t, [])
      else if sendFailure.Some? then Changed(Some(Wrapped(SendFailed, sendFailure.value)), w.value, [])
      else Changed(None, w.value, [Sender.Message(email, Sender.EmailChange)])
  }

  /** Both updates land together or not at all, and the message goes out
      only after the commit: the tables change only when both updates and
      the commit succeed, and something is sent exactly on success.  A
      request without a session is refused with nothing written or sent. */
  lemma ChangeEmailAtomic(faults: map<Database.Stmt, Error>, t: Sql.Tables, ctx: Context.Context,
                          typeArg: string, email: string, sendFailure: Option<Error>)
    ensures var x := ChangeEmailSpec(faults, t, ctx, typeArg, email, sendFailure);
      x.sent != [] <==> x.err.None?
    ensures var x := ChangeEmailSpec(faults, t, ctx, typeArg, email, sendFailure);
      x.committed == t ||
      (ShieldSession.FromContext(ctx, typeArg).Ok? &&
       Database.BeginTx !in faults && Database.CommitTx !in faults &&
       ChangeRows(faults, t, ShieldSession.FromContext(ctx, typeArg).value.userId, email) == Ok(x.committed) &&
       (x.err.None? || x.err == Some(Wrapped(SendFailed, sendFailure.value))))
    ensures var x := ChangeEmailSpec(faults, t, ctx, typeArg, email, sendFailure);
      ShieldSession.FromContext(ctx, typeArg).Err? ==>
        x == Changed(Some(Wrapped(SessionFailed, UnauthenticatedUser)), t, [])
  {
  }

  /** Taking an address another user already has fails on the first update
      with a unique violation, and nothing is written or sent. */
  lemma ChangeEmailToTakenAddress(faults: map<Database.Stmt, Error>, t: Sql.Tables, ctx: Context.Context,
                                  typeArg: string, email: string, sendFailure: Option<Error>)
    requires ShieldSession.FromContext(ctx, typeArg).Ok?
    requires Database.BeginTx !in faults && Database.ChangeUserEmailByID !in faults
    requires var id := ShieldSession.FromContext(ctx, typeArg).value.userId;
      id in t.users && exists u :: u in t.users && u != id && t.users[u].email == email
    ensures ChangeEmailSpec(faults, t, ctx, typeArg, email, sendFailure) ==
      Changed(Some(Wrapped(ChangeEmailFailed, UniqueViolation)), t, [])
  {
  }

  /** A successful change gives the user the new, unverified address and
      leaves every other user as it was; the user's password credential, if
      any, is now keyed by the new address and is the user's only one; and
      the message goes to the new address. */
  lemma ChangeEmailSuccess(faults: map<Database.Stmt, Error>, t: Sql.Tables, ctx: Context.Context,
                           typeArg: string, email: string, sendFailure: Option<Error>)
    requires ChangeEmailSpec(faults, t, ctx, typeArg, email, sendFailure).err.None?
    ensures var x := ChangeEmailSpec(faults, t, ctx, typeArg, email, sendFailure);
      var id := ShieldSession.FromContext(ctx, typeArg).value.userId;
      x.sent == [Sender.Message(email, Sender.EmailChange)] &&
      x.committed.users.Keys == t.users.Keys &&
      (id in t.users ==> x.committed.users[id] == Sql.UserRow(email, false)) &&
      (forall u :: u in t.users && u != id ==> x.committed.users[u] == t.users[u]) &&
      (Sql.HasPasswordCredential(t, id) ==>
         Sql.IsPasswordCredentialOf(x.committed, (Sql.PasswordCredential, email), id) &&
         forall k :: Sql.IsPasswordCredentialOf(x.committed, k, id) ==> k == (Sql.PasswordCredential, email))
  {
    var x := ChangeEmailSpec(faults, t, ctx, typeArg, email, sendFailure);
    var id := ShieldSession.FromContext(ctx, typeArg).value.userId;
    var u := Sql.ChangeUserEmailByID(t, id, email);
    assert u.Ok?;
    var c := Sql.ChangePasswordCredentialEmailByUserID(u.value, id, email);
    assert c.Ok? && x.committed == c.value;
    assert u.value.credentials == t.credentials;
    assert Sql.HasPasswordCredential(t, id) ==> Sql.HasPasswordCredential(u.value, id);
  }

  /** After a successful change the user signs in with the new address and
      the password it had: the login lookup by the new address finds the
      user, unverified, with the secret of the user's former password
      credential. */
  lemma ChangeEmailThenLogin(faults: map<Database.Stmt, Error>, t: Sql.Tables, ctx: Context.Context,
                             typeArg: string, email: string, sendFailure: Option<Error>)
    requires ChangeEmailSpec(faults, t, ctx, typeArg, email, sendFailure).err.None?
    requires var id := ShieldSession.FromContext(ctx, typeArg).value.userId;
      id in t.users && Sql.HasPasswordCredential(t, id)
    ensures var x := ChangeEmailSpec(faults, t, ctx, typeArg, email, sendFailure);
      var id := ShieldSession.FromContext(ctx, typeArg).value.userId;
      var r := Sql.FindUserWithPasswordCredentialByEmail(x.committed, email);
      r.Ok? && r.value.id == id && !r.value.isEmailVerified &&
      exists k :: Sql.IsPasswordCredentialOf(t, k, id) && r.value.passwordHash == t.credentials[k].secret
  {
    var x := ChangeEmailSpec(faults, t, ctx, typeArg, email, sendFailure);
    var id := ShieldSession.FromContext(ctx, typeArg).value.userId;
    ChangeEmailSuccess(faults, t, ctx, typeArg, email, sendFailure);
    var u := Sql.ChangeUserEmailByID(t, id, email);
    var c := Sql.ChangePasswordCredentialEmailByUserID(u.value, id, email);
    assert x.committed == c.value;
    assert u.value.credentials == t.credentials;
    assert Sql.HasPasswordCredential(u.value, id);
    var k :| Sql.IsPasswordCredentialOf(u.value, k, id) && c.value.credentials[(Sql.PasswordCredential, email)] == u.value.credentials[k];
    assert Sql.IsPasswordCredentialOf(t, k, id);
    assert x.committed.users[id] == Sql.UserRow(email, false);
  }

  /** HandleChangeEmail: the session's user, both updates in one
      transaction, the commit, then the message to the new address.  The
      deferred rollback drops the transaction on every early return. */
  method HandleChangeEmail(store: Database.Store, outbox: Sender.Outbox, ctx: Context.Context,
                           typeArg: string, email: string)
    returns (err: Option<Error>)
    requires !store.inTx
    modifies store, outbox
    ensures !store.inTx
    ensures var x := ChangeEmailSpec(store.faults, old(store.committed), ctx, typeArg, email, outbox.failure);
      err == x.err && store.committed == x.committed && outbox.sent == old(outbox.sent) + x.sent
  {
    ghost var t := store.committed;
    var sess := ShieldSession.FromContext(ctx, typeArg);
    if sess.Err? {
      return Some(Wrapped(SessionFailed, sess.error));
    }
    var userId := sess.value.userId;
    var e := store.Begin();
    if e.Some? {
      return Some(Wrapped(BeginFailed, e.value));
    }
    e := store.ChangeUserEmailByID(userId, email);
    if e.Some? {
      store.Rollback();
      return Some(Wrapped(ChangeEmailFailed, e.value));
    }
    e := store.ChangePasswordCredentialEmailByUserID(userId, email);
    if e.Some? {
      store.Rollback();
      return Some(Wrapped(ChangeCredentialFailed, e.value));
    }
    assert ChangeRows(store.faults, t, userId, email) == Ok(store.work);
    e := store.Commit();
    if e.Some? {
      return Some(Wrapped(CommitFailed, e.value));
    }
    e := outbox.Send(Sender.Message(email, Sender.EmailChange));
    if e.Some? {
      return Some(Wrapped(SendFailed, e.value));
    }
    err := None;
  }
}
