/** shieldpassword/handler.go: registering a user with a password, logging in
    with it, and changing it.  Each handler is a method on the store and the
    id source, specified by a function of the committed state before it;
    what the handlers promise is stated as lemmas about those functions. */
module PasswordHandler {
  import opened Base
  import Sql
  import Database
  import Context
  import PasswordHash
  import ShieldSession
  import Authenticators

  const HashFailed := "shield/password: failed to hash password"
  const BeginFailed := "shield/password: failed to begin transaction"
  const RegisterFailed := "shield/password: failed to register a user"
  const RegisterHookFailed := "shield/password: failed to hook user registration"
  const FindUserFailed := "shield/password: failed to find user"
  const LoginHookFailed := "shield/password: failed to hook user login"
  const LoginFailed := "shield/password: failed to login a user"
  const VerifyFailed := "shield/password: failed to verify password"
  const NoSessionInContext := "shield/password: failed to retrieve session from the context"
  const FindCredentialFailed := "shield/password: failed to retrieve users credentials"
  const CreateCredentialFailed := "shield/password: failed to create user credential"
  const ExpireFailed := "shield/password: failed to expire sessions"

  /** Hooker[U]: the application's callbacks, each given the user id and
      answering the user's payload beside its error. */
  datatype Hooker = Hooker(
    onUserRegistration: Uuid -> (Payload, Option<Error>),
    onUserLogin: Uuid -> (Payload, Option<Error>))

  /** Config[U]: the hooker, if any.  The password hasher is the bcrypt one
      of module PasswordHash. */
  datatype Config = Config(hooker: Option<Hooker>)

  function WithHooker(h: Hooker): (Config -> Config)
  {
    (c: Config) => c.(hooker := Some(h))
  }

  /** NewConfig: the options applied to the zero config; defaults() only
      fills the logger and the hasher. */
  function NewConfig(opts: seq<Config -> Config>): Config
  {
    ApplyOptions(Config(None), opts)
  }

  lemma NewConfigDefaults(h: Hooker)
    ensures NewConfig([]).hooker.None?
    ensures NewConfig([WithHooker(h)]).hooker == Some(h)
  {
    assert ApplyOptions(Config(None), [WithHooker(h)]) == ApplyOptions(Config(Some(h)), []);
  }

  /** shield.User[U] as the handlers return it: an id and a pointer to the
      payload. */
  datatype User = User(id: Uuid, payload: Option<Payload>)

  /** The zero shield.User[U] returned beside every error. */
  const ZeroUser := User(NilId, None)

  /** The zero value of U that the payload keeps when no hook runs. */
  const ZeroPayload: Payload := ""

  // ----------------------------------------------------------- Registration

  datatype Registered = Registered(user: User, err: Option<Error>, committed: Sql.Tables, idsUsed: nat)

  /** HandleUserRegistration, given the two ids the id source hands out:
      `uid` for the user and then `cid` for the credential. */
  function RegisterSpec(cfg: Config, faults: map<Database.Stmt, Error>, t: Sql.Tables, ctx: Context.Context,
                        email: string, password: string, uid: Uuid, cid: Uuid): Registered
  {
    if ShieldSession.IsAuthenticated(ctx) then Registered(ZeroUser, Some(AuthenticatedUser), t, 0)
    else
      var h := PasswordHash.Hash(password);
      if h.Err? then Registered(ZeroUser, Some(Wrapped(HashFailed, h.error)), t, 0)
      else if Database.BeginTx in faults then Registered(ZeroUser, Some(Wrapped(BeginFailed, faults[Database.BeginTx])), t, 0)
      else RegisterFrom(cfg, faults, t, email, h.value, uid, cid)
  }

  /** Registration once the transaction is open: the user row, its
      credential, the hook, and the commit. */
  function RegisterFrom(cfg: Config, faults: map<Database.Stmt, Error>, t: Sql.Tables,
                        email: string, passwordHash: string, uid: Uuid, cid: Uuid): Registered
  {
    var c := Database.Outcome(faults, Database.CreateUser, Sql.CreateUser(t, uid, email));
    if c.Err? then
      Registered(ZeroUser, Some(if IsUniqueViolation(c.error) then EmailAlreadyTaken else Wrapped(RegisterFailed, c.error)), t, 1)
    else if Database.UpsertPasswordCredentialByUserID in faults then
      Registered(ZeroUser, Some(Wrapped(RegisterFailed, faults[Database.UpsertPasswordCredentialByUserID])), t, 2)
    else
      var t' := Sql.UpsertPasswordCredentialByUserID(c.value, cid, uid, email, passwordHash);
      var hook := if cfg.hooker.Some? then cfg.hooker.value.onUserRegistration(uid) else (ZeroPayload, None);
      if hook.1.Some? then Registered(ZeroUser, Some(Wrapped(RegisterHookFailed, hook.1.value)), t, 2)
      else if Database.CommitTx in faults then Registered(ZeroUser, Some(Wrapped(RegisterFailed, faults[Database.CommitTx])), t, 2)
      else Registered(User(uid, Some(hook.0)), None, t', 2)
  }

  /** Registration is all or nothing.  It fails with ErrAuthenticatedUser
      for an authenticated request; on success it has added exactly one new
      user with the email, unverified, and one 'password' credential keyed
      by the email with the hash of the password, and returns the new id.
      The unique email stays unique. */
  lemma RegisterAtomic(cfg: Config, faults: map<Database.Stmt, Error>, t: Sql.Tables, ctx: Context.Context,
                       email: string, password: string, uid: Uuid, cid: Uuid)
    ensures var x := RegisterSpec(cfg, faults, t, ctx, email, password, uid, cid);
      ShieldSession.IsAuthenticated(ctx) ==> x.err == Some(AuthenticatedUser) && x.idsUsed == 0
    ensures var x := RegisterSpec(cfg, faults, t, ctx, email, password, uid, cid);
      x.err.Some? ==> x.committed == t && x.user == ZeroUser
    ensures var x := RegisterSpec(cfg, faults, t, ctx, email, password, uid, cid);
      x.err.None? ==>
        x.user.id == uid && uid !in t.users && !Sql.EmailTaken(t, email) &&
        x.committed.users == t.users[uid := Sql.UserRow(email, false)] &&
        x.committed.credentials.Keys == t.credentials.Keys + {(Sql.PasswordCredential, email)} &&
        x.committed.credentials[(Sql.PasswordCredential, email)].secret == PasswordHash.Hash(password).value &&
        (forall k :: k in t.credentials && k != (Sql.PasswordCredential, email) ==> x.committed.credentials[k] == t.credentials[k]) &&
        x.committed.(users := t.users, credentials := t.credentials) == t
    ensures var x := RegisterSpec(cfg, faults, t, ctx, email, password, uid, cid);
      Sql.Valid(t) ==> Sql.Valid(x.committed)
  {
    var x := RegisterSpec(cfg, faults, t, ctx, email, password, uid, cid);
    if x.err.None? {
      var c := Sql.CreateUser(t, uid, email);
      assert c.Ok? && Database.Outcome(faults, Database.CreateUser, c) == c;
      var t' := Sql.UpsertPasswordCredentialByUserID(c.value, cid, uid, email, PasswordHash.Hash(password).value);
      assert x.committed == t';
      assert t'.users == c.value.users;
    }
  }

  /** A taken email is reported as ErrEmailAlreadyTaken and as nothing
      else, once the request gets as far as inserting the user. */
  lemma RegisterEmailTaken(cfg: Config, faults: map<Database.Stmt, Error>, t: Sql.Tables, ctx: Context.Context,
                           email: string, password: string, uid: Uuid, cid: Uuid)
    requires !ShieldSession.IsAuthenticated(ctx) && PasswordHash.Hash(password).Ok?
    requires Database.BeginTx !in faults && Database.CreateUser !in faults
    ensures var x := RegisterSpec(cfg, faults, t, ctx, email, password, uid, cid);
      x.err == Some(EmailAlreadyTaken) <==> Sql.EmailTaken(t, email) || uid in t.users
  {
  }

  /** HandleUserRegistration: hash the password outside the transaction,
      then insert the user and its credential, run the hook and commit. */
  method HandleUserRegistration(cfg: Config, store: Database.Store, ids: Database.IdSource, ctx: Context.Context,
                                email: string, password: string)
    returns (user: User, err: Option<Error>)
    requires !store.inTx
    modifies store, ids
    ensures !store.inTx
    ensures var x := RegisterSpec(cfg, store.faults, old(store.committed), ctx, email, password,
                                  old(ids.last) + 1, old(ids.last) + 2);
      user == x.user && err == x.err && store.committed == x.committed && ids.last == old(ids.last) + x.idsUsed
  {
    user := ZeroUser;
    ghost var t := store.committed;
    ghost var x := RegisterSpec(cfg, store.faults, t, ctx, email, password, ids.last + 1, ids.last + 2);
    if ShieldSession.IsAuthenticated(ctx) {
      assert x == Registered(ZeroUser, Some(AuthenticatedUser), t, 0);
      return user, Some(AuthenticatedUser);
    }
    var h := PasswordHash.Hash(password);
    if h.Err? {
      assert x == Registered(ZeroUser, Some(Wrapped(HashFailed, h.error)), t, 0);
      return user, Some(Wrapped(HashFailed, h.error));
    }
    var e := store.Begin();
    if e.Some? {
      assert x == Registered(ZeroUser, Some(Wrapped(BeginFailed, e.value)), t, 0);
      return user, Some(Wrapped(BeginFailed, e.value));
    }
    assert x == RegisterFrom(cfg, store.faults, t, email, h.value, ids.last + 1, ids.last + 2);
    user, err := RegisterAndCommit(cfg, store, ids, email, h.value);
  }

  /** The steps of HandleUserRegistration in the transaction it opened. */
  method RegisterAndCommit(cfg: Config, store: Database.Store, ids: Database.IdSource, email: string, passwordHash: string)
    returns (user: User, err: Option<Error>)
    requires store.inTx && store.work == store.committed
    modifies store, ids
    ensures !store.inTx
    ensures var x := RegisterFrom(cfg, store.faults, old(store.committed), email, passwordHash,
                                  old(ids.last) + 1, old(ids.last) + 2);
      user == x.user && err == x.err && store.committed == x.committed && ids.last == old(ids.last) + x.idsUsed
  {
    user := ZeroUser;
    var uid, e := RegisterInTx(store, ids, email, passwordHash);
    if e.Some? {
      store.Rollback();
      return user, e;
    }
    var payload := ZeroPayload;
    if cfg.hooker.Some? {
      var hook := cfg.hooker.value.onUserRegistration(uid);
      payload := hook.0;
      if hook.1.Some? {
        store.Rollback();
        return user, Some(Wrapped(RegisterHookFailed, hook.1.value));
      }
    }
    e := store.Commit();
    if e.Some? {
      return user, Some(Wrapped(RegisterFailed, e.value));
    }
    user := User(uid, Some(payload));
    err := None;
  }

  /** handleUserRegistrationTx: the user row, then its credential, in the
      open transaction. */
  method RegisterInTx(store: Database.Store, ids: Database.IdSource, email: string, passwordHash: string)
    returns (uid: Uuid, err: Option<Error>)
    requires store.inTx
    modifies store, ids
    ensures store.inTx && store.committed == old(store.committed)
    ensures uid == old(ids.last) + 1
    ensures var c := Database.Outcome(store.faults, Database.CreateUser, Sql.CreateUser(old(store.work), uid, email));
      if c.Err? then
        ids.last == old(ids.last) + 1 && store.work == old(store.work) &&
        err == Some(if IsUniqueViolation(c.error) then EmailAlreadyTaken else Wrapped(RegisterFailed, c.error))
      else
        ids.last == old(ids.last) + 2 &&
        if Database.UpsertPasswordCredentialByUserID in store.faults then
          err == Some(Wrapped(RegisterFailed, store.faults[Database.UpsertPasswordCredentialByUserID]))
        else
          err.None? && store.work == Sql.UpsertPasswordCredentialByUserID(c.value, uid + 1, uid, email, passwordHash)
  {
    uid := ids.Next();
    var e := store.CreateUser(uid, email);
    if e.Some? {
      if IsUniqueViolation(e.value) {
        return uid, Some(EmailAlreadyTaken);
      }
      return uid, Some(Wrapped(RegisterFailed, e.value));
    }
    var cid := ids.Next();
    e := store.UpsertPasswordCredentialByUserID(cid, uid, email, passwordHash);
    if e.Some? {
      return uid, Some(Wrapped(RegisterFailed, e.value));
    }
    err := None;
  }

  // ------------------------------------------------------------------ Login

  datatype LoggedIn = LoggedIn(user: User, err: Option<Error>)

  /** HandleUserLogin.  The login hook is called with the still-zero id of
      the user being built, not with the id of the row found. */
  function LoginSpec(cfg: Config, faults: map<Database.Stmt, Error>, t: Sql.Tables, ctx: Context.Context,
                     email: string, password: string): LoggedIn
  {
    if ShieldSession.IsAuthenticated(ctx) then LoggedIn(ZeroUser, Some(AuthenticatedUser))
    else if Database.BeginTx in faults then LoggedIn(ZeroUser, Some(Wrapped(BeginFailed, faults[Database.BeginTx])))
    else
      var f := Database.Outcome(faults, Database.FindUserWithPasswordCredentialByEmail,
                                Sql.FindUserWithPasswordCredentialByEmail(t, email));
      if f.Err? then LoggedIn(ZeroUser, Some(if IsNotFound(f.error) then UserNotFound else Wrapped(FindUserFailed, f.error)))
      else if f.value.passwordHash == "" then LoggedIn(ZeroUser, Some(UserNotFound))
      else
        var hook := if cfg.hooker.Some? then cfg.hooker.value.onUserLogin(ZeroUser.id) else (ZeroPayload, None);
        if hook.1.Some? then LoggedIn(ZeroUser, Some(Wrapped(LoginHookFailed, hook.1.value)))
        else if Database.CommitTx in faults then LoggedIn(ZeroUser, Some(Wrapped(LoginFailed, faults[Database.CommitTx])))
        else
          var v := PasswordHash.Verify(f.value.passwordHash, password);
          if v.Err? then LoggedIn(ZeroUser, Some(Wrapped(VerifyFailed, v.error)))
          else if !v.value then LoggedIn(ZeroUser, Some(PasswordIncorrect))
          else LoggedIn(User(f.value.id, Some(hook.0)), None)
  }

  /** With a store that refuses nothing and no hooker, login succeeds
      exactly when the request is not authenticated, the email has a
      password credential of its own user, and the password verifies
      against it; the user returned is that one.  The errors tell the
      failures apart: ErrUserNotFound for a missing or empty credential,
      ErrPasswordIncorrect for a wrong password. */
  lemma LoginOutcome(cfg: Config, t: Sql.Tables, ctx: Context.Context, email: string, password: string)
    requires cfg.hooker.None?
    ensures var x := LoginSpec(cfg, map[], t, ctx, email, password);
      var f := Sql.FindUserWithPasswordCredentialByEmail(t, email);
      (x.err.None? <==> !ShieldSession.IsAuthenticated(ctx) && f.Ok? && f.value.passwordHash != "" &&
                        PasswordHash.Verify(f.value.passwordHash, password) == Ok(true)) &&
      (x.err.None? ==> x.user == User(f.value.id, Some(ZeroPayload))) &&
      (x.err == Some(UserNotFound) <==> !ShieldSession.IsAuthenticated(ctx) && (f.Err? || f.value.passwordHash == "")) &&
      (x.err == Some(PasswordIncorrect) <==>
         (!ShieldSession.IsAuthenticated(ctx) && f.Ok? && f.value.passwordHash != "" &&
          PasswordHash.Verify(f.value.passwordHash, password) == Ok(false)))
  {
  }

  /** The login hook sees the zero user id whatever row is found, and its
      payload is the one a successful login returns. */
  lemma LoginHookGetsNilId(cfg: Config, faults: map<Database.Stmt, Error>, t: Sql.Tables, ctx: Context.Context,
                           email: string, password: string)
    requires cfg.hooker.Some?
    ensures var x := LoginSpec(cfg, faults, t, ctx, email, password);
      x.err.None? ==> x.user.payload == Some(cfg.hooker.value.onUserLogin(NilId).0)
  {
  }

  /** A user who has just registered can log in with the password, and with
      no other, on a store where no credential was keyed by the email. */
  lemma RegisterThenLogin(cfg: Config, t: Sql.Tables, ctx: Context.Context, email: string, password: string,
                          other: string, uid: Uuid, cid: Uuid)
    requires cfg.hooker.None? && (Sql.PasswordCredential, email) !in t.credentials
    ensures var x := RegisterSpec(cfg, map[], t, ctx, email, password, uid, cid);
      x.err.None? ==>
        LoginSpec(cfg, map[], x.committed, Context.Background, email, password) == LoggedIn(x.user, None) &&
        (other != password ==> LoginSpec(cfg, map[], x.committed, Context.Background, email, other).err == Some(PasswordIncorrect))
  {
    var x := RegisterSpec(cfg, map[], t, ctx, email, password, uid, cid);
    if x.err.None? {
      PasswordHash.VerifyHash(password);
      if other != password {
        PasswordHash.VerifyMismatch(password, other);
      }
    }
  }

  /** HandleUserLogin: look the credential up and run the hook in a
      transaction that writes nothing, commit, and only then verify the
      password. */
  method HandleUserLogin(cfg: Config, store: Database.Store, ctx: Context.Context, email: string, password: string)
    returns (user: User, err: Option<Error>)
    requires !store.inTx
    modifies store
    ensures !store.inTx && store.committed == old(store.committed)
    ensures var x := LoginSpec(cfg, store.faults, old(store.committed), ctx, email, password);
      user == x.user && err == x.err
  {
    user := ZeroUser;
    if ShieldSession.IsAuthenticated(ctx) {
      return user, Some(AuthenticatedUser);
    }
    var e := store.Begin();
    if e.Some? {
      return user, Some(Wrapped(BeginFailed, e.value));
    }
    var f := store.FindUserWithPasswordCredentialByEmail(email);
    if f.Err? {
      store.Rollback();
      if IsNotFound(f.error) {
        return user, Some(UserNotFound);
      }
      return user, Some(Wrapped(FindUserFailed, f.error));
    }
    if f.value.passwordHash == "" {
      store.Rollback();
      return user, Some(UserNotFound);
    }
    var payload := ZeroPayload;
    if cfg.hooker.Some? {
      var hook := cfg.hooker.value.onUserLogin(user.id);
      payload := hook.0;
      if hook.1.Some? {
        store.Rollback();
        return user, Some(Wrapped(LoginHookFailed, hook.1.value));
      }
    }
    e := store.Commit();
    if e.Some? {
      return user, Some(Wrapped(LoginFailed, e.value));
    }
    var v := PasswordHash.Verify(f.value.passwordHash, password);
    if v.Err? {
      return user, Some(Wrapped(VerifyFailed, v.error));
    }
    if !v.value {
      return user, Some(PasswordIncorrect);
    }
    user := User(f.value.id, Some(payload));
    err := None;
  }

  // -------------------------------------------------------- Change password

  datatype Changed = Changed(err: Option<Error>, committed: Sql.Tables, idsUsed: nat)

  /** The end of a password change, once the credential step is done in
      the transaction's tables `tx`: expire the other sessions (tolerating
      an authenticator that cannot) and commit. */
  function ExpireAndCommit(a: Authenticators.Authenticator, faults: map<Database.Stmt, Error>, t: Sql.Tables,
                           tx: Sql.Tables, ctx: Context.Context, typeArg: string, idsUsed: nat): (x: Changed)
    ensures x.err.Some? ==> x.committed == t
    ensures x.err.None? ==> x.committed == tx.(sessions := x.committed.sessions)
    ensures x.idsUsed == idsUsed
  {
    ExpireSessionsOnlySessions(a, faults, tx, ctx, typeArg);
    var e := Authenticators.ExpireSessionsSpec(a, faults, tx, ctx, typeArg);
    if e.err.Some? && !Is(e.err.value, Unsupported) then Changed(Some(Wrapped(ExpireFailed, e.err.value)), t, idsUsed)
    else if Database.CommitTx in faults then Changed(Some(Wrapped(RegisterFailed, faults[Database.CommitTx])), t, idsUsed)
    else Changed(None, e.tables, idsUsed)
  }

  /** HandleChangeUserPassword as written, given the row the credential
      lookup returned and the id the credential would get.  When the user
      has a password, the old one is checked but the new hash is never
      stored. */
  function ChangeUserPasswordSpec(a: Authenticators.Authenticator, faults: map<Database.Stmt, Error>, t: Sql.Tables,
                                  ctx: Context.Context, typeArg: string, oldPassword: string, newPassword: string,
                                  found: Result<Sql.UserWithOptionalPassword>, cid: Uuid): Changed
  {
    var s := ShieldSession.FromContext(ctx, typeArg);
    if s.Err? then Changed(Some(Wrapped(NoSessionInContext, s.error)), t, 0)
    else
      var h := PasswordHash.Hash(newPassword);
      if h.Err? then Changed(Some(Wrapped(HashFailed, h.error)), t, 0)
      else if Database.BeginTx in faults then Changed(Some(Wrapped(BeginFailed, faults[Database.BeginTx])), t, 0)
      else ChangeInTx(a, faults, t, ctx, typeArg, oldPassword, h.value, found, cid)
  }

  /** What FindUserWithPasswordCredentialByUserID may answer for `userId`
      in tables `t`: the server's error when it refuses the statement;
      otherwise the user's row, with the secret of one of its password
      credentials, exactly when the user exists, and no rows when not. */
  predicate LookedUp(faults: map<Database.Stmt, Error>, t: Sql.Tables, userId: Uuid,
                     found: Result<Sql.UserWithOptionalPassword>)
  {
    if Database.FindUserWithPasswordCredentialByUserID in faults then
      found == Err(faults[Database.FindUserWithPasswordCredentialByUserID])
    else
      (found.Ok? <==> userId in t.users) &&
      (found.Ok? ==> Sql.IsUserWithOptionalPassword(t, userId, found.value)) &&
      (found.Err? ==> found.error == NoRows)
  }

  /** HandleChangeUserPassword once its transaction is open: the lookup of
      the user's row, then the rest as ChangeFound says. */
  function ChangeInTx(a: Authenticators.Authenticator, faults: map<Database.Stmt, Error>, t: Sql.Tables,
                      ctx: Context.Context, typeArg: string, oldPassword: string, hash: string,
                      found: Result<Sql.UserWithOptionalPassword>, cid: Uuid): Changed
  {
    if found.Err? then Changed(Some(Wrapped(FindCredentialFailed, found.error)), t, 0)
    else ChangeFound(a, faults, t, ctx, typeArg, oldPassword, hash, found.value, cid)
  }

  /** The rest of HandleChangeUserPassword as written, once the user's row
      is found: a user without a password and an empty old password gets
      a first credential; anyone else only has the old password checked. */
  function ChangeFound(a: Authenticators.Authenticator, faults: map<Database.Stmt, Error>, t: Sql.Tables,
                       ctx: Context.Context, typeArg: string, oldPassword: string, hash: string,
                       row: Sql.UserWithOptionalPassword, cid: Uuid): Changed
  {
    if row.passwordHash.None? && oldPassword == "" then
      if Database.UpsertPasswordCredentialByUserID in faults then
        Changed(Some(Wrapped(CreateCredentialFailed, faults[Database.UpsertPasswordCredentialByUserID])), t, 1)
      else
        var tx := Sql.UpsertPasswordCredentialByUserID(t, cid, row.id, row.email, hash);
        ExpireAndCommit(a, faults, t, tx, ctx, typeArg, 1)
    else
      var v := PasswordHash.Verify(if row.passwordHash.Some? then row.passwordHash.value else "", oldPassword);
      if v.Err? then Changed(Some(Wrapped(VerifyFailed, v.error)), t, 0)
      else if !v.value then Changed(Some(PasswordIncorrect), t, 0)
      else ExpireAndCommit(a, faults, t, t, ctx, typeArg, 0)
  }

  /** Changing the password is all or nothing, needs a session in the
      context, and refuses a wrong old password with ErrPasswordIncorrect. */
  lemma ChangeUserPasswordAtomic(a: Authenticators.Authenticator, faults: map<Database.Stmt, Error>, t: Sql.Tables,
                                 ctx: Context.Context, typeArg: string, oldPassword: string, newPassword: string,
                                 found: Result<Sql.UserWithOptionalPassword>, cid: Uuid)
    ensures var x := ChangeUserPasswordSpec(a, faults, t, ctx, typeArg, oldPassword, newPassword, found, cid);
      x.err.Some? ==> x.committed == t
    ensures var x := ChangeUserPasswordSpec(a, faults, t, ctx, typeArg, oldPassword, newPassword, found, cid);
      ShieldSession.FromContext(ctx, typeArg).Err? ==> x.err.Some?
    ensures var x := ChangeUserPasswordSpec(a, faults, t, ctx, typeArg, oldPassword, newPassword, found, cid);
      ShieldSession.FromContext(ctx, typeArg).Ok? && PasswordHash.Hash(newPassword).Ok? && Database.BeginTx !in faults &&
      found.Ok? && found.value.passwordHash.Some? &&
      PasswordHash.Verify(found.value.passwordHash.value, oldPassword) == Ok(false) ==>
        x.err == Some(PasswordIncorrect)
  {
  }

  /** The change looks up the session's user: an unknown user is refused
      with the lookup's no-rows error and nothing written; a known user's
      row carries a hash exactly when the user has a password credential,
      and a wrong old password against that hash is ErrPasswordIncorrect. */
  lemma ChangeUserPasswordLooksUpSessionUser(a: Authenticators.Authenticator, faults: map<Database.Stmt, Error>,
                                             t: Sql.Tables, ctx: Context.Context, typeArg: string,
                                             oldPassword: string, newPassword: string,
                                             found: Result<Sql.UserWithOptionalPassword>, cid: Uuid)
    requires ShieldSession.FromContext(ctx, typeArg).Ok? && PasswordHash.Hash(newPassword).Ok? && Database.BeginTx !in faults
    requires Database.FindUserWithPasswordCredentialByUserID !in faults
    requires LookedUp(faults, t, ShieldSession.FromContext(ctx, typeArg).value.userId, found)
    ensures var uid := ShieldSession.FromContext(ctx, typeArg).value.userId;
      var x := ChangeUserPasswordSpec(a, faults, t, ctx, typeArg, oldPassword, newPassword, found, cid);
      uid !in t.users ==> x == Changed(Some(Wrapped(FindCredentialFailed, NoRows)), t, 0)
    ensures var uid := ShieldSession.FromContext(ctx, typeArg).value.userId;
      uid in t.users ==>
        found.Ok? && found.value.id == uid && (found.value.passwordHash.Some? <==> Sql.HasPasswordCredential(t, uid))
    ensures var uid := ShieldSession.FromContext(ctx, typeArg).value.userId;
      var x := ChangeUserPasswordSpec(a, faults, t, ctx, typeArg, oldPassword, newPassword, found, cid);
      uid in t.users && Sql.HasPasswordCredential(t, uid) &&
      PasswordHash.Verify(found.value.passwordHash.value, oldPassword) == Ok(false) ==>
        x.err == Some(PasswordIncorrect) && x.committed == t
  {
  }

  /** When the user already has a password, a successful change leaves
      every credential as it was: the old password still logs in and the
      new one does not. */
  lemma ChangeUserPasswordKeepsOldPassword(a: Authenticators.Authenticator, faults: map<Database.Stmt, Error>, t: Sql.Tables,
                                           ctx: Context.Context, typeArg: string, oldPassword: string, newPassword: string,
                                           found: Result<Sql.UserWithOptionalPassword>, cid: Uuid)
    requires found.Ok? && found.value.passwordHash.Some?
    ensures var x := ChangeUserPasswordSpec(a, faults, t, ctx, typeArg, oldPassword, newPassword, found, cid);
      x.err.None? ==> x.committed.credentials == t.credentials
  {
    var x := ChangeUserPasswordSpec(a, faults, t, ctx, typeArg, oldPassword, newPassword, found, cid);
    if x.err.None? {
      assert !(found.value.passwordHash.None? && oldPassword == "");
      assert x == ExpireAndCommit(a, faults, t, t, ctx, typeArg, 0);
    }
  }

  /** The request that shows it: user 1, "a@b", with password "old", asks
      to change it to "new"; the change succeeds, yet "new" is refused at
      login and "old" is still accepted. */
  lemma ChangeUserPasswordCounterexample()
    ensures var h := PasswordHash.Prefix + "old";
      var t := Sql.EmptyTables.(users := map[1 := Sql.UserRow("a@b", false)],
                                credentials := map[(Sql.PasswordCredential, "a@b") := Sql.CredentialRow(2, 1, h)]);
      var ctx := Context.Background.(session := Some(Context.Typed("S", Context.Session(3, 1, 10, None))));
      var x := ChangeUserPasswordSpec(Authenticators.Union([]), map[], t, ctx, "S", "old", "new",
                                      Ok(Sql.UserWithOptionalPassword(1, "a@b", Some(h))), 4);
      x.err.None? &&
      LoginSpec(Config(None), map[], x.committed, Context.Background, "a@b", "new").err == Some(PasswordIncorrect) &&
      LoginSpec(Config(None), map[], x.committed, Context.Background, "a@b", "old") == LoggedIn(User(1, Some(ZeroPayload)), None)
  {
    var h := PasswordHash.Prefix + "old";
    assert PasswordHash.Hash("old") == Ok(h);
    PasswordHash.VerifyHash("old");
    PasswordHash.VerifyMismatch("old", "new");
  }

  /** HandleChangeUserPassword as its documentation describes it: once the
      old password verifies, the credential keyed by the user's email gets
      the new hash, as it does for a user without a password. */
  function ChangeUserPasswordCorrected(a: Authenticators.Authenticator, faults: map<Database.Stmt, Error>, t: Sql.Tables,
                                       ctx: Context.Context, typeArg: string, oldPassword: string, newPassword: string,
                                       found: Result<Sql.UserWithOptionalPassword>, cid: Uuid): Changed
  {
    var s := ShieldSession.FromContext(ctx, typeArg);
    if s.Err? then Changed(Some(Wrapped(NoSessionInContext, s.error)), t, 0)
    else
      var h := PasswordHash.Hash(newPassword);
      if h.Err? then Changed(Some(Wrapped(HashFailed, h.error)), t, 0)
      else if Database.BeginTx in faults then Changed(Some(Wrapped(BeginFailed, faults[Database.BeginTx])), t, 0)
      else if found.Err? then Changed(Some(Wrapped(FindCredentialFailed, found.error)), t, 0)
      else
        var v := if found.value.passwordHash.None? && oldPassword == "" then Ok(true)
                 else PasswordHash.Verify(if found.value.passwordHash.Some? then found.value.passwordHash.value else "", oldPassword);
        if v.Err? then Changed(Some(Wrapped(VerifyFailed, v.error)), t, 0)
        else if !v.value then Changed(Some(PasswordIncorrect), t, 0)
        else if Database.UpsertPasswordCredentialByUserID in faults then
          Changed(Some(Wrapped(CreateCredentialFailed, faults[Database.UpsertPasswordCredentialByUserID])), t, 1)
        else
          var tx := Sql.UpsertPasswordCredentialByUserID(t, cid, found.value.id, found.value.email, h.value);
          ExpireAndCommit(a, faults, t, tx, ctx, typeArg, 1)
  }

  /** Expiring sessions touches the sessions table and nothing else. */
  lemma ExpireSessionsOnlySessions(a: Authenticators.Authenticator, faults: map<Database.Stmt, Error>, t: Sql.Tables,
                                   ctx: Context.Context, typeArg: string)
    ensures var e := Authenticators.ExpireSessionsSpec(a, faults, t, ctx, typeArg);
      e.tables == t.(sessions := e.tables.sessions)
  {
  }

  /** After a successful corrected change, the user logs in with the new
      password and no longer with any other, provided the credential keyed
      by the user's email is the user's own (or there is none yet). */
  lemma ChangeUserPasswordThenLogin(a: Authenticators.Authenticator, t: Sql.Tables, ctx: Context.Context, typeArg: string,
                                    oldPassword: string, newPassword: string, other: string,
                                    found: Result<Sql.UserWithOptionalPassword>, cid: Uuid)
    requires found.Ok? && Sql.IsUserWithOptionalPassword(t, found.value.id, found.value)
    requires var k := (Sql.PasswordCredential, found.value.email);
      k in t.credentials ==> t.credentials[k].userId == found.value.id
    ensures var x := ChangeUserPasswordCorrected(a, map[], t, ctx, typeArg, oldPassword, newPassword, found, cid);
      x.err.None? ==>
        LoginSpec(Config(None), map[], x.committed, Context.Background, found.value.email, newPassword)
          == LoggedIn(User(found.value.id, Some(ZeroPayload)), None) &&
        (other != newPassword ==>
          LoginSpec(Config(None), map[], x.committed, Context.Background, found.value.email, other).err == Some(PasswordIncorrect))
  {
    var x := ChangeUserPasswordCorrected(a, map[], t, ctx, typeArg, oldPassword, newPassword, found, cid);
    if x.err.None? {
      var tx := Sql.UpsertPasswordCredentialByUserID(t, cid, found.value.id, found.value.email, PasswordHash.Hash(newPassword).value);
      assert x == ExpireAndCommit(a, map[], t, tx, ctx, typeArg, 1);
      assert x.committed.users == t.users && x.committed.credentials == tx.credentials;
      LoginWithCredential(x.committed, found.value.id, found.value.email, newPassword, other);
    }
  }

  /** Tables whose 'password' credential keyed by a user's email belongs to
      that user and holds the hash of `password` let exactly that password
      log the user in. */
  lemma LoginWithCredential(t: Sql.Tables, id: Uuid, email: string, password: string, other: string)
    requires id in t.users && t.users[id].email == email && PasswordHash.Hash(password).Ok?
    requires var k := (Sql.PasswordCredential, email);
      k in t.credentials && t.credentials[k].userId == id && t.credentials[k].secret == PasswordHash.Hash(password).value
    ensures LoginSpec(Config(None), map[], t, Context.Background, email, password) == LoggedIn(User(id, Some(ZeroPayload)), None)
    ensures other != password ==> LoginSpec(Config(None), map[], t, Context.Background, email, other).err == Some(PasswordIncorrect)
  {
    PasswordHash.VerifyHash(password);
    if other != password {
      PasswordHash.VerifyMismatch(password, other);
    }
  }

  /** HandleChangeUserPassword: needs the session of the context; hashes
      the new password outside the transaction, then either creates the
      first credential or checks the old password, expires the user's other
      sessions and commits.  `found` is what the credential lookup of the
      session's user answered, as LookedUp allows. */
  method HandleChangeUserPassword(a: Authenticators.Authenticator, typeArg: string, store: Database.Store,
                                  ids: Database.IdSource, ctx: Context.Context, oldPassword: string, newPassword: string)
    returns (err: Option<Error>, ghost found: Result<Sql.UserWithOptionalPassword>)
    requires !store.inTx
    modifies store, ids
    ensures !store.inTx
    ensures var s := ShieldSession.FromContext(ctx, typeArg);
      s.Ok? && PasswordHash.Hash(newPassword).Ok? && Database.BeginTx !in store.faults ==>
        LookedUp(store.faults, old(store.committed), s.value.userId, found)
    ensures var x := ChangeUserPasswordSpec(a, store.faults, old(store.committed), ctx, typeArg, oldPassword, newPassword,
                                            found, old(ids.last) + 1);
      err == x.err && store.committed == x.committed && ids.last == old(ids.last) + x.idsUsed
  {
    found := Err(NoRows);
    ghost var t := store.committed;
    var s := ShieldSession.FromContext(ctx, typeArg);
    if s.Err? {
      assert ChangeUserPasswordSpec(a, store.faults, t, ctx, typeArg, oldPassword, newPassword, found, ids.last + 1)
          == Changed(Some(Wrapped(NoSessionInContext, s.error)), t, 0);
      return Some(Wrapped(NoSessionInContext, s.error)), found;
    }
    var h := PasswordHash.Hash(newPassword);
    if h.Err? {
      assert ChangeUserPasswordSpec(a, store.faults, t, ctx, typeArg, oldPassword, newPassword, found, ids.last + 1)
          == Changed(Some(Wrapped(HashFailed, h.error)), t, 0);
      return Some(Wrapped(HashFailed, h.error)), found;
    }
    var e := store.Begin();
    if e.Some? {
      assert ChangeUserPasswordSpec(a, store.faults, t, ctx, typeArg, oldPassword, newPassword, found, ids.last + 1)
          == Changed(Some(Wrapped(BeginFailed, e.value)), t, 0);
      return Some(Wrapped(BeginFailed, e.value)), found;
    }
    assert store.committed == t;
    ghost var cid := ids.last + 1;
    err, found := ChangeInTxMethod(a, typeArg, store, ids, ctx, s.value.userId, oldPassword, h.value);
    ghost var x := ChangeUserPasswordSpec(a, store.faults, t, ctx, typeArg, oldPassword, newPassword, found, cid);
    assert x == ChangeInTx(a, store.faults, t, ctx, typeArg, oldPassword, h.value, found, cid);
    assert t == old(store.committed) && cid == old(ids.last) + 1;
    assert err == x.err && store.committed == x.committed && ids.last == cid - 1 + x.idsUsed;
  }

  /** The steps of HandleChangeUserPassword inside the transaction it
      opened: the lookup of the user's row, a rollback when it fails. */
  method ChangeInTxMethod(a: Authenticators.Authenticator, typeArg: string, store: Database.Store, ids: Database.IdSource,
                          ctx: Context.Context, userId: Uuid, oldPassword: string, hash: string)
    returns (err: Option<Error>, ghost found: Result<Sql.UserWithOptionalPassword>)
    requires store.inTx && store.work == store.committed
    modifies store, ids
    ensures !store.inTx
    ensures LookedUp(store.faults, old(store.committed), userId, found)
    ensures var x := ChangeInTx(a, store.faults, old(store.committed), ctx, typeArg, oldPassword, hash, found, old(ids.last) + 1);
      err == x.err && store.committed == x.committed && ids.last == old(ids.last) + x.idsUsed
  {
    ghost var t := store.committed;
    ghost var cid := ids.last + 1;
    var row := store.FindUserWithPasswordCredentialByUserID(userId);
    found := row;
    if row.Err? {
      store.Rollback();
      return Some(Wrapped(FindCredentialFailed, row.error)), found;
    }
    err := ChangeFoundTx(a, typeArg, store, ids, ctx, oldPassword, hash, row.value);
    ghost var x := ChangeInTx(a, store.faults, t, ctx, typeArg, oldPassword, hash, found, cid);
    assert x == ChangeFound(a, store.faults, t, ctx, typeArg, oldPassword, hash, row.value, cid);
    assert t == old(store.committed) && cid == old(ids.last) + 1;
    assert err == x.err && store.committed == x.committed && ids.last == cid - 1 + x.idsUsed;
  }

  /** The steps of HandleChangeUserPassword after the user's row is found,
      in the transaction it opened. */
  method ChangeFoundTx(a: Authenticators.Authenticator, typeArg: string, store: Database.Store, ids: Database.IdSource,
                       ctx: Context.Context, oldPassword: string, hash: string, row: Sql.UserWithOptionalPassword)
    returns (err: Option<Error>)
    requires store.inTx && store.work == store.committed
    modifies store, ids
    ensures !store.inTx
    ensures var x := ChangeFound(a, store.faults, old(store.committed), ctx, typeArg, oldPassword, hash, row, old(ids.last) + 1);
      err == x.err && store.committed == x.committed && ids.last == old(ids.last) + x.idsUsed
  {
    if row.passwordHash.None? && oldPassword == "" {
      var cid := ids.Next();
      var e := store.UpsertPasswordCredentialByUserID(cid, row.id, row.email, hash);
      if e.Some? {
        store.Rollback();
        return Some(Wrapped(CreateCredentialFailed, e.value));
      }
    } else {
      var v := PasswordHash.Verify(if row.passwordHash.Some? then row.passwordHash.value else "", oldPassword);
      if v.Err? {
        store.Rollback();
        return Some(Wrapped(VerifyFailed, v.error));
      }
      if !v.value {
        store.Rollback();
        return Some(PasswordIncorrect);
      }
    }
    err := ExpireAndCommitTx(a, typeArg, ctx, store);
  }

  /** The end of HandleChangeUserPassword in the open transaction: expire
      the other sessions, tolerating ErrUnsupported, and commit. */
  method ExpireAndCommitTx(a: Authenticators.Authenticator, typeArg: string, ctx: Context.Context, store: Database.Store)
    returns (err: Option<Error>)
    requires store.inTx
    modifies store
    ensures !store.inTx
    ensures var x := ExpireAndCommit(a, store.faults, old(store.committed), old(store.work), ctx, typeArg, 0);
      err == x.err && store.committed == x.committed
  {
    var e := Authenticators.ExpireSessions(a, typeArg, ctx, store);
    if e.Some? && !Is(e.value, Unsupported) {
      store.Rollback();
      return Some(Wrapped(ExpireFailed, e.value));
    }
    e := store.Commit();
    if e.Some? {
      return Some(Wrapped(RegisterFailed, e.value));
    }
    err := None;
  }
}
