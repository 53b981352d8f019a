/** shieldpasswordreset/handler.go: requesting a password reset, which mails
    the user a token, and confirming it with a new password.  Each handler
    is a method on the store, the id source, the entropy source and the
    outbox, specified by a function of the state before it. */
module PasswordReset {
  import opened Base
  import Sql
  import Database
  import Context
  import Random
  import Sender
  import PasswordHash
  import ShieldUser

  const DefaultResetTokenExpiry: Duration := 12 * Hour
  const DefaultResetTokenLength := 32

  const BeginFailed := "shield/passwordreset: failed to begin transaction"
  const FindUserFailed := "shield/passwordreset: failed to find user"
  const UpsertTokenFailed := "shield/passwordreset: failed to upsert password reset token"
  const CommitFailed := "shield/passwordreset: failed to commit transaction"
  const SendTokenFailed := "shield/passwordreset: failed to send password reset token"
  const HashFailed := "shield/passwordreset: failed to hash password"
  const FindTokenFailed := "shield/passwordreset: failed to find password reset token"
  const MarkFailed := "shield/passwordreset: failed to mark password reset token as used"
  const SetPasswordFailed := "shield/passwordreset: failed to set user password"
  const ExpireFailed := "shield/passwordreset: failed to expire sessions"
  const SendSuccessFailed := "shield/passwordreset: failed to send success message"

  /** Config: the token length in random bytes and the token lifetime.  The
      hasher is the bcrypt one of module PasswordHash. */
  datatype Config = Config(tokenLength: nat, tokenExpiryIn: Duration)

  /** NewConfig: the defaults, then the options, then the defaults again for
      whatever the options set to zero. */
  function NewConfig(opts: seq<Config -> Config>): (c: Config)
    ensures c.tokenLength != 0 && c.tokenExpiryIn != 0
  {
    var c := ApplyOptions(Config(DefaultResetTokenLength, DefaultResetTokenExpiry), opts);
    c.(tokenExpiryIn := OrDefault(c.tokenExpiryIn, DefaultResetTokenExpiry),
       tokenLength := if c.tokenLength != 0 then c.tokenLength else DefaultResetTokenLength)
  }

  /** Without options: 32 random bytes, so 64 hex digits, valid for twelve
      hours. */
  lemma NewConfigDefaults()
    ensures NewConfig([]) == Config(32, 12 * Hour)
  {
  }

  // ---------------------------------------------------------------- Request

  datatype Requested = Requested(err: Option<Error>, committed: Sql.Tables, sent: seq<Sender.Message>,
                                 idsUsed: nat, entropyUsed: nat)

  /** HandlePasswordReset, given the bytes the entropy source holds, the id
      the token row gets, and whether the sender is down. */
  ghost function RequestSpec(cfg: Config, faults: map<Database.Stmt, Error>, t: Sql.Tables, ctx: Context.Context,
                             email: string, stream: seq<byte>, id: Uuid, now: Time, sendFailure: Option<Error>): Requested
    requires Sql.Valid(t)
  {
    if ShieldUser.IsAuthenticatedAsWritten(ctx) then Requested(Some(AuthenticatedUser), t, [], 0, 0)
    else if Database.BeginTx in faults then Requested(Some(Wrapped(BeginFailed, faults[Database.BeginTx])), t, [], 0, 0)
    else
      var u := Database.Outcome(faults, Database.FindUserByEmail, Sql.FindUserByEmail(t, email));
      if u.Err? then Requested(Some(Wrapped(FindUserFailed, u.error)), t, [], 0, 0)
      else RequestFor(cfg, faults, t, u.value, stream, id, now, sendFailure)
  }

  /** The rest of the request once the user is found: the random token,
      its upsert, the commit and the mail. */
  function RequestFor(cfg: Config, faults: map<Database.Stmt, Error>, t: Sql.Tables, user: Sql.UserRecord,
                      stream: seq<byte>, id: Uuid, now: Time, sendFailure: Option<Error>): Requested
  {
    if cfg.tokenLength > |stream| then Requested(Some(Panicked(Random.ReadFailure)), t, [], 0, 0)
    else
      var token := Random.HexEncode(stream[..cfg.tokenLength]);
      var expiresAt := now + cfg.tokenExpiryIn;
      var row := Database.Outcome(faults, Database.UpsertPasswordResetToken,
                                  Ok(Sql.UpsertedResetToken(t, id, user.id, token, expiresAt)));
      if row.Err? then Requested(Some(Wrapped(UpsertTokenFailed, row.error)), t, [], 1, cfg.tokenLength)
      else
        var t' := Sql.UpsertPasswordResetToken(t, id, user.id, token, expiresAt);
        if Database.CommitTx in faults then Requested(Some(Wrapped(CommitFailed, faults[Database.CommitTx])), t, [], 1, cfg.tokenLength)
        else if sendFailure.Some? then Requested(Some(Wrapped(SendTokenFailed, sendFailure.value)), t', [], 1, cfg.tokenLength)
        else Requested(None, t', [Sender.Message(user.email, Sender.PasswordResetRequest(row.value.token))], 1, cfg.tokenLength)
  }

  /** Once the user is found, the request mails only on success and
      changes the tables only once committed; on success it commits the
      upsert of the fresh token and mails the token the upsert kept. */
  lemma RequestForOutcome(cfg: Config, faults: map<Database.Stmt, Error>, t: Sql.Tables, user: Sql.UserRecord,
                          stream: seq<byte>, id: Uuid, now: Time, sendFailure: Option<Error>)
    ensures var x := RequestFor(cfg, faults, t, user, stream, id, now, sendFailure);
      (x.sent != [] <==> x.err.None?) &&
      (x.committed != t ==> x.err.None? || (sendFailure.Some? && x.err == Some(Wrapped(SendTokenFailed, sendFailure.value))))
    ensures var x := RequestFor(cfg, faults, t, user, stream, id, now, sendFailure);
      x.err.None? ==>
        cfg.tokenLength <= |stream| &&
        var token := Random.HexEncode(stream[..cfg.tokenLength]);
        x.committed == Sql.UpsertPasswordResetToken(t, id, user.id, token, now + cfg.tokenExpiryIn) &&
        x.sent == [Sender.Message(user.email, Sender.PasswordResetRequest(
                     Sql.UpsertedResetToken(t, id, user.id, token, now + cfg.tokenExpiryIn).token))]
  {
  }

  /** A reset request writes nothing unless it commits, and mails only
      after committing: an authenticated request and an unknown email are
      refused with nothing written or sent. */
  lemma RequestOutcome(cfg: Config, faults: map<Database.Stmt, Error>, t: Sql.Tables, ctx: Context.Context,
                       email: string, stream: seq<byte>, id: Uuid, now: Time, sendFailure: Option<Error>)
    requires Sql.Valid(t)
    ensures var x := RequestSpec(cfg, faults, t, ctx, email, stream, id, now, sendFailure);
      ShieldUser.IsAuthenticatedAsWritten(ctx) ==> x.err == Some(AuthenticatedUser) && x.committed == t && x.sent == []
    ensures var x := RequestSpec(cfg, faults, t, ctx, email, stream, id, now, sendFailure);
      !ShieldUser.IsAuthenticatedAsWritten(ctx) && Database.BeginTx !in faults && Database.FindUserByEmail !in faults &&
      !Sql.EmailTaken(t, email) ==>
        x.err == Some(Wrapped(FindUserFailed, NoRows)) && x.committed == t && x.sent == []
    ensures var x := RequestSpec(cfg, faults, t, ctx, email, stream, id, now, sendFailure);
      x.sent != [] <==> x.err.None?
    ensures var x := RequestSpec(cfg, faults, t, ctx, email, stream, id, now, sendFailure);
      x.committed != t ==> x.err.None? || (sendFailure.Some? && x.err == Some(Wrapped(SendTokenFailed, sendFailure.value)))
  {
    var u := Database.Outcome(faults, Database.FindUserByEmail, Sql.FindUserByEmail(t, email));
    if !ShieldUser.IsAuthenticatedAsWritten(ctx) && Database.BeginTx !in faults && u.Ok? {
      RequestForOutcome(cfg, faults, t, u.value, stream, id, now, sendFailure);
    }
  }

  /** A request whose session was stored by Middleware[string] is
      authenticated, yet it is handled exactly as an anonymous request:
      the check is the one that recognises only sessions stored as `any`. */
  lemma RequestServesTypedSession(cfg: Config, faults: map<Database.Stmt, Error>, t: Sql.Tables,
                                  s: Context.StrategySession, email: string, stream: seq<byte>, id: Uuid,
                                  now: Time, sendFailure: Option<Error>)
    requires Sql.Valid(t)
    ensures var ctx := Context.Background.(user := Some(Context.Typed("string", Some(s))));
      ShieldUser.IsAuthenticated(ctx) &&
      RequestSpec(cfg, faults, t, ctx, email, stream, id, now, sendFailure) ==
        RequestSpec(cfg, faults, t, Context.Background, email, stream, id, now, sendFailure)
  {
  }

  /** A successful request leaves one unused token for the user, expiring
      no earlier than the configured lifetime from now, and mails that
      token to the user's address; a fresh token is 2 * tokenLength hex
      digits, and an unused token the user already had is kept. */
  lemma RequestSuccess(cfg: Config, faults: map<Database.Stmt, Error>, t: Sql.Tables, ctx: Context.Context,
                       email: string, stream: seq<byte>, id: Uuid, now: Time, sendFailure: Option<Error>)
    requires Sql.Valid(t) && RequestSpec(cfg, faults, t, ctx, email, stream, id, now, sendFailure).err.None?
    ensures var x := RequestSpec(cfg, faults, t, ctx, email, stream, id, now, sendFailure);
      exists u :: u in t.users && t.users[u].email == email &&
        (u, false) in x.committed.resetTokens &&
        x.committed.resetTokens[(u, false)].expiresAt >= now + cfg.tokenExpiryIn &&
        x.sent == [Sender.Message(email, Sender.PasswordResetRequest(x.committed.resetTokens[(u, false)].token))] &&
        ((u, false) !in t.resetTokens ==>
           x.committed.resetTokens[(u, false)].token == Random.HexEncode(stream[..cfg.tokenLength]) &&
           |x.committed.resetTokens[(u, false)].token| == 2 * cfg.tokenLength) &&
        ((u, false) in t.resetTokens ==>
           x.committed.resetTokens[(u, false)].token == t.resetTokens[(u, false)].token)
  {
    var x := RequestSpec(cfg, faults, t, ctx, email, stream, id, now, sendFailure);
    var user := Sql.FindUserByEmail(t, email).value;
    assert x == RequestFor(cfg, faults, t, user, stream, id, now, sendFailure);
    RequestForOutcome(cfg, faults, t, user, stream, id, now, sendFailure);
    var token := Random.HexEncode(stream[..cfg.tokenLength]);
    Sql.UpsertPasswordResetTokenKeepsLaterExpiry(t, id, user.id, token, now + cfg.tokenExpiryIn);
    var row := Sql.UpsertedResetToken(t, id, user.id, token, now + cfg.tokenExpiryIn);
    assert (user.id, false) in x.committed.resetTokens && x.committed.resetTokens[(user.id, false)] == row;
    assert user.id in t.users && t.users[user.id].email == email;
  }

  /** HandlePasswordReset: find the user by email, upsert a fresh random
      token in a transaction, commit, and mail the token the upsert kept.
      An entropy source that fails panics, and the deferred rollback
      undoes the transaction. */
  method HandlePasswordReset(cfg: Config, store: Database.Store, ids: Database.IdSource, src: Random.Entropy,
                             outbox: Sender.Outbox, ctx: Context.Context, email: string, now: Time)
    returns (err: Option<Error>)
    requires !store.inTx && Sql.Valid(store.committed)
    modifies store, ids, src, outbox
    ensures !store.inTx
    ensures var x := RequestSpec(cfg, store.faults, old(store.committed), ctx, email, old(src.stream),
                                 old(ids.last) + 1, now, outbox.failure);
      err == x.err && store.committed == x.committed && outbox.sent == old(outbox.sent) + x.sent &&
      ids.last == old(ids.last) + x.idsUsed && src.stream == old(src.stream)[x.entropyUsed..]
  {
    ghost var t := store.committed;
    ghost var x := RequestSpec(cfg, store.faults, t, ctx, email, src.stream, ids.last + 1, now, outbox.failure);
    if ShieldUser.IsAuthenticatedAsWritten(ctx) {
      assert x == Requested(Some(AuthenticatedUser), t, [], 0, 0);
      return Some(AuthenticatedUser);
    }
    var e := store.Begin();
    if e.Some? {
      assert x == Requested(Some(Wrapped(BeginFailed, e.value)), t, [], 0, 0);
      return Some(Wrapped(BeginFailed, e.value));
    }
    var user := store.FindUserByEmail(email);
    if user.Err? {
      store.Rollback();
      assert x == Requested(Some(Wrapped(FindUserFailed, user.error)), t, [], 0, 0);
      return Some(Wrapped(FindUserFailed, user.error));
    }
    assert store.committed == t;
    assert x == RequestFor(cfg, store.faults, t, user.value, src.stream, ids.last + 1, now, outbox.failure);
    err := RequestTx(cfg, store, ids, src, outbox, user.value, now);
  }

  /** The steps of HandlePasswordReset once the user is found, in the
      transaction it opened. */
  method RequestTx(cfg: Config, store: Database.Store, ids: Database.IdSource, src: Random.Entropy,
                   outbox: Sender.Outbox, user: Sql.UserRecord, now: Time)
    returns (err: Option<Error>)
    requires store.inTx && store.work == store.committed
    modifies store, ids, src, outbox
    ensures !store.inTx
    ensures var x := RequestFor(cfg, store.faults, old(store.committed), user, old(src.stream),
                                old(ids.last) + 1, now, outbox.failure);
      err == x.err && store.committed == x.committed && outbox.sent == old(outbox.sent) + x.sent &&
      ids.last == old(ids.last) + x.idsUsed && src.stream == old(src.stream)[x.entropyUsed..]
  {
    var token, randErr := Random.SecureHexString(cfg.tokenLength, src);
    if randErr.Some? {
      store.Rollback();
      return Some(Panicked(randErr.value));
    }
    var id := ids.Next();
    var tok := store.UpsertPasswordResetToken(id, user.id, token, now + cfg.tokenExpiryIn);
    if tok.Err? {
      store.Rollback();
      return Some(Wrapped(UpsertTokenFailed, tok.error));
    }
    var e := store.Commit();
    if e.Some? {
      return Some(Wrapped(CommitFailed, e.value));
    }
    e := outbox.Send(Sender.Message(user.email, Sender.PasswordResetRequest(tok.value.token)));
    if e.Some? {
      return Some(Wrapped(SendTokenFailed, e.value));
    }
    err := None;
  }

  // ---------------------------------------------------------------- Confirm

  datatype Confirmed = Confirmed(err: Option<Error>, committed: Sql.Tables, sent: seq<Sender.Message>)

  /** What FindPasswordResetToken may answer on tables holding no faulty
      statement: an unexpired row with the token, or no rows when there is
      none. */
  ghost predicate IsFoundResetToken(t: Sql.Tables, token: string, now: Time, found: Result<Sql.ResetToken>)
  {
    (found.Ok? <==> exists k :: Sql.MatchesResetToken(t, k, token, now)) &&
    (found.Ok? ==> Sql.MatchesResetToken(t, (found.value.userId, found.value.isUsed), token, now) &&
                   found.value == Sql.ResetTokenAt(t, (found.value.userId, found.value.isUsed))) &&
    (found.Err? ==> found.error == NoRows)
  }

  /** One answer the lookup may give, for the steps before it runs. */
  ghost function LookupResetToken(t: Sql.Tables, token: string, now: Time): (r: Result<Sql.ResetToken>)
    ensures IsFoundResetToken(t, token, now, r)
  {
    if exists k :: Sql.MatchesResetToken(t, k, token, now) then
      var k :| Sql.MatchesResetToken(t, k, token, now);
      Ok(Sql.ResetTokenAt(t, k))
    else Err(NoRows)
  }

  /** HandlePasswordResetConfirm, given the row the token lookup returned.
      The credential upsert passes the token's user id in the credential's
      id column and leaves its user id zero. */
  function ConfirmSpec(faults: map<Database.Stmt, Error>, t: Sql.Tables, password: string,
                       found: Result<Sql.ResetToken>, sendFailure: Option<Error>): Confirmed
  {
    var h := PasswordHash.Hash(password);
    if h.Err? then Confirmed(Some(Wrapped(HashFailed, h.error)), t, [])
    else if Database.BeginTx in faults then Confirmed(Some(Wrapped(BeginFailed, faults[Database.BeginTx])), t, [])
    else if found.Err? then Confirmed(Some(Wrapped(FindTokenFailed, found.error)), t, [])
    else if found.value.isUsed then Confirmed(Some(UsedPasswordResetToken), t, [])
    else ConfirmToken(faults, t, h.value, found.value, sendFailure)
  }

  /** The rest of the confirmation once an unused token is found. */
  function ConfirmToken(faults: map<Database.Stmt, Error>, t: Sql.Tables, passwordHash: string,
                        tok: Sql.ResetToken, sendFailure: Option<Error>): Confirmed
  {
    var u := Database.Outcome(faults, Database.FindUserByID, Sql.FindUserByID(t, tok.userId));
    if u.Err? then Confirmed(Some(Wrapped(FindUserFailed, u.error)), t, [])
    else
      var m := Database.Outcome(faults, Database.MarkPasswordResetTokenAsUsed, Sql.MarkPasswordResetTokenAsUsed(t, tok.token));
      if m.Err? then Confirmed(Some(Wrapped(MarkFailed, m.error)), t, [])
      else if Database.UpsertPasswordCredentialByUserID in faults then
        Confirmed(Some(Wrapped(SetPasswordFailed, faults[Database.UpsertPasswordCredentialByUserID])), t, [])
      else ConfirmWrite(faults, t, m.value, passwordHash, tok.userId, u.value.email, sendFailure)
  }

  /** The writes of a confirmation once the token is marked used in `m`:
      the credential upsert, the session expiry, the commit and the mail. */
  function ConfirmWrite(faults: map<Database.Stmt, Error>, t: Sql.Tables, m: Sql.Tables, passwordHash: string,
                        userId: Uuid, email: string, sendFailure: Option<Error>): Confirmed
  {
    var t2 := Sql.UpsertPasswordCredentialByUserID(m, userId, NilId, email, passwordHash);
    var t3 := Sql.ExpireAllSessionsByUserID(t2, userId);
    if Database.UpsertPasswordCredentialByUserID in faults then
      Confirmed(Some(Wrapped(SetPasswordFailed, faults[Database.UpsertPasswordCredentialByUserID])), t, [])
    else if Database.ExpireAllSessionsByUserID in faults then
      Confirmed(Some(Wrapped(ExpireFailed, faults[Database.ExpireAllSessionsByUserID])), t, [])
    else if Database.CommitTx in faults then Confirmed(Some(Wrapped(CommitFailed, faults[Database.CommitTx])), t, [])
    else if sendFailure.Some? then Confirmed(Some(Wrapped(SendSuccessFailed, sendFailure.value)), t3, [])
    else Confirmed(None, t3, [Sender.Message(email, Sender.PasswordResetSuccess)])
  }

  /** A confirmation that gets past the token's user and the marking goes
      on to ConfirmWrite with that user's email. */
  lemma ConfirmTokenWrites(faults: map<Database.Stmt, Error>, t: Sql.Tables, passwordHash: string,
                           tok: Sql.ResetToken, sendFailure: Option<Error>)
    requires ConfirmToken(faults, t, passwordHash, tok, sendFailure).err.None?
    ensures tok.userId in t.users && Sql.MarkPasswordResetTokenAsUsed(t, tok.token).Ok?
    ensures ConfirmToken(faults, t, passwordHash, tok, sendFailure) ==
      ConfirmWrite(faults, t, Sql.MarkPasswordResetTokenAsUsed(t, tok.token).value, passwordHash,
                   tok.userId, t.users[tok.userId].email, sendFailure)
  {
    var u := Database.Outcome(faults, Database.FindUserByID, Sql.FindUserByID(t, tok.userId));
    var m := Database.Outcome(faults, Database.MarkPasswordResetTokenAsUsed, Sql.MarkPasswordResetTokenAsUsed(t, tok.token));
    assert u.Ok? && m.Ok?;
  }

  /** The writes mail only on success and change the tables only once
      committed. */
  lemma ConfirmWriteAtomic(faults: map<Database.Stmt, Error>, t: Sql.Tables, m: Sql.Tables, passwordHash: string,
                           userId: Uuid, email: string, sendFailure: Option<Error>)
    ensures var x := ConfirmWrite(faults, t, m, passwordHash, userId, email, sendFailure);
      (x.sent != [] <==> x.err.None?) &&
      (x.committed != t ==> x.err.None? || (sendFailure.Some? && x.err == Some(Wrapped(SendSuccessFailed, sendFailure.value))))
    ensures var x := ConfirmWrite(faults, t, m, passwordHash, userId, email, sendFailure);
      x.err.None? ==> x.sent == [Sender.Message(email, Sender.PasswordResetSuccess)]
  {
  }

  /** The same for everything after the token is found. */
  lemma ConfirmTokenAtomic(faults: map<Database.Stmt, Error>, t: Sql.Tables, passwordHash: string,
                           tok: Sql.ResetToken, sendFailure: Option<Error>)
    ensures var x := ConfirmToken(faults, t, passwordHash, tok, sendFailure);
      (x.sent != [] <==> x.err.None?) &&
      (x.committed != t ==> x.err.None? || (sendFailure.Some? && x.err == Some(Wrapped(SendSuccessFailed, sendFailure.value))))
  {
    var u := Database.Outcome(faults, Database.FindUserByID, Sql.FindUserByID(t, tok.userId));
    var m := Database.Outcome(faults, Database.MarkPasswordResetTokenAsUsed, Sql.MarkPasswordResetTokenAsUsed(t, tok.token));
    if u.Ok? && m.Ok? {
      ConfirmWriteAtomic(faults, t, m.value, passwordHash, tok.userId, u.value.email, sendFailure);
    }
  }

  /** A confirmation that succeeds got past every check before the
      writes, and its answer is that of ConfirmWrite for the token's user. */
  lemma ConfirmSucceeds(faults: map<Database.Stmt, Error>, t: Sql.Tables, password: string,
                        found: Result<Sql.ResetToken>, sendFailure: Option<Error>)
    requires ConfirmSpec(faults, t, password, found, sendFailure).err.None?
    ensures PasswordHash.Hash(password).Ok? && found.Ok? && !found.value.isUsed
    ensures found.value.userId in t.users && Sql.MarkPasswordResetTokenAsUsed(t, found.value.token).Ok?
    ensures ConfirmSpec(faults, t, password, found, sendFailure) ==
      ConfirmWrite(faults, t, Sql.MarkPasswordResetTokenAsUsed(t, found.value.token).value, PasswordHash.Hash(password).value,
                   found.value.userId, t.users[found.value.userId].email, sendFailure)
  {
    ConfirmTokenWrites(faults, t, PasswordHash.Hash(password).value, found.value, sendFailure);
  }

  /** What a successful ConfirmWrite commits and sends. */
  lemma ConfirmWriteSuccess(faults: map<Database.Stmt, Error>, t: Sql.Tables, m: Sql.Tables, passwordHash: string,
                            userId: Uuid, email: string, sendFailure: Option<Error>)
    requires ConfirmWrite(faults, t, m, passwordHash, userId, email, sendFailure).err.None?
    ensures var x := ConfirmWrite(faults, t, m, passwordHash, userId, email, sendFailure);
      x.sent == [Sender.Message(email, Sender.PasswordResetSuccess)] &&
      x.committed == Sql.ExpireAllSessionsByUserID(Sql.UpsertPasswordCredentialByUserID(m, userId, NilId, email, passwordHash), userId)
  {
  }

  /** Confirming is all or nothing and mails only after committing; a used
      token is refused with ErrUsedPasswordResetToken. */
  lemma ConfirmOutcome(faults: map<Database.Stmt, Error>, t: Sql.Tables, password: string,
                       found: Result<Sql.ResetToken>, sendFailure: Option<Error>)
    ensures var x := ConfirmSpec(faults, t, password, found, sendFailure);
      x.sent != [] <==> x.err.None?
    ensures var x := ConfirmSpec(faults, t, password, found, sendFailure);
      x.committed != t ==> x.err.None? || (sendFailure.Some? && x.err == Some(Wrapped(SendSuccessFailed, sendFailure.value)))
    ensures var x := ConfirmSpec(faults, t, password, found, sendFailure);
      PasswordHash.Hash(password).Ok? && Database.BeginTx !in faults && found.Ok? && found.value.isUsed ==>
        x.err == Some(UsedPasswordResetToken) && x.committed == t
  {
    var h := PasswordHash.Hash(password);
    if h.Ok? && Database.BeginTx !in faults && found.Ok? && !found.value.isUsed {
      ConfirmTokenAtomic(faults, t, h.value, found.value, sendFailure);
    }
  }

  /** A successful confirm has, in one transaction, used up the token,
      given the 'password' credential keyed by the user's email the new
      hash, and expired every session of the user, and then mails the
      user. */
  lemma ConfirmSuccess(faults: map<Database.Stmt, Error>, t: Sql.Tables, password: string,
                       found: Result<Sql.ResetToken>, sendFailure: Option<Error>, now: Time)
    requires ConfirmSpec(faults, t, password, found, sendFailure).err.None?
    ensures found.Ok? && found.value.userId in t.users
    ensures var x := ConfirmSpec(faults, t, password, found, sendFailure);
      var u := found.value.userId;
      x.sent == [Sender.Message(t.users[u].email, Sender.PasswordResetSuccess)] &&
      (forall v :: (v, false) in x.committed.resetTokens ==> x.committed.resetTokens[(v, false)].token != found.value.token) &&
      (Sql.PasswordCredential, t.users[u].email) in x.committed.credentials &&
      x.committed.credentials[(Sql.PasswordCredential, t.users[u].email)].secret == PasswordHash.Hash(password).value &&
      x.committed.users == t.users &&
      (forall s :: s in x.committed.sessions && x.committed.sessions[s].userId == u ==> !Sql.IsActive(x.committed.sessions[s], now))
  {
    ConfirmSucceeds(faults, t, password, found, sendFailure);
    var u := found.value.userId;
    var m := Sql.MarkPasswordResetTokenAsUsed(t, found.value.token).value;
    ConfirmWriteSuccess(faults, t, m, PasswordHash.Hash(password).value, u, t.users[u].email, sendFailure);
  }

  /** A user whose earlier reset left a used token cannot confirm another
      one: moving the new token to (user_id, TRUE) breaks the unique key
      the upsert relies on. */
  lemma ConfirmAfterEarlierReset(faults: map<Database.Stmt, Error>, t: Sql.Tables, password: string,
                                 found: Result<Sql.ResetToken>, sendFailure: Option<Error>)
    requires PasswordHash.Hash(password).Ok? && found.Ok? && !found.value.isUsed
    requires (found.value.userId, false) in t.resetTokens && t.resetTokens[(found.value.userId, false)].token == found.value.token
    requires (found.value.userId, true) in t.resetTokens && found.value.userId in t.users
    requires faults == map[]
    ensures ConfirmSpec(faults, t, password, found, sendFailure).err == Some(Wrapped(MarkFailed, UniqueViolation))
  {
    assert Sql.MarkUsed(t.resetTokens, (row: Sql.ResetTokenRow) => row.token == found.value.token).Err?;
  }

  /** With a password credential of its own, the user logs in with the new
      password after the reset.  A user without one gets a credential whose
      user id is zero, which the login's join never finds. */
  lemma ConfirmCredential(faults: map<Database.Stmt, Error>, t: Sql.Tables, password: string,
                          found: Result<Sql.ResetToken>, sendFailure: Option<Error>)
    requires ConfirmSpec(faults, t, password, found, sendFailure).err.None?
    ensures found.Ok? && found.value.userId in t.users
    ensures var x := ConfirmSpec(faults, t, password, found, sendFailure);
      var u := found.value.userId;
      var k := (Sql.PasswordCredential, t.users[u].email);
      (k in t.credentials && t.credentials[k].userId == u ==>
         Sql.FindUserWithPasswordCredentialByEmail(x.committed, t.users[u].email).Ok? &&
         Sql.FindUserWithPasswordCredentialByEmail(x.committed, t.users[u].email).value.id == u) &&
      (k !in t.credentials ==>
         k in x.committed.credentials &&
         x.committed.credentials[k] == Sql.CredentialRow(u, NilId, PasswordHash.Hash(password).value) &&
         (NilId !in t.users ==> Sql.FindUserWithPasswordCredentialByEmail(x.committed, t.users[u].email).Err?))
  {
    ConfirmSucceeds(faults, t, password, found, sendFailure);
    var u := found.value.userId;
    var email := t.users[u].email;
    var h := PasswordHash.Hash(password).value;
    var m := Sql.MarkPasswordResetTokenAsUsed(t, found.value.token).value;
    ConfirmWriteSuccess(faults, t, m, h, u, email, sendFailure);
    var t2 := Sql.UpsertPasswordCredentialByUserID(m, u, NilId, email, h);
    var x := ConfirmSpec(faults, t, password, found, sendFailure);
    assert x.committed.credentials == t2.credentials && x.committed.users == t.users;
    assert m.credentials == t.credentials;
  }

  /** HandlePasswordResetConfirm: hash outside the transaction; find the
      token, refuse a used one, find its user, mark the token used, set the
      password, expire every session of the user, commit, and mail the
      user.  The token lookup is the FindPasswordResetToken of module
      Database, with its expiry test where it selects rows. */
  method HandlePasswordResetConfirm(store: Database.Store, outbox: Sender.Outbox, password: string, tokStr: string, now: Time)
    returns (err: Option<Error>, ghost found: Result<Sql.ResetToken>)
    requires !store.inTx
    modifies store, outbox
    ensures !store.inTx
    ensures Database.FindPasswordResetToken in store.faults ==> found == Err(store.faults[Database.FindPasswordResetToken])
    ensures Database.FindPasswordResetToken !in store.faults ==> IsFoundResetToken(old(store.committed), tokStr, now, found)
    ensures var x := ConfirmSpec(store.faults, old(store.committed), password, found, outbox.failure);
      err == x.err && store.committed == x.committed && outbox.sent == old(outbox.sent) + x.sent
  {
    found := Database.Outcome(store.faults, Database.FindPasswordResetToken, LookupResetToken(store.committed, tokStr, now));
    var h := PasswordHash.Hash(password);
    if h.Err? {
      return Some(Wrapped(HashFailed, h.error)), found;
    }
    var e := store.Begin();
    if e.Some? {
      return Some(Wrapped(BeginFailed, e.value)), found;
    }
    assert store.Current() == old(store.committed);
    var tok := store.FindPasswordResetToken(tokStr, now);
    found := tok;
    assert Database.FindPasswordResetToken !in store.faults ==> IsFoundResetToken(old(store.committed), tokStr, now, found);
    if tok.Err? {
      store.Rollback();
      return Some(Wrapped(FindTokenFailed, tok.error)), found;
    }
    if tok.value.isUsed {
      store.Rollback();
      return Some(UsedPasswordResetToken), found;
    }
    err := ConfirmTokenTx(store, outbox, tok.value, h.value);
  }

  /** The steps of HandlePasswordResetConfirm after the token is found, in
      the transaction it opened. */
  method ConfirmTokenTx(store: Database.Store, outbox: Sender.Outbox, tok: Sql.ResetToken, passwordHash: string)
    returns (err: Option<Error>)
    requires store.inTx && store.work == store.committed
    modifies store, outbox
    ensures !store.inTx
    ensures var x := ConfirmToken(store.faults, old(store.committed), passwordHash, tok, outbox.failure);
      err == x.err && store.committed == x.committed && outbox.sent == old(outbox.sent) + x.sent
  {
    var user := store.FindUserByID(tok.userId);
    if user.Err? {
      store.Rollback();
      return Some(Wrapped(FindUserFailed, user.error));
    }
    var e := store.MarkPasswordResetTokenAsUsed(tok.token);
    if e.Some? {
      store.Rollback();
      return Some(Wrapped(MarkFailed, e.value));
    }
    e := store.UpsertPasswordCredentialByUserID(tok.userId, NilId, user.value.email, passwordHash);
    if e.Some? {
      store.Rollback();
      return Some(Wrapped(SetPasswordFailed, e.value));
    }
    e := store.ExpireAllSessionsByUserID(user.value.id);
    if e.Some? {
      store.Rollback();
      return Some(Wrapped(ExpireFailed, e.value));
    }
    e := store.Commit();
    if e.Some? {
      return Some(Wrapped(CommitFailed, e.value));
    }
    e := outbox.Send(Sender.Message(user.value.email, Sender.PasswordResetSuccess));
    if e.Some? {
      return Some(Wrapped(SendSuccessFailed, e.value));
    }
    err := None;
  }
}
