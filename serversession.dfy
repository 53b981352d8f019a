/** shieldsession/serversession: sessions kept as rows of the store, named by
    a cookie that carries the session id.  Each operation is a method on the
    store, the id source and the response, specified by a function of the
    state before it; the properties of the functions are lemmas. */
module ServerSession {
  import opened Base
  import Sql
  import Database
  import Http
  import Context
  import Shield
  import ShieldSession
  import UuidText

  const DefaultCookieName := "usid"
  const DefaultExpiresIn: Duration := 12 * Hour

  const BeginFailed := "shield/session: failed to begin transaction"
  const CreateFailed := "shield/session: failed to create session"
  const CommitFailed := "shield/session: failed to commit transaction"
  const FindFailed := "shield/session: failed to find user session"
  const AuthenticateHookFailed := "shield/session: failed to authenticate session"
  const NoSessionInContext := "shield/session: failed to retrieve session from a given context"
  const ExpireFailed := "shield/session: failed to expire sessions"
  const ExpireHookFailed := "shield/session: failed to hook into session expiration"
  const LogoutExpireFailed := "shield/session: failed to expire session"
  const LogoutHookFailed := "shield/session: failed to hook logout"

  /** Hooker: the application's callbacks.  A hook that returns a session
      returns it beside its error, as in Go. */
  datatype Hooker = Hooker(
    onSessionIssue: (Uuid, Option<Payload>, Context.Session) -> (Context.Session, Option<Error>),
    onSessionAuthenticate: Context.Session -> (Context.Session, Option<Error>),
    onLogout: (Uuid, Uuid) -> Option<Error>,
    onExpireSessions: (Uuid, Uuid) -> Option<Error>)

  datatype Config = Config(hooker: Option<Hooker>, cookieName: string, expiresIn: Duration)

  function WithHooker(h: Hooker): (Config -> Config)
  {
    (c: Config) => c.(hooker := Some(h))
  }

  /** NewConfig: the options, then the defaults for a cookie name or a
      lifetime the options left at zero. */
  function NewConfig(opts: seq<Config -> Config>): (c: Config)
    ensures c.cookieName != "" && c.expiresIn != 0
    ensures c.hooker == ApplyOptions(Config(None, "", 0), opts).hooker
  {
    var c := ApplyOptions(Config(None, "", 0), opts);
    c.(cookieName := OrString(c.cookieName, DefaultCookieName),
       expiresIn := OrDefault(c.expiresIn, DefaultExpiresIn))
  }

  /** Without options: cookie "usid", twelve hours, no hooker. */
  lemma NewConfigDefaults()
    ensures NewConfig([]) == Config(None, "usid", 12 * Hour)
  {
  }

  /** The cookie Issue sets: HttpOnly, living as long as the session. */
  function SessionCookie(cfg: Config, id: Uuid): (c: Http.Cookie)
    ensures c.name == cfg.cookieName && UuidText.Parse(c.value) == Ok(id)
    ensures c.httpOnly && c.maxAge == Some(cfg.expiresIn)
  {
    UuidText.ParseFormat(id);
    Http.Cookie(cfg.cookieName, UuidText.Format(id), true, false, Http.SameSiteDefault, Some(cfg.expiresIn))
  }

  /** What User.MFA answers on a fresh copy of the user: the cache if it is
      not empty, else the stored list, or nothing when the query fails. */
  function MFAsOf(faults: map<Database.Stmt, Error>, t: Sql.Tables, cache: seq<string>, userId: Uuid): seq<string>
  {
    if |cache| > 0 then cache
    else
      var q := Database.Outcome(faults, Database.GetUserMFAs, Ok(Sql.GetUserMFAs(t, userId)));
      if q.Ok? then q.value else []
  }

  // ------------------------------------------------------------------ Issue

  datatype Issued = Issued(sess: Context.Session, err: Option<Error>, committed: Sql.Tables)

  /** The session Issue creates: before the hook, the row's own values and
      no payload. */
  function IssuedSession(cfg: Config, userId: Uuid, sid: Uuid, now: Time): Context.Session
  {
    Context.Session(sid, userId, now + cfg.expiresIn, None)
  }

  function IssueSpec(cfg: Config, faults: map<Database.Stmt, Error>, t: Sql.Tables,
                     userId: Uuid, payload: Option<Payload>, cache: seq<string>,
                     sid: Uuid, now: Time): Issued
  {
    if Database.BeginTx in faults then
      Issued(Context.ZeroSession, Some(Wrapped(BeginFailed, faults[Database.BeginTx])), t)
    else IssueFrom(cfg, faults, t, userId, payload, cache, sid, now)
  }

  /** IssueSpec once the transaction is open: the session row, the hook
      and the commit. */
  function IssueFrom(cfg: Config, faults: map<Database.Stmt, Error>, t: Sql.Tables,
                     userId: Uuid, payload: Option<Payload>, cache: seq<string>,
                     sid: Uuid, now: Time): Issued
  {
    var mfas := MFAsOf(faults, t, cache, userId);
    var c := Database.Outcome(faults, Database.CreateUserSession,
                              Sql.CreateUserSession(t, sid, userId, now + cfg.expiresIn, |mfas| > 0));
    if c.Err? then Issued(Context.ZeroSession, Some(Wrapped(CreateFailed, c.error)), t)
    else HookAndCommit(cfg, faults, t, c.value, userId, payload, IssuedSession(cfg, userId, sid, now))
  }

  /** The end of Issue, once the row is written to `work`: the issue hook
      may replace the session or fail, then the commit. */
  function HookAndCommit(cfg: Config, faults: map<Database.Stmt, Error>, t: Sql.Tables, work: Sql.Tables,
                         userId: Uuid, payload: Option<Payload>, s0: Context.Session): Issued
  {
    var h := if cfg.hooker.Some? then cfg.hooker.value.onSessionIssue(userId, payload, s0) else (s0, None);
    if h.1.Some? then Issued(h.0, Some(Wrapped(CreateFailed, h.1.value)), t)
    else if Database.CommitTx in faults then Issued(h.0, Some(Wrapped(CommitFailed, faults[Database.CommitTx])), t)
    else Issued(h.0, None, work)
  }

  /** Issue is all or nothing: on an error the committed state is as it
      was; on success exactly one session row was added, under the new id,
      for the user, expiring after the configured lifetime, and requiring
      MFA exactly when the user has an MFA method. */
  lemma IssueAtomic(cfg: Config, faults: map<Database.Stmt, Error>, t: Sql.Tables,
                    userId: Uuid, payload: Option<Payload>, cache: seq<string>, sid: Uuid, now: Time)
    ensures var x := IssueSpec(cfg, faults, t, userId, payload, cache, sid, now);
      x.err.Some? ==> x.committed == t
    ensures var x := IssueSpec(cfg, faults, t, userId, payload, cache, sid, now);
      x.err.None? ==>
        sid !in t.sessions &&
        x.committed == t.(sessions := t.sessions[sid := Sql.SessionRow(userId, now + cfg.expiresIn,
                                                                        |MFAsOf(faults, t, cache, userId)| > 0, false, None)])
  {
  }

  /** Without a hooker, a successful Issue returns the session of the new
      row. */
  lemma IssueReturnsRow(cfg: Config, faults: map<Database.Stmt, Error>, t: Sql.Tables,
                        userId: Uuid, payload: Option<Payload>, cache: seq<string>, sid: Uuid, now: Time)
    requires cfg.hooker.None?
    ensures var x := IssueSpec(cfg, faults, t, userId, payload, cache, sid, now);
      x.err.None? ==> x.sess == Context.Session(sid, userId, now + cfg.expiresIn, None)
  {
  }

  /** Issue (the shieldsession.Authenticator method): in a transaction of
      its own, look up the user's MFA methods on a copy of the user, insert
      the session row, let the hook adjust the session, commit, and only
      then set the cookie.  The deferred rollback undoes every earlier
      step. */
  method Issue(cfg: Config, store: Database.Store, ids: Database.IdSource, w: Http.Response,
               user: Shield.User, now: Time)
    returns (sess: Context.Session, err: Option<Error>)
    requires !store.inTx
    modifies store, ids, w
    ensures !store.inTx
    ensures ids.last == old(ids.last) + 1
    ensures var x := IssueSpec(cfg, store.faults, old(store.committed), user.id, user.payload,
                               user.cachedMfas, old(ids.last) + 1, now);
      sess == x.sess && err == x.err && store.committed == x.committed
    ensures err.None? ==> w.cookies == old(w.cookies) + [Http.SetCookie(SessionCookie(cfg, old(ids.last) + 1))]
    ensures err.Some? ==> w.cookies == old(w.cookies)
  {
    ghost var t := store.committed;
    ghost var x := IssueSpec(cfg, store.faults, t, user.id, user.payload, user.cachedMfas, ids.last + 1, now);
    var sessionId := ids.Next();
    sess := Context.ZeroSession;
    var e := store.Begin();
    if e.Some? {
      assert x == Issued(sess, Some(Wrapped(BeginFailed, e.value)), t);
      return sess, Some(Wrapped(BeginFailed, e.value));
    }
    assert x == IssueFrom(cfg, store.faults, t, user.id, user.payload, user.cachedMfas, sessionId, now);
    sess, err := IssueInTx(cfg, store, user, sessionId, now);
    if err.Some? {
      return;
    }
    w.Set(SessionCookie(cfg, sessionId));
    err := None;
  }

  /** The steps of Issue inside the transaction it opened: the session
      row, the hook and the commit, with a rollback on every failure. */
  method IssueInTx(cfg: Config, store: Database.Store, user: Shield.User, sessionId: Uuid, now: Time)
    returns (sess: Context.Session, err: Option<Error>)
    requires store.inTx && store.work == store.committed
    modifies store
    ensures !store.inTx
    ensures var x := IssueFrom(cfg, store.faults, old(store.committed), user.id, user.payload,
                               user.cachedMfas, sessionId, now);
      sess == x.sess && err == x.err && store.committed == x.committed
  {
    ghost var t := store.committed;
    var uid, payload := user.id, user.payload;
    ghost var x := IssueFrom(cfg, store.faults, t, uid, payload, user.cachedMfas, sessionId, now);
    var u := new Shield.User.Copy(user);
    var mfas, mfaErr := u.MFA(store);
    if mfaErr.Some? {
      // User.MFA never reports an error, so "failed to get MFA" is unreachable.
      assert false;
    }
    assert mfas == MFAsOf(store.faults, t, user.cachedMfas, uid);
    var e := store.CreateUserSession(sessionId, uid, now + cfg.expiresIn, |mfas| > 0);
    if e.Some? {
      store.Rollback();
      assert x == Issued(Context.ZeroSession, Some(Wrapped(CreateFailed, e.value)), t);
      return Context.ZeroSession, Some(Wrapped(CreateFailed, e.value));
    }
    assert x == HookAndCommit(cfg, store.faults, t, store.work, uid, payload, IssuedSession(cfg, uid, sessionId, now));
    sess, err := HookAndCommitTx(cfg, store, uid, payload, IssuedSession(cfg, uid, sessionId, now));
  }

  /** The hook and the commit that end Issue, with a rollback when the hook
      fails. */
  method HookAndCommitTx(cfg: Config, store: Database.Store, userId: Uuid, payload: Option<Payload>,
                         s0: Context.Session)
    returns (sess: Context.Session, err: Option<Error>)
    requires store.inTx
    modifies store
    ensures !store.inTx
    ensures var x := HookAndCommit(cfg, store.faults, old(store.committed), old(store.work), userId, payload, s0);
      sess == x.sess && err == x.err && store.committed == x.committed
  {
    sess := s0;
    if cfg.hooker.Some? {
      var h := cfg.hooker.value.onSessionIssue(userId, payload, s0);
      sess := h.0;
      if h.1.Some? {
        store.Rollback();
        return sess, Some(Wrapped(CreateFailed, h.1.value));
      }
    }
    var e := store.Commit();
    if e.Some? {
      return sess, Some(Wrapped(CommitFailed, e.value));
    }
    err := None;
  }

  // ----------------------------------------------------------- Authenticate

  datatype Authenticated = Authenticated(sess: Context.Session, err: Option<Error>, deleteCookie: bool)

  function AuthenticateSpec(cfg: Config, faults: map<Database.Stmt, Error>, t: Sql.Tables,
                            r: Http.Request, now: Time): Authenticated
  {
    var v := Http.CookieValue(r, cfg.cookieName);
    if v == "" then Authenticated(Context.ZeroSession, Some(UnauthenticatedUser), false)
    else if UuidText.Parse(v).Err? then Authenticated(Context.ZeroSession, Some(UnauthenticatedUser), true)
    else if Database.BeginTx in faults then
      Authenticated(Context.ZeroSession, Some(Wrapped(BeginFailed, faults[Database.BeginTx])), false)
    else
      var id := UuidText.Parse(v).value;
      var row := Database.Outcome(faults, Database.FindActiveSessionByID, Sql.FindActiveSessionByID(t, id, now));
      if row.Err? then
        if IsNotFound(row.error) then Authenticated(Context.ZeroSession, Some(UnauthenticatedUser), true)
        else Authenticated(Context.ZeroSession, Some(Wrapped(FindFailed, row.error)), false)
      else if row.value.isMfaRequired then Authenticated(Context.ZeroSession, Some(MFARequired), false)
      else
        var s0 := Context.Session(id, row.value.userId, row.value.expiresAt, None);
        var h := if cfg.hooker.Some? then cfg.hooker.value.onSessionAuthenticate(s0) else (s0, None);
        if h.1.Some? then Authenticated(h.0, Some(Wrapped(AuthenticateHookFailed, h.1.value)), false)
        else if Database.CommitTx in faults then
          Authenticated(h.0, Some(Wrapped(CommitFailed, faults[Database.CommitTx])), false)
        else Authenticated(h.0, None, false)
  }

  /** Only an active session that needs no further MFA step authenticates:
      the cookie names it, it is neither expired nor outlived, and without a
      hooker the session returned is that row's. */
  lemma AuthenticateOnlyActive(cfg: Config, faults: map<Database.Stmt, Error>, t: Sql.Tables,
                               r: Http.Request, now: Time)
    ensures var x := AuthenticateSpec(cfg, faults, t, r, now);
      x.err.None? ==>
        cfg.cookieName in r.cookies && UuidText.Parse(r.cookies[cfg.cookieName]).Ok? &&
        var id := UuidText.Parse(r.cookies[cfg.cookieName]).value;
        id in t.sessions && Sql.IsActive(t.sessions[id], now) && !t.sessions[id].isMfaRequired &&
        (cfg.hooker.None? ==> x.sess == Context.Session(id, t.sessions[id].userId, t.sessions[id].expiresAt, None))
    ensures var x := AuthenticateSpec(cfg, faults, t, r, now);
      x.deleteCookie ==> x.err == Some(UnauthenticatedUser)
  {
  }

  /** A cookie Issue set authenticates its session until it expires, when
      the server refuses nothing, no hooker intervenes and the user has no
      MFA method; with an MFA method it answers ErrMFARequired instead. */
  lemma {:induction false} IssueThenAuthenticate(cfg: Config, t: Sql.Tables, userId: Uuid, payload: Option<Payload>,
                                                 cache: seq<string>, sid: Uuid, now: Time, later: Time, r: Http.Request)
    requires cfg.hooker.None? && sid !in t.sessions
    requires later < now + cfg.expiresIn
    requires cfg.cookieName in r.cookies && r.cookies[cfg.cookieName] == SessionCookie(cfg, sid).value
    ensures var x := IssueSpec(cfg, map[], t, userId, payload, cache, sid, now);
      var mfas := MFAsOf(map[], t, cache, userId);
      x.err.None? &&
      (|mfas| == 0 ==> AuthenticateSpec(cfg, map[], x.committed, r, later) == Authenticated(x.sess, None, false)) &&
      (|mfas| > 0 ==> AuthenticateSpec(cfg, map[], x.committed, r, later).err == Some(MFARequired))
  {
    UuidText.ParseFormat(sid);
  }

  /** Authenticate (the shieldsession.Authenticator method): no cookie is
      ErrUnauthenticatedUser; a cookie that is not an id, or names no active
      session, is deleted and is ErrUnauthenticatedUser too; a session still
      waiting for MFA is ErrMFARequired.  The transaction only reads, so the
      committed state never changes. */
  method Authenticate(cfg: Config, store: Database.Store, r: Http.Request, w: Http.Response, now: Time)
    returns (sess: Context.Session, err: Option<Error>)
    requires !store.inTx
    modifies store, w
    ensures !store.inTx && store.committed == old(store.committed)
    ensures var x := AuthenticateSpec(cfg, store.faults, old(store.committed), r, now);
      sess == x.sess && err == x.err &&
      w.cookies == old(w.cookies) + (if x.deleteCookie then [Http.DeleteCookie(cfg.cookieName)] else [])
  {
    sess := Context.ZeroSession;
    var v := Http.CookieValue(r, cfg.cookieName);
    if v == "" {
      return sess, Some(UnauthenticatedUser);
    }
    var id := UuidText.Parse(v);
    if id.Err? {
      w.Delete(cfg.cookieName);
      return sess, Some(UnauthenticatedUser);
    }
    var e := store.Begin();
    if e.Some? {
      return sess, Some(Wrapped(BeginFailed, e.value));
    }
    var row := store.FindActiveSessionByID(id.value, now);
    if row.Err? {
      store.Rollback();
      if IsNotFound(row.error) {
        w.Delete(cfg.cookieName);
        return sess, Some(UnauthenticatedUser);
      }
      return sess, Some(Wrapped(FindFailed, row.error));
    }
    if row.value.isMfaRequired {
      store.Rollback();
      return sess, Some(MFARequired);
    }
    sess := Context.Session(id.value, row.value.userId, row.value.expiresAt, None);
    if cfg.hooker.Some? {
      var h := cfg.hooker.value.onSessionAuthenticate(sess);
      sess := h.0;
      if h.1.Some? {
        store.Rollback();
        return sess, Some(Wrapped(AuthenticateHookFailed, h.1.value));
      }
    }
    e := store.Commit();
    if e.Some? {
      return sess, Some(Wrapped(CommitFailed, e.value));
    }
    err := None;
  }

  // --------------------------------------------------------- ExpireSessions

  datatype Expired = Expired(err: Option<Error>, tables: Sql.Tables)

  function ExpireSessionsSpec(cfg: Config, faults: map<Database.Stmt, Error>, t: Sql.Tables,
                              ctx: Context.Context, typeArg: string): Expired
  {
    var s := ShieldSession.FromContext(ctx, typeArg);
    if s.Err? then Expired(Some(Wrapped(NoSessionInContext, s.error)), t)
    else if Database.ExpireSomeSessionsByUserID in faults then
      Expired(Some(Wrapped(ExpireFailed, faults[Database.ExpireSomeSessionsByUserID])), t)
    else
      var t' := Sql.ExpireSomeSessionsByUserID(t, s.value.userId, s.value.userId, [s.value.id]);
      if cfg.hooker.Some? && cfg.hooker.value.onExpireSessions(s.value.userId, s.value.id).Some? then
        Expired(Some(Wrapped(ExpireHookFailed, cfg.hooker.value.onExpireSessions(s.value.userId, s.value.id).value)), t')
      else Expired(None, t')
  }

  /** After ExpireSessions succeeds, the only session of the user that can
      still be active is the one in the context, the others record the user
      as their evictor, and other users' sessions are untouched. */
  lemma ExpireSessionsKeepsCurrent(cfg: Config, faults: map<Database.Stmt, Error>, t: Sql.Tables,
                                   ctx: Context.Context, typeArg: string, now: Time)
    ensures var x := ExpireSessionsSpec(cfg, faults, t, ctx, typeArg);
      x.err.None? ==>
        var s := ctx.session.value.value;
        (forall id :: (id in x.tables.sessions && x.tables.sessions[id].userId == s.userId &&
                       Sql.IsActive(x.tables.sessions[id], now)) ==> id == s.id) &&
        (forall id :: id in t.sessions && t.sessions[id].userId != s.userId ==> x.tables.sessions[id] == t.sessions[id])
    ensures var x := ExpireSessionsSpec(cfg, faults, t, ctx, typeArg);
      ShieldSession.FromContext(ctx, typeArg).Err? ==> x.err.Some? && x.tables == t
  {
    var x := ExpireSessionsSpec(cfg, faults, t, ctx, typeArg);
    if x.err.None? {
      var s := ctx.session.value.value;
      Sql.ExpireSomeSessionsLeavesOnlyKept(t, s.userId, s.userId, [s.id], now);
    }
  }

  /** ExpireSessions (the shieldsession.Authenticator method): in the
      caller's transaction, expire every session of the context's user but
      the context's own, then call the hook.  A failing hook does not undo
      the expiry; the caller's transaction decides. */
  method ExpireSessions(cfg: Config, typeArg: string, ctx: Context.Context, store: Database.Store)
    returns (err: Option<Error>)
    modifies store
    ensures store.inTx == old(store.inTx)
    ensures store.inTx ==> store.committed == old(store.committed)
    ensures var x := ExpireSessionsSpec(cfg, store.faults, old(store.Current()), ctx, typeArg);
      err == x.err && store.Current() == x.tables
  {
    var s := ShieldSession.FromContext(ctx, typeArg);
    if s.Err? {
      return Some(Wrapped(NoSessionInContext, s.error));
    }
    var e := store.ExpireSomeSessionsByUserID(s.value.userId, s.value.userId, [s.value.id]);
    if e.Some? {
      return Some(Wrapped(ExpireFailed, e.value));
    }
    if cfg.hooker.Some? {
      var hookErr := cfg.hooker.value.onExpireSessions(s.value.userId, s.value.id);
      if hookErr.Some? {
        return Some(Wrapped(ExpireHookFailed, hookErr.value));
      }
    }
    err := None;
  }

  // ------------------------------------------------------------------ Logout

  datatype LoggedOut = LoggedOut(err: Option<Error>, committed: Sql.Tables)

  function LogoutSpec(cfg: Config, faults: map<Database.Stmt, Error>, t: Sql.Tables,
                      ctx: Context.Context, typeArg: string): LoggedOut
  {
    var s := ShieldSession.FromContext(ctx, typeArg);
    if s.Err? then LoggedOut(Some(Http(Http.StatusUnauthorized, s.error, "")), t)
    else if Database.BeginTx in faults then LoggedOut(Some(Wrapped(BeginFailed, faults[Database.BeginTx])), t)
    else
      var e := Database.Outcome(faults, Database.ExpireSessionByID, Sql.ExpireSessionByID(t, s.value.id));
      if e.Err? then LoggedOut(Some(Wrapped(LogoutExpireFailed, e.error)), t)
      else if cfg.hooker.Some? && cfg.hooker.value.onLogout(s.value.userId, s.value.id).Some? then
        LoggedOut(Some(Wrapped(LogoutHookFailed, cfg.hooker.value.onLogout(s.value.userId, s.value.id).value)), t)
      else if Database.CommitTx in faults then LoggedOut(Some(Wrapped(CommitFailed, faults[Database.CommitTx])), t)
      else LoggedOut(None, e.value)
  }

  /** Logout is all or nothing, and after it succeeds the context's session
      no longer authenticates; every other session is untouched. */
  lemma LogoutExpiresSession(cfg: Config, faults: map<Database.Stmt, Error>, t: Sql.Tables,
                             ctx: Context.Context, typeArg: string, now: Time)
    ensures var x := LogoutSpec(cfg, faults, t, ctx, typeArg);
      x.err.Some? ==> x.committed == t
    ensures var x := LogoutSpec(cfg, faults, t, ctx, typeArg);
      x.err.None? ==>
        var id := ctx.session.value.value.id;
        id in x.committed.sessions && !Sql.IsActive(x.committed.sessions[id], now) &&
        x.committed.sessions.Keys == t.sessions.Keys &&
        (forall o :: o in t.sessions && o != id ==> x.committed.sessions[o] == t.sessions[o])
    ensures var x := LogoutSpec(cfg, faults, t, ctx, typeArg);
      ShieldSession.FromContext(ctx, typeArg).Err? ==>
        x.err == Some(Http(Http.StatusUnauthorized, UnauthenticatedUser, ""))
  {
  }

  /** LogoutHandler.Logout: expire the context's session in a transaction,
      call the hook, commit, and delete the cookie.  Without a session in
      the context the answer is a 401. */
  method Logout(cfg: Config, typeArg: string, store: Database.Store, ctx: Context.Context, w: Http.Response)
    returns (err: Option<Error>)
    requires !store.inTx
    modifies store, w
    ensures !store.inTx
    ensures var x := LogoutSpec(cfg, store.faults, old(store.committed), ctx, typeArg);
      err == x.err && store.committed == x.committed
    ensures err.None? ==> w.cookies == old(w.cookies) + [Http.DeleteCookie(cfg.cookieName)]
    ensures err.Some? ==> w.cookies == old(w.cookies)
  {
    var s := ShieldSession.FromContext(ctx, typeArg);
    if s.Err? {
      return Some(Http(Http.StatusUnauthorized, s.error, ""));
    }
    var e := store.Begin();
    if e.Some? {
      return Some(Wrapped(BeginFailed, e.value));
    }
    var sid := store.ExpireSessionByID(s.value.id);
    if sid.Err? {
      store.Rollback();
      return Some(Wrapped(LogoutExpireFailed, sid.error));
    }
    if cfg.hooker.Some? {
      var hookErr := cfg.hooker.value.onLogout(s.value.userId, sid.value);
      if hookErr.Some? {
        store.Rollback();
        return Some(Wrapped(LogoutHookFailed, hookErr.value));
      }
    }
    e := store.Commit();
    if e.Some? {
      return Some(Wrapped(CommitFailed, e.value));
    }
    w.Delete(cfg.cookieName);
    err := None;
  }
}
