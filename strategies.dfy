/** shieldstrategy: the older authenticators, which answer a nil-able
    `*Session[T]` with no user id: the cookie session strategy of
    shieldstrategy/session, the bearer-token strategy of
    shieldstrategy/token, and the union of shieldstrategy/union.  Also the
    request handling of shielduser.Middleware and the session strategy's
    logout handler. */
module Strategies {
  import opened Base
  import Sql
  import Database
  import Http
  import Context
  import Shield
  import ShieldUser
  import UuidText

  // ------------------------------------------------- shieldstrategy/session

  const DefaultCookieName := "usid"
  const DefaultExpiresIn: Duration := 12 * Hour

  const BeginFailed := "shield/session: failed to begin transaction"
  const CreateFailed := "shield/session: failed to create session"
  const CommitFailed := "shield/session: failed to commit transaction"
  const FindFailed := "shield/session: failed to find user session"

  /** Config; `hasLogger` says whether Logger is a non-nil *slog.Logger. */
  datatype SessionConfig = SessionConfig(hasLogger: bool, cookieName: string, expiresIn: Duration)

  /** The config New starts from: the defaults, and no logger. */
  const SessionDefaults := SessionConfig(false, DefaultCookieName, DefaultExpiresIn)

  /** New's config as written: the logger test is inverted, so a logger
      the options set is replaced by the default one and a missing logger
      stays missing. */
  function NewAsWritten(opts: seq<SessionConfig -> SessionConfig>): (c: SessionConfig)
    ensures c == ApplyOptions(SessionDefaults, opts)
  {
    var c := ApplyOptions(SessionDefaults, opts);
    if c.hasLogger then c.(hasLogger := true) else c
  }

  /** New's config as intended: the default logger stands in for a missing
      one. */
  function New(opts: seq<SessionConfig -> SessionConfig>): (c: SessionConfig)
    ensures c.hasLogger
    ensures c.cookieName == ApplyOptions(SessionDefaults, opts).cookieName
    ensures c.expiresIn == ApplyOptions(SessionDefaults, opts).expiresIn
  {
    var c := ApplyOptions(SessionDefaults, opts);
    if !c.hasLogger then c.(hasLogger := true) else c
  }

  /** Without options: cookie "usid", twelve hours; as written, no logger. */
  lemma NewDefaults()
    ensures NewAsWritten([]) == SessionConfig(false, "usid", 12 * Hour)
    ensures New([]) == SessionConfig(true, "usid", 12 * Hour)
  {
  }

  function SessionCookie(cfg: SessionConfig, id: Uuid): (c: Http.Cookie)
    ensures c.name == cfg.cookieName && UuidText.Parse(c.value) == Ok(id)
    ensures c.httpOnly && c.maxAge == Some(cfg.expiresIn)
  {
    UuidText.ParseFormat(id);
    Http.Cookie(cfg.cookieName, UuidText.Format(id), true, false, Http.SameSiteDefault, Some(cfg.expiresIn))
  }

  // ------------------------------------------------------ shieldstrategy/token

  const DefaultAccessTokenExpiresIn: Duration := 15 * Minute
  const DefaultRefreshTokenExpiresIn: Duration := 24 * 30 * Hour

  const RetrieveFailed := "shield/token: failed to retrieve user"
  const IssueFailed := "shield/token: failed to issue token"
  const AuthorizationHeader := "Authorization"

  datatype TokenConfig = TokenConfig(accessTokenExpiresIn: Duration, refreshTokenExpiresIn: Duration)

  /** NewConfig as written: the options applied to the zero config; the
      defaults are never applied. */
  function NewTokenConfigAsWritten(opts: seq<TokenConfig -> TokenConfig>): (c: TokenConfig)
    ensures c == ApplyOptions(TokenConfig(0, 0), opts)
  {
    ApplyOptions(TokenConfig(0, 0), opts)
  }

  /** Config.defaults: fifteen minutes and thirty days for lifetimes left at
      zero. */
  function TokenDefaults(c: TokenConfig): (d: TokenConfig)
    ensures d.accessTokenExpiresIn != 0 && d.refreshTokenExpiresIn != 0
    ensures c.accessTokenExpiresIn != 0 ==> d.accessTokenExpiresIn == c.accessTokenExpiresIn
    ensures c.refreshTokenExpiresIn != 0 ==> d.refreshTokenExpiresIn == c.refreshTokenExpiresIn
  {
    TokenConfig(OrDefault(c.accessTokenExpiresIn, DefaultAccessTokenExpiresIn),
                OrDefault(c.refreshTokenExpiresIn, DefaultRefreshTokenExpiresIn))
  }

  /** NewConfig as intended: the options, then the defaults. */
  function NewTokenConfig(opts: seq<TokenConfig -> TokenConfig>): (c: TokenConfig)
    ensures c == TokenDefaults(ApplyOptions(TokenConfig(0, 0), opts))
    ensures c.accessTokenExpiresIn != 0 && c.refreshTokenExpiresIn != 0
  {
    TokenDefaults(ApplyOptions(TokenConfig(0, 0), opts))
  }

  /** Without options the written NewConfig leaves both lifetimes at zero,
      so the access tokens it issues expire as they are issued; the
      intended one gives fifteen minutes and thirty days. */
  lemma NewTokenConfigDefaults()
    ensures NewTokenConfigAsWritten([]) == TokenConfig(0, 0)
    ensures NewTokenConfig([]) == TokenConfig(15 * Minute, 30 * 24 * Hour)
  {
  }

  /** A token strategy's collaborators: the bearer-token parser of the
      Authorization header, the storage that maps a token to a session, and
      the issuer of tokens for a user (id and payload). */
  datatype TokenParts = TokenParts(
    parseBearer: string -> Result<string>,
    retrieve: string -> (Option<Context.StrategySession>, Option<Error>),
    issue: (Uuid, Option<Payload>) -> Option<Error>)

  /** shieldtoken.FromRequest: the bearer token of the Authorization header,
      or a 401 when the header is missing or not a bearer token. */
  function BearerFromRequest(parts: TokenParts, r: Http.Request): (t: Result<string>)
    ensures Http.HeaderValue(r, AuthorizationHeader) == "" ==>
      t == Err(Http(Http.StatusUnauthorized, BearerTokenNotFound, ""))
    ensures Http.HeaderValue(r, AuthorizationHeader) != "" ==>
      var p := parts.parseBearer(Http.HeaderValue(r, AuthorizationHeader));
      (p.Ok? ==> t == p) && (p.Err? ==> t == Err(Http(Http.StatusUnauthorized, p.error, "")))
  {
    var v := Http.HeaderValue(r, AuthorizationHeader);
    if v != "" then
      var p := parts.parseBearer(v);
      if p.Err? then Err(Http(Http.StatusUnauthorized, p.error, "")) else p
    else Err(Http(Http.StatusUnauthorized, BearerTokenNotFound, ""))
  }

  // ------------------------------------------------------------ the strategies

  datatype Strategy =
    | SessionStrategy(cfg: SessionConfig)
    | TokenStrategy(parts: TokenParts, tokenCfg: TokenConfig)
    | StrategyUnion(members: seq<Strategy>)

  /** What Authenticate answers, with the cookie operations it performed. */
  datatype Answer = Answer(sess: Option<Context.StrategySession>, err: Option<Error>, ops: seq<Http.CookieOp>)

  /** The session strategy's Authenticate.  The logger is called on both
      failures of the lookup; through a nil logger that call panics, before
      the cookie is deleted. */
  function SessionAuthenticateSpec(cfg: SessionConfig, faults: map<Database.Stmt, Error>, t: Sql.Tables,
                                   r: Http.Request): Answer
  {
    var v := Http.CookieValue(r, cfg.cookieName);
    if v == "" then Answer(None, Some(UnauthenticatedUser), [])
    else if UuidText.Parse(v).Err? then Answer(None, Some(UnauthenticatedUser), [Http.DeleteCookie(cfg.cookieName)])
    else if Database.BeginTx in faults then Answer(None, Some(Wrapped(BeginFailed, faults[Database.BeginTx])), [])
    else
      var id := UuidText.Parse(v).value;
      var row := Database.Outcome(faults, Database.FindUserSessionByID, Sql.FindUserSessionByID(t, id));
      if row.Err? then
        if !cfg.hasLogger then Answer(None, Some(Panicked(NilPointer)), [])
        else if IsNotFound(row.error) then Answer(None, Some(UnauthenticatedUser), [Http.DeleteCookie(cfg.cookieName)])
        else Answer(None, Some(Wrapped(FindFailed, row.error)), [])
      else if Database.CommitTx in faults then Answer(None, Some(Wrapped(CommitFailed, faults[Database.CommitTx])), [])
      else Answer(Some(Context.StrategySession(id, row.value.expiresAt, None)), None, [])
  }

  function TokenAuthenticateSpec(parts: TokenParts, r: Http.Request): Answer
  {
    var tok := BearerFromRequest(parts, r);
    if tok.Err? then Answer(None, Some(tok.error), [])
    else
      var s := parts.retrieve(tok.value);
      if s.1.Some? then Answer(None, Some(Wrapped(RetrieveFailed, s.1.value)), [])
      else Answer(s.0, None, [])
  }

  function AuthenticateSpec(a: Strategy, faults: map<Database.Stmt, Error>, t: Sql.Tables, r: Http.Request): Answer
    decreases a, if a.StrategyUnion? then |a.members| + 1 else 0
  {
    match a
    case SessionStrategy(cfg) => SessionAuthenticateSpec(cfg, faults, t, r)
    case TokenStrategy(parts, _) => TokenAuthenticateSpec(parts, r)
    case StrategyUnion(_) => UnionFrom(a, 0, [], faults, t, r)
  }

  /** The union's loop from member i on: the first success answers; after
      the last member, a nil session and the joined errors. */
  function UnionFrom(a: Strategy, i: nat, errs: seq<Error>, faults: map<Database.Stmt, Error>,
                     t: Sql.Tables, r: Http.Request): Answer
    requires a.StrategyUnion? && i <= |a.members|
    decreases a, |a.members| - i
  {
    if i == |a.members| then Answer(None, Join(errs), [])
    else
      var x := AuthenticateSpec(a.members[i], faults, t, r);
      if x.err.None? then Answer(x.sess, None, x.ops)
      else
        var y := UnionFrom(a, i + 1, errs + [x.err.value], faults, t, r);
        Answer(y.sess, y.err, x.ops + y.ops)
  }

  predicate Succeeds(a: Strategy, faults: map<Database.Stmt, Error>, t: Sql.Tables, r: Http.Request)
  {
    AuthenticateSpec(a, faults, t, r).err.None?
  }

  /** The first member that succeeds from i on answers for the union. */
  lemma {:induction false} UnionFromFirst(a: Strategy, i: nat, errs: seq<Error>, faults: map<Database.Stmt, Error>,
                                          t: Sql.Tables, r: Http.Request, j: nat)
    requires a.StrategyUnion? && i <= j < |a.members| && Succeeds(a.members[j], faults, t, r)
    requires forall k :: i <= k < j ==> !Succeeds(a.members[k], faults, t, r)
    ensures var y := UnionFrom(a, i, errs, faults, t, r);
      y.err.None? && y.sess == AuthenticateSpec(a.members[j], faults, t, r).sess
    decreases j - i
  {
    if i < j {
      var e := AuthenticateSpec(a.members[i], faults, t, r).err.value;
      UnionFromFirst(a, i + 1, errs + [e], faults, t, r, j);
    }
  }

  /** When every member from i on fails, the union answers no session, and
      an error exactly when some error was collected; that error matches
      every collected one. */
  lemma {:induction false} UnionFromNone(a: Strategy, i: nat, errs: seq<Error>, faults: map<Database.Stmt, Error>,
                                         t: Sql.Tables, r: Http.Request)
    requires a.StrategyUnion? && i <= |a.members|
    requires forall j :: i <= j < |a.members| ==> !Succeeds(a.members[j], faults, t, r)
    ensures var y := UnionFrom(a, i, errs, faults, t, r);
      y.sess.None? && (y.err.None? <==> |errs| == 0 && i == |a.members|) &&
      (y.err.Some? ==> forall k :: 0 <= k < |errs| ==> Is(y.err.value, errs[k]))
    decreases |a.members| - i
  {
    if i == |a.members| {
      if |errs| > 0 {
        var e := Join(errs).value;
        forall k | 0 <= k < |errs|
          ensures Is(e, errs[k])
        {
          IsSelf(errs[k]);
        }
      }
    } else {
      var e := AuthenticateSpec(a.members[i], faults, t, r).err.value;
      UnionFromNone(a, i + 1, errs + [e], faults, t, r);
      var y := UnionFrom(a, i + 1, errs + [e], faults, t, r);
      forall k | 0 <= k < |errs|
        ensures Is(y.err.value, errs[k])
      {
        assert (errs + [e])[k] == errs[k];
      }
    }
  }

  /** Every error matches itself. */
  lemma IsSelf(e: Error)
    ensures Is(e, e)
  {
  }

  /** union.Authenticate: the first member that authenticates decides the
      session, and later members are not asked. */
  lemma UnionFirstSuccess(ms: seq<Strategy>, faults: map<Database.Stmt, Error>, t: Sql.Tables, r: Http.Request, j: nat)
    requires j < |ms| && Succeeds(ms[j], faults, t, r)
    requires forall k :: 0 <= k < j ==> !Succeeds(ms[k], faults, t, r)
    ensures var x := AuthenticateSpec(StrategyUnion(ms), faults, t, r);
      x.err.None? && x.sess == AuthenticateSpec(ms[j], faults, t, r).sess
  {
    UnionFromFirst(StrategyUnion(ms), 0, [], faults, t, r, j);
  }

  /** When every member fails, the session is nil and the error matches
      every member's error. */
  lemma UnionAllFailAnswer(ms: seq<Strategy>, faults: map<Database.Stmt, Error>, t: Sql.Tables, r: Http.Request)
    requires |ms| > 0 && forall j :: 0 <= j < |ms| ==> !Succeeds(ms[j], faults, t, r)
    ensures var x := AuthenticateSpec(StrategyUnion(ms), faults, t, r);
      x.sess.None? && x.err.Some? &&
      forall j :: 0 <= j < |ms| ==>
        AuthenticateSpec(ms[j], faults, t, r).err.Some? &&
        Is(x.err.value, AuthenticateSpec(ms[j], faults, t, r).err.value)
  {
    UnionFromNone(StrategyUnion(ms), 0, [], faults, t, r);
    UnionAllFail(StrategyUnion(ms), 0, [], faults, t, r);
  }

  /** A union without members answers a nil session and no error. */
  lemma EmptyUnionAnswersNil(faults: map<Database.Stmt, Error>, t: Sql.Tables, r: Http.Request)
    ensures AuthenticateSpec(StrategyUnion([]), faults, t, r) == Answer(None, None, [])
  {
  }

  /** When every member from i on fails, the joined error matches each of
      their errors. */
  lemma {:induction false} UnionAllFail(a: Strategy, i: nat, errs: seq<Error>, faults: map<Database.Stmt, Error>,
                                        t: Sql.Tables, r: Http.Request)
    requires a.StrategyUnion? && i < |a.members|
    requires forall j :: i <= j < |a.members| ==> !Succeeds(a.members[j], faults, t, r)
    ensures var y := UnionFrom(a, i, errs, faults, t, r);
      y.err.Some? &&
      forall j :: i <= j < |a.members| ==>
        AuthenticateSpec(a.members[j], faults, t, r).err.Some? &&
        Is(y.err.value, AuthenticateSpec(a.members[j], faults, t, r).err.value)
    decreases |a.members| - i
  {
    var e := AuthenticateSpec(a.members[i], faults, t, r).err.value;
    UnionFromNone(a, i + 1, errs + [e], faults, t, r);
    if i + 1 < |a.members| {
      UnionAllFail(a, i + 1, errs + [e], faults, t, r);
    }
    assert (errs + [e])[|errs|] == e;
  }

  /** The written New makes the session strategy panic on the first cookie
      that names no session; the intended New answers
      ErrUnauthenticatedUser and deletes the cookie. */
  lemma NewAsWrittenPanics(t: Sql.Tables, r: Http.Request, id: Uuid)
    requires DefaultCookieName in r.cookies && r.cookies[DefaultCookieName] == UuidText.Format(id)
    requires id !in t.sessions
    ensures SessionAuthenticateSpec(NewAsWritten([]), map[], t, r).err == Some(Panicked(NilPointer))
    ensures SessionAuthenticateSpec(New([]), map[], t, r) ==
      Answer(None, Some(UnauthenticatedUser), [Http.DeleteCookie(DefaultCookieName)])
  {
    UuidText.ParseFormat(id);
  }

  /** With the intended New, the session strategy never panics. */
  lemma NewNeverPanics(opts: seq<SessionConfig -> SessionConfig>, faults: map<Database.Stmt, Error>,
                       t: Sql.Tables, r: Http.Request)
    ensures forall e :: SessionAuthenticateSpec(New(opts), faults, t, r).err != Some(Panicked(e))
  {
  }

  /** Authenticate, dispatched on the strategy.  The session strategy reads
      in a transaction of its own, so the committed state never changes. */
  method Authenticate(a: Strategy, store: Database.Store, r: Http.Request, w: Http.Response)
    returns (sess: Option<Context.StrategySession>, err: Option<Error>)
    requires !store.inTx
    modifies store, w
    ensures !store.inTx && store.committed == old(store.committed)
    ensures var x := AuthenticateSpec(a, store.faults, old(store.committed), r);
      sess == x.sess && err == x.err && w.cookies == old(w.cookies) + x.ops
    decreases a
  {
    match a
    case SessionStrategy(cfg) =>
      sess, err := SessionAuthenticate(cfg, store, r, w);
    case TokenStrategy(parts, _) =>
      var tok := BearerFromRequest(parts, r);
      if tok.Err? {
        return None, Some(tok.error);
      }
      var s := parts.retrieve(tok.value);
      if s.1.Some? {
        return None, Some(Wrapped(RetrieveFailed, s.1.value));
      }
      sess, err := s.0, None;
    case StrategyUnion(members) =>
      var errs: seq<Error> := [];
      var i := 0;
      while i < |members|
        invariant 0 <= i <= |members|
        invariant !store.inTx && store.committed == old(store.committed)
        invariant var x := AuthenticateSpec(a, store.faults, old(store.committed), r);
          var y := UnionFrom(a, i, errs, store.faults, old(store.committed), r);
          x.sess == y.sess && x.err == y.err && old(w.cookies) + x.ops == w.cookies + y.ops
      {
        var s, e := Authenticate(members[i], store, r, w);
        if e.None? {
          return s, None;
        }
        errs := errs + [e.value];
        i := i + 1;
      }
      sess, err := None, Join(errs);
  }

  method SessionAuthenticate(cfg: SessionConfig, store: Database.Store, r: Http.Request, w: Http.Response)
    returns (sess: Option<Context.StrategySession>, err: Option<Error>)
    requires !store.inTx
    modifies store, w
    ensures !store.inTx && store.committed == old(store.committed)
    ensures var x := SessionAuthenticateSpec(cfg, store.faults, old(store.committed), r);
      sess == x.sess && err == x.err && w.cookies == old(w.cookies) + x.ops
  {
    var v := Http.CookieValue(r, cfg.cookieName);
    if v == "" {
      return None, Some(UnauthenticatedUser);
    }
    var id := UuidText.Parse(v);
    if id.Err? {
      w.Delete(cfg.cookieName);
      return None, Some(UnauthenticatedUser);
    }
    var e := store.Begin();
    if e.Some? {
      return None, Some(Wrapped(BeginFailed, e.value));
    }
    var row := store.FindUserSessionByID(id.value);
    if row.Err? {
      store.Rollback();
      if !cfg.hasLogger {
        return None, Some(Panicked(NilPointer));
      }
      if IsNotFound(row.error) {
        w.Delete(cfg.cookieName);
        return None, Some(UnauthenticatedUser);
      }
      return None, Some(Wrapped(FindFailed, row.error));
    }
    e := store.Commit();
    if e.Some? {
      return None, Some(Wrapped(CommitFailed, e.value));
    }
    sess, err := Some(Context.StrategySession(id.value, row.value.expiresAt, None)), None;
  }

  /** Issue, dispatched on the strategy.  The session strategy inserts the
      row straight on the pool, never requiring MFA, and sets the cookie
      only when the insert succeeded; the token strategy asks the issuer
      and discards the token it issues; a union cannot issue. */
  method Issue(a: Strategy, store: Database.Store, ids: Database.IdSource, w: Http.Response,
               user: Shield.User, now: Time)
    returns (sess: Option<Context.StrategySession>, err: Option<Error>)
    requires !store.inTx
    modifies store, ids, w
    ensures !store.inTx
    ensures sess.Some? <==> err.None?
    ensures a.StrategyUnion? ==>
      err == Some(Unsupported) && store.committed == old(store.committed) && w.cookies == old(w.cookies) &&
      ids.last == old(ids.last)
    ensures a.TokenStrategy? ==>
      var e := a.parts.issue(user.id, user.payload);
      store.committed == old(store.committed) && w.cookies == old(w.cookies) &&
      (e.Some? ==> err == Some(Wrapped(IssueFailed, e.value)) && ids.last == old(ids.last)) &&
      (e.None? ==> ids.last == old(ids.last) + 1 &&
                   sess == Some(Context.StrategySession(ids.last, now + a.tokenCfg.accessTokenExpiresIn, None)))
    ensures a.SessionStrategy? ==>
      var sid := old(ids.last) + 1;
      var c := Sql.CreateUserSession(old(store.committed), sid, user.id, now + a.cfg.expiresIn, false);
      var o := Database.Outcome(store.faults, Database.CreateUserSession, c);
      ids.last == sid &&
      (o.Err? ==> err == Some(Wrapped(CreateFailed, o.error)) && store.committed == old(store.committed) &&
                  w.cookies == old(w.cookies)) &&
      (o.Ok? ==> sess == Some(Context.StrategySession(sid, now + a.cfg.expiresIn, None)) &&
                 store.committed == o.value &&
                 w.cookies == old(w.cookies) + [Http.SetCookie(SessionCookie(a.cfg, sid))])
  {
    match a
    case StrategyUnion(_) =>
      return None, Some(Unsupported);
    case TokenStrategy(parts, tokenCfg) =>
      var e := parts.issue(user.id, user.payload);
      if e.Some? {
        return None, Some(Wrapped(IssueFailed, e.value));
      }
      var id := ids.Next();
      sess, err := Some(Context.StrategySession(id, now + tokenCfg.accessTokenExpiresIn, None)), None;
    case SessionStrategy(cfg) =>
      var sid := ids.Next();
      var expiresAt := now + cfg.expiresIn;
      var e := store.CreateUserSession(sid, user.id, expiresAt, false);
      if e.Some? {
        return None, Some(Wrapped(CreateFailed, e.value));
      }
      w.Set(SessionCookie(cfg, sid));
      sess, err := Some(Context.StrategySession(sid, expiresAt, None)), None;
  }

  /** With the written token NewConfig and no options, an issued session
      expires at the instant it is issued. */
  lemma TokenIssueExpiresAtOnce(now: Time)
    ensures now + NewTokenConfigAsWritten([]).accessTokenExpiresIn == now
    ensures now + NewTokenConfig([]).accessTokenExpiresIn > now
  {
  }

  /** A cookie the session strategy's Issue set authenticates its session
      when the server refuses nothing and the logger is set. */
  lemma {:induction false} IssueThenAuthenticate(cfg: SessionConfig, t: Sql.Tables, userId: Uuid, sid: Uuid,
                                                 now: Time, r: Http.Request)
    requires cfg.hasLogger && sid !in t.sessions
    requires cfg.cookieName in r.cookies && r.cookies[cfg.cookieName] == SessionCookie(cfg, sid).value
    ensures var c := Sql.CreateUserSession(t, sid, userId, now + cfg.expiresIn, false);
      c.Ok? &&
      SessionAuthenticateSpec(cfg, map[], c.value, r) ==
        Answer(Some(Context.StrategySession(sid, now + cfg.expiresIn, None)), None, [])
  {
    UuidText.ParseFormat(sid);
  }

  // ---------------------------------------------------------------- logout

  /** LogoutHandler.HandleLogout: expire the session of the user in the
      context, straight on the pool, then delete the cookie.  Without a
      user the answer is a 401; a failed update is a 500 and keeps the
      cookie. */
  method HandleLogout(cfg: SessionConfig, store: Database.Store, ctx: Context.Context, w: Http.Response)
    returns (err: Option<Error>)
    requires !store.inTx
    modifies store, w
    ensures !store.inTx
    ensures var usr := ShieldUser.FromContext(ctx, Context.AnyType);
      usr.None? ==>
        err == Some(Http(Http.StatusUnauthorized, UnauthenticatedUser, "")) &&
        store.committed == old(store.committed) && w.cookies == old(w.cookies)
    ensures var usr := ShieldUser.FromContext(ctx, Context.AnyType);
      usr.Some? ==>
        var o := Database.Outcome(store.faults, Database.ExpireSessionByID,
                                  Sql.ExpireSessionByID(old(store.committed), usr.value.id));
        (o.Err? ==> err == Some(Http(Http.StatusInternalServerError, o.error, "")) &&
                    store.committed == old(store.committed) && w.cookies == old(w.cookies)) &&
        (o.Ok? ==> err.None? && store.committed == o.value &&
                   w.cookies == old(w.cookies) + [Http.DeleteCookie(cfg.cookieName)])
  {
    var usr := ShieldUser.FromContext(ctx, Context.AnyType);
    if usr.None? {
      return Some(Http(Http.StatusUnauthorized, UnauthenticatedUser, ""));
    }
    var r := store.ExpireSessionByID(usr.value.id);
    if r.Err? {
      return Some(Http(Http.StatusInternalServerError, r.error, ""));
    }
    w.Delete(cfg.cookieName);
    err := None;
  }

  // ------------------------------------------------------------ middleware

  /** shielduser.Middleware, for one request: authenticate, then hand a 401
      to the error handler or go on with the answered session stored, as
      ShieldUser.AfterAuthenticate says. */
  method Middleware(a: Strategy, cfg: ShieldUser.Config, typeArg: string, store: Database.Store,
                    r: Http.Request, ctx: Context.Context, w: Http.Response)
    returns (o: Context.Outcome)
    requires !store.inTx
    modifies store, w
    ensures !store.inTx && store.committed == old(store.committed)
    ensures var x := AuthenticateSpec(a, store.faults, old(store.committed), r);
      o == ShieldUser.AfterAuthenticate(cfg, ctx, typeArg, x.sess, x.err) &&
      w.cookies == old(w.cookies) + x.ops
  {
    var sess, err := Authenticate(a, store, r, w);
    o := ShieldUser.AfterAuthenticate(cfg, ctx, typeArg, sess, err);
  }
}
