/** shieldsession.Authenticator and its implementations: the server-side
    session strategy (module ServerSession) and the union of
    shieldsession/union, which tries its members in order.  Also the
    request handling of shieldsession.Middleware, which asks an
    authenticator. */
module Authenticators {
  import opened Base
  import Sql
  import Database
  import Http
  import Context
  import Shield
  import ShieldSession
  import ServerSession

  datatype Authenticator =
    | Server(cfg: ServerSession.Config)
    | Union(members: seq<Authenticator>)

  /** What Authenticate answers, with the cookie operations it performed. */
  datatype Answer = Answer(sess: Context.Session, err: Option<Error>, ops: seq<Http.CookieOp>)

  function AuthenticateSpec(a: Authenticator, faults: map<Database.Stmt, Error>, t: Sql.Tables,
                            r: Http.Request, now: Time): Answer
    decreases a, if a.Union? then |a.members| + 1 else 0
  {
    match a
    case Server(cfg) =>
      var x := ServerSession.AuthenticateSpec(cfg, faults, t, r, now);
      Answer(x.sess, x.err, if x.deleteCookie then [Http.DeleteCookie(cfg.cookieName)] else [])
    case Union(_) => UnionFrom(a, 0, [], faults, t, r, now)
  }

  /** The union's loop from member i on, with the errors of the members
      before i collected.  The loop's `sess, err :=` declares a new `sess`,
      so a loop that finds no success returns the zero session. */
  function UnionFrom(a: Authenticator, i: nat, errs: seq<Error>, faults: map<Database.Stmt, Error>,
                     t: Sql.Tables, r: Http.Request, now: Time): Answer
    requires a.Union? && i <= |a.members|
    decreases a, |a.members| - i
  {
    if i == |a.members| then Answer(Context.ZeroSession, Join(errs), [])
    else
      var x := AuthenticateSpec(a.members[i], faults, t, r, now);
      if x.err.None? then Answer(x.sess, None, x.ops)
      else
        var y := UnionFrom(a, i + 1, errs + [x.err.value], faults, t, r, now);
        Answer(y.sess, y.err, x.ops + y.ops)
  }

  /** The errors of the members from i on that fail. */
  function FailedFrom(a: Authenticator, i: nat, faults: map<Database.Stmt, Error>,
                      t: Sql.Tables, r: Http.Request, now: Time): seq<Error>
    requires a.Union? && i <= |a.members|
    decreases |a.members| - i
  {
    if i == |a.members| then []
    else
      var x := AuthenticateSpec(a.members[i], faults, t, r, now);
      (if x.err.Some? then [x.err.value] else []) + FailedFrom(a, i + 1, faults, t, r, now)
  }

  predicate Succeeds(a: Authenticator, faults: map<Database.Stmt, Error>, t: Sql.Tables, r: Http.Request, now: Time)
  {
    AuthenticateSpec(a, faults, t, r, now).err.None?
  }

  /** The first member that succeeds from i on answers for the union. */
  lemma {:induction false} UnionFromFirst(a: Authenticator, i: nat, errs: seq<Error>, faults: map<Database.Stmt, Error>,
                                          t: Sql.Tables, r: Http.Request, now: Time, j: nat)
    requires a.Union? && i <= j < |a.members| && Succeeds(a.members[j], faults, t, r, now)
    requires forall k :: i <= k < j ==> !Succeeds(a.members[k], faults, t, r, now)
    ensures var y := UnionFrom(a, i, errs, faults, t, r, now);
      y.err.None? && y.sess == AuthenticateSpec(a.members[j], faults, t, r, now).sess
    decreases j - i
  {
    if i < j {
      var e := AuthenticateSpec(a.members[i], faults, t, r, now).err.value;
      UnionFromFirst(a, i + 1, errs + [e], faults, t, r, now, j);
    }
  }

  /** When every member from i on fails, the union answers the zero session
      and the collected errors joined with those of the members. */
  lemma {:induction false} UnionFromNone(a: Authenticator, i: nat, errs: seq<Error>, faults: map<Database.Stmt, Error>,
                                         t: Sql.Tables, r: Http.Request, now: Time)
    requires a.Union? && i <= |a.members|
    requires forall j :: i <= j < |a.members| ==> !Succeeds(a.members[j], faults, t, r, now)
    ensures var y := UnionFrom(a, i, errs, faults, t, r, now);
      y.sess == Context.ZeroSession && y.err == Join(errs + FailedFrom(a, i, faults, t, r, now))
    decreases |a.members| - i
  {
    if i == |a.members| {
      assert errs + FailedFrom(a, i, faults, t, r, now) == errs;
    } else {
      var e := AuthenticateSpec(a.members[i], faults, t, r, now).err.value;
      UnionFromNone(a, i + 1, errs + [e], faults, t, r, now);
      assert errs + FailedFrom(a, i, faults, t, r, now) == (errs + [e]) + FailedFrom(a, i + 1, faults, t, r, now);
    }
  }

  /** union.Authenticate: the first member that authenticates decides the
      session; when every member fails the answer is the zero session and
      all their errors joined, in order.  A union without members fails no
      member, so it answers the zero session with no error. */
  lemma UnionAuthenticate(ms: seq<Authenticator>, faults: map<Database.Stmt, Error>,
                          t: Sql.Tables, r: Http.Request, now: Time)
    ensures var x := AuthenticateSpec(Union(ms), faults, t, r, now);
      forall j :: 0 <= j < |ms| && Succeeds(ms[j], faults, t, r, now) &&
                  (forall k :: 0 <= k < j ==> !Succeeds(ms[k], faults, t, r, now)) ==>
        x.err.None? && x.sess == AuthenticateSpec(ms[j], faults, t, r, now).sess
    ensures var x := AuthenticateSpec(Union(ms), faults, t, r, now);
      |ms| > 0 && (forall j :: 0 <= j < |ms| ==> !Succeeds(ms[j], faults, t, r, now)) ==>
        x.sess == Context.ZeroSession && x.err == Some(Joined(FailedFrom(Union(ms), 0, faults, t, r, now)))
    ensures AuthenticateSpec(Union([]), faults, t, r, now) == Answer(Context.ZeroSession, None, [])
  {
    var x := AuthenticateSpec(Union(ms), faults, t, r, now);
    forall j | 0 <= j < |ms| && Succeeds(ms[j], faults, t, r, now) &&
               (forall k :: 0 <= k < j ==> !Succeeds(ms[k], faults, t, r, now))
      ensures x.err.None? && x.sess == AuthenticateSpec(ms[j], faults, t, r, now).sess
    {
      UnionFromFirst(Union(ms), 0, [], faults, t, r, now, j);
    }
    if |ms| > 0 && (forall j :: 0 <= j < |ms| ==> !Succeeds(ms[j], faults, t, r, now)) {
      UnionFromNone(Union(ms), 0, [], faults, t, r, now);
      assert [] + FailedFrom(Union(ms), 0, faults, t, r, now) == FailedFrom(Union(ms), 0, faults, t, r, now);
      FailedFromAllFail(Union(ms), 0, faults, t, r, now);
    }
  }

  /** When every member from i on fails, each contributes its error. */
  lemma {:induction false} FailedFromAllFail(a: Authenticator, i: nat, faults: map<Database.Stmt, Error>,
                                             t: Sql.Tables, r: Http.Request, now: Time)
    requires a.Union? && i <= |a.members|
    requires forall j :: i <= j < |a.members| ==> !Succeeds(a.members[j], faults, t, r, now)
    ensures |FailedFrom(a, i, faults, t, r, now)| == |a.members| - i
    decreases |a.members| - i
  {
    if i < |a.members| {
      FailedFromAllFail(a, i + 1, faults, t, r, now);
    }
  }

  /** Authenticate, dispatched on the authenticator.  Only the server
      strategy touches the store, and only to read, so the committed state
      never changes. */
  method Authenticate(a: Authenticator, store: Database.Store, r: Http.Request, w: Http.Response, now: Time)
    returns (sess: Context.Session, err: Option<Error>)
    requires !store.inTx
    modifies store, w
    ensures !store.inTx && store.committed == old(store.committed)
    ensures var x := AuthenticateSpec(a, store.faults, old(store.committed), r, now);
      sess == x.sess && err == x.err && w.cookies == old(w.cookies) + x.ops
    decreases a
  {
    match a
    case Server(cfg) =>
      sess, err := ServerSession.Authenticate(cfg, store, r, w, now);
    case Union(members) =>
      var errs: seq<Error> := [];
      var i := 0;
      while i < |members|
        invariant 0 <= i <= |members|
        invariant !store.inTx && store.committed == old(store.committed)
        invariant var x := AuthenticateSpec(a, store.faults, old(store.committed), r, now);
          var y := UnionFrom(a, i, errs, store.faults, old(store.committed), r, now);
          x.sess == y.sess && x.err == y.err && old(w.cookies) + x.ops == w.cookies + y.ops
      {
        var s, e := Authenticate(members[i], store, r, w, now);
        if e.None? {
          return s, None;
        }
        errs := errs + [e.value];
        i := i + 1;
      }
      sess, err := Context.ZeroSession, Join(errs);
  }

  /** Issue: the server strategy issues; a union cannot. */
  method Issue(a: Authenticator, store: Database.Store, ids: Database.IdSource, w: Http.Response,
               user: Shield.User, now: Time)
    returns (sess: Context.Session, err: Option<Error>)
    requires !store.inTx
    modifies store, ids, w
    ensures !store.inTx
    ensures ids.last == old(ids.last) + (if a.Server? then 1 else 0)
    ensures a.Union? ==>
      sess == Context.ZeroSession && err == Some(Unsupported) && store.committed == old(store.committed) &&
      w.cookies == old(w.cookies)
    ensures a.Server? ==>
      var x := ServerSession.IssueSpec(a.cfg, store.faults, old(store.committed), user.id, user.payload,
                                       user.cachedMfas, old(ids.last) + 1, now);
      sess == x.sess && err == x.err && store.committed == x.committed &&
      w.cookies == old(w.cookies) + (if err.None? then [Http.SetCookie(ServerSession.SessionCookie(a.cfg, old(ids.last) + 1))] else [])
  {
    if a.Union? {
      return Context.ZeroSession, Some(Unsupported);
    }
    sess, err := ServerSession.Issue(a.cfg, store, ids, w, user, now);
  }

  /** What ExpireSessions answers, and the tables it leaves. */
  function ExpireSessionsSpec(a: Authenticator, faults: map<Database.Stmt, Error>, t: Sql.Tables,
                              ctx: Context.Context, typeArg: string): ServerSession.Expired
  {
    match a
    case Server(cfg) => ServerSession.ExpireSessionsSpec(cfg, faults, t, ctx, typeArg)
    case Union(_) => ServerSession.Expired(Some(Unsupported), t)
  }

  /** A union never expires anything and always answers ErrUnsupported; a
      failing expiry leaves the tables alone unless only the hook failed. */
  lemma ExpireSessionsUnsupported(a: Authenticator, faults: map<Database.Stmt, Error>, t: Sql.Tables,
                                  ctx: Context.Context, typeArg: string)
    ensures var x := ExpireSessionsSpec(a, faults, t, ctx, typeArg);
      a.Union? <==> x.err == Some(Unsupported)
    ensures var x := ExpireSessionsSpec(a, faults, t, ctx, typeArg);
      a.Union? ==> x.tables == t
  {
  }

  /** ExpireSessions: the server strategy expires; a union cannot. */
  method ExpireSessions(a: Authenticator, typeArg: string, ctx: Context.Context, store: Database.Store)
    returns (err: Option<Error>)
    modifies store
    ensures store.inTx == old(store.inTx)
    ensures store.inTx ==> store.committed == old(store.committed)
    ensures var x := ExpireSessionsSpec(a, store.faults, old(store.Current()), ctx, typeArg);
      err == x.err && store.Current() == x.tables
  {
    if a.Union? {
      return Some(Unsupported);
    }
    err := ServerSession.ExpireSessions(a.cfg, typeArg, ctx, store);
  }

  /** shieldsession.Middleware, for one request: authenticate, then store
      the session, let the request through, or hand a 401 to the error
      handler, as ShieldSession.AfterAuthenticate says. */
  method Middleware(a: Authenticator, cfg: ShieldSession.Config, typeArg: string, store: Database.Store,
                    r: Http.Request, ctx: Context.Context, w: Http.Response, now: Time)
    returns (o: Context.Outcome)
    requires !store.inTx
    modifies store, w
    ensures !store.inTx && store.committed == old(store.committed)
    ensures var x := AuthenticateSpec(a, store.faults, old(store.committed), r, now);
      o == ShieldSession.AfterAuthenticate(cfg, ctx, typeArg, x.sess, x.err) &&
      w.cookies == old(w.cookies) + x.ops
  {
    var sess, err := Authenticate(a, store, r, w, now);
    o := ShieldSession.AfterAuthenticate(cfg, ctx, typeArg, sess, err);
  }
}
