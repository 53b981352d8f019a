/** shielduser/middleware.go: where the older user middleware keeps the
    authenticated shieldstrategy session, and what its middlewares and its
    redirecting error handler do with a request.  The authenticators are in
    module Strategies. */
module ShieldUser {
  import opened Base
  import Http
  import Context

  const DefaultQueryNameRedirectUrl := "redirect_url"

  /** FromContext[T]: the session stored as `*Session[T]`; nil when nothing
      is stored, when the stored pointer is nil, or when it was stored with
      another type argument. */
  function FromContext(ctx: Context.Context, typeArg: string): (s: Option<Context.StrategySession>)
    ensures s.Some? <==> ctx.user.Some? && ctx.user.value.typeArg == typeArg && ctx.user.value.value.Some?
    ensures s.Some? ==> s == ctx.user.value.value
  {
    if ctx.user.Some? && ctx.user.value.typeArg == typeArg then ctx.user.value.value else None
  }

  /** IsAuthenticated as written: FromContext[any] is not nil, which holds
      only for sessions stored with the type argument `any`. */
  predicate IsAuthenticatedAsWritten(ctx: Context.Context)
  {
    FromContext(ctx, Context.AnyType).Some?
  }

  /** IsAuthenticated as its documentation describes it: a non-nil session
      is stored, whatever its type argument. */
  predicate IsAuthenticated(ctx: Context.Context)
  {
    ctx.user.Some? && ctx.user.value.value.Some?
  }

  /** The two agree on sessions stored as `any`; a session stored with any
      other type argument is authenticated but not recognised as written. */
  lemma IsAuthenticatedAsWrittenMissesTypedSessions(ctx: Context.Context)
    ensures IsAuthenticatedAsWritten(ctx) ==> IsAuthenticated(ctx)
    ensures ctx.user.Some? && ctx.user.value.typeArg == Context.AnyType ==>
      (IsAuthenticatedAsWritten(ctx) <==> IsAuthenticated(ctx))
    ensures ctx.user.Some? && ctx.user.value.typeArg != Context.AnyType ==> !IsAuthenticatedAsWritten(ctx)
  {
  }

  /** The request that shows it: a session stored by Middleware[string]. */
  lemma IsAuthenticatedAsWrittenCounterexample()
    ensures var ctx := Context.Background.(user := Some(Context.Typed("string", Some(Context.StrategySession(1, 0, None)))));
      IsAuthenticated(ctx) && !IsAuthenticatedAsWritten(ctx)
  {
  }

  /** Corrected, a session is recognised whatever type argument it was
      stored with: FromContext finding one for any type argument means the
      request is authenticated, and an authenticated request's session is
      found for the type it was stored with. */
  lemma IsAuthenticatedMatchesFromContext(ctx: Context.Context, typeArg: string)
    ensures FromContext(ctx, typeArg).Some? ==> IsAuthenticated(ctx)
    ensures IsAuthenticated(ctx) ==> FromContext(ctx, ctx.user.value.typeArg).Some?
  {
  }

  datatype Config = Config(passthrough: bool)

  /** What Middleware does once the authenticator has answered: without
      passthrough an error goes to the error handler as a 401; otherwise
      the request goes on with the answered session stored, even when it is
      nil because authentication failed. */
  function AfterAuthenticate(cfg: Config, ctx: Context.Context, typeArg: string,
                             user: Option<Context.StrategySession>, err: Option<Error>): (o: Context.Outcome)
    ensures err.Some? && !cfg.passthrough ==>
      o == Context.HandleError(Http(Http.StatusUnauthorized, err.value, "unauthorized access"))
    ensures err.None? || cfg.passthrough ==> o == Context.Next(ctx.(user := Some(Context.Typed(typeArg, user))))
  {
    if err.Some? && !cfg.passthrough then Context.HandleError(Http(Http.StatusUnauthorized, err.value, "unauthorized access"))
    else Context.Next(ctx.(user := Some(Context.Typed(typeArg, user))))
  }

  /** After the middleware, the next handler finds exactly the session the
      authenticator answered, and a failed authentication under passthrough
      replaces whatever was stored before. */
  lemma AfterAuthenticateStores(cfg: Config, ctx: Context.Context, typeArg: string,
                                user: Option<Context.StrategySession>, err: Option<Error>)
    ensures var o := AfterAuthenticate(cfg, ctx, typeArg, user, err);
      o.Next? ==> FromContext(o.ctx, typeArg) == user
    ensures var o := AfterAuthenticate(cfg, ctx, typeArg, user, err);
      o.Next? && user.None? ==> !IsAuthenticated(o.ctx)
  {
  }

  /** RedirectOnUnathenticatedUser: the error handler that sends an
      unauthenticated request to `path`, remembering where it was going;
      any other error goes to the default error handler. */
  function RedirectOnUnauthenticatedUser(path: string, r: Http.Request, err: Error): (o: Context.Outcome)
    ensures Is(err, UnauthenticatedUser) <==> o.Redirect?
    ensures o.Redirect? ==>
      o.status == Http.StatusTemporaryRedirect &&
      o.url == path + "?" + DefaultQueryNameRedirectUrl + "=" + Http.QueryEscape(r.requestUri)
    ensures o.HandleError? ==> o.err == err
  {
    if Is(err, UnauthenticatedUser) then
      Context.Redirect(path + "?" + DefaultQueryNameRedirectUrl + "=" + Http.QueryEscape(r.requestUri),
                       Http.StatusTemporaryRedirect)
    else Context.HandleError(err)
  }

  /** The 401 Middleware hands over still matches ErrUnauthenticatedUser,
      so the redirecting handler redirects it. */
  lemma MiddlewareErrorRedirects(cfg: Config, ctx: Context.Context, typeArg: string, path: string, r: Http.Request)
    requires !cfg.passthrough
    ensures var o := AfterAuthenticate(cfg, ctx, typeArg, None, Some(UnauthenticatedUser));
      o.HandleError? && RedirectOnUnauthenticatedUser(path, r, o.err).Redirect?
  {
  }

  /** PreventAuthenticatedUserAccessMiddleware: an authenticated request is
      redirected with a 307; any other goes on unchanged. */
  function PreventAuthenticatedUserAccess(redirectUrl: string, ctx: Context.Context): (o: Context.Outcome)
    ensures IsAuthenticatedAsWritten(ctx) <==> o.Redirect?
    ensures o.Redirect? ==> o.url == redirectUrl && o.status == Http.StatusTemporaryRedirect
    ensures o.Next? ==> o.ctx == ctx
  {
    if IsAuthenticatedAsWritten(ctx) then Context.Redirect(redirectUrl, Http.StatusTemporaryRedirect)
    else Context.Next(ctx)
  }

  /** As written, the middleware lets a request through whose session was
      stored by Middleware[string], although that request is authenticated;
      only a session stored as `any` is redirected. */
  lemma PreventAuthenticatedUserAccessPassesTypedSession(redirectUrl: string, s: Context.StrategySession)
    ensures var ctx := Context.Background.(user := Some(Context.Typed("string", Some(s))));
      IsAuthenticated(ctx) && PreventAuthenticatedUserAccess(redirectUrl, ctx) == Context.Next(ctx)
    ensures var ctx := Context.Background.(user := Some(Context.Typed(Context.AnyType, Some(s))));
      PreventAuthenticatedUserAccess(redirectUrl, ctx).Redirect?
  {
  }
}
