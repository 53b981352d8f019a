/** shieldsession/middleware.go: where the session middleware keeps the
    authenticated session, and what it and the redirecting middleware do
    with a request.  The authenticators themselves are in module
    Authenticators. */
module ShieldSession {
  import opened Base
  import Http
  import Context

  /** FromContext[S]: the session stored with type argument S, or
      ErrUnauthenticatedUser when there is none or it was stored as another
      type. */
  function FromContext(ctx: Context.Context, typeArg: string): (r: Result<Context.Session>)
    ensures r.Ok? <==> ctx.session.Some? && ctx.session.value.typeArg == typeArg
    ensures r.Ok? ==> r.value == ctx.session.value.value
    ensures r.Err? ==> r.error == UnauthenticatedUser
  {
    if ctx.session.Some? && ctx.session.value.typeArg == typeArg then Ok(ctx.session.value.value)
    else Err(UnauthenticatedUser)
  }

  /** IsAuthenticated: some session is stored, whatever its type. */
  predicate IsAuthenticated(ctx: Context.Context)
  {
    ctx.session.Some?
  }

  /** A session FromContext finds for any type argument means the context is
      authenticated; the converse needs the right type argument. */
  lemma FromContextAuthenticated(ctx: Context.Context, typeArg: string)
    ensures FromContext(ctx, typeArg).Ok? ==> IsAuthenticated(ctx)
    ensures IsAuthenticated(ctx) ==> FromContext(ctx, ctx.session.value.typeArg).Ok?
  {
  }

  /** Config: whether a failed authentication lets the request through. */
  datatype Config = Config(passthrough: bool)

  function WithPassthrough(): (Config -> Config)
  {
    (c: Config) => c.(passthrough := true)
  }

  /** NewConfig: the options applied to the zero config. */
  function NewConfig(opts: seq<Config -> Config>): Config
  {
    ApplyOptions(Config(false), opts)
  }

  /** By default a failed authentication stops the request; WithPassthrough
      lets it through. */
  lemma NewConfigDefaults()
    ensures !NewConfig([]).passthrough
    ensures NewConfig([WithPassthrough()]).passthrough
  {
  }

  /** What Middleware does once the authenticator has answered: a session is
      stored under the type argument; an error goes to the error handler as
      a 401, unless passthrough is set, when the request goes on with its
      context unchanged. */
  function AfterAuthenticate(cfg: Config, ctx: Context.Context, typeArg: string,
                             sess: Context.Session, err: Option<Error>): (o: Context.Outcome)
    ensures err.None? ==> o == Context.Next(ctx.(session := Some(Context.Typed(typeArg, sess))))
    ensures err.Some? && cfg.passthrough ==> o == Context.Next(ctx)
    ensures err.Some? && !cfg.passthrough ==>
      o == Context.HandleError(Http(Http.StatusUnauthorized, err.value, "unauthorized access"))
  {
    if err.Some? then
      if cfg.passthrough then Context.Next(ctx)
      else Context.HandleError(Http(Http.StatusUnauthorized, err.value, "unauthorized access"))
    else Context.Next(ctx.(session := Some(Context.Typed(typeArg, sess))))
  }

  /** After the middleware, the next handler finds the session it stored,
      and finds a session at all only if one was authenticated or was
      already there. */
  lemma AfterAuthenticateStores(cfg: Config, ctx: Context.Context, typeArg: string,
                                sess: Context.Session, err: Option<Error>)
    ensures var o := AfterAuthenticate(cfg, ctx, typeArg, sess, err);
      err.None? ==> o.Next? && FromContext(o.ctx, typeArg) == Ok(sess)
    ensures var o := AfterAuthenticate(cfg, ctx, typeArg, sess, err);
      o.Next? && IsAuthenticated(o.ctx) ==> err.None? || IsAuthenticated(ctx)
  {
  }

  /** RedirectAuthenticatedUserMiddleware: an authenticated request is sent
      to the URL with a 307; any other goes on unchanged. */
  function RedirectAuthenticatedUser(redirectUrl: string, ctx: Context.Context): (o: Context.Outcome)
    ensures IsAuthenticated(ctx) <==> o.Redirect?
    ensures o.Redirect? ==> o.url == redirectUrl && o.status == Http.StatusTemporaryRedirect
    ensures o.Next? ==> o.ctx == ctx
  {
    if IsAuthenticated(ctx) then Context.Redirect(redirectUrl, Http.StatusTemporaryRedirect)
    else Context.Next(ctx)
  }
}
