/** shieldcsrf/middleware.go: the CSRF middleware.  Every request gets a
    freshly minted token in its context; requests whose method is not
    ignored must also pass the double-submit check. */
module CsrfMiddleware {
  import opened Base
  import Random
  import Http
  import CsrfToken
  import Context

  const DefaultFieldName := "csrf_token"
  const DefaultHeaderName := "X-Csrf-Token"
  const DefaultCookieName := "csrf_token"
  const DefaultTokenLength := 32

  /** Config (the error handler is the one an outcome's error is given to). */
  datatype Config = Config(
    checksumSecret: string,
    headerName: string,
    fieldName: string,
    cookieName: string,
    ignoredMethods: seq<string>,
    tokenLength: nat,
    cookieSameSite: Http.SameSite,
    cookieSecure: bool)

  /** The configuration Middleware starts from, before the options. */
  const Defaults := Config(
    "", DefaultHeaderName, DefaultFieldName, DefaultCookieName,
    [Http.MethodGet, Http.MethodHead, Http.MethodOptions, Http.MethodTrace],
    DefaultTokenLength, Http.SameSiteLax, false)

  /** The defaults: safe methods are ignored, the token has 32 random bytes,
      the cookie is lax and not secure. */
  lemma DefaultsAre()
    ensures Defaults.ignoredMethods == ["GET", "HEAD", "OPTIONS", "TRACE"]
    ensures Defaults.headerName == "X-Csrf-Token" && Defaults.fieldName == "csrf_token"
    ensures Defaults.cookieName == "csrf_token" && Defaults.tokenLength == 32
    ensures Defaults.cookieSameSite == Http.SameSiteLax && !Defaults.cookieSecure
  {
  }

  /** Middleware: the options are applied in order to the defaults.  No
      error is ever returned, whatever the secret, so an empty secret is
      accepted and ErrNoChecksumSecret is never produced. */
  method Middleware(secret: string, opts: seq<Config -> Config>) returns (cfg: Config, err: Option<Error>)
    ensures cfg == ApplyOptions(Defaults, opts)
    ensures err.None?
  {
    cfg := RunOptions(Defaults, opts);
    err := None;
  }

  /** The per-request tokenConfig. */
  function TokenConfigOf(cfg: Config, secret: string): (opt: CsrfToken.TokenConfig)
    ensures opt.checksumSecret == secret && opt.tokenLength == cfg.tokenLength
    ensures opt.headerName == cfg.headerName && opt.fieldName == cfg.fieldName && opt.cookieName == cfg.cookieName
    ensures opt.cookieSameSite == cfg.cookieSameSite && opt.cookieSecure == cfg.cookieSecure
  {
    CsrfToken.TokenConfig(secret, cfg.headerName, cfg.fieldName, cfg.cookieName, cfg.tokenLength,
                          cfg.cookieSameSite, cfg.cookieSecure)
  }

  /** Whether the double-submit check passes for a request. */
  predicate Valid(r: Http.Request, opt: CsrfToken.TokenConfig)
  {
    CsrfToken.FromRequest(r, opt).Ok? && CsrfToken.FromRequest(r, opt).value.value == CsrfToken.Submitted(r, opt)
  }

  /** The handler Middleware returns, applied to one request.  A token is
      minted first, for every method; if minting fails the error handler
      gets the error.  An ignored method goes on with the token in its
      context; any other method must validate, or the error handler gets a
      403.  The middleware never sets the token's cookie itself. */
  method Serve(cfg: Config, secret: string, r: Http.Request, ctx: Context.Context, src: Random.Entropy)
    returns (o: Context.Outcome)
    modifies src
    ensures var opt := TokenConfigOf(cfg, secret);
      if cfg.tokenLength > |old(src.stream)| then
        o.HandleError? && Is(o.err, EntropyFailure)
      else
        var tok := CsrfToken.Token(opt, Random.HexEncode(old(src.stream)[..cfg.tokenLength]),
                                   CsrfToken.ComputeChecksum(Random.HexEncode(old(src.stream)[..cfg.tokenLength]), secret));
        if r.httpMethod in cfg.ignoredMethods || Valid(r, opt) then o == Context.Next(ctx.(csrf := Some(tok)))
        else o.HandleError? && o.err.Http? && o.err.status == Http.StatusForbidden &&
             o.err.message == "invalid CSRF token" && !Valid(r, opt)
  {
    var opt := TokenConfigOf(cfg, secret);
    var tok := CsrfToken.NewToken(opt, src);
    if tok.Err? {
      return Context.HandleError(tok.error);
    }
    var newCtx := ctx.(csrf := Some(tok.value));
    if r.httpMethod in cfg.ignoredMethods {
      return Context.Next(newCtx);
    }
    var err := CsrfToken.ValidateRequest(r, opt);
    if err.Some? {
      return Context.HandleError(Http(Http.StatusForbidden, err.value, "invalid CSRF token"));
    }
    o := Context.Next(newCtx);
  }

  /** FromContext: the token stored by the middleware. */
  function FromContext(ctx: Context.Context): (r: Result<CsrfToken.Token>)
    ensures r.Ok? <==> ctx.csrf.Some?
    ensures r.Ok? ==> r.value == ctx.csrf.value
    ensures r.Err? ==> r.error == CsrfContextMissing
  {
    if ctx.csrf.Some? then Ok(ctx.csrf.value) else Err(CsrfContextMissing)
  }

  /** The token a request carries on to the next handler is the one stored
      for it. */
  lemma ServedTokenIsInContext(ctx: Context.Context, tok: CsrfToken.Token)
    ensures FromContext(ctx.(csrf := Some(tok))) == Ok(tok)
  {
  }

  /** SetToken: the token's cookie is added to the response. */
  method SetToken(w: Http.Response, tok: CsrfToken.Token)
    modifies w
    ensures w.cookies == old(w.cookies) + [Http.SetCookie(CsrfToken.TokenCookie(tok))]
  {
    w.Set(CsrfToken.TokenCookie(tok));
  }
}
