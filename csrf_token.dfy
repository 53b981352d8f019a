/** shieldcsrf/token.go: the double-submit CSRF token.  A token is a random
    hex value and its checksum, a keyed MAC of the value rendered in hex.  The
    cookie carries base64url(value "|" checksum); a request is valid when its
    cookie decodes to a value with the right checksum and the request also
    submits that value in a header or a form field. */
module CsrfToken {
  import opened Base
  import Random
  import Base64Url
  import Http

  /** A Go string: every character is one byte. */
  type ByteString = s: string | forall i :: 0 <= i < |s| ==> s[i] as int < 256

  function ToBytes(s: ByteString): (b: seq<byte>)
    ensures |b| == |s|
    ensures forall i :: 0 <= i < |s| ==> b[i] as int == s[i] as int
  {
    seq(|s|, i requires 0 <= i < |s| => s[i] as int as byte)
  }

  function FromBytes(b: seq<byte>): (s: ByteString)
    ensures |s| == |b|
    ensures forall i :: 0 <= i < |b| ==> s[i] as int == b[i] as int
  {
    seq(|b|, i requires 0 <= i < |b| => b[i] as int as char)
  }

  /** Converting a Go string to []byte and back loses nothing. */
  lemma FromToBytes(s: ByteString)
    ensures FromBytes(ToBytes(s)) == s
  {
    var r := FromBytes(ToBytes(s));
    assert |r| == |s|;
    assert forall i :: 0 <= i < |s| ==> r[i] == s[i];
  }

  datatype TokenConfig = TokenConfig(
    checksumSecret: string,
    headerName: string,
    fieldName: string,
    cookieName: string,
    tokenLength: nat,
    cookieSameSite: Http.SameSite,
    cookieSecure: bool)

  datatype Token = Token(config: TokenConfig, value: ByteString, checksum: ByteString)

  /** tokenConfig.cookieName: a secure cookie's name carries the
      `__Secure-` prefix. */
  function CookieName(opt: TokenConfig): (name: string)
    ensures opt.cookieSecure ==> name == "__Secure-" + opt.cookieName
    ensures !opt.cookieSecure ==> name == opt.cookieName
  {
    if opt.cookieSecure then "__Secure-" + opt.cookieName else opt.cookieName
  }

  // ------------------------------------------------------------- checksum

  function CharSum(s: string): nat
    decreases |s|
  {
    if |s| == 0 then 0 else s[0] as nat + CharSum(s[1..])
  }

  /** A stand-in for the 32-byte HMAC-SHA256 of `msg` under `key`: a
      deterministic function of the two. */
  function Mac(key: string, msg: string): (m: seq<byte>)
    ensures |m| == 32
  {
    var k, v := CharSum(key), CharSum(msg);
    seq(32, i requires 0 <= i < 32 => ((k * 31 + v * 17 + i * (|key| + |msg| + 1)) % 256) as byte)
  }

  /** computeChecksum: the MAC in lower-case hex, 64 characters long. */
  function ComputeChecksum(value: string, secret: string): (c: ByteString)
    ensures |c| == 64
    ensures forall i :: 0 <= i < |c| ==> Random.IsHexDigit(c[i])
  {
    Random.HexEncode(Mac(secret, value))
  }

  /** Token.validateChecksum. */
  predicate ValidChecksum(t: Token)
  {
    t.checksum == ComputeChecksum(t.value, t.config.checksumSecret)
  }

  /** Token.String: the raw value, never the checksum. */
  function String(t: Token): (s: string)
    ensures s == t.value
  {
    t.value
  }

  /** newToken: a random value of 2 * TokenLength hex digits and its
      checksum under the secret. */
  method NewToken(opt: TokenConfig, src: Random.Entropy) returns (t: Result<Token>)
    modifies src
    ensures t.Ok? <==> opt.tokenLength <= |old(src.stream)|
    ensures t.Ok? ==> t.value.config == opt && ValidChecksum(t.value)
    ensures t.Ok? ==> t.value.value == Random.HexEncode(old(src.stream)[..opt.tokenLength])
    ensures t.Ok? ==> |t.value.value| == 2 * opt.tokenLength
    ensures t.Err? ==> Is(t.error, EntropyFailure)
  {
    var value, err := Random.SecureHexString(opt.tokenLength, src);
    if err.Some? {
      return Err(Wrapped("shieldcsrf: failed to create CSRF token", err.value));
    }
    t := Ok(Token(opt, value, ComputeChecksum(value, opt.checksumSecret)));
  }

  // --------------------------------------------------------- cookie codec

  /** strings.Split(s, string(sep)). */
  function Split(s: string, sep: char): (parts: seq<string>)
    ensures |parts| >= 1
    ensures forall i :: 0 <= i < |parts| ==> sep !in parts[i]
    decreases |s|
  {
    if |s| == 0 then [""]
    else
      var rest := Split(s[1..], sep);
      if s[0] == sep then [""] + rest else [[s[0]] + rest[0]] + rest[1..]
  }

  lemma {:induction false} SplitNoSep(s: string, sep: char)
    requires sep !in s
    ensures Split(s, sep) == [s]
    decreases |s|
  {
    if |s| > 0 {
      assert sep !in s[1..] by {
        forall i | 0 <= i < |s[1..]| ensures s[1..][i] != sep { assert s[1..][i] == s[i + 1]; }
      }
      SplitNoSep(s[1..], sep);
      assert [s[0]] + s[1..] == s;
    }
  }

  lemma {:induction false} SplitJoined(a: string, sep: char, b: string)
    requires sep !in a
    ensures Split(a + [sep] + b, sep) == [a] + Split(b, sep)
    decreases |a|
  {
    var s := a + [sep] + b;
    if |a| == 0 {
      assert s[1..] == b;
    } else {
      assert s[1..] == a[1..] + [sep] + b;
      assert sep !in a[1..] by {
        forall i | 0 <= i < |a[1..]| ensures a[1..][i] != sep { assert a[1..][i] == a[i + 1]; }
      }
      SplitJoined(a[1..], sep, b);
      assert [a[0]] + a[1..] == a;
    }
  }

  /** fmt.Sprintf("%s|%s", value, checksum). */
  function Joined(value: ByteString, checksum: ByteString): (s: ByteString)
    ensures s == value + "|" + checksum
  {
    value + "|" + checksum
  }

  /** Token.cookieValue: base64url of "value|checksum". */
  function CookieValue(t: Token): (v: string)
    ensures |v| % 4 == 0
  {
    Base64Url.Encode(ToBytes(Joined(t.value, t.checksum)))
  }

  /** Token.cookie: HTTP-only, secure and same-site as configured. */
  function TokenCookie(t: Token): (c: Http.Cookie)
    ensures c.name == CookieName(t.config) && c.value == CookieValue(t)
    ensures c.httpOnly && c.secure == t.config.cookieSecure && c.sameSite == t.config.cookieSameSite
    ensures c.maxAge.None?
  {
    Http.Cookie(CookieName(t.config), CookieValue(t), true, t.config.cookieSecure, t.config.cookieSameSite, None)
  }

  /** decodeCookieValue: ErrInvalidToken when the value is not base64url or
      its content does not split on `|` into exactly two parts. */
  function DecodeCookieValue(v: string): (r: Result<(ByteString, ByteString)>)
    ensures r.Err? <==> Base64Url.Decode(v).None? || |Split(FromBytes(Base64Url.Decode(v).value), '|')| != 2
    ensures r.Err? ==> r.error == InvalidToken
    ensures r.Ok? ==> FromBytes(Base64Url.Decode(v).value) == r.value.0 + "|" + r.value.1
  {
    match Base64Url.Decode(v)
    case None => Err(InvalidToken)
    case Some(bytes) =>
      var content := FromBytes(bytes);
      var parts := Split(content, '|');
      if |parts| != 2 then Err(InvalidToken)
      else
        SplitTwo(content);
        assert forall i :: 0 <= i < |parts[0]| ==> parts[0][i] == content[i];
        assert forall i :: 0 <= i < |parts[1]| ==> parts[1][i] == content[|parts[0]| + 1 + i];
        Ok((parts[0], parts[1]))
  }

  /** When a string splits into two parts, it is those parts around the one
      separator. */
  lemma {:induction false} SplitTwo(s: string)
    requires |Split(s, '|')| == 2
    ensures s == Split(s, '|')[0] + "|" + Split(s, '|')[1]
    decreases |s|
  {
    var rest := Split(s[1..], '|');
    if s[0] == '|' {
      assert |rest| == 1;
      SplitOne(s[1..]);
      assert s == [s[0]] + s[1..];
    } else {
      assert |rest| == 2;
      SplitTwo(s[1..]);
      assert s == [s[0]] + s[1..];
    }
  }

  lemma {:induction false} SplitOne(s: string)
    requires |Split(s, '|')| == 1
    ensures Split(s, '|') == [s]
    decreases |s|
  {
    if |s| > 0 {
      SplitOne(s[1..]);
      assert s == [s[0]] + s[1..];
    }
  }

  /** The codec round trip: a cookie made from a value and a checksum
      without `|` decodes to that value and checksum. */
  lemma CookieRoundTrip(t: Token)
    requires '|' !in t.value && '|' !in t.checksum
    ensures DecodeCookieValue(CookieValue(t)) == Ok((t.value, t.checksum))
  {
    var content := Joined(t.value, t.checksum);
    Base64Url.RoundTrip(ToBytes(content));
    FromToBytes(content);
    SplitJoined(t.value, '|', t.checksum);
    SplitNoSep(t.checksum, '|');
  }

  /** Every minted token satisfies the round trip: its value and checksum
      are hex. */
  lemma MintedCookieRoundTrip(t: Token, stream: seq<byte>)
    requires t.value == Random.HexEncode(stream) && ValidChecksum(t)
    ensures DecodeCookieValue(CookieValue(t)) == Ok((t.value, t.checksum))
  {
    Random.HexHasNoBar(stream);
    Random.HexHasNoBar(Mac(t.config.checksumSecret, t.value));
    CookieRoundTrip(t);
  }

  // ----------------------------------------------------------- validation

  /** fromRequest: the token the request's cookie carries, if its checksum
      is right.  A missing cookie is http.ErrNoCookie, wrapped. */
  function FromRequest(r: Http.Request, opt: TokenConfig): (t: Result<Token>)
    ensures t.Ok? ==> t.value.config == opt && ValidChecksum(t.value)
    ensures t.Ok? ==> CookieName(opt) in r.cookies
    ensures t.Ok? ==> DecodeCookieValue(r.cookies[CookieName(opt)]) == Ok((t.value.value, t.value.checksum))
    ensures t.Err? ==> (CookieName(opt) !in r.cookies <==> Is(t.error, NoCookie))
    ensures t.Err? && CookieName(opt) in r.cookies ==> t.error == InvalidToken
  {
    var c := Http.CookieOf(r, CookieName(opt));
    if c.Err? then
      assert c.error == NoCookie && Is(Wrapped("shield/csrf: unable to retrieve cookie", c.error), NoCookie);
      Err(Wrapped("shield/csrf: unable to retrieve cookie", c.error))
    else
      assert !Is(InvalidToken, NoCookie);
      var d := DecodeCookieValue(c.value);
      if d.Err? then Err(d.error)
      else
        var tok := Token(opt, d.value.0, d.value.1);
        if !ValidChecksum(tok) then Err(InvalidToken) else Ok(tok)
  }

  /** The value a request submits: the header if it is set, else the post
      form field, else the first value of the multipart field. */
  function Submitted(r: Http.Request, opt: TokenConfig): string
  {
    var header := Http.HeaderValue(r, opt.headerName);
    if header != "" then header
    else
      var form := Http.PostFormValue(r, opt.fieldName);
      if form != "" then form
      else if r.multipartForm.Some? && opt.fieldName in r.multipartForm.value && |r.multipartForm.value[opt.fieldName]| > 0
      then r.multipartForm.value[opt.fieldName][0]
      else ""
  }

  /** Token.validateRequest: the submitted value must equal the token's. */
  method ValidateSubmitted(t: Token, r: Http.Request) returns (err: Option<Error>)
    ensures err.None? <==> t.value == Submitted(r, t.config)
    ensures err.Some? ==> err.value == TokenMismatch
  {
    var opt := t.config;
    var tokValue := Http.HeaderValue(r, opt.headerName);
    if tokValue == "" {
      tokValue := Http.PostFormValue(r, opt.fieldName);
    }
    if tokValue == "" && r.multipartForm.Some? {
      var form := r.multipartForm.value;
      if opt.fieldName in form && |form[opt.fieldName]| > 0 {
        tokValue := form[opt.fieldName][0];
      }
    }
    if t.value != tokValue {
      return Some(TokenMismatch);
    }
    err := None;
  }

  /** A request that submits nothing never matches a non-empty token. */
  lemma NothingSubmittedMismatches(t: Token, r: Http.Request)
    requires t.value != "" && Http.HeaderValue(r, t.config.headerName) == "" &&
      Http.PostFormValue(r, t.config.fieldName) == "" && r.multipartForm.None?
    ensures t.value != Submitted(r, t.config)
  {
  }

  /** The header wins over both forms. */
  lemma HeaderFirst(r: Http.Request, opt: TokenConfig)
    requires opt.headerName in r.header && r.header[opt.headerName] != ""
    ensures Submitted(r, opt) == r.header[opt.headerName]
  {
  }

  /** validateRequest: the cookie's token, then the submitted value. */
  method ValidateRequest(r: Http.Request, opt: TokenConfig) returns (err: Option<Error>)
    ensures err.None? <==> FromRequest(r, opt).Ok? && FromRequest(r, opt).value.value == Submitted(r, opt)
    ensures err.Some? && FromRequest(r, opt).Err? ==> err.value == FromRequest(r, opt).error
    ensures err.Some? && FromRequest(r, opt).Ok? ==> err.value == TokenMismatch
  {
    var tok := FromRequest(r, opt);
    if tok.Err? {
      return Some(tok.error);
    }
    err := ValidateSubmitted(tok.value, r);
  }

  /** The cookie error chain never reaches ErrTokenNotFound, nor does any
      other validation failure. */
  lemma NeverTokenNotFound(r: Http.Request, opt: TokenConfig)
    ensures FromRequest(r, opt).Err? ==> !Is(FromRequest(r, opt).error, TokenNotFound)
  {
    var t := FromRequest(r, opt);
    if t.Err? {
      if CookieName(opt) in r.cookies {
        assert t.error == InvalidToken;
      } else {
        assert t.error == Wrapped("shield/csrf: unable to retrieve cookie", NoCookie);
      }
    }
  }

  /** A request whose cookie holds a minted token and which submits its
      value passes validation. */
  lemma MintedTokenValidates(t: Token, stream: seq<byte>, r: Http.Request)
    requires t.value == Random.HexEncode(stream) && ValidChecksum(t)
    requires CookieName(t.config) in r.cookies && r.cookies[CookieName(t.config)] == CookieValue(t)
    requires Submitted(r, t.config) == t.value
    ensures FromRequest(r, t.config) == Ok(t)
  {
    MintedCookieRoundTrip(t, stream);
  }
}
