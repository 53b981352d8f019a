/** The parts of net/http the handlers and middlewares read and write: the
    request's method, cookies, header, forms and URI, and the cookies a
    response sets or deletes.  A request's context.Context is a separate
    value (module Context), passed beside the request. */
module Http {
  import opened Base

  const MethodGet := "GET"
  const MethodHead := "HEAD"
  const MethodOptions := "OPTIONS"
  const MethodTrace := "TRACE"
  const MethodPost := "POST"

  const StatusTemporaryRedirect := 307
  const StatusUnauthorized := 401
  const StatusForbidden := 403
  const StatusInternalServerError := 500

  datatype SameSite = SameSiteDefault | SameSiteLax | SameSiteStrict | SameSiteNone

  datatype Cookie = Cookie(
    name: string, value: string, httpOnly: bool, secure: bool, sameSite: SameSite,
    maxAge: Option<Duration>)

  /** What a handler did to the response's cookies, in order. */
  datatype CookieOp = SetCookie(cookie: Cookie) | DeleteCookie(name: string)

  datatype Request = Request(
    httpMethod: string,
    cookies: map<string, string>,
    header: map<string, string>,
    postForm: map<string, seq<string>>,
    multipartForm: Option<map<string, seq<string>>>,
    requestUri: string)

  /** http.ResponseWriter, as far as cookies go. */
  class Response {
    var cookies: seq<CookieOp>

    constructor ()
      ensures cookies == []
    {
      cookies := [];
    }

    /** http.SetCookie / httpcookie.Set. */
    method Set(c: Cookie)
      modifies this
      ensures cookies == old(cookies) + [SetCookie(c)]
    {
      cookies := cookies + [SetCookie(c)];
    }

    /** httpcookie.Delete: an expired cookie of that name. */
    method Delete(name: string)
      modifies this
      ensures cookies == old(cookies) + [DeleteCookie(name)]
    {
      cookies := cookies + [DeleteCookie(name)];
    }
  }

  /** r.Cookie(name): the cookie's value, or http.ErrNoCookie. */
  function CookieOf(r: Request, name: string): (v: Result<string>)
    ensures v.Ok? <==> name in r.cookies
    ensures v.Ok? ==> v.value == r.cookies[name]
    ensures v.Err? ==> v.error == NoCookie
  {
    if name in r.cookies then Ok(r.cookies[name]) else Err(NoCookie)
  }

  /** httpcookie.Get: the cookie's value, or "" when there is none. */
  function CookieValue(r: Request, name: string): (v: string)
    ensures name in r.cookies ==> v == r.cookies[name]
    ensures name !in r.cookies ==> v == ""
  {
    if name in r.cookies then r.cookies[name] else ""
  }

  /** r.Header.Get: the header's value, or "". */
  function HeaderValue(r: Request, name: string): (v: string)
    ensures name in r.header ==> v == r.header[name]
    ensures name !in r.header ==> v == ""
  {
    if name in r.header then r.header[name] else ""
  }

  /** r.PostFormValue: the first value of the field, or "". */
  function PostFormValue(r: Request, name: string): (v: string)
    ensures name in r.postForm && |r.postForm[name]| > 0 ==> v == r.postForm[name][0]
    ensures !(name in r.postForm && |r.postForm[name]| > 0) ==> v == ""
  {
    if name in r.postForm && |r.postForm[name]| > 0 then r.postForm[name][0] else ""
  }

  /** url.QueryEscape: the unreserved characters stay, a space becomes '+',
      and every other character becomes its UTF-8 bytes, each written as
      '%' and two upper-case hex digits. */
  function QueryEscape(s: string): (e: string)
    ensures |e| >= |s|
    ensures (forall i :: 0 <= i < |s| ==> IsUnreserved(s[i])) ==> e == s
    decreases |s|
  {
    if |s| == 0 then ""
    else
      var c := s[0];
      (if IsUnreserved(c) then [c]
       else if c == ' ' then "+"
       else PercentEncoded(Utf8Bytes(c))) + QueryEscape(s[1..])
  }

  /** Bytes written as '%' and two upper-case hex digits each. */
  function PercentEncoded(bytes: seq<int>): (e: string)
    requires forall i :: 0 <= i < |bytes| ==> 0 <= bytes[i] < 256
    ensures |e| == 3 * |bytes|
  {
    if |bytes| == 0 then ""
    else ['%', UpperHex(bytes[0] / 16), UpperHex(bytes[0] % 16)] + PercentEncoded(bytes[1..])
  }

  /** A character outside ASCII is escaped byte by byte: 'é' (U+00E9) is
      the two bytes C3 A9, and '/' the single byte 2F. */
  lemma QueryEscapeExamples()
    ensures QueryEscape("\U{E9}") == "%C3%A9"
    ensures QueryEscape("/a b") == "%2Fa+b"
  {
    var e := "\U{E9}";
    assert Utf8Bytes(e[0]) == [0xC3, 0xA9];
    assert PercentEncoded([0xA9]) == "%A9";
    assert PercentEncoded([0xC3, 0xA9]) == "%C3" + PercentEncoded([0xA9]);
    assert QueryEscape(e) == PercentEncoded(Utf8Bytes(e[0])) + QueryEscape(e[1..]);
  }

  predicate IsUnreserved(c: char)
  {
    'A' <= c <= 'Z' || 'a' <= c <= 'z' || '0' <= c <= '9' || c == '-' || c == '_' || c == '.' || c == '~'
  }

  function UpperHex(v: int): char
    requires 0 <= v < 16
  {
    if v < 10 then ('0' as int + v) as char else ('A' as int + v - 10) as char
  }
}
