/** Values shared by every package of the toolkit: optional values, results,
    the error values the packages return (sentinels, wrapped errors and joined
    errors, as Go's `errors` package builds them), identifiers and time. */
module Base {

  datatype Option<+T> = None | Some(value: T)

  /** A Go `(value, error)` pair whose error is non-nil exactly in `Err`. */
  datatype Result<+T> = Ok(value: T) | Err(error: Error)

  /** The error values of the toolkit.  Sentinels are compared by identity in
      Go; here by constructor.  `Wrapped` is `fmt.Errorf("<context>: %w", e)`,
      `Joined` is a non-nil `errors.Join`, `Http` is `httperror.FromError`. */
  datatype Error =
    // shield.go
    | AuthenticatedUser
    | MFARequired
    | UnauthenticatedUser
    | UserNotFound
    // shieldpassword
    | EmailAlreadyTaken
    | PasswordIncorrect
    // shieldpasswordreset
    | UsedPasswordResetToken
    // shieldcsrf
    | InvalidToken
    | TokenMismatch
    | TokenNotFound
    | NoChecksumSecret
    | CsrfContextMissing
    // shieldtoken
    | BearerTokenNotFound
    // errors.ErrUnsupported
    | Unsupported
    // errors reported by collaborators
    | NoRows                      // pgx.ErrNoRows
    | UniqueViolation             // a unique constraint of the store
    | SqlError(message: string)   // the database server rejected a statement
    | NoCookie                    // http.ErrNoCookie
    | EntropyFailure              // crypto/rand could not deliver
    | PasswordTooLong             // bcrypt refuses inputs over 72 bytes
    | MalformedHash               // bcrypt cannot parse a stored hash
    | MalformedId                 // a cookie that is not a UUID
    | SendFailure                 // the sender could not deliver
    | HookFailure(reason: string) // an application hook refused
    | BearerFailure(reason: string) // no usable bearer token in the request
    | StorageFailure(reason: string) // the token storage could not retrieve
    | IssuerFailure(reason: string)  // the token issuer could not issue
    | NilPointer                  // a method called through a nil pointer
    // a panic that unwinds the handler after its deferred rollback
    | Panicked(cause: Error)
    // composites
    | Wrapped(context: string, cause: Error)
    | Joined(errs: seq<Error>)
    | Http(status: int, cause: Error, message: string)

  /** The error of a result, if any. */
  function ErrorOf<T>(r: Result<T>): (e: Option<Error>)
    ensures e.None? <==> r.Ok?
    ensures e.Some? ==> e.value == r.error
  {
    if r.Ok? then None else Some(r.error)
  }

  /** errors.Is: does `target` occur in the chain (or tree) of `e`? */
  predicate Is(e: Error, target: Error)
  {
    match e
    case Wrapped(_, cause) => e == target || Is(cause, target)
    case Http(_, cause, _) => e == target || Is(cause, target)
    case Joined(errs) => e == target || exists i :: 0 <= i < |errs| && Is(errs[i], target)
    case _ => e == target
  }

  /** errors.Join: nil when there is nothing to join, otherwise one error that
      wraps every argument, in order.  (No argument here is ever nil.) */
  function Join(errs: seq<Error>): (r: Option<Error>)
    ensures r.None? <==> |errs| == 0
    ensures forall t :: r.Some? ==> (Is(r.value, t) <==> r.value == t || exists i :: 0 <= i < |errs| && Is(errs[i], t))
  {
    if |errs| == 0 then None else Some(Joined(errs))
  }

  /** Wrapping keeps every error the cause already matched. */
  lemma WrappedIs(context: string, cause: Error, target: Error)
    ensures Is(cause, target) ==> Is(Wrapped(context, cause), target)
    ensures Is(Wrapped(context, cause), target) && target != Wrapped(context, cause) ==> Is(cause, target)
  {
  }

  /** sqldb.IsNotFoundError / dbsql.IsNotFoundError. */
  predicate IsNotFound(e: Error)
  {
    Is(e, NoRows)
  }

  /** sqldb.IsUniqueViolationError. */
  predicate IsUniqueViolation(e: Error)
  {
    Is(e, UniqueViolation)
  }

  /** What an application's hooks attach to users and sessions (the type
      parameters U, S and T of the Go packages). */
  type Payload = string

  /** One byte of a Go `[]byte`. */
  newtype byte = x: int | 0 <= x < 256

  /** Identifiers (uuid.UUID, typeid.TypeID).  0 is the zero value (uuid.Nil). */
  type Uuid = nat
  const NilId: Uuid := 0

  /** Wall-clock instants and time.Duration, both in nanoseconds. */
  type Time = int
  type Duration = int
  const Nanosecond: Duration := 1
  const Minute: Duration := 60 * 1_000_000_000
  const Hour: Duration := 60 * Minute

  /** cmp.Or for two numbers (durations and counts alike): the first one
      that is not zero. */
  function OrDefault(n: int, fallback: int): (r: int)
    ensures n != 0 ==> r == n
    ensures n == 0 ==> r == fallback
  {
    if n != 0 then n else fallback
  }

  function OrString(s: string, fallback: string): (r: string)
    ensures s != "" ==> r == s
    ensures s == "" ==> r == fallback
  {
    if s != "" then s else fallback
  }

  /** The functional options every `NewConfig` takes, applied in order. */
  function ApplyOptions<C>(base: C, opts: seq<C -> C>): C
    decreases |opts|
  {
    if |opts| == 0 then base else ApplyOptions(opts[0](base), opts[1..])
  }

  /** `for _, opt := range opts { opt(&config) }` */
  method RunOptions<C>(base: C, opts: seq<C -> C>) returns (c: C)
    ensures c == ApplyOptions(base, opts)
  {
    c := base;
    var i := 0;
    while i < |opts|
      invariant 0 <= i <= |opts|
      invariant ApplyOptions(c, opts[i..]) == ApplyOptions(base, opts)
    {
      assert opts[i..][1..] == opts[i + 1..];
      c := opts[i](c);
      i := i + 1;
    }
  }

  /** The number of bytes of a character in UTF-8. */
  function Utf8Width(c: char): nat
  {
    if c as int < 0x80 then 1 else if c as int < 0x800 then 2 else if c as int < 0x10000 then 3 else 4
  }

  /** The UTF-8 encoding of a character: a lead byte carrying the high bits
      and continuation bytes 10xxxxxx carrying six bits each. */
  function Utf8Bytes(c: char): (b: seq<int>)
    ensures |b| == Utf8Width(c)
    ensures forall i :: 0 <= i < |b| ==> 0 <= b[i] < 256
    ensures forall i :: 1 <= i < |b| ==> 0x80 <= b[i] < 0xC0
  {
    var v := c as int;
    if v < 0x80 then [v]
    else if v < 0x800 then [0xC0 + v / 64, 0x80 + v % 64]
    else if v < 0x10000 then [0xE0 + v / 4096, 0x80 + v / 64 % 64, 0x80 + v % 64]
    else [0xF0 + v / 262144 % 8, 0x80 + v / 4096 % 64, 0x80 + v / 64 % 64, 0x80 + v % 64]
  }

  /** len(s) in Go: the length of the UTF-8 encoding of s in bytes. */
  function ByteLength(s: string): (n: nat)
    ensures n >= |s|
  {
    if |s| == 0 then 0 else Utf8Width(s[0]) + ByteLength(s[1..])
  }

  /** Text of ASCII characters takes one byte per character, and any other
      character makes the text longer in bytes than in characters. */
  lemma {:induction false} ByteLengthAscii(s: string)
    ensures ByteLength(s) == |s| <==> forall i :: 0 <= i < |s| ==> s[i] as int < 0x80
  {
    if |s| > 0 {
      ByteLengthAscii(s[1..]);
      assert forall i :: 1 <= i < |s| ==> s[1..][i - 1] == s[i];
    }
  }
}
