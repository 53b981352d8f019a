/** The values the toolkit keeps in a request's context.Context, one slot per
    package key, and the records stored there.  The accessors type-assert on
    the stored value, so a slot remembers the type argument its value was
    stored with. */
module Context {
  import opened Base
  import CsrfToken

  /** shieldsession.Session[S]. */
  datatype Session = Session(id: Uuid, userId: Uuid, expiresAt: Time, payload: Option<Payload>)

  /** The zero Session[S]. */
  const ZeroSession := Session(NilId, NilId, 0, None)

  /** shieldstrategy.Session[T]: the older session record, without a user id. */
  datatype StrategySession = StrategySession(id: Uuid, expiresAt: Time, payload: Option<Payload>)

  /** A value stored as `*X[typeArg]`. */
  datatype Typed<V> = Typed(typeArg: string, value: V)

  /** The Go type argument `any`. */
  const AnyType := "any"

  datatype Context = Context(
    /** shieldsession's key: a *Session[S], never a nil pointer. */
    session: Option<Typed<Session>>,
    /** shielduser's key: a *shieldstrategy.Session[T], possibly nil. */
    user: Option<Typed<Option<StrategySession>>>,
    /** shieldcsrf's key: a *Token. */
    csrf: Option<CsrfToken.Token>)

  const Background := Context(None, None, None)

  /** What a middleware does with a request: call the next handler with a
      context, hand an error to the error handler, or redirect. */
  datatype Outcome =
    | Next(ctx: Context)
    | HandleError(err: Error)
    | Redirect(url: string, status: int)
}
