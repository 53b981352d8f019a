/** shield.go: credential and MFA names, and a user with its memoised list
    of enabled MFA methods. */
module Shield {
  import opened Base
  import Database
  import Sql

  const CredentialPassword := "password"
  const CredentialPasskey := "passkey"
  const CredentialSsoTwitter := "sso_twitter"
  const CredentialSsoGoogle := "sso_google"

  const MFAPasskey := "mfa_passkey"
  const MFAEmail := "mfa_email"
  const MFAOTP := "mfa_otp"

  /** shield.User: the id, the application's payload and the MFA cache. */
  class User {
    var id: Uuid
    var payload: Option<Payload>
    var cachedMfas: seq<string>

    constructor (id: Uuid, payload: Option<Payload>)
      ensures this.id == id && this.payload == payload && cachedMfas == []
    {
      this.id := id;
      this.payload := payload;
      cachedMfas := [];
    }

    /** The copy a by-value parameter receives. */
    constructor Copy(u: User)
      ensures id == u.id && payload == u.payload && cachedMfas == u.cachedMfas
    {
      id := u.id;
      payload := u.payload;
      cachedMfas := u.cachedMfas;
    }

    /** User.MFA: a non-empty cache is answered without a query.  Otherwise
        the user's MFA names are fetched and cached; no rows leaves the cache
        alone, and any other error is swallowed, caching and returning the
        empty list.  The error result is always nil. */
    method MFA(store: Database.Store) returns (mfas: seq<string>, err: Option<Error>)
      modifies this
      ensures err.None?
      ensures id == old(id) && payload == old(payload)
      ensures |old(cachedMfas)| > 0 ==> mfas == old(cachedMfas) && cachedMfas == old(cachedMfas)
      ensures |old(cachedMfas)| == 0 ==>
        var q := Database.Outcome(store.faults, Database.GetUserMFAs, Ok(Sql.GetUserMFAs(store.Current(), id)));
        (q.Ok? ==> mfas == q.value && cachedMfas == q.value) &&
        (q.Err? && q.error == NoRows ==> mfas == [] && cachedMfas == old(cachedMfas)) &&
        (q.Err? && q.error != NoRows ==> mfas == [] && cachedMfas == [])
    {
      if |cachedMfas| > 0 {
        return cachedMfas, None;
      }
      var q := store.GetUserMFAs(id);
      if q.Err? && q.error == NoRows {
        return [], None;
      }
      cachedMfas := if q.Ok? then q.value else [];
      mfas, err := cachedMfas, None;
    }
  }
}
