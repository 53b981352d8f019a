/** shieldpassword.PasswordHasher and its bcrypt implementation.  The digest
    is a stand-in: a fixed prefix and the password, which keeps bcrypt's two
    observable facts, that it refuses inputs over 72 bytes and that a hash
    verifies the password it was made from and no other. */
module PasswordHash {
  import opened Base

  /** bcrypt's limit, in bytes of the UTF-8 encoding. */
  const MaxPasswordLength := 72
  const Prefix := "$2a$"

  predicate IsHash(h: string)
  {
    |h| >= |Prefix| && h[..|Prefix|] == Prefix
  }

  /** bcryptPasswordHasher.Hash. */
  function Hash(password: string): (r: Result<string>)
    ensures r.Ok? <==> ByteLength(password) <= MaxPasswordLength
    ensures r.Ok? ==> IsHash(r.value)
    ensures r.Err? ==> Is(r.error, PasswordTooLong)
  {
    if ByteLength(password) > MaxPasswordLength then
      Err(Wrapped("shield/password: unable to generate a bcrypt hash", PasswordTooLong))
    else Ok(Prefix + password)
  }

  /** bcryptPasswordHasher.Verify: a mismatch is `false` with no error; only
      a hash that cannot be read is an error. */
  function Verify(hash: string, password: string): (r: Result<bool>)
    ensures r.Err? <==> !IsHash(hash)
    ensures r.Err? ==> Is(r.error, MalformedHash)
  {
    if !IsHash(hash) then Err(Wrapped("shield/password: failed while comparing passwords", MalformedHash))
    else Ok(hash[|Prefix|..] == password)
  }

  /** A hash verifies the password it was made from. */
  lemma VerifyHash(password: string)
    requires Hash(password).Ok?
    ensures Verify(Hash(password).value, password) == Ok(true)
  {
    assert (Prefix + password)[|Prefix|..] == password;
  }

  /** A hash verifies no other password. */
  lemma VerifyMismatch(password: string, other: string)
    requires Hash(password).Ok? && other != password
    ensures Verify(Hash(password).value, other) == Ok(false)
  {
    assert (Prefix + password)[|Prefix|..] == password;
  }

  /** The empty string, which a missing password credential reads as, is no
      hash at all. */
  lemma VerifyEmpty(password: string)
    ensures Verify("", password).Err?
  {
  }
}
