/** shieldrecoverycode: batches of one-time recovery codes for two-factor
    authentication.  The generator draws each code from the entropy source
    as a hex string, the handler hashes every code with the password hasher,
    and a transaction stores the hashes as a new batch, after evicting the
    user's codes that are still usable when the batch replaces them.  The
    plaintext codes never leave the handler: only their hashes are stored
    and none is returned. */
module RecoveryCode {
  import opened Base
  import Random
  import PasswordHash
  import Sql
  import Database

  const DefaultRecoveryCodeTotalCount := 16
  const DefaultRecoveryCodeLength := 16

  const GenerateFailed := "shieldrecoverycode: failed to generate recovery code"
  const GenerateCodesFailed := "shieldrecoverycode: failed to generate recovery codes"
  const HashFailed := "shieldrecoverycode: failed to hash recovery code"
  const BeginFailed := "shield/recovery_code: failed to begin transaction"
  const CommitFailed := "shield/recovery_code: failed to commit transaction"
  const EvictFailed := "shield/recovery_code: failed to evict recovery codes"
  const CreateFailed := "shield/recovery_code: failed to create recovery codes"

  /** Config.  The logger, the hasher (PasswordHash) and the generator (the
      default one) are not parameters of the model. */
  datatype Config = Config(recoveryCodeTotalCount: int, recoveryCodeLength: int)

  /** Config.defaults: a zero count or length becomes the default. */
  function Defaults(c: Config): (r: Config)
    ensures r.recoveryCodeTotalCount == if c.recoveryCodeTotalCount == 0 then DefaultRecoveryCodeTotalCount else c.recoveryCodeTotalCount
    ensures r.recoveryCodeLength == if c.recoveryCodeLength == 0 then DefaultRecoveryCodeLength else c.recoveryCodeLength
  {
    Config(OrDefault(c.recoveryCodeTotalCount, DefaultRecoveryCodeTotalCount),
           OrDefault(c.recoveryCodeLength, DefaultRecoveryCodeLength))
  }

  /** NewConfig: the options, then the defaults. */
  function NewConfig(opts: seq<Config -> Config>): Config
  {
    Defaults(ApplyOptions(Config(0, 0), opts))
  }

  lemma NewConfigDefaults()
    ensures NewConfig([]) == Config(16, 16)
  {
  }

  // ------------------------------------------------------------ generator

  lemma MulMono(a: nat, b: nat, c: nat)
    requires a <= b
    ensures a * c <= b * c
  {
  }

  /** Code `i` the default generator draws from the entropy stream: the hex
      rendering of the `i`-th run of `length` bytes, when the stream has it. */
  function Code(stream: seq<byte>, i: nat, length: nat): string
  {
    if (i + 1) * length <= |stream| then Random.HexEncode(stream[i * length..(i + 1) * length]) else ""
  }

  /** The codes the default generator draws from the entropy stream. */
  function GeneratedCodes(stream: seq<byte>, count: nat, length: nat): (codes: seq<string>)
    requires count * length <= |stream|
    ensures |codes| == count
  {
    seq(count, i requires 0 <= i < count => Code(stream, i, length))
  }

  /** Every generated code is `2 * length` lower-case hex digits, drawn from
      its own run of the stream. */
  lemma GeneratedCodesAreHex(stream: seq<byte>, count: nat, length: nat, i: nat)
    requires count * length <= |stream| && i < count
    ensures var c := GeneratedCodes(stream, count, length)[i];
      |c| == 2 * length && forall j :: 0 <= j < |c| ==> Random.IsHexDigit(c[j])
  {
    MulMono(i + 1, count, length);
    assert |stream[i * length..(i + 1) * length]| == length;
  }

  /** generator.Generate: `count` codes, each SecureHexString(length), into
      a slice made for them; the first code the entropy source cannot
      deliver ends it with nil and an error. */
  method GenerateCodes(count: nat, length: nat, src: Random.Entropy) returns (codes: seq<string>, err: Option<Error>)
    modifies src
    ensures err.None? <==> count * length <= |old(src.stream)|
    ensures err.None? ==> codes == GeneratedCodes(old(src.stream), count, length)
    ensures err.None? ==> src.stream == old(src.stream)[count * length..]
    ensures err.Some? ==> codes == [] && err.value == Wrapped(GenerateFailed, Random.ReadFailure)
    ensures err.Some? ==> (|src.stream| < length && |src.stream| <= |old(src.stream)| &&
                           src.stream == old(src.stream)[|old(src.stream)| - |src.stream|..])
  {
    ghost var stream := src.stream;
    ghost var used: nat := 0;
    var buf := new string[count](_ => "");
    var i := 0;
    while i < count
      invariant 0 <= i <= count
      invariant used == i * length && used <= |stream|
      invariant src.stream == stream[used..]
      invariant forall j :: 0 <= j < i ==> buf[j] == Code(stream, j, length)
      modifies src, buf
    {
      var code, e := Random.SecureHexString(length, src);
      NextRun(i, length);
      if e.Some? {
        MulMono(i + 1, count, length);
        return [], Some(Wrapped(GenerateFailed, e.value));
      }
      assert stream[used..][..length] == stream[used..used + length];
      assert stream[used..][length..] == stream[used + length..];
      buf[i] := code;
      i := i + 1;
      used := used + length;
    }
    codes := buf[..];
    err := None;
  }

  lemma NextRun(i: nat, length: nat)
    ensures (i + 1) * length == i * length + length
  {
  }

  // --------------------------------------------------------------- hashing

  /** The first code the hasher refuses. */
  function FirstUnhashable(codes: seq<string>): (i: nat)
    requires exists i :: 0 <= i < |codes| && PasswordHash.Hash(codes[i]).Err?
    ensures i < |codes| && PasswordHash.Hash(codes[i]).Err?
    ensures forall j :: 0 <= j < i ==> PasswordHash.Hash(codes[j]).Ok?
    decreases |codes|
  {
    if PasswordHash.Hash(codes[0]).Err? then 0
    else
      var k :| 0 <= k < |codes| && PasswordHash.Hash(codes[k]).Err?;
      assert codes[1..][k - 1] == codes[k];
      1 + FirstUnhashable(codes[1..])
  }

  /** The hashes Handler.Generate returns for a list of codes, element by
      element, or the error of the first code that cannot be hashed. */
  function HashAll(codes: seq<string>): (r: Result<seq<string>>)
  {
    if forall i :: 0 <= i < |codes| ==> PasswordHash.Hash(codes[i]).Ok? then
      Ok(seq(|codes|, i requires 0 <= i < |codes| => PasswordHash.Hash(codes[i]).value))
    else
      Err(Wrapped(HashFailed, PasswordHash.Hash(codes[FirstUnhashable(codes)]).error))
  }

  /** Hashing succeeds exactly when every code fits the hasher; then there
      is one hash per code, in order, each verifying its own code and none
      equal to it, so no plaintext code is returned. */
  lemma HashAllOutcome(codes: seq<string>)
    ensures HashAll(codes).Ok? <==> forall i :: 0 <= i < |codes| ==> ByteLength(codes[i]) <= PasswordHash.MaxPasswordLength
    ensures HashAll(codes).Ok? ==> |HashAll(codes).value| == |codes|
    ensures HashAll(codes).Ok? ==> forall i :: 0 <= i < |codes| ==>
      PasswordHash.Verify(HashAll(codes).value[i], codes[i]) == Ok(true) && HashAll(codes).value[i] != codes[i]
    ensures HashAll(codes).Err? ==> Is(HashAll(codes).error, PasswordTooLong)
  {
    var r := HashAll(codes);
    if r.Ok? {
      forall i | 0 <= i < |codes|
        ensures PasswordHash.Verify(r.value[i], codes[i]) == Ok(true) && r.value[i] != codes[i]
      {
        PasswordHash.VerifyHash(codes[i]);
      }
    } else {
      var k := FirstUnhashable(codes);
      WrappedIs(HashFailed, PasswordHash.Hash(codes[k]).error, PasswordTooLong);
    }
  }

  /** The hashing loop of Handler.Generate: a slice made for the hashes is
      filled in order, and the first hashing error ends it with nil. */
  method HashCodes(codes: seq<string>) returns (hashed: seq<string>, err: Option<Error>)
    ensures err.None? ==> HashAll(codes) == Ok(hashed)
    ensures err.Some? ==> hashed == [] && HashAll(codes) == Err(err.value)
  {
    var buf := new string[|codes|](_ => "");
    var i := 0;
    while i < |codes|
      invariant 0 <= i <= |codes|
      invariant forall j :: 0 <= j < i ==> PasswordHash.Hash(codes[j]).Ok? && buf[j] == PasswordHash.Hash(codes[j]).value
      modifies buf
    {
      var h := PasswordHash.Hash(codes[i]);
      if h.Err? {
        assert FirstUnhashable(codes) == i by {
          var k := FirstUnhashable(codes);
          assert !(k < i) && !(i < k);
        }
        return [], Some(Wrapped(HashFailed, h.error));
      }
      buf[i] := h.value;
      i := i + 1;
    }
    assert buf[..] == seq(|codes|, i requires 0 <= i < |codes| => PasswordHash.Hash(codes[i]).value);
    hashed, err := buf[..], None;
  }

  /** What Handler.Generate yields for an entropy stream: the hashes of the
      generated codes, or the generator's or the hasher's error. */
  function Generated(cfg: Config, stream: seq<byte>): (r: Result<seq<string>>)
    requires cfg.recoveryCodeTotalCount >= 0 && cfg.recoveryCodeLength >= 0
  {
    var count, length := cfg.recoveryCodeTotalCount, cfg.recoveryCodeLength;
    if count * length > |stream| then Err(Wrapped(GenerateCodesFailed, Wrapped(GenerateFailed, Random.ReadFailure)))
    else HashAll(GeneratedCodes(stream, count, length))
  }

  /** Handler.Generate succeeds exactly when the entropy source has enough
      bytes for every code and each code (2 * length hex digits) fits the
      hasher; it then returns one hash per code, each verifying its code. */
  lemma GeneratedOutcome(cfg: Config, stream: seq<byte>)
    requires cfg.recoveryCodeTotalCount >= 0 && cfg.recoveryCodeLength >= 0
    ensures var count, length := cfg.recoveryCodeTotalCount, cfg.recoveryCodeLength;
      Generated(cfg, stream).Ok? <==>
        count * length <= |stream| && (count == 0 || 2 * length <= PasswordHash.MaxPasswordLength)
    ensures var count, length := cfg.recoveryCodeTotalCount, cfg.recoveryCodeLength;
      Generated(cfg, stream).Ok? ==>
        |Generated(cfg, stream).value| == count &&
        forall i :: 0 <= i < count ==>
          PasswordHash.Verify(Generated(cfg, stream).value[i], GeneratedCodes(stream, count, length)[i]) == Ok(true)
  {
    var count, length := cfg.recoveryCodeTotalCount, cfg.recoveryCodeLength;
    if count * length <= |stream| {
      var codes := GeneratedCodes(stream, count, length);
      forall i | 0 <= i < count
        ensures |codes[i]| == 2 * length && ByteLength(codes[i]) == 2 * length
      {
        GeneratedCodesAreHex(stream, count, length, i);
        ByteLengthAscii(codes[i]);
      }
      HashAllOutcome(codes);
      if count > 0 {
        assert |codes[0]| == 2 * length;
      }
    }
  }

  /** With the default configuration a long enough entropy stream always
      yields sixteen hashes. */
  lemma DefaultGenerateSucceeds(stream: seq<byte>)
    requires |stream| >= 256
    ensures Generated(NewConfig([]), stream).Ok? && |Generated(NewConfig([]), stream).value| == 16
  {
    NewConfigDefaults();
    GeneratedOutcome(NewConfig([]), stream);
  }

  /** Handler.Generate: the generator, then the hashes of its codes. */
  method Generate(cfg: Config, src: Random.Entropy) returns (hashed: seq<string>, err: Option<Error>)
    requires cfg.recoveryCodeTotalCount >= 0 && cfg.recoveryCodeLength >= 0
    modifies src
    ensures var g := Generated(cfg, old(src.stream));
      err == ErrorOf(g) && hashed == (if g.Ok? then g.value else [])
  {
    var codes, e := GenerateCodes(cfg.recoveryCodeTotalCount, cfg.recoveryCodeLength, src);
    if e.Some? {
      return [], Some(Wrapped(GenerateCodesFailed, e.value));
    }
    hashed, err := HashCodes(codes);
  }

  // ---------------------------------------------------------- the batches

  /** The rows CreateRecoveryCodesInTx builds, one per code and in order:
      a fresh id each, the user, the code as the hash, consumable. */
  function BatchRows(userId: Uuid, codes: seq<string>, firstId: Uuid): (rows: seq<Sql.RecoveryCodeRow>)
    ensures |rows| == |codes|
  {
    seq(|codes|, i requires 0 <= i < |codes| => Sql.RecoveryCodeRow(firstId + i, userId, codes[i], true, None))
  }

  /** CreateRecoveryCodesInTx: the rows are built in a slice of their own,
      then inserted in one batch. */
  method CreateRecoveryCodesInTx(store: Database.Store, ids: Database.IdSource, userId: Uuid, codes: seq<string>)
    returns (err: Option<Error>)
    requires store.inTx
    modifies store, ids
    ensures store.inTx && store.committed == old(store.committed)
    ensures ids.last == old(ids.last) + |codes|
    ensures err == if Database.CreateRecoveryCodeBatch in store.faults
                   then Some(Wrapped(CreateFailed, store.faults[Database.CreateRecoveryCodeBatch])) else None
    ensures store.work == if err.Some? then old(store.work)
                          else Sql.CreateRecoveryCodeBatch(old(store.work), BatchRows(userId, codes, old(ids.last) + 1))
  {
    var rows := new Sql.RecoveryCodeRow[|codes|](_ => Sql.RecoveryCodeRow(NilId, NilId, "", false, None));
    var i := 0;
    while i < |codes|
      invariant 0 <= i <= |codes|
      invariant ids.last == old(ids.last) + i
      invariant forall j :: 0 <= j < i ==> rows[j] == Sql.RecoveryCodeRow(old(ids.last) + 1 + j, userId, codes[j], true, None)
      modifies ids, rows
    {
      var id := ids.Next();
      rows[i] := Sql.RecoveryCodeRow(id, userId, codes[i], true, None);
      i := i + 1;
    }
    assert rows[..] == BatchRows(userId, codes, old(ids.last) + 1);
    var e := store.CreateRecoveryCodeBatch(rows[..]);
    if e.Some? {
      return Some(Wrapped(CreateFailed, e.value));
    }
    err := None;
  }

  /** EvictRecoveryCodesInTx: the user's usable codes record who evicted
      them. */
  method EvictRecoveryCodesInTx(store: Database.Store, userId: Uuid, evictedBy: Uuid) returns (err: Option<Error>)
    requires store.inTx
    modifies store
    ensures store.inTx && store.committed == old(store.committed)
    ensures err == if Database.EvictUnconsumedRecoveryCodeBatch in store.faults
                   then Some(Wrapped(EvictFailed, store.faults[Database.EvictUnconsumedRecoveryCodeBatch])) else None
    ensures store.work == if err.Some? then old(store.work)
                          else Sql.EvictUnconsumedRecoveryCodeBatch(old(store.work), userId, evictedBy)
  {
    var e := store.EvictUnconsumedRecoveryCodeBatch(userId, evictedBy);
    if e.Some? {
      return Some(Wrapped(EvictFailed, e.value));
    }
    err := None;
  }

  /** ReplaceRecoveryCodesInTx: evict, and only if that worked, insert. */
  method ReplaceRecoveryCodesInTx(store: Database.Store, ids: Database.IdSource, userId: Uuid, replacedBy: Uuid,
                                  codes: seq<string>)
    returns (err: Option<Error>)
    requires store.inTx
    modifies store, ids
    ensures store.inTx && store.committed == old(store.committed)
    ensures Database.EvictUnconsumedRecoveryCodeBatch in store.faults ==>
      err == Some(Wrapped(EvictFailed, store.faults[Database.EvictUnconsumedRecoveryCodeBatch])) &&
      ids.last == old(ids.last) && store.work == old(store.work)
    ensures Database.EvictUnconsumedRecoveryCodeBatch !in store.faults ==>
      err == (if Database.CreateRecoveryCodeBatch in store.faults
              then Some(Wrapped(CreateFailed, store.faults[Database.CreateRecoveryCodeBatch])) else None) &&
      ids.last == old(ids.last) + |codes| &&
      (err.None? ==> store.work == Sql.CreateRecoveryCodeBatch(
                       Sql.EvictUnconsumedRecoveryCodeBatch(old(store.work), userId, replacedBy),
                       BatchRows(userId, codes, old(ids.last) + 1)))
  {
    err := EvictRecoveryCodesInTx(store, userId, replacedBy);
    if err.Some? {
      return;
    }
    err := CreateRecoveryCodesInTx(store, ids, userId, codes);
  }

  // ------------------------------------------------- the two transactions

  /** What a handler leaves behind: its error, the committed tables and how
      many fresh ids it took. */
  datatype Stored = Stored(err: Option<Error>, committed: Sql.Tables, idsUsed: nat)

  /** The transaction once it is open on `t`: an optional eviction on
      behalf of `replacedBy`, the batch insert, the commit. */
  function InsertBatch(faults: map<Database.Stmt, Error>, t: Sql.Tables, work: Sql.Tables, replacedBy: Option<Uuid>,
                       userId: Uuid, hashed: seq<string>, firstId: Uuid): Stored
  {
    if replacedBy.Some? && Database.EvictUnconsumedRecoveryCodeBatch in faults then
      Stored(Some(Wrapped(EvictFailed, faults[Database.EvictUnconsumedRecoveryCodeBatch])), t, 0)
    else
      var evicted := if replacedBy.Some? then Sql.EvictUnconsumedRecoveryCodeBatch(work, userId, replacedBy.value) else work;
      if Database.CreateRecoveryCodeBatch in faults then
        Stored(Some(Wrapped(CreateFailed, faults[Database.CreateRecoveryCodeBatch])), t, |hashed|)
      else if Database.CommitTx in faults then
        Stored(Some(Wrapped(CommitFailed, faults[Database.CommitTx])), t, |hashed|)
      else Stored(None, Sql.CreateRecoveryCodeBatch(evicted, BatchRows(userId, hashed, firstId)), |hashed|)
  }

  /** CreateRecoveryCodes (replacedBy None) and ReplaceRecoveryCodes
      (replacedBy Some): the codes are generated and hashed before the
      transaction begins. */
  function StoreSpec(faults: map<Database.Stmt, Error>, t: Sql.Tables, generated: Result<seq<string>>,
                     replacedBy: Option<Uuid>, userId: Uuid, firstId: Uuid): Stored
  {
    if generated.Err? then Stored(Some(generated.error), t, 0)
    else if Database.BeginTx in faults then Stored(Some(Wrapped(BeginFailed, faults[Database.BeginTx])), t, 0)
    else InsertBatch(faults, t, t, replacedBy, userId, generated.value, firstId)
  }

  /** Both handlers are all or nothing: a failure commits nothing; success
      commits exactly the new batch, one consumable row per hash, in order,
      after the eviction when the batch replaces the old one. */
  lemma StoreAtomic(faults: map<Database.Stmt, Error>, t: Sql.Tables, generated: Result<seq<string>>,
                    replacedBy: Option<Uuid>, userId: Uuid, firstId: Uuid)
    ensures var x := StoreSpec(faults, t, generated, replacedBy, userId, firstId);
      x.err.Some? ==> x.committed == t
    ensures var x := StoreSpec(faults, t, generated, replacedBy, userId, firstId);
      x.err.None? ==> (generated.Ok? &&
        x.committed == t.(recoveryCodes := x.committed.recoveryCodes) &&
        x.committed.recoveryCodes ==
          (if replacedBy.Some? then Sql.EvictUnconsumedRecoveryCodeBatch(t, userId, replacedBy.value).recoveryCodes
           else t.recoveryCodes) + BatchRows(userId, generated.value, firstId))
  {
  }

  /** After a successful replacement the user's usable codes are exactly
      the new batch: every older one was evicted by `replacedBy`. */
  lemma {:induction false} ReplaceLeavesOnlyNewBatch(faults: map<Database.Stmt, Error>, t: Sql.Tables,
                                                     generated: Result<seq<string>>, replacedBy: Uuid, userId: Uuid,
                                                     firstId: Uuid, i: nat)
    requires StoreSpec(faults, t, generated, Some(replacedBy), userId, firstId).err.None?
    requires i < |StoreSpec(faults, t, generated, Some(replacedBy), userId, firstId).committed.recoveryCodes|
    ensures var rows := StoreSpec(faults, t, generated, Some(replacedBy), userId, firstId).committed.recoveryCodes;
      Sql.IsUnconsumedOf(rows[i], userId) <==> i >= |t.recoveryCodes|
  {
    var x := StoreSpec(faults, t, generated, Some(replacedBy), userId, firstId);
    var evicted := Sql.EvictUnconsumedRecoveryCodeBatch(t, userId, replacedBy).recoveryCodes;
    var batch := BatchRows(userId, generated.value, firstId);
    assert x.committed.recoveryCodes == evicted + batch;
    if i < |t.recoveryCodes| {
      assert x.committed.recoveryCodes[i] == evicted[i];
    } else {
      assert x.committed.recoveryCodes[i] == batch[i - |t.recoveryCodes|];
    }
  }

  /** A failed eviction stops the replacement before any insert. */
  lemma EvictFailureInsertsNothing(faults: map<Database.Stmt, Error>, t: Sql.Tables, hashed: seq<string>,
                                   replacedBy: Uuid, userId: Uuid, firstId: Uuid)
    requires Database.BeginTx !in faults && Database.EvictUnconsumedRecoveryCodeBatch in faults
    ensures StoreSpec(faults, t, Ok(hashed), Some(replacedBy), userId, firstId)
      == Stored(Some(Wrapped(EvictFailed, faults[Database.EvictUnconsumedRecoveryCodeBatch])), t, 0)
  {
  }

  /** The transaction of CreateRecoveryCodes and ReplaceRecoveryCodes once
      it is open: the in-transaction step, the deferred rollback when it
      fails, the commit. */
  method StoreInTx(store: Database.Store, ids: Database.IdSource, replacedBy: Option<Uuid>, userId: Uuid,
                   hashed: seq<string>)
    returns (err: Option<Error>)
    requires store.inTx && store.work == store.committed
    modifies store, ids
    ensures !store.inTx
    ensures var x := InsertBatch(store.faults, old(store.committed), old(store.work), replacedBy, userId, hashed, old(ids.last) + 1);
      err == x.err && store.committed == x.committed && ids.last == old(ids.last) + x.idsUsed
  {
    if replacedBy.Some? {
      err := ReplaceRecoveryCodesInTx(store, ids, userId, replacedBy.value, hashed);
    } else {
      err := CreateRecoveryCodesInTx(store, ids, userId, hashed);
    }
    if err.Some? {
      store.Rollback();
      return;
    }
    var e := store.Commit();
    if e.Some? {
      return Some(Wrapped(CommitFailed, e.value));
    }
  }

  /** Handler.CreateRecoveryCodes. */
  method CreateRecoveryCodes(cfg: Config, store: Database.Store, ids: Database.IdSource, src: Random.Entropy,
                             userId: Uuid)
    returns (err: Option<Error>)
    requires cfg.recoveryCodeTotalCount >= 0 && cfg.recoveryCodeLength >= 0
    requires !store.inTx
    modifies store, ids, src
    ensures !store.inTx
    ensures var x := StoreSpec(store.faults, old(store.committed), Generated(cfg, old(src.stream)), None, userId, old(ids.last) + 1);
      err == x.err && store.committed == x.committed && ids.last == old(ids.last) + x.idsUsed
  {
    err := StoreCodes(cfg, store, ids, src, None, userId);
  }

  /** Handler.ReplaceRecoveryCodes. */
  method ReplaceRecoveryCodes(cfg: Config, store: Database.Store, ids: Database.IdSource, src: Random.Entropy,
                              userId: Uuid, replacedBy: Uuid)
    returns (err: Option<Error>)
    requires cfg.recoveryCodeTotalCount >= 0 && cfg.recoveryCodeLength >= 0
    requires !store.inTx
    modifies store, ids, src
    ensures !store.inTx
    ensures var x := StoreSpec(store.faults, old(store.committed), Generated(cfg, old(src.stream)), Some(replacedBy), userId,
                               old(ids.last) + 1);
      err == x.err && store.committed == x.committed && ids.last == old(ids.last) + x.idsUsed
  {
    err := StoreCodes(cfg, store, ids, src, Some(replacedBy), userId);
  }

  /** The body the two handlers share: generate, begin, the step in the
      transaction, commit. */
  method StoreCodes(cfg: Config, store: Database.Store, ids: Database.IdSource, src: Random.Entropy,
               replacedBy: Option<Uuid>, userId: Uuid)
    returns (err: Option<Error>)
    requires cfg.recoveryCodeTotalCount >= 0 && cfg.recoveryCodeLength >= 0
    requires !store.inTx
    modifies store, ids, src
    ensures !store.inTx
    ensures var x := StoreSpec(store.faults, old(store.committed), Generated(cfg, old(src.stream)), replacedBy, userId,
                               old(ids.last) + 1);
      err == x.err && store.committed == x.committed && ids.last == old(ids.last) + x.idsUsed
  {
    var hashed, e := Generate(cfg, src);
    if e.Some? {
      return e;
    }
    e := store.Begin();
    if e.Some? {
      return Some(Wrapped(BeginFailed, e.value));
    }
    err := StoreInTx(store, ids, replacedBy, userId, hashed);
  }
}
