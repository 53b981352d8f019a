/** shieldpasswordverifier: the password strength check and the `::`
    separated list of required character groups it is configured with. */
module PasswordVerifier {
  import opened Base
  import SliceUtil

  // ------------------------------------------------- required characters

  predicate HasDoubleColon(p: string)
  {
    exists i :: 0 <= i < |p| - 1 && p[i] == ':' && p[i + 1] == ':'
  }

  /** strings.Split(s, "::"): the pieces between the separators, taken
      from the left without overlap; there is always at least one piece. */
  function Split(s: string): (parts: seq<string>)
    ensures |parts| >= 1 && parts[0] <= s
    decreases |s|
  {
    if |s| < 2 then [s]
    else if s[0] == ':' && s[1] == ':' then [""] + Split(s[2..])
    else
      var rest := Split(s[1..]);
      [[s[0]] + rest[0]] + rest[1..]
  }

  /** strings.Join(parts, "::"). */
  function Join(parts: seq<string>): string
    requires |parts| >= 1
    decreases |parts|
  {
    if |parts| == 1 then parts[0] else parts[0] + "::" + Join(parts[1..])
  }

  /** Split loses nothing: joining the pieces again gives the input. */
  lemma {:induction false} JoinSplit(s: string)
    ensures Join(Split(s)) == s
    decreases |s|
  {
    if |s| < 2 {
    } else if s[0] == ':' && s[1] == ':' {
      JoinSplit(s[2..]);
      assert Split(s)[1..] == Split(s[2..]);
      assert s == "" + "::" + s[2..];
    } else {
      var rest := Split(s[1..]);
      JoinSplit(s[1..]);
      assert Split(s)[1..] == rest[1..];
      if |rest| == 1 {
        assert s == [s[0]] + s[1..];
      } else {
        assert Join(rest) == rest[0] + "::" + Join(rest[1..]);
        assert s == [s[0]] + s[1..];
      }
    }
  }

  /** No piece contains the separator. */
  lemma {:induction false} SplitPiecesHaveNoSeparator(s: string, k: nat)
    requires k < |Split(s)|
    ensures !HasDoubleColon(Split(s)[k])
    decreases |s|
  {
    if |s| < 2 {
    } else if s[0] == ':' && s[1] == ':' {
      if k > 0 {
        SplitPiecesHaveNoSeparator(s[2..], k - 1);
      }
    } else {
      var rest := Split(s[1..]);
      if k > 0 {
        SplitPiecesHaveNoSeparator(s[1..], k);
      } else {
        SplitPiecesHaveNoSeparator(s[1..], 0);
        var p := [s[0]] + rest[0];
        assert rest[0] <= s[1..];
        forall i | 0 <= i < |p| - 1
          ensures !(p[i] == ':' && p[i + 1] == ':')
        {
          if i > 0 {
            assert p[i] == rest[0][i - 1] && p[i + 1] == rest[0][i];
          } else {
            assert p[1] == s[1];
          }
        }
      }
    }
  }

  predicate NonEmpty(p: string)
  {
    |p| > 0
  }

  /** The groups Parse stores: the non-empty pieces of the source, in
      order. */
  function Parsed(source: string): seq<string>
  {
    SliceUtil.Filtered(Split(source), NonEmpty)
  }

  /** Every group is non-empty and free of the separator, and they are the
      non-empty pieces of the source in order. */
  lemma ParsedGroups(source: string)
    ensures forall p :: p in Parsed(source) <==> p in Split(source) && p != ""
    ensures forall p :: p in Parsed(source) ==> |p| > 0 && !HasDoubleColon(p)
  {
    SliceUtil.FilteredMembers(Split(source), NonEmpty);
    forall p | p in Parsed(source)
      ensures |p| > 0 && !HasDoubleColon(p)
    {
      var k :| 0 <= k < |Split(source)| && Split(source)[k] == p;
      SplitPiecesHaveNoSeparator(source, k);
    }
  }

  /** Parsing the empty source gives no group at all. */
  lemma ParsedEmpty()
    ensures Parsed("") == []
  {
    assert Split("") == [""];
    assert [""][..0] == [];
  }

  /** "ab::::1" has an empty piece between its two separators. */
  lemma SplitExample()
    ensures Split("ab::::1") == ["ab", "", "1"]
  {
    assert Split("1") == ["1"];
    assert "::1"[2..] == "1";
    assert Split("::1") == ["", "1"];
    assert "::::1"[2..] == "::1";
    assert Split("::::1") == ["", "", "1"];
    assert "b::::1"[1..] == "::::1";
    assert ['b'] + "" == "b";
    assert Split("b::::1") == ["b", "", "1"];
    assert "ab::::1"[1..] == "b::::1";
    assert ['a'] + "b" == "ab";
  }

  /** The empty piece of "ab::::1" is dropped by Parse. */
  lemma ParsedExample()
    ensures Parsed("ab::::1") == ["ab", "1"]
  {
    SplitExample();
    var sp: seq<string> := ["ab", "", "1"];
    assert sp[..2] == ["ab", ""] && sp[..2][..1] == ["ab"] && ["ab"][..0] == [];
    assert SliceUtil.Filtered(["ab"], NonEmpty) == ["ab"];
    assert SliceUtil.Filtered(["ab", ""], NonEmpty) == ["ab"];
  }

  /** PasswordRequiredChars: Parse overwrites what the receiver points at
      and never reports an error. */
  class RequiredChars {
    var groups: seq<string>

    constructor ()
      ensures groups == []
    {
      groups := [];
    }

    method Parse(source: string) returns (err: Option<Error>)
      modifies this
      ensures err.None? && groups == Parsed(source)
    {
      groups := SliceUtil.Filter(Split(source), NonEmpty);
      err := None;
    }
  }

  /** DefaultPasswordRequiredChars, parsed from "" at start-up. */
  const DefaultRequiredChars := Parsed("")

  // ------------------------------------------------------------- verifier

  datatype Reason = PasswordTooShort | MissingRequiredChars

  function ReasonText(r: Reason): string
  {
    match r
    case PasswordTooShort => "Password is too short"
    case MissingRequiredChars => "Password is missing required characters"
  }

  /** PasswordVerificationError: a message and the reasons. */
  datatype VerificationError = VerificationError(message: string, reasons: seq<Reason>)

  /** Config; a nil RequiredChars is None. */
  datatype Config = Config(minLength: int, requiredChars: Option<seq<string>>)

  const DefaultMinLength := 8

  /** Config.defaults: a nil group list becomes the default one, a zero
      minimum length becomes 8. */
  function Defaults(c: Config): (r: Config)
    ensures r.requiredChars == if c.requiredChars.None? then Some(DefaultRequiredChars) else c.requiredChars
    ensures r.minLength == if c.minLength == 0 then DefaultMinLength else c.minLength
  {
    Config(if c.minLength == 0 then DefaultMinLength else c.minLength,
           if c.requiredChars.None? then Some(DefaultRequiredChars) else c.requiredChars)
  }

  /** NewConfig: the options, then the defaults. */
  function NewConfig(opts: seq<Config -> Config>): Config
  {
    Defaults(ApplyOptions(Config(0, None), opts))
  }

  /** The default configuration asks for 8 bytes and no group. */
  lemma NewConfigDefaults()
    ensures NewConfig([]) == Config(8, Some([]))
  {
    ParsedEmpty();
  }

  /** The groups Verify ranges over; ranging over nil does nothing. */
  function Groups(cfg: Config): seq<string>
  {
    if cfg.requiredChars.Some? then cfg.requiredChars.value else []
  }

  /** strings.ContainsAny. */
  predicate ContainsAny(s: string, chars: string)
  {
    exists c :: c in chars && c in s
  }

  predicate TooShort(cfg: Config, password: string)
  {
    ByteLength(password) < cfg.minLength
  }

  /** What Verify answers, stated group by group: nothing when there is no
      group; otherwise a short password is reported together with whether
      the first group is missing, and a long enough one with the first group
      that is missing, if any. */
  function VerifySpec(cfg: Config, password: string): Option<VerificationError>
  {
    var groups := Groups(cfg);
    if |groups| == 0 then None
    else if TooShort(cfg, password) then
      Some(VerificationError("", [PasswordTooShort] + if ContainsAny(password, groups[0]) then [] else [MissingRequiredChars]))
    else if exists i :: 0 <= i < |groups| && !ContainsAny(password, groups[i]) then
      Some(VerificationError("", [MissingRequiredChars]))
    else None
  }

  /** passwordVerifier.Verify: the length check, then the groups in order,
      returning at the first one after which there is a reason. */
  method Verify(cfg: Config, password: string) returns (err: Option<VerificationError>)
    ensures err == VerifySpec(cfg, password)
  {
    var reasons: seq<Reason> := [];
    var messages: seq<string> := [];
    if ByteLength(password) < cfg.minLength {
      reasons := reasons + [PasswordTooShort];
    }
    var groups := Groups(cfg);
    for i := 0 to |groups|
      invariant messages == []
      invariant reasons == if TooShort(cfg, password) then [PasswordTooShort] else []
      invariant i > 0 ==> !TooShort(cfg, password)
      invariant forall j :: 0 <= j < i ==> ContainsAny(password, groups[j])
    {
      if !ContainsAny(password, groups[i]) {
        reasons := reasons + [MissingRequiredChars];
      }
      if |reasons| > 0 {
        assert JoinMessages(messages) == "";
        if TooShort(cfg, password) {
          assert i == 0;
          assert reasons == [PasswordTooShort] + if ContainsAny(password, groups[0]) then [] else [MissingRequiredChars];
          assert VerifySpec(cfg, password) == Some(VerificationError("", reasons));
        } else {
          assert !ContainsAny(password, groups[i]) && reasons == [MissingRequiredChars];
          assert VerifySpec(cfg, password) == Some(VerificationError("", reasons));
        }
        return Some(VerificationError(JoinMessages(messages), reasons));
      }
    }
    return None;
  }

  /** strings.Join(messages, ", "). */
  function JoinMessages(messages: seq<string>): string
    decreases |messages|
  {
    if |messages| == 0 then ""
    else if |messages| == 1 then messages[0]
    else messages[0] + ", " + JoinMessages(messages[1..])
  }

  /** Verify passes a password exactly when there is no group, or when it
      is long enough and shares a character with every group. */
  lemma VerifyPassesIff(cfg: Config, password: string)
    ensures VerifySpec(cfg, password).None? <==>
      |Groups(cfg)| == 0 ||
      (!TooShort(cfg, password) && forall i :: 0 <= i < |Groups(cfg)| ==> ContainsAny(password, Groups(cfg)[i]))
  {
  }

  /** At most two reasons, at most one of them a missing group, and the
      message is always empty because no message is ever collected. */
  lemma VerifyReasons(cfg: Config, password: string)
    requires VerifySpec(cfg, password).Some?
    ensures var e := VerifySpec(cfg, password).value;
      e.message == "" && 1 <= |e.reasons| <= 2 &&
      (TooShort(cfg, password) <==> e.reasons[0] == PasswordTooShort) &&
      (|e.reasons| == 2 ==> e.reasons == [PasswordTooShort, MissingRequiredChars])
  {
  }

  /** As written, the length is never checked without a group, and the
      default configuration has none: the empty password passes. */
  lemma DefaultVerifierAcceptsEmptyPassword()
    ensures TooShort(NewConfig([]), "") && VerifySpec(NewConfig([]), "").None?
  {
    NewConfigDefaults();
  }

  /** Verify as its configuration promises: the minimum length applies
      whether or not groups are configured. */
  function VerifyCorrected(cfg: Config, password: string): Option<VerificationError>
  {
    var groups := Groups(cfg);
    var missing := exists i :: 0 <= i < |groups| && !ContainsAny(password, groups[i]);
    if !TooShort(cfg, password) && !missing then None
    else Some(VerificationError("", (if TooShort(cfg, password) then [PasswordTooShort] else [])
                                     + (if missing then [MissingRequiredChars] else [])))
  }

  /** The corrected verifier passes a password exactly when it is long
      enough and shares a character with every group, and rejects a short
      one under the default configuration; where there are groups, it
      agrees with Verify on which passwords pass. */
  lemma VerifyCorrectedPassesIff(cfg: Config, password: string)
    ensures VerifyCorrected(cfg, password).None? <==>
      !TooShort(cfg, password) && forall i :: 0 <= i < |Groups(cfg)| ==> ContainsAny(password, Groups(cfg)[i])
    ensures |Groups(cfg)| > 0 ==> (VerifyCorrected(cfg, password).None? <==> VerifySpec(cfg, password).None?)
    ensures VerifyCorrected(NewConfig([]), "") == Some(VerificationError("", [PasswordTooShort]))
  {
    NewConfigDefaults();
    assert Groups(NewConfig([])) == [] && TooShort(NewConfig([]), "");
    assert [PasswordTooShort] + [] == [PasswordTooShort];
  }
}
