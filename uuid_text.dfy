/** The text form of identifiers, as session cookies carry them
    (uuid.UUID.String and uuidv7.FromString / tid.FromString).  An
    identifier is written as its decimal digits; parsing accepts a non-empty
    run of digits and nothing else. */
module UuidText {
  import opened Base

  const ParseFailure := "shieldpassword: failed to parse UUID"

  predicate IsDigit(c: char)
  {
    '0' <= c <= '9'
  }

  function DigitChar(d: nat): (c: char)
    requires d < 10
    ensures IsDigit(c) && c as int - '0' as int == d
  {
    ('0' as int + d) as char
  }

  /** The text of an id: its decimal digits, without leading zeros. */
  function Format(id: Uuid): (s: string)
    ensures |s| > 0
    ensures forall i :: 0 <= i < |s| ==> IsDigit(s[i])
    decreases id
  {
    if id < 10 then [DigitChar(id)] else Format(id / 10) + [DigitChar(id % 10)]
  }

  /** The number a run of digits spells. */
  function DigitsValue(s: string): nat
    requires forall i :: 0 <= i < |s| ==> IsDigit(s[i])
    decreases |s|
  {
    if |s| == 0 then 0
    else
      assert IsDigit(s[|s| - 1]);
      DigitsValue(s[..|s| - 1]) * 10 + (s[|s| - 1] as int - '0' as int)
  }

  /** FromString: the id a text names, or a wrapped parse error. */
  function Parse(s: string): (r: Result<Uuid>)
    ensures r.Err? <==> |s| == 0 || exists i :: 0 <= i < |s| && !IsDigit(s[i])
    ensures r.Err? ==> r.error == Wrapped(ParseFailure, MalformedId)
  {
    if |s| > 0 && forall i :: 0 <= i < |s| ==> IsDigit(s[i]) then Ok(DigitsValue(s))
    else Err(Wrapped(ParseFailure, MalformedId))
  }

  /** Parsing the text of an id gives the id back. */
  lemma {:induction false} ParseFormat(id: Uuid)
    ensures Parse(Format(id)) == Ok(id)
    decreases id
  {
    DigitsValueFormat(id);
  }

  lemma {:induction false} DigitsValueFormat(id: Uuid)
    ensures DigitsValue(Format(id)) == id
    decreases id
  {
    if id >= 10 {
      var s := Format(id);
      assert s[..|s| - 1] == Format(id / 10);
      DigitsValueFormat(id / 10);
    }
  }

  /** Distinct ids have distinct texts, so a cookie names one session. */
  lemma FormatInjective(a: Uuid, b: Uuid)
    ensures Format(a) == Format(b) ==> a == b
  {
    DigitsValueFormat(a);
    DigitsValueFormat(b);
  }

  /** The empty cookie value never parses. */
  lemma EmptyDoesNotParse()
    ensures Parse("").Err?
  {
  }
}
