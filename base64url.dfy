/** base64.URLEncoding: the URL- and filename-safe alphabet of section 5 of
    RFC 4648, with `=` padding, as Go's decoder reads it by default: carriage
    returns and line feeds are skipped, the input must be whole four-symbol
    quanta, padding may only close the last quantum, and the unused low bits
    of a padded quantum are not checked. */
module Base64Url {
  import opened Base

  /** The symbol of a 6-bit value: A-Z, a-z, 0-9, '-', '_'. */
  function Symbol(v: int): (c: char)
    requires 0 <= v < 64
    ensures IsSymbol(c)
  {
    if v < 26 then ('A' as int + v) as char
    else if v < 52 then ('a' as int + v - 26) as char
    else if v < 62 then ('0' as int + v - 52) as char
    else if v == 62 then '-'
    else '_'
  }

  predicate IsSymbol(c: char)
  {
    'A' <= c <= 'Z' || 'a' <= c <= 'z' || '0' <= c <= '9' || c == '-' || c == '_'
  }

  /** The 6-bit value of a symbol; the inverse of Symbol. */
  function Value(c: char): (v: int)
    requires IsSymbol(c)
    ensures 0 <= v < 64 && Symbol(v) == c
  {
    if 'A' <= c <= 'Z' then c as int - 'A' as int
    else if 'a' <= c <= 'z' then c as int - 'a' as int + 26
    else if '0' <= c <= '9' then c as int - '0' as int + 52
    else if c == '-' then 62
    else 63
  }

  /** Symbol is one-to-one: its value is the value it encodes. */
  lemma ValueOfSymbol(v: int)
    requires 0 <= v < 64
    ensures Value(Symbol(v)) == v
  {
  }

  /** EncodeToString: every three bytes become four symbols; a final one or
      two bytes become two or three symbols and `==` or `=`. */
  function Encode(b: seq<byte>): (s: string)
    ensures |s| % 4 == 0
    ensures forall i :: 0 <= i < |s| ==> IsSymbol(s[i]) || s[i] == '='
    decreases |b|
  {
    if |b| == 0 then ""
    else if |b| == 1 then
      var x := b[0] as int;
      [Symbol(x / 4), Symbol(x % 4 * 16), '=', '=']
    else if |b| == 2 then
      var x, y := b[0] as int, b[1] as int;
      [Symbol(x / 4), Symbol(x % 4 * 16 + y / 16), Symbol(y % 16 * 4), '=']
    else
      var rest := Encode(b[3..]);
      assert (4 + |rest|) % 4 == 0;
      Quantum(b[0], b[1], b[2]) + rest
  }

  /** The four symbols of three bytes. */
  function Quantum(x: byte, y: byte, z: byte): (s: string)
    ensures |s| == 4 && forall i :: 0 <= i < 4 ==> IsSymbol(s[i])
  {
    var x, y, z := x as int, y as int, z as int;
    [Symbol(x / 4), Symbol(x % 4 * 16 + y / 16), Symbol(y % 16 * 4 + z / 64), Symbol(z % 64)]
  }

  /** The decoder skips '\r' and '\n' wherever they appear. */
  function StripNewlines(s: string): (r: string)
    ensures |r| <= |s|
    decreases |s|
  {
    if |s| == 0 then ""
    else (if s[0] == '\r' || s[0] == '\n' then "" else [s[0]]) + StripNewlines(s[1..])
  }

  /** The bytes a quantum carries, from the values of its symbols; the low
      bits a padded quantum leaves over are dropped unchecked. */
  function First(c0: int, c1: int): byte
    requires 0 <= c0 < 64 && 0 <= c1 < 64
  {
    (c0 * 4 + c1 / 16) as byte
  }

  function Second(c1: int, c2: int): byte
    requires 0 <= c1 < 64 && 0 <= c2 < 64
  {
    (c1 % 16 * 16 + c2 / 4) as byte
  }

  function Third(c2: int, c3: int): byte
    requires 0 <= c2 < 64 && 0 <= c3 < 64
  {
    (c2 % 4 * 64 + c3) as byte
  }

  /** The bytes of whole quanta, or None when the input is corrupt. */
  function DecodeQuanta(s: string): Option<seq<byte>>
    decreases |s|
  {
    if |s| == 0 then Some([])
    else if |s| < 4 then None
    else if !IsSymbol(s[0]) || !IsSymbol(s[1]) then None
    else if s[2] == '=' then
      if s[3] == '=' && |s| == 4 then Some([First(Value(s[0]), Value(s[1]))]) else None
    else if !IsSymbol(s[2]) then None
    else if s[3] == '=' then
      if |s| == 4 then Some([First(Value(s[0]), Value(s[1])), Second(Value(s[1]), Value(s[2]))])
      else None
    else if !IsSymbol(s[3]) then None
    else
      match DecodeQuanta(s[4..])
      case None => None
      case Some(rest) =>
        Some([First(Value(s[0]), Value(s[1])), Second(Value(s[1]), Value(s[2])),
              Third(Value(s[2]), Value(s[3]))] + rest)
  }

  /** DecodeString. */
  function Decode(s: string): Option<seq<byte>>
  {
    DecodeQuanta(StripNewlines(s))
  }

  lemma {:induction false} StripNothing(s: string)
    requires forall i :: 0 <= i < |s| ==> s[i] != '\r' && s[i] != '\n'
    ensures StripNewlines(s) == s
    decreases |s|
  {
    if |s| > 0 {
      StripNothing(s[1..]);
      assert s == [s[0]] + s[1..];
    }
  }

  lemma FirstOfEncoded(x: int, y: int)
    requires 0 <= x < 256 && 0 <= y < 256
    ensures First(x / 4, x % 4 * 16 + y / 16) as int == x
  {
    assert (x % 4 * 16 + y / 16) / 16 == x % 4;
    assert x / 4 * 4 + x % 4 == x;
  }

  lemma SecondOfEncoded(x: int, y: int, z: int)
    requires 0 <= x < 256 && 0 <= y < 256 && 0 <= z < 256
    ensures Second(x % 4 * 16 + y / 16, y % 16 * 4 + z / 64) as int == y
  {
    assert (x % 4 * 16 + y / 16) % 16 == y / 16;
    assert (y % 16 * 4 + z / 64) / 4 == y % 16;
    assert y / 16 * 16 + y % 16 == y;
  }

  lemma ThirdOfEncoded(y: int, z: int)
    requires 0 <= y < 256 && 0 <= z < 256
    ensures Third(y % 16 * 4 + z / 64, z % 64) as int == z
  {
    assert (y % 16 * 4 + z / 64) % 4 == z / 64;
    assert z / 64 * 64 + z % 64 == z;
  }

  lemma DecodeLastByte(b: seq<byte>)
    requires |b| == 1
    ensures DecodeQuanta(Encode(b)) == Some(b)
  {
    var x := b[0] as int;
    FirstOfEncoded(x, 0);
    ValueOfSymbol(x / 4);
    ValueOfSymbol(x % 4 * 16);
    assert b == [b[0]];
  }

  lemma DecodeLastPair(b: seq<byte>)
    requires |b| == 2
    ensures DecodeQuanta(Encode(b)) == Some(b)
  {
    var x, y := b[0] as int, b[1] as int;
    FirstOfEncoded(x, y);
    SecondOfEncoded(x, y, 0);
    ValueOfSymbol(x / 4);
    ValueOfSymbol(x % 4 * 16 + y / 16);
    ValueOfSymbol(y % 16 * 4);
    assert b == [b[0], b[1]];
  }

  lemma DecodeQuantum(x: byte, y: byte, z: byte, rest: string, r: seq<byte>)
    requires DecodeQuanta(rest) == Some(r)
    ensures DecodeQuanta(Quantum(x, y, z) + rest) == Some([x, y, z] + r)
  {
    var x', y', z' := x as int, y as int, z as int;
    FirstOfEncoded(x', y');
    SecondOfEncoded(x', y', z');
    ThirdOfEncoded(y', z');
    ValueOfSymbol(x' / 4);
    ValueOfSymbol(x' % 4 * 16 + y' / 16);
    ValueOfSymbol(y' % 16 * 4 + z' / 64);
    ValueOfSymbol(z' % 64);
    var s := Quantum(x, y, z) + rest;
    assert s[4..] == rest;
  }

  lemma SplitFirstThree(b: seq<byte>)
    requires |b| >= 3
    ensures b == [b[0], b[1], b[2]] + b[3..]
  {
  }

  /** Decoding what was encoded gives the bytes back. */
  lemma {:induction false} DecodeQuantaEncode(b: seq<byte>)
    ensures DecodeQuanta(Encode(b)) == Some(b)
    decreases |b|
  {
    if |b| == 1 {
      DecodeLastByte(b);
    } else if |b| == 2 {
      DecodeLastPair(b);
    } else if |b| >= 3 {
      DecodeQuantaEncode(b[3..]);
      assert Encode(b) == Quantum(b[0], b[1], b[2]) + Encode(b[3..]);
      DecodeQuantum(b[0], b[1], b[2], Encode(b[3..]), b[3..]);
      SplitFirstThree(b);
    } else {
      assert Encode(b) == "";
    }
  }

  /** The round trip of RFC 4648: Decode(Encode(b)) == b for every b. */
  lemma RoundTrip(b: seq<byte>)
    ensures Decode(Encode(b)) == Some(b)
  {
    StripNothing(Encode(b));
    DecodeQuantaEncode(b);
  }
}
