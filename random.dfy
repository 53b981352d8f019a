/** internal/random: secure random bytes and their hex rendering.  The
    operating system's entropy source is an object whose remaining output is
    known to the model; it fails when it cannot deliver enough bytes. */
module Random {
  import opened Base

  /** crypto/rand.Reader. */
  class Entropy {
    /** The bytes the source will deliver next, in order. */
    var stream: seq<byte>

    constructor (stream: seq<byte>)
      ensures this.stream == stream
    {
      this.stream := stream;
    }

    /** rand.Read: fills all of `buf` or reports an error. */
    method Read(buf: array<byte>) returns (err: Option<Error>)
      modifies this, buf
      ensures err.None? <==> buf.Length <= |old(stream)|
      ensures err.None? ==> buf[..] == old(stream)[..buf.Length] && stream == old(stream)[buf.Length..]
      ensures err.Some? ==> err.value == EntropyFailure && stream == old(stream) && buf[..] == old(buf[..])
    {
      if |stream| < buf.Length {
        return Some(EntropyFailure);
      }
      var i := 0;
      while i < buf.Length
        invariant 0 <= i <= buf.Length
        invariant buf[..i] == stream[..i]
        modifies buf
      {
        buf[i] := stream[i];
        i := i + 1;
      }
      assert buf[..] == buf[..buf.Length];
      stream := stream[buf.Length..];
      err := None;
    }
  }

  const ReadFailed := "shield: error reading random bytes"
  /** The error secureBytes reports when the source cannot deliver. */
  const ReadFailure := Wrapped(ReadFailed, EntropyFailure)

  /** secureBytes: a fresh zeroed buffer of exactly `l` bytes, filled by the
      entropy source.  The buffer is returned even when reading failed. */
  method SecureBytes(l: nat, src: Entropy) returns (bytes: array<byte>, err: Option<Error>)
    modifies src
    ensures fresh(bytes) && bytes.Length == l
    ensures err.None? <==> l <= |old(src.stream)|
    ensures err.None? ==> bytes[..] == old(src.stream)[..l] && src.stream == old(src.stream)[l..]
    ensures err.Some? ==> src.stream == old(src.stream)
    ensures err.Some? ==> err.value == ReadFailure
  {
    bytes := new byte[l](_ => 0);
    var e := src.Read(bytes);
    if e.Some? {
      err := Some(Wrapped(ReadFailed, e.value));
    } else {
      err := None;
    }
  }

  predicate IsHexDigit(c: char)
  {
    '0' <= c <= '9' || 'a' <= c <= 'f'
  }

  /** The lower-case hex digit of a nibble. */
  function HexDigit(v: int): (c: char)
    requires 0 <= v < 16
    ensures IsHexDigit(c)
  {
    if v < 10 then ('0' as int + v) as char else ('a' as int + v - 10) as char
  }

  /** hex.EncodeToString: two lower-case digits per byte, high nibble first. */
  function HexEncode(b: seq<byte>): (s: string)
    ensures |s| == 2 * |b|
    ensures forall i :: 0 <= i < |s| ==> IsHexDigit(s[i])
    decreases |b|
  {
    if |b| == 0 then ""
    else [HexDigit(b[0] as int / 16), HexDigit(b[0] as int % 16)] + HexEncode(b[1..])
  }

  /** The value of a hex digit. */
  function HexValue(c: char): (v: int)
    requires IsHexDigit(c)
    ensures 0 <= v < 16 && HexDigit(v) == c
  {
    if c <= '9' then c as int - '0' as int else c as int - 'a' as int + 10
  }

  /** hex.DecodeString on what HexEncode produced: the partner that shows the
      encoding loses nothing. */
  function HexDecode(s: string): (b: seq<byte>)
    requires |s| % 2 == 0
    requires forall i :: 0 <= i < |s| ==> IsHexDigit(s[i])
    decreases |s|
  {
    if |s| == 0 then []
    else [(HexValue(s[0]) * 16 + HexValue(s[1])) as byte] + HexDecode(s[2..])
  }

  lemma {:induction false} HexRoundTrip(b: seq<byte>)
    ensures HexDecode(HexEncode(b)) == b
    decreases |b|
  {
    if |b| > 0 {
      var s := HexEncode(b);
      var rest := HexEncode(b[1..]);
      assert s[2..] == rest;
      HexRoundTrip(b[1..]);
      var n := b[0] as int;
      assert HexValue(HexDigit(n / 16)) == n / 16;
      assert HexValue(HexDigit(n % 16)) == n % 16;
      assert HexDecode(s) == [(HexValue(s[0]) * 16 + HexValue(s[1])) as byte] + HexDecode(rest);
    }
  }

  /** A hex rendering never contains the `|` separator of the CSRF cookie. */
  lemma HexHasNoBar(b: seq<byte>)
    ensures '|' !in HexEncode(b)
  {
  }

  /** SecureHexString: `2 * l` lower-case hex digits drawn from the entropy
      source, or "" and an error when the source fails. */
  method SecureHexString(l: nat, src: Entropy) returns (s: string, err: Option<Error>)
    modifies src
    ensures err.None? <==> l <= |old(src.stream)|
    ensures err.None? ==> s == HexEncode(old(src.stream)[..l]) && src.stream == old(src.stream)[l..]
    ensures err.None? ==> |s| == 2 * l && forall i :: 0 <= i < |s| ==> IsHexDigit(s[i])
    ensures err.Some? ==> s == "" && err.value == ReadFailure && src.stream == old(src.stream)
  {
    var bytes, e := SecureBytes(l, src);
    if e.Some? {
      return "", e;
    }
    s, err := HexEncode(bytes[..]), None;
  }
}
