/** Text as bytes. A Dafny character is a Unicode scalar value, as in Rust. */
module Utf8 {
  import opened Wrappers

  type byte = x: int | 0 <= x < 256

  function EncodeChar(c: char): (bytes: seq<byte>)
    ensures 1 <= |bytes| <= 4
  {
    var n := c as int;
    if n < 0x80 then [n]
    else if n < 0x800 then [0xC0 + n / 64, 0x80 + n % 64]
    else if n < 0x1_0000 then [0xE0 + n / 4096, 0x80 + n / 64 % 64, 0x80 + n % 64]
    else [0xF0 + n / 26_2144, 0x80 + n / 4096 % 64, 0x80 + n / 64 % 64, 0x80 + n % 64]
  }

  function Encode(s: string): seq<byte> {
    if s == "" then [] else EncodeChar(s[0]) + Encode(s[1..])
  }

  predicate IsContinuation(b: byte) {
    0x80 <= b < 0xC0
  }

  predicate IsScalar(n: int) {
    0 <= n < 0xD800 || 0xE000 <= n < 0x11_0000
  }

  /** The bits of a byte above `lead`. */
  function Above(b: byte, lead: int): int {
    b as int - lead
  }

  /** The first character and how many bytes it takes, refusing overlong forms,
      surrogates and numbers out of range. */
  function DecodeChar(bytes: seq<byte>): (r: Option<(char, nat)>)
    ensures r.Some? ==> 1 <= r.value.1 <= |bytes|
  {
    if bytes == [] then None
    else if bytes[0] < 0x80 then Some((bytes[0] as char, 1))
    else if 0xC0 <= bytes[0] < 0xE0 && |bytes| >= 2 && IsContinuation(bytes[1]) then
      Scalar(Above(bytes[0], 0xC0) * 64 + Above(bytes[1], 0x80), 0x80, 2)
    else if 0xE0 <= bytes[0] < 0xF0 && |bytes| >= 3 && IsContinuation(bytes[1]) && IsContinuation(bytes[2]) then
      Scalar(Above(bytes[0], 0xE0) * 4096 + Above(bytes[1], 0x80) * 64 + Above(bytes[2], 0x80), 0x800, 3)
    else if 0xF0 <= bytes[0] < 0xF8 && |bytes| >= 4
            && IsContinuation(bytes[1]) && IsContinuation(bytes[2]) && IsContinuation(bytes[3]) then
      Scalar(Above(bytes[0], 0xF0) * 26_2144 + Above(bytes[1], 0x80) * 4096
             + Above(bytes[2], 0x80) * 64 + Above(bytes[3], 0x80), 0x1_0000, 4)
    else None
  }

  function Scalar(n: int, least: int, length: nat): Option<(char, nat)> {
    if n >= least && IsScalar(n) then Some((n as char, length)) else None
  }

  function Decode(bytes: seq<byte>): Option<string>
    decreases |bytes|
  {
    if bytes == [] then Some("")
    else match DecodeChar(bytes)
      case None => None
      case Some((c, n)) =>
        match Decode(bytes[n..])
        case None => None
        case Some(rest) => Some([c] + rest)
  }

  lemma Sextets(n: nat)
    ensures n == n / 64 * 64 + n % 64
    ensures n == n / 4096 * 4096 + n / 64 % 64 * 64 + n % 64
    ensures n == n / 26_2144 * 26_2144 + n / 4096 % 64 * 4096 + n / 64 % 64 * 64 + n % 64
  {
    assert n / 64 / 64 == n / 4096 && n / 4096 / 64 == n / 26_2144;
  }

  lemma CharsAreScalars(c: char)
    ensures IsScalar(c as int)
  {
  }

  lemma DecodeCharOfEncoded(c: char, rest: seq<byte>)
    ensures DecodeChar(EncodeChar(c) + rest) == Some((c, |EncodeChar(c)|))
  {
    var n := c as int;
    Sextets(n);
    CharsAreScalars(c);
    var bytes := EncodeChar(c) + rest;
    if n < 0x80 {
      assert bytes[0] == n;
    } else if n < 0x800 {
      assert bytes[0] == 0xC0 + n / 64 && bytes[1] == 0x80 + n % 64;
    } else if n < 0x1_0000 {
      assert bytes[0] == 0xE0 + n / 4096 && bytes[1] == 0x80 + n / 64 % 64 && bytes[2] == 0x80 + n % 64;
    } else {
      assert bytes[0] == 0xF0 + n / 26_2144 && bytes[1] == 0x80 + n / 4096 % 64;
      assert bytes[2] == 0x80 + n / 64 % 64 && bytes[3] == 0x80 + n % 64;
    }
  }

  lemma {:induction false} DecodeOfEncoded(s: string)
    ensures Decode(Encode(s)) == Some(s)
  {
    if s == "" {
    } else {
      var first, rest := EncodeChar(s[0]), Encode(s[1..]);
      DecodeCharOfEncoded(s[0], rest);
      assert (first + rest)[|first|..] == rest;
      DecodeOfEncoded(s[1..]);
      assert s == [s[0]] + s[1..];
    }
  }

  lemma {:induction false} EncodeSum(s: string, t: string)
    ensures Encode(s + t) == Encode(s) + Encode(t)
  {
    if s == "" {
      assert s + t == t;
    } else {
      assert (s + t)[1..] == s[1..] + t;
      EncodeSum(s[1..], t);
    }
  }
}
