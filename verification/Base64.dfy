/** The base64url decoder that reads JWT payloads. Its meaning is given on bit
    strings: the six-bit digits of the input, end to end, cut again into bytes. */
module Base64 {
  import opened Wrappers
  import Utf8

  type byte = Utf8.byte

  type sextet = x: int | 0 <= x < 64

  // ----- Bit strings -----

  function Pow2(n: nat): (p: nat)
    ensures p > 0
  {
    if n == 0 then 1 else 2 * Pow2(n - 1)
  }

  /** The low `n` bits of `v`, most significant first. */
  ghost function Bits(v: nat, n: nat): (bits: seq<bool>)
    ensures |bits| == n
  {
    if n == 0 then [] else Bits(v / 2, n - 1) + [v % 2 == 1]
  }

  ghost function ValueOf(bits: seq<bool>): nat {
    if bits == [] then 0
    else 2 * ValueOf(bits[..|bits| - 1]) + (if bits[|bits| - 1] then 1 else 0)
  }

  /** The `width`-bit units laid end to end. */
  ghost function Stream(units: seq<nat>, width: nat): seq<bool> {
    if units == [] then [] else Stream(units[..|units| - 1], width) + Bits(units[|units| - 1], width)
  }

  /** The whole `width`-bit units of a bit string; an incomplete last one is dropped. */
  ghost function Regroup(bits: seq<bool>, width: nat): seq<nat>
    requires width > 0
  {
    if |bits| < width then []
    else [ValueOf(bits[..width])] + Regroup(bits[width..], width)
  }

  lemma {:induction false} Pow2Sum(m: nat, n: nat)
    ensures Pow2(m + n) == Pow2(m) * Pow2(n)
  {
    if m == 0 {
    } else {
      Pow2Sum(m - 1, n);
    }
  }

  lemma Halve(x: nat, p: nat, y: nat)
    ensures x * (2 * p) + y >= 0
    ensures (x * (2 * p) + y) / 2 == x * p + y / 2
    ensures (x * (2 * p) + y) % 2 == y % 2
  {
    assert x * (2 * p) == 2 * (x * p);
  }

  lemma {:induction false} BitsJoin(x: nat, n: nat, y: nat, m: nat)
    requires y < Pow2(m)
    ensures Bits(x * Pow2(m) + y, n + m) == Bits(x, n) + Bits(y, m)
  {
    if m == 0 {
    } else {
      Halve(x, Pow2(m - 1), y);
      BitsJoin(x, n, y / 2, m - 1);
    }
  }

  lemma {:induction false} ValueOfBits(v: nat, n: nat)
    requires v < Pow2(n)
    ensures ValueOf(Bits(v, n)) == v
  {
    if n == 0 {
    } else {
      ValueOfBits(v / 2, n - 1);
      assert Bits(v, n)[..n - 1] == Bits(v / 2, n - 1);
    }
  }

  lemma {:induction false} BitsOfValue(bits: seq<bool>)
    ensures ValueOf(bits) < Pow2(|bits|)
    ensures Bits(ValueOf(bits), |bits|) == bits
  {
    if bits == [] {
    } else {
      BitsOfValue(bits[..|bits| - 1]);
      assert bits == bits[..|bits| - 1] + [bits[|bits| - 1]];
    }
  }

  lemma Times(n: nat, width: nat)
    ensures (n + 1) * width == n * width + width
  {
  }

  lemma {:induction false} StreamLength(units: seq<nat>, width: nat)
    ensures |Stream(units, width)| == |units| * width
  {
    if units == [] {
    } else {
      StreamLength(units[..|units| - 1], width);
      Times(|units| - 1, width);
    }
  }

  lemma {:induction false} StreamFront(units: seq<nat>, width: nat)
    requires units != []
    ensures Stream(units, width) == Bits(units[0], width) + Stream(units[1..], width)
  {
    var n := |units| - 1;
    var first, last := Bits(units[0], width), Bits(units[n], width);
    if n == 0 {
      assert units[..0] == [] && units[1..] == [];
    } else {
      var middle := Stream(units[1..][..n - 1], width);
      StreamFront(units[..n], width);
      assert units[..n][1..] == units[1..][..n - 1];
      Regrouped(Stream(units[..n], width), first, middle, last, middle + last);
    }
  }

  /** Cutting a stream of full-width units gives them back. */
  lemma {:induction false} RegroupStream(units: seq<nat>, width: nat, rest: seq<bool>)
    requires width > |rest| && forall i | 0 <= i < |units| :: units[i] < Pow2(width)
    ensures Regroup(Stream(units, width) + rest, width) == units
  {
    if units != [] {
      var first, later := Bits(units[0], width), Stream(units[1..], width);
      calc {
        Regroup(Stream(units, width) + rest, width);
        { StreamFront(units, width); Regrouped(Stream(units, width), first, later, rest, later + rest); }
        Regroup(first + (later + rest), width);
        { RegroupFront(first, later + rest, width); }
        [ValueOf(first)] + Regroup(later + rest, width);
        { ValueOfBits(units[0], width); RegroupStream(units[1..], width, rest); }
        [units[0]] + units[1..];
        units;
      }
    } else {
      assert Stream(units, width) + rest == rest;
    }
  }

  lemma RegroupFront(unit: seq<bool>, later: seq<bool>, width: nat)
    requires |unit| == width > 0
    ensures Regroup(unit + later, width) == [ValueOf(unit)] + Regroup(later, width)
  {
    assert (unit + later)[..width] == unit && (unit + later)[width..] == later;
  }

  /** Laying the units of a cut end to end gives back all but the dropped bits. */
  lemma {:induction false} StreamRegroup(bits: seq<bool>, width: nat)
    requires width > 0
    ensures Stream(Regroup(bits, width), width) <= bits
    ensures |bits| - |Stream(Regroup(bits, width), width)| < width
    ensures forall i | 0 <= i < |Regroup(bits, width)| :: Regroup(bits, width)[i] < Pow2(width)
  {
    if |bits| < width {
    } else {
      var units, later := Regroup(bits, width), Regroup(bits[width..], width);
      assert units[1..] == later;
      StreamFront(units, width);
      BitsOfValue(bits[..width]);
      StreamRegroup(bits[width..], width);
      PrefixShift(bits, width, Stream(later, width));
    }
  }

  lemma PrefixShift(bits: seq<bool>, k: nat, later: seq<bool>)
    requires k <= |bits| && later <= bits[k..]
    ensures bits[..k] + later <= bits
  {
    assert bits == bits[..k] + bits[k..];
  }

  lemma StreamAppend(units: seq<nat>, unit: nat, width: nat)
    ensures Stream(units + [unit], width) == Stream(units, width) + Bits(unit, width)
  {
    assert (units + [unit])[..|units|] == units;
  }

  /** Moves the brackets of a concatenation whose parts go by other names. */
  lemma Regrouped(ab: seq<bool>, a: seq<bool>, b: seq<bool>, c: seq<bool>, bc: seq<bool>)
    requires ab == a + b && bc == b + c
    ensures ab + c == a + bc
  {
  }

  // ----- The alphabet -----

  datatype DecodeError = NotAscii | NotInAlphabet(c: char)

  /** The table the decoder looks a byte up in: both alphabets at once. */
  function Digit(c: char): Option<sextet> {
    if 'A' <= c <= 'Z' then Some(c as int - 'A' as int)
    else if 'a' <= c <= 'z' then Some(c as int - 'a' as int + 26)
    else if '0' <= c <= '9' then Some(c as int - '0' as int + 52)
    else if c == '-' || c == '+' then Some(62)
    else if c == '_' || c == '/' then Some(63)
    else None
  }

  function DigitChar(v: sextet, urlSafe: bool): (c: char)
    ensures Digit(c) == Some(v)
  {
    if v < 26 then (v + 65) as char
    else if v < 52 then (v + 71) as char
    else if v < 62 then (v - 4) as char
    else if v == 62 then (if urlSafe then '-' else '+')
    else (if urlSafe then '_' else '/')
  }

  function TrimPadding(input: string): (trimmed: string)
    ensures |trimmed| <= |input| && trimmed == input[..|trimmed|]
    ensures trimmed == [] || trimmed[|trimmed| - 1] != '='
    ensures forall i | |trimmed| <= i < |input| :: input[i] == '='
  {
    if input != [] && input[|input| - 1] == '=' then TrimPadding(input[..|input| - 1]) else input
  }

  predicate AllDigits(s: string) {
    forall c <- s :: Digit(c).Some?
  }

  function Digits(s: string): (digits: seq<sextet>)
    requires AllDigits(s)
    ensures |digits| == |s|
  {
    seq(|s|, i requires 0 <= i < |s| => Digit(s[i]).value)
  }

  function Refusal(c: char): DecodeError
    requires Digit(c).None?
  {
    if c as int >= 128 then NotAscii else NotInAlphabet(c)
  }

  // ----- Decoding -----

  function FirstStranger(s: string): Option<char> {
    if s == [] then None
    else if Digit(s[0]).None? then Some(s[0])
    else FirstStranger(s[1..])
  }

  lemma {:induction false} NoStranger(s: string)
    ensures FirstStranger(s).None? <==> AllDigits(s)
    ensures FirstStranger(s).Some? ==> Digit(FirstStranger(s).value).None?
  {
    if s == [] {
    } else {
      NoStranger(s[1..]);
      assert s == [s[0]] + s[1..];
    }
  }

  /** The bytes an input stands for: its digits as one bit string, cut into
      bytes; or the refusal of its first character outside both alphabets. */
  ghost function Decoded(input: string): Result<seq<nat>, DecodeError> {
    var digits := TrimPadding(input);
    NoStranger(digits);
    match FirstStranger(digits)
    case Some(c) => Err(Refusal(c))
    case None => Ok(Regroup(Stream(Digits(digits), 6), 8))
  }

  /** One shift: six more bits arrive below the pending ones, which the 32-bit
      buffer has room for. */
  lemma Shift(buf: nat, bits: nat, val: nat)
    requires bits <= 6 && buf < Pow2(bits) && val < 64
    ensures buf * 64 + val < Pow2(bits + 6) <= 4096
    ensures (buf * 64) % 0x1_0000_0000 == buf * 64
    ensures Bits(buf * 64 + val, bits + 6) == Bits(buf, bits) + Bits(val, 6)
  {
    assert Pow2(6) == 64;
    BitsJoin(buf, bits, val, 6);
    Pow2Sum(6, bits);
    Pow2Sum(bits, 6 - bits);
    assert Pow2(bits) <= 64;
  }

  lemma Quotient(v: nat, p: nat)
    requires p > 0 && v < 256 * p
    ensures v / p < 256 && (v / p) % 256 == v / p
    ensures v == (v / p) * p + v % p
  {
  }

  /** The byte above `bits` pending bits is in range, so casting it to a byte loses nothing. */
  lemma ByteAbove(buf: nat, bits: nat)
    requires bits <= 6 && buf < Pow2(bits + 8)
    ensures buf / Pow2(bits) < 256 && buf % Pow2(bits) < Pow2(bits)
    ensures Bits(buf, bits + 8) == Bits((buf / Pow2(bits)) % 256, 8) + Bits(buf % Pow2(bits), bits)
  {
    Pow2Sum(8, bits);
    assert Pow2(8) == 256;
    Quotient(buf, Pow2(bits));
    BitsJoin(buf / Pow2(bits), 8, buf % Pow2(bits), bits);
  }

  /** Moves the byte above `bits` pending bits from the buffer to the output. */
  method TakeByte(buf: nat, bits: nat, out: seq<byte>) returns (buf': nat, out': seq<byte>)
    requires bits <= 6 && buf < Pow2(bits + 8)
    ensures buf' < Pow2(bits)
    ensures Stream(out', 8) + Bits(buf', bits) == Stream(out, 8) + Bits(buf, bits + 8)
  {
    ByteAbove(buf, bits);
    var next := (buf / Pow2(bits)) % 256;
    out' := out + [next];
    buf' := buf % Pow2(bits);
    StreamAppend(out, next, 8);
    Regrouped(Stream(out', 8), Stream(out, 8), Bits(next, 8), Bits(buf', bits), Bits(buf, bits + 8));
  }

  /** One round of the decoding loop, on a digit the table knows. */
  method TakeDigit(buf: nat, bits: nat, val: sextet, out: seq<byte>) returns (buf': nat, bits': nat, out': seq<byte>)
    requires bits in {0, 2, 4, 6} && buf < Pow2(bits)
    ensures bits' in {0, 2, 4, 6} && buf' < Pow2(bits')
    ensures Stream(out', 8) + Bits(buf', bits') == Stream(out, 8) + (Bits(buf, bits) + Bits(val, 6))
  {
    Shift(buf, bits, val);
    var shifted := (buf * 64) % 0x1_0000_0000 + val;
    if bits == 0 {
      buf', bits', out' := shifted, 6, out;
    } else {
      bits' := bits - 2;
      assert Bits(shifted, bits' + 8) == Bits(buf, bits) + Bits(val, 6);
      buf', out' := TakeByte(shifted, bits', out);
    }
  }

  lemma StreamDigit(s: string, i: nat)
    requires i < |s| && AllDigits(s[..i]) && Digit(s[i]).Some?
    ensures AllDigits(s[..i + 1])
    ensures Stream(Digits(s[..i + 1]), 6) == Stream(Digits(s[..i]), 6) + Bits(Digit(s[i]).value, 6)
  {
    assert s[..i + 1] == s[..i] + [s[i]];
    assert Digits(s[..i + 1])[..i] == Digits(s[..i]);
  }

  method Base64UrlDecode(input: string) returns (r: Result<seq<byte>, DecodeError>)
    ensures r == Decoded(input)
  {
    var trimmed := TrimPadding(input);
    var out: seq<byte> := [];
    var buf: nat := 0;
    var bits: nat := 0;
    for i := 0 to |trimmed|
      invariant AllDigits(trimmed[..i])
      invariant FirstStranger(trimmed) == FirstStranger(trimmed[i..])
      invariant bits in {0, 2, 4, 6} && buf < Pow2(bits)
      invariant Stream(Digits(trimmed[..i]), 6) == Stream(out, 8) + Bits(buf, bits)
    {
      var digit := Digit(trimmed[i]);
      if digit.None? {
        return Err(Refusal(trimmed[i]));
      }
      StreamDigit(trimmed, i);
      Regrouped(Stream(Digits(trimmed[..i]), 6), Stream(out, 8), Bits(buf, bits), Bits(digit.value, 6),
                Bits(buf, bits) + Bits(digit.value, 6));
      buf, bits, out := TakeDigit(buf, bits, digit.value, out);
    }
    assert trimmed[..|trimmed|] == trimmed;
    assert Pow2(8) == 256;
    RegroupStream(out, 8, Bits(buf, bits));
    r := Ok(out);
  }

  lemma RegroupExactly(bits: seq<bool>, bytes: seq<byte>)
    ensures Regroup(bits, 8) == bytes <==> Stream(bytes, 8) <= bits && |bits| - |Stream(bytes, 8)| < 8
  {
    StreamRegroup(bits, 8);
    if Stream(bytes, 8) <= bits && |bits| - |Stream(bytes, 8)| < 8 {
      assert Pow2(8) == 256;
      RegroupStream(bytes, 8, bits[|Stream(bytes, 8)|..]);
      assert bits == Stream(bytes, 8) + bits[|Stream(bytes, 8)|..];
    }
  }

  /** An input of `n` digits decodes to floor(6n / 8) bytes, whose bits are all
      of the digits' bits but the last few, and it stands for no other bytes. */
  lemma DecodedExactly(input: string, bytes: seq<byte>)
    requires AllDigits(TrimPadding(input))
    ensures var bits := Stream(Digits(TrimPadding(input)), 6);
            Decoded(input) == Ok(bytes) <==> Stream(bytes, 8) <= bits && |bits| - |Stream(bytes, 8)| < 8
    ensures Decoded(input) == Ok(bytes) ==> |bytes| == 6 * |TrimPadding(input)| / 8
  {
    NoStranger(TrimPadding(input));
    RegroupExactly(Stream(Digits(TrimPadding(input)), 6), bytes);
    StreamLength(Digits(TrimPadding(input)), 6);
    StreamLength(bytes, 8);
  }

  // ----- Encoding -----

  lemma WholeDigits(bits: seq<bool>)
    requires |bits| % 6 == 0
    ensures Stream(Regroup(bits, 6), 6) == bits
    ensures forall i | 0 <= i < |Regroup(bits, 6)| :: Regroup(bits, 6)[i] < 64
  {
    StreamRegroup(bits, 6);
    StreamLength(Regroup(bits, 6), 6);
    assert Pow2(6) == 64;
  }

  ghost function Zeros(n: nat): (bits: seq<bool>)
    ensures |bits| == n
  {
    seq(n, _ => false)
  }

  /** The digits of a byte string: its bits, zero-filled to whole digits. */
  ghost function EncodedDigits(bytes: seq<byte>): (digits: seq<sextet>)
    ensures Stream(digits, 6) == Stream(bytes, 8) + Zeros((6 - |Stream(bytes, 8)| % 6) % 6)
  {
    var filled := Stream(bytes, 8) + Zeros((6 - |Stream(bytes, 8)| % 6) % 6);
    WholeDigits(filled);
    Regroup(filled, 6)
  }

  ghost function EncodedBody(bytes: seq<byte>, urlSafe: bool): string {
    var digits := EncodedDigits(bytes);
    seq(|digits|, i requires 0 <= i < |digits| => DigitChar(digits[i], urlSafe))
  }

  ghost function Padding(n: nat): string {
    seq(n, _ => '=')
  }

  /** The encoding of sections 4 and 5 of RFC 4648, in either alphabet, with or
      without padding to a multiple of four characters. */
  ghost function Encode(bytes: seq<byte>, urlSafe: bool, padded: bool): string {
    var body := EncodedBody(bytes, urlSafe);
    if padded then body + Padding((4 - |body| % 4) % 4) else body
  }

  lemma TrimOne(s: string)
    ensures TrimPadding(s + "=") == TrimPadding(s)
  {
    assert (s + "=")[..|s|] == s;
  }

  lemma {:induction false} TrimPaddingDrops(body: string, n: nat)
    requires body == [] || body[|body| - 1] != '='
    ensures TrimPadding(body + Padding(n)) == body
  {
    if n > 0 {
      assert Padding(n) == Padding(n - 1) + "=";
      TrimOne(body + Padding(n - 1));
      assert body + Padding(n) == (body + Padding(n - 1)) + "=";
      TrimPaddingDrops(body, n - 1);
    } else {
      assert body + Padding(n) == body;
    }
  }

  lemma PrefixOf(bits: seq<bool>, rest: seq<bool>)
    ensures bits <= bits + rest && |bits + rest| - |bits| == |rest|
  {
  }

  lemma EncodedBodyIsDigits(bytes: seq<byte>, urlSafe: bool)
    ensures AllDigits(EncodedBody(bytes, urlSafe))
    ensures Digits(EncodedBody(bytes, urlSafe)) == EncodedDigits(bytes)
  {
    var digits, body := EncodedDigits(bytes), EncodedBody(bytes, urlSafe);
    assert forall i | 0 <= i < |body| :: Digit(body[i]) == Some(digits[i]);
  }

  lemma TrimEncoded(bytes: seq<byte>, urlSafe: bool, padded: bool)
    ensures TrimPadding(Encode(bytes, urlSafe, padded)) == EncodedBody(bytes, urlSafe)
  {
    var body := EncodedBody(bytes, urlSafe);
    EncodedBodyIsDigits(bytes, urlSafe);
    assert body != [] ==> body[|body| - 1] in body;
    if padded {
      TrimPaddingDrops(body, (4 - |body| % 4) % 4);
    } else {
      TrimPaddingDrops(body, 0);
      assert body + Padding(0) == body;
    }
  }

  /** Decoding inverts encoding, whichever alphabet and padding were used. */
  lemma DecodeInvertsEncode(bytes: seq<byte>, urlSafe: bool, padded: bool)
    ensures Decoded(Encode(bytes, urlSafe, padded)) == Ok(bytes)
  {
    EncodedBodyIsDigits(bytes, urlSafe);
    TrimEncoded(bytes, urlSafe, padded);
    PrefixOf(Stream(bytes, 8), Zeros((6 - |Stream(bytes, 8)| % 6) % 6));
    DecodedExactly(Encode(bytes, urlSafe, padded), bytes);
  }
}
