/**
 UTF-8 as Python encodes and strictly decodes it. Dafny's `char` is a Unicode scalar value, so
 encoding is total here; a Python string with a lone surrogate is outside the model.
 */
module Utf8 {

  import opened Common

  type Byte = b: int | 0 <= b < 256

  type Bytes = seq<Byte>

  /** The bytes of one character, then `rest`. */
  function EncodeChar(c: char, rest: Bytes): Bytes {
    var n := c as int;
    if n < 0x80 then [n] + rest
    else if n < 0x800 then [0xc0 + n / 64, 0x80 + n % 64] + rest
    else if n < 0x10000 then [0xe0 + n / 64 / 64, 0x80 + n / 64 % 64, 0x80 + n % 64] + rest
    else [0xf0 + n / 64 / 64 / 64, 0x80 + n / 64 / 64 % 64, 0x80 + n / 64 % 64, 0x80 + n % 64] + rest
  }

  function Encode(s: string): Bytes {
    if s == [] then [] else EncodeChar(s[0], Encode(s[1..]))
  }

  predicate IsContinuation(b: Byte) {
    0x80 <= b < 0xc0
  }

  /** The number of bytes a leading byte announces; zero when it cannot lead. */
  function Announced(b: Byte): nat {
    if b < 0x80 then 1
    else if 0xc0 <= b < 0xe0 then 2
    else if 0xe0 <= b < 0xf0 then 3
    else if 0xf0 <= b < 0xf8 then 4
    else 0
  }

  /** The smallest code point that needs this many bytes; anything below it is overlong. */
  function Shortest(length: nat): int {
    if length <= 1 then 0 else if length == 2 then 0x80 else if length == 3 then 0x800 else 0x10000
  }

  /** Appends the six payload bits of a continuation byte. */
  function Extend(high: int, low: int): int {
    high * 64 + (low - 0x80)
  }

  function Less(b: int, lead: int): int {
    b - lead
  }

  function CodePoint(b: Bytes): int
    requires b != [] && Announced(b[0]) > 0 && |b| >= Announced(b[0])
  {
    match Announced(b[0])
    case 1 => b[0]
    case 2 => Extend(Less(b[0], 0xc0), b[1])
    case 3 => Extend(Extend(Less(b[0], 0xe0), b[1]), b[2])
    case _ => Extend(Extend(Extend(Less(b[0], 0xf0), b[1]), b[2]), b[3])
  }

  predicate IsScalar(n: int) {
    0 <= n < 0xd800 || 0xe000 <= n < 0x110000
  }

  /** One character from the left, refusing truncated, overlong and surrogate forms. */
  function DecodeChar(b: Bytes): (r: Option<(char, Bytes)>)
    requires b != []
    ensures r.Some? ==> |r.value.1| < |b|
  {
    var k := Announced(b[0]);
    if k == 0 || |b| < k || !(forall i | 1 <= i < k :: IsContinuation(b[i])) then None
    else
      var n := CodePoint(b);
      if n < Shortest(k) || !IsScalar(n) then None else Some((n as char, b[k..]))
  }

  /** `bytes.decode("utf-8")`; `None` stands for `UnicodeDecodeError`. */
  function Decode(b: Bytes): Option<string>
    decreases |b|
  {
    if b == [] then Some("")
    else match DecodeChar(b)
      case None => None
      case Some((c, rest)) =>
        match Decode(rest)
        case None => None
        case Some(s) => Some([c] + s)
  }

  lemma DecodeCharInverts(c: char, rest: Bytes)
    ensures EncodeChar(c, rest) != [] && DecodeChar(EncodeChar(c, rest)) == Some((c, rest))
  {
    var n := c as int;
    var q := n / 64;
    assert n == q * 64 + n % 64 && q == q / 64 * 64 + q % 64 && q / 64 == q / 64 / 64 * 64 + q / 64 % 64;
    var b := EncodeChar(c, rest);
    assert CodePoint(b) == n;
  }

  lemma {:induction false} DecodeInverts(s: string)
    ensures Decode(Encode(s)) == Some(s)
  {
    if s != [] {
      DecodeCharInverts(s[0], Encode(s[1..]));
      DecodeInverts(s[1..]);
      assert s == [s[0]] + s[1..];
    }
  }

  /** Strictness: only the encoding of a string decodes to it. */
  lemma {:induction false} DecodeStrict(b: Bytes)
    ensures Decode(b).Some? ==> Encode(Decode(b).value) == b
    decreases |b|
  {
    if b != [] && Decode(b).Some? {
      var (c, rest) := DecodeChar(b).value;
      DecodeStrict(rest);
      DecodeCharStrict(b);
      var s := Decode(rest).value;
      assert ([c] + s)[1..] == s;
    }
  }

  lemma ExtendSplits(high: int, low: Byte)
    requires IsContinuation(low)
    ensures Extend(high, low) / 64 == high && 0x80 + Extend(high, low) % 64 == low
  {
  }

  lemma DecodeCharStrict(b: Bytes)
    requires b != [] && DecodeChar(b).Some?
    ensures EncodeChar(DecodeChar(b).value.0, DecodeChar(b).value.1) == b
  {
    var k := Announced(b[0]);
    if k == 2 {
      ExtendSplits(Less(b[0], 0xc0), b[1]);
      assert b == [b[0], b[1]] + b[2..];
    } else if k == 3 {
      assert IsContinuation(b[1]) && IsContinuation(b[2]);
      ExtendSplits(Less(b[0], 0xe0), b[1]);
      ExtendSplits(Extend(Less(b[0], 0xe0), b[1]), b[2]);
      assert b == [b[0], b[1], b[2]] + b[3..];
    } else if k == 4 {
      assert IsContinuation(b[1]) && IsContinuation(b[2]) && IsContinuation(b[3]);
      var h := Extend(Less(b[0], 0xf0), b[1]);
      ExtendSplits(Less(b[0], 0xf0), b[1]);
      ExtendSplits(h, b[2]);
      ExtendSplits(Extend(h, b[2]), b[3]);
      assert b == [b[0], b[1], b[2], b[3]] + b[4..];
    } else {
      assert b == [b[0]] + b[1..];
    }
  }

  lemma EncodeInjective(s: string, t: string)
    ensures Encode(s) == Encode(t) <==> s == t
  {
    DecodeInverts(s);
    DecodeInverts(t);
  }
}
