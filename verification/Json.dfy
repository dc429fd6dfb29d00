/**
 JSON values and the compact, sorted-key text that `json.dumps` prints for them.
 An independent reader of RFC 8259 gives every printed value back, which also makes the printer
 injective.
 */
module Json {

  import opened Common

  // ----- numerals as text -----

  predicate IsDigit(c: char) {
    '0' <= c <= '9'
  }

  /** How many digits a text starts with. */
  function DigitSpan(t: string): (n: nat)
    ensures n <= |t| && AllDigits(t[..n])
  {
    if t == [] || !IsDigit(t[0]) then 0
    else
      assert t[..1 + DigitSpan(t[1..])] == [t[0]] + t[1..][..DigitSpan(t[1..])];
      1 + DigitSpan(t[1..])
  }

  predicate AllDigits(s: string) {
    forall c <- s :: IsDigit(c)
  }

  /** The sign and the integer part of a number, section 6 of RFC 8259: no leading zeros. */
  function IntLength(t: string): (n: nat)
    ensures n <= |t|
  {
    var a := if t != [] && t[0] == '-' then 1 else 0;
    var d := DigitSpan(t[a..]);
    if d == 0 || (d > 1 && t[a] == '0') then 0 else a + d
  }

  function FractionLength(t: string): (n: nat)
    ensures n <= |t|
  {
    if t != [] && t[0] == '.' && DigitSpan(t[1..]) > 0 then 1 + DigitSpan(t[1..]) else 0
  }

  function ExponentLength(t: string): (n: nat)
    ensures n <= |t|
  {
    if t == [] || (t[0] != 'e' && t[0] != 'E') then 0
    else
      var a := if |t| > 1 && (t[1] == '+' || t[1] == '-') then 2 else 1;
      if DigitSpan(t[a..]) > 0 then a + DigitSpan(t[a..]) else 0
  }

  /** How many characters of a text make up the number it starts with; 0 when it starts with none. */
  function NumberLength(t: string): (n: nat)
    ensures n <= |t|
  {
    var i := IntLength(t);
    var f := FractionLength(t[i..]);
    if i == 0 then 0 else i + f + ExponentLength(t[i + f..])
  }

  /** What `float.__repr__` prints: a number with a fraction or an exponent, or one of Python's three names. */
  predicate IsFloatRepr(s: string) {
    s == "NaN" || s == "Infinity" || s == "-Infinity" || (NumberLength(s) == |s| && IntLength(s) < |s|)
  }

  /** Numeric values that Python prints through `float.__repr__` are identified with that text. */
  type FloatRepr = s: string | IsFloatRepr(s) witness "NaN"

  datatype Json =
    | Null
    | Bool(flag: bool)
    | Int(number: int)
    | Float(repr: FloatRepr)
    | Str(text: string)
    | Arr(items: seq<Json>)
    | Obj(fields: map<string, Json>)

  // ----- key order -----

  /** Python's `str` order: code point by code point, a proper prefix first. */
  predicate LexLeq(a: string, b: string) {
    a == [] || (b != [] && (a[0] < b[0] || (a[0] == b[0] && LexLeq(a[1..], b[1..]))))
  }

  lemma {:induction false} LexTotal(a: string, b: string)
    ensures LexLeq(a, b) || LexLeq(b, a)
  {
    if a != [] && b != [] && a[0] == b[0] {
      LexTotal(a[1..], b[1..]);
    }
  }

  lemma {:induction false} LexAntisymmetric(a: string, b: string)
    requires LexLeq(a, b) && LexLeq(b, a)
    ensures a == b
  {
    if a != [] && b != [] {
      LexAntisymmetric(a[1..], b[1..]);
      assert a == [a[0]] + a[1..] && b == [b[0]] + b[1..];
    }
  }

  lemma {:induction false} LexTransitive(a: string, b: string, c: string)
    requires LexLeq(a, b) && LexLeq(b, c)
    ensures LexLeq(a, c)
  {
    if a != [] && a[0] == b[0] && b[0] == c[0] {
      LexTransitive(a[1..], b[1..], c[1..]);
    }
  }

  predicate IsFirstKey(k: string, keys: set<string>) {
    k in keys && forall other <- keys :: LexLeq(k, other)
  }

  lemma {:induction false} FirstKeyExists(keys: set<string>)
    requires keys != {}
    ensures exists k :: IsFirstKey(k, keys)
    decreases |keys|
  {
    var k :| k in keys;
    LexTotal(k, k);
    if keys != {k} {
      var rest := keys - {k};
      assert |rest| < |keys|;
      FirstKeyExists(rest);
      var first :| IsFirstKey(first, rest);
      LexTotal(k, first);
      if LexLeq(k, first) {
        forall other <- keys ensures LexLeq(k, other) {
          if other != k { LexTransitive(k, first, other); }
        }
        assert IsFirstKey(k, keys);
      } else {
        assert IsFirstKey(first, keys);
      }
    } else {
      assert IsFirstKey(k, keys);
    }
  }

  lemma FirstKeyUnique(keys: set<string>)
    ensures forall j, k :: IsFirstKey(j, keys) && IsFirstKey(k, keys) ==> j == k
  {
    forall j, k | IsFirstKey(j, keys) && IsFirstKey(k, keys) ensures j == k {
      LexAntisymmetric(j, k);
    }
  }

  /** `sort_keys=True`: every key once, in Python's string order. */
  function SortedKeys(keys: set<string>): (order: seq<string>)
    ensures (forall k <- order :: k in keys) && (forall k <- keys :: k in order)
    ensures forall i, j :: 0 <= i < j < |order| ==> LexLeq(order[i], order[j]) && order[i] != order[j]
    decreases |keys|
  {
    if keys == {} then []
    else
      FirstKeyExists(keys);
      FirstKeyUnique(keys);
      var first :| IsFirstKey(first, keys);
      [first] + SortedKeys(keys - {first})
  }

  // ----- numerals -----

  function Digit(d: nat): (c: char)
    requires d < 10
    ensures IsDigit(c)
  {
    ('0' as int + d) as char
  }

  function Digits(n: nat): (s: string)
    ensures s != [] && AllDigits(s)
  {
    if n < 10 then [Digit(n)] else Digits(n / 10) + [Digit(n % 10)]
  }

  /** `int.__repr__`. */
  function Decimal(n: int): string {
    if n < 0 then ['-'] + Digits(-n) else Digits(n)
  }

  /** The number a run of decimal digits denotes, read on its own terms. */
  function DigitsValue(s: string): (n: int)
    requires AllDigits(s)
  {
    if s == [] then 0 else DigitsValue(s[..|s| - 1]) * 10 + (s[|s| - 1] as int - '0' as int)
  }

  lemma {:induction false} DigitsDenote(n: nat)
    ensures DigitsValue(Digits(n)) == n
  {
    if n >= 10 {
      var s := Digits(n);
      assert s[..|s| - 1] == Digits(n / 10);
      DigitsDenote(n / 10);
    }
  }

  /** No leading zeros. */
  lemma {:induction false} DigitsLead(n: nat)
    ensures Digits(n)[0] == '0' ==> n == 0 && |Digits(n)| == 1
  {
    if n >= 10 {
      DigitsLead(n / 10);
      assert Digits(n)[0] == Digits(n / 10)[0];
    }
  }

  // ----- string literals -----

  function HexDigit(d: nat): char
    requires d < 16
  {
    if d < 10 then ('0' as int + d) as char else ('a' as int + d - 10) as char
  }

  function HexValue(c: char): Option<nat> {
    if '0' <= c <= '9' then Some(c as int - '0' as int)
    else if 'a' <= c <= 'f' then Some(c as int - 'a' as int + 10)
    else if 'A' <= c <= 'F' then Some(c as int - 'A' as int + 10)
    else None
  }

  /** The number four hexadecimal digits denote. */
  function ParseHex4(a: char, b: char, c: char, d: char): Option<nat> {
    match (HexValue(a), HexValue(b), HexValue(c), HexValue(d))
    case (Some(w), Some(x), Some(y), Some(z)) => Some(((w * 16 + x) * 16 + y) * 16 + z)
    case _ => None
  }

  /** `\uXXXX` in lower-case hexadecimal, then `rest`. */
  function UnicodeEscape(n: nat, rest: string): string
    requires n < 0x10000
  {
    ['\\', 'u', HexDigit(n / 16 / 16 / 16), HexDigit(n / 16 / 16 % 16), HexDigit(n / 16 % 16), HexDigit(n % 16)]
    + rest
  }

  /** The two halves of a surrogate pair. */
  function High(n: nat): (h: nat)
    requires 0x10000 <= n < 0x110000
    ensures 0xd800 <= h < 0xdc00
  {
    0xd800 + (n - 0x10000) / 1024
  }

  function Low(n: nat): (l: nat)
    requires 0x10000 <= n < 0x110000
    ensures 0xdc00 <= l < 0xe000
  {
    0xdc00 + (n - 0x10000) % 1024
  }

  predicate HasShortEscape(c: char) {
    c == '"' || c == '\\' || c as int in {0x08, 0x0c, 0x0a, 0x0d, 0x09}
  }

  function ShortEscape(c: char): char
    requires HasShortEscape(c)
  {
    if c == '"' then '"'
    else if c == '\\' then '\\'
    else if c as int == 0x08 then 'b'
    else if c as int == 0x0c then 'f'
    else if c as int == 0x0a then 'n'
    else if c as int == 0x0d then 'r'
    else 't'
  }

  /**
   One character of a string literal, then `rest`. `ascii` is the `ensure_ascii` flag: when set,
   everything outside space..tilde is written as `\uXXXX`, beyond the basic plane as a surrogate pair.
   */
  function EscapeChar(c: char, ascii: bool, rest: string): string {
    var n := c as int;
    if HasShortEscape(c) then ['\\', ShortEscape(c)] + rest
    else if n < 0x20 || (ascii && 0x7e < n < 0x10000) then UnicodeEscape(n, rest)
    else if ascii && n >= 0x10000 then
      UnicodeEscape(High(n), UnicodeEscape(Low(n), rest))
    else [c] + rest
  }

  /** The characters of a literal and its closing quotation mark, then `rest`. */
  function LiteralTail(s: string, ascii: bool, rest: string): string {
    if s == [] then ['"'] + rest else EscapeChar(s[0], ascii, LiteralTail(s[1..], ascii, rest))
  }

  function Quote(s: string, ascii: bool, rest: string): string {
    ['"'] + LiteralTail(s, ascii, rest)
  }

  /** The number of a `\uXXXX` escape at the start of `t`. */
  function DecodeUnit(t: string): (r: Option<nat>)
    ensures r.Some? ==> |t| >= 6
  {
    if |t| < 6 || t[0] != '\\' || t[1] != 'u' then None else ParseHex4(t[2], t[3], t[4], t[5])
  }

  /** The code point of a `\u` escape (two of them for a surrogate pair), and what follows it. */
  function DecodeUnicode(t: string): (r: Option<(char, string)>)
    ensures r.Some? ==> |r.value.1| < |t|
  {
    match DecodeUnit(t)
    case None => None
    case Some(h) =>
      if 0xd800 <= h < 0xdc00 then
        match DecodeUnit(t[6..])
        case None => None
        case Some(l) =>
          if 0xdc00 <= l < 0xe000 then
            Some((((h - 0xd800) * 1024 + (l - 0xdc00) + 0x10000) as char, t[6..][6..]))
          else None
      else if 0xdc00 <= h < 0xe000 || h >= 0x10000 then None
      else Some((h as char, t[6..]))
  }

  /** Section 7 of RFC 8259, read from the left: one character of a literal and what follows it. */
  function DecodeChar(t: string): (r: Option<(char, string)>)
    requires t != []
    ensures r.Some? ==> |r.value.1| < |t|
  {
    if t[0] != '\\' then
      if t[0] as int < 0x20 || t[0] == '"' then None else Some((t[0], t[1..]))
    else if |t| < 2 then None
    else if t[1] == '"' || t[1] == '\\' || t[1] == '/' then Some((t[1], t[2..]))
    else if t[1] == 'b' then Some((8 as char, t[2..]))
    else if t[1] == 'f' then Some((12 as char, t[2..]))
    else if t[1] == 'n' then Some((10 as char, t[2..]))
    else if t[1] == 'r' then Some((13 as char, t[2..]))
    else if t[1] == 't' then Some((9 as char, t[2..]))
    else DecodeUnicode(t)
  }

  /** Decodes up to and including the closing quotation mark. */
  function DecodeLiteral(t: string): (r: Option<(string, string)>)
    ensures r.Some? ==> |r.value.1| < |t|
    decreases |t|
  {
    if t == [] then None
    else if t[0] == '"' then Some(("", t[1..]))
    else match DecodeChar(t)
      case None => None
      case Some((c, rest)) =>
        match DecodeLiteral(rest)
        case None => None
        case Some((s, after)) => Some(([c] + s, after))
  }

  lemma HexValueInverts(d: nat)
    requires d < 16
    ensures HexValue(HexDigit(d)) == Some(d)
  {
  }

  lemma HexPlaces(n: nat)
    requires n < 0x10000
    ensures n / 16 / 16 / 16 < 16
    ensures ((n / 16 / 16 / 16 * 16 + n / 16 / 16 % 16) * 16 + n / 16 % 16) * 16 + n % 16 == n
  {
    var q := n / 16;
    assert n == q * 16 + n % 16 && q == q / 16 * 16 + q % 16;
  }

  lemma DecodeUnitInverts(n: nat, rest: string)
    requires n < 0x10000
    ensures DecodeUnit(UnicodeEscape(n, rest)) == Some(n) && UnicodeEscape(n, rest)[6..] == rest
  {
    HexPlaces(n);
    HexValueInverts(n / 16 / 16 / 16);
    HexValueInverts(n / 16 / 16 % 16);
    HexValueInverts(n / 16 % 16);
    HexValueInverts(n % 16);
  }

  lemma DecodeShortInverts(c: char, rest: string)
    requires HasShortEscape(c)
    ensures DecodeChar(['\\', ShortEscape(c)] + rest) == Some((c, rest))
  {
    assert (['\\', ShortEscape(c)] + rest)[2..] == rest;
  }

  lemma DecodeUnicodeInverts(n: nat, rest: string)
    requires n < 0xd800 || 0xe000 <= n < 0x10000
    ensures DecodeChar(UnicodeEscape(n, rest)) == Some((n as char, rest))
  {
    DecodeUnitInverts(n, rest);
    assert UnicodeEscape(n, rest)[0] == '\\' && UnicodeEscape(n, rest)[1] == 'u';
  }

  /** What the decoder makes of a high and a low surrogate. */
  lemma DecodePair(t: string, h: nat, l: nat)
    requires DecodeUnit(t) == Some(h) && DecodeUnit(t[6..]) == Some(l)
    requires 0xd800 <= h < 0xdc00 <= l < 0xe000
    ensures DecodeChar(t) == Some((((h - 0xd800) * 1024 + (l - 0xdc00) + 0x10000) as char, t[6..][6..]))
  {
  }

  lemma HalvesJoin(n: nat)
    requires 0x10000 <= n < 0x110000
    ensures (High(n) - 0xd800) * 1024 + (Low(n) - 0xdc00) + 0x10000 == n
  {
  }

  lemma DecodePairInverts(n: nat, rest: string)
    requires 0x10000 <= n < 0x110000
    ensures DecodeChar(UnicodeEscape(High(n), UnicodeEscape(Low(n), rest))) == Some((n as char, rest))
  {
    var h, l := High(n), Low(n);
    DecodeUnitInverts(l, rest);
    DecodeUnitInverts(h, UnicodeEscape(l, rest));
    DecodePair(UnicodeEscape(h, UnicodeEscape(l, rest)), h, l);
    HalvesJoin(n);
  }

  /** No escape looks like the end of a literal. */
  lemma EscapeStart(c: char, ascii: bool, rest: string)
    ensures EscapeChar(c, ascii, rest) != [] && EscapeChar(c, ascii, rest)[0] != '"'
  {
  }

  lemma DecodeCharInverts(c: char, ascii: bool, rest: string)
    ensures EscapeChar(c, ascii, rest) != [] && DecodeChar(EscapeChar(c, ascii, rest)) == Some((c, rest))
  {
    var n := c as int;
    if HasShortEscape(c) {
      DecodeShortInverts(c, rest);
    } else if n < 0x20 || (ascii && 0x7e < n < 0x10000) {
      DecodeUnicodeInverts(n, rest);
    } else if ascii && n >= 0x10000 {
      DecodePairInverts(n, rest);
    }
  }

  /** Reading a printed literal gives back the string, and stops exactly at its end. */
  lemma {:induction false} DecodeLiteralInverts(s: string, ascii: bool, rest: string)
    ensures DecodeLiteral(LiteralTail(s, ascii, rest)) == Some((s, rest))
  {
    if s != [] {
      EscapeStart(s[0], ascii, LiteralTail(s[1..], ascii, rest));
      DecodeCharInverts(s[0], ascii, LiteralTail(s[1..], ascii, rest));
      DecodeLiteralInverts(s[1..], ascii, rest);
      assert s == [s[0]] + s[1..];
    }
  }

  /** Literals are prefix-free: each is decoded without looking at what follows it. */
  lemma QuoteUnique(s: string, t: string, ascii: bool, x: string, y: string)
    requires Quote(s, ascii, x) == Quote(t, ascii, y)
    ensures s == t && x == y
  {
    assert Quote(s, ascii, x)[1..] == LiteralTail(s, ascii, x);
    assert Quote(t, ascii, y)[1..] == LiteralTail(t, ascii, y);
    DecodeLiteralInverts(s, ascii, x);
    DecodeLiteralInverts(t, ascii, y);
  }

  // ----- values -----

  predicate IsToken(v: Json) {
    v.Null? || v.Bool? || v.Int? || v.Float?
  }

  function Token(v: Json): string
    requires IsToken(v)
  {
    match v
    case Null => "null"
    case Bool(flag) => if flag then "true" else "false"
    case Int(number) => Decimal(number)
    case Float(repr) => repr
  }

  /** The text of `v`, then `rest`. */
  function Print(v: Json, ascii: bool, rest: string): string
    decreases v
  {
    match v
    case Str(text) => Quote(text, ascii, rest)
    case Arr(items) =>
      ['['] + if items == [] then [']'] + rest else Print(items[0], ascii, PrintRest(items[1..], ascii, rest))
    case Obj(fields) =>
      ['{'] + PrintFields(v, SortedKeys(fields.Keys), ascii, rest)
    case _ => Token(v) + rest
  }

  /** The array elements after the first. */
  function PrintRest(items: seq<Json>, ascii: bool, rest: string): string
    decreases items
  {
    if items == [] then [']'] + rest
    else [','] + Print(items[0], ascii, PrintRest(items[1..], ascii, rest))
  }

  /** All members and the closing bracket. */
  function PrintFields(v: Json, keys: seq<string>, ascii: bool, rest: string): string
    requires v.Obj? && forall k <- keys :: k in v.fields
    decreases v, |keys|, 1
  {
    if keys == [] then ['}'] + rest else PrintMember(v, keys, ascii, rest)
  }

  /** The member of `keys[0]` and of every later key. */
  function PrintMember(v: Json, keys: seq<string>, ascii: bool, rest: string): string
    requires v.Obj? && keys != [] && forall k <- keys :: k in v.fields
    decreases v, |keys|, 0
  {
    Quote(keys[0], ascii, [':'] + Print(v.fields[keys[0]], ascii, PrintMembers(v, keys[1..], ascii, rest)))
  }

  function PrintMembers(v: Json, keys: seq<string>, ascii: bool, rest: string): string
    requires v.Obj? && forall k <- keys :: k in v.fields
    decreases v, |keys|, 1
  {
    if keys == [] then ['}'] + rest else [','] + PrintMember(v, keys, ascii, rest)
  }

  /** `json.dumps(value, ensure_ascii=ascii, sort_keys=True, separators=(",", ":"))`. */
  function Dumps(v: Json, ascii: bool): string {
    Print(v, ascii, "")
  }

  // ----- an independent reader -----

  /** What follows `name`, if the text starts with it. */
  function After(t: string, name: string): (r: Option<string>)
    requires name != []
    ensures r.Some? ==> |r.value| < |t|
  {
    if |name| <= |t| && t[..|name|] == name then Some(t[|name|..]) else None
  }

  function IntegerValue(s: string): int {
    if s != [] && s[0] == '-' then if AllDigits(s[1..]) then -DigitsValue(s[1..]) else 0
    else if AllDigits(s) then DigitsValue(s) else 0
  }

  /** Section 6 of RFC 8259. */
  function ReadNumber(t: string): (r: Option<(Json, string)>)
    ensures r.Some? ==> |r.value.1| < |t|
  {
    var n := NumberLength(t);
    if n == 0 then None
    else if IntLength(t) == n then Some((Int(IntegerValue(t[..n])), t[n..]))
    else if IsFloatRepr(t[..n]) then Some((Float(t[..n]), t[n..]))
    else None
  }

  /** The names of section 3 of RFC 8259, and the three that Python adds. */
  function ReadToken(t: string): (r: Option<(Json, string)>)
    ensures r.Some? ==> |r.value.1| < |t|
  {
    if After(t, "null").Some? then Some((Null, After(t, "null").value))
    else if After(t, "true").Some? then Some((Bool(true), After(t, "true").value))
    else if After(t, "false").Some? then Some((Bool(false), After(t, "false").value))
    else if After(t, "NaN").Some? then Some((Float("NaN"), After(t, "NaN").value))
    else if After(t, "Infinity").Some? then Some((Float("Infinity"), After(t, "Infinity").value))
    else if After(t, "-Infinity").Some? then Some((Float("-Infinity"), After(t, "-Infinity").value))
    else ReadNumber(t)
  }

  /**
   A value of RFC 8259 at the start of a text, and what follows it. White space between tokens is
   not accepted, and the names in an object have to come in strictly increasing order.
   */
  function ReadValue(t: string): (r: Option<(Json, string)>)
    ensures r.Some? ==> |r.value.1| < |t|
    decreases |t|, 1
  {
    if t == [] then None
    else if t[0] == '"' then
      match DecodeLiteral(t[1..])
      case None => None
      case Some((text, rest)) => Some((Str(text), rest))
    else if t[0] == '[' then
      if |t| > 1 && t[1] == ']' then Some((Arr([]), t[2..]))
      else match ReadItems(t[1..])
        case None => None
        case Some((items, rest)) => Some((Arr(items), rest))
    else if t[0] == '{' then ReadObject(t[1..])
    else ReadToken(t)
  }

  /** What comes after an opening brace. */
  function ReadObject(t: string): (r: Option<(Json, string)>)
    ensures r.Some? ==> |r.value.1| < |t|
    decreases |t|, 3
  {
    if t != [] && t[0] == '}' then Some((Obj(map[]), t[1..]))
    else match ReadMembers(t, None)
      case None => None
      case Some((fields, rest)) => Some((Obj(fields), rest))
  }

  /** One element or more, and the closing bracket. */
  function ReadItems(t: string): (r: Option<(seq<Json>, string)>)
    ensures r.Some? ==> |r.value.1| < |t|
    decreases |t|, 2
  {
    match ReadValue(t)
    case None => None
    case Some((item, rest)) =>
      if rest == [] then None
      else if rest[0] == ']' then Some(([item], rest[1..]))
      else if rest[0] == ',' then
        match ReadItems(rest[1..])
        case None => None
        case Some((items, end)) => Some(([item] + items, end))
      else None
  }

  predicate Follows(name: string, last: Option<string>) {
    last.None? || (LexLeq(last.value, name) && last.value != name)
  }

  /** One member or more, with names after `last`, and the closing bracket. */
  function ReadMembers(t: string, last: Option<string>): (r: Option<(map<string, Json>, string)>)
    ensures r.Some? ==> |r.value.1| < |t|
    decreases |t|, 2
  {
    if t == [] || t[0] != '"' then None
    else
      match DecodeLiteral(t[1..])
      case None => None
      case Some((name, rest)) =>
        if rest == [] || rest[0] != ':' || !Follows(name, last) then None
        else
          match ReadValue(rest[1..])
          case None => None
          case Some((value, more)) =>
            if more == [] then None
            else if more[0] == '}' then Some((map[name := value], more[1..]))
            else if more[0] == ',' then
              match ReadMembers(more[1..], Some(name))
              case None => None
              case Some((fields, end)) => Some((fields[name := value], end))
            else None
  }

  /** A whole text. */
  function Parse(t: string): Option<Json> {
    match ReadValue(t)
    case None => None
    case Some((v, rest)) => if rest == [] then Some(v) else None
  }

  /** The value that a JSON object text gives a name. */
  function Field(text: string, name: string): Option<Json> {
    match Parse(text)
    case Some(Obj(fields)) => if name in fields then Some(fields[name]) else None
    case _ => None
  }

  // ----- the reader inverts the printer -----

  /** What can follow a value inside a document: nothing, a separator or a closing bracket. */
  predicate Stops(x: string) {
    x == [] || x[0] == ',' || x[0] == ']' || x[0] == '}'
  }

  lemma {:induction false} DigitSpanStops(s: string, x: string)
    requires x == [] || !IsDigit(x[0])
    ensures DigitSpan(s + x) == DigitSpan(s)
  {
    if s == [] {
      assert s + x == x;
    } else {
      DigitSpanStops(s[1..], x);
      assert (s + x)[1..] == s[1..] + x;
    }
  }

  lemma {:induction false} DigitSpanAll(s: string)
    requires AllDigits(s)
    ensures DigitSpan(s) == |s|
  {
    if s != [] {
      assert s[0] in s;
      DigitSpanAll(s[1..]);
    }
  }

  lemma IntLengthStops(s: string, x: string)
    requires Stops(x) && s != []
    ensures IntLength(s + x) == IntLength(s)
  {
    var a := if s[0] == '-' then 1 else 0;
    assert (s + x)[a..] == s[a..] + x;
    DigitSpanStops(s[a..], x);
  }

  lemma FractionLengthStops(s: string, x: string)
    requires Stops(x)
    ensures FractionLength(s + x) == FractionLength(s)
  {
    if s == [] {
      assert s + x == x;
    } else {
      assert (s + x)[1..] == s[1..] + x;
      DigitSpanStops(s[1..], x);
    }
  }

  lemma ExponentLengthStops(s: string, x: string)
    requires Stops(x)
    ensures ExponentLength(s + x) == ExponentLength(s)
  {
    if s == [] {
      assert s + x == x;
    } else {
      var a := if |s| > 1 && (s[1] == '+' || s[1] == '-') then 2 else 1;
      assert (s + x)[a..] == s[a..] + x;
      DigitSpanStops(s[a..], x);
    }
  }

  /** A number ends where it ends, whatever a document may have after it. */
  lemma NumberLengthStops(s: string, x: string)
    requires Stops(x) && s != []
    ensures NumberLength(s + x) == NumberLength(s)
  {
    var i := IntLength(s);
    IntLengthStops(s, x);
    assert (s + x)[i..] == s[i..] + x;
    FractionLengthStops(s[i..], x);
    var f := FractionLength(s[i..]);
    assert (s + x)[i + f..] == s[i + f..] + x;
    ExponentLengthStops(s[i + f..], x);
  }

  lemma DecimalReads(n: int)
    ensures var s := Decimal(n);
            s != [] && IntLength(s) == |s| == NumberLength(s) && IntegerValue(s) == n && (IsDigit(s[0]) || (s[0] == '-' && |s| > 1 && IsDigit(s[1])))
  {
    var m: nat := if n < 0 then -n else n;
    var s, d := Decimal(n), Digits(m);
    DigitsDenote(m);
    DigitsLead(m);
    DigitSpanAll(d);
    assert d[0] in d;
    if n < 0 {
      assert s[1..] == d && s[1] == d[0];
    } else {
      assert s[0..] == d;
    }
    assert s[|s|..] == [];
  }

  /** A number cannot be taken for a name. */
  lemma NumberIsNoName(t: string)
    requires t != [] && (IsDigit(t[0]) || (t[0] == '-' && |t| > 1 && IsDigit(t[1])))
    ensures ReadToken(t) == ReadNumber(t)
  {
    assert "null"[0] == 'n' && "true"[0] == 't' && "false"[0] == 'f' && "NaN"[0] == 'N' && "Infinity"[0] == 'I' && "-Infinity"[1] == 'I';
    NoName(t, "null", 0);
    NoName(t, "true", 0);
    NoName(t, "false", 0);
    NoName(t, "NaN", 0);
    NoName(t, "Infinity", 0);
    if t[0] == '-' {
      NoName(t, "-Infinity", 1);
    } else {
      NoName(t, "-Infinity", 0);
    }
  }

  lemma NoName(t: string, name: string, i: nat)
    requires i < |name| && i < |t| && t[i] != name[i]
    ensures After(t, name).None?
  {
    if |name| <= |t| {
      assert t[..|name|][i] == t[i];
    }
  }

  lemma ReadNumberInverts(s: string, x: string)
    requires Stops(x) && s != [] && NumberLength(s) == |s|
    ensures ReadNumber(s + x)
         == if IntLength(s) == |s| then Some((Int(IntegerValue(s)), x)) else if IsFloatRepr(s) then Some((Float(s), x)) else None
  {
    NumberLengthStops(s, x);
    IntLengthStops(s, x);
    assert (s + x)[..|s|] == s && (s + x)[|s|..] == x;
  }

  lemma NameReads(name: string, x: string)
    requires name != []
    ensures After(name + x, name) == Some(x)
  {
    assert (name + x)[..|name|] == name && (name + x)[|name|..] == x;
  }

  /** How a number starts. */
  lemma NumberStarts(s: string)
    requires IntLength(s) > 0
    ensures IsDigit(s[0]) || (s[0] == '-' && |s| > 1 && IsDigit(s[1]))
  {
    if s[0] == '-' {
      assert s[1..] != [] && s[1..][0] == s[1];
    } else {
      assert s[0..] == s;
    }
  }

  lemma ReadNumeralInverts(s: string, x: string)
    requires Stops(x) && s != [] && NumberLength(s) == |s|
    ensures ReadToken(s + x) == ReadNumber(s + x)
    ensures (s + x)[0] !in {'"', '[', '{', ']'}
  {
    NumberStarts(s);
    assert (s + x)[0] == s[0] && (|s| > 1 ==> (s + x)[1] == s[1]);
    NumberIsNoName(s + x);
  }

  lemma ReadNameInverts(v: Json, x: string)
    requires v.Null? || v.Bool? || (v.Float? && v.repr in ["NaN", "Infinity", "-Infinity"])
    ensures ReadToken(Token(v) + x) == Some((v, x))
  {
    var t := Token(v) + x;
    NameReads(Token(v), x);
    assert "null"[0] == 'n' && "true"[0] == 't' && "false"[0] == 'f' && "NaN"[0] == 'N' && "Infinity"[0] == 'I' && "-Infinity"[0] == '-';
    assert t[0] == Token(v)[0];
    if t[0] != 'n' { NoName(t, "null", 0); }
    if t[0] != 't' { NoName(t, "true", 0); }
    if t[0] != 'f' { NoName(t, "false", 0); }
    if t[0] != 'N' { NoName(t, "NaN", 0); }
    if t[0] != 'I' { NoName(t, "Infinity", 0); }
    if t[0] != '-' { NoName(t, "-Infinity", 0); }
  }

  lemma ReadIntInverts(n: int, x: string)
    requires Stops(x)
    ensures Decimal(n) != [] && ReadToken(Decimal(n) + x) == Some((Int(n), x))
    ensures StartsToken(Decimal(n) + x)
  {
    DecimalReads(n);
    ReadNumberInverts(Decimal(n), x);
    ReadNumeralInverts(Decimal(n), x);
  }

  lemma ReadFloatInverts(repr: FloatRepr, x: string)
    requires Stops(x) && repr !in ["NaN", "Infinity", "-Infinity"]
    ensures repr != [] && ReadToken(repr + x) == Some((Float(repr), x)) && StartsToken(repr + x)
  {
    assert repr != "NaN" && repr != "Infinity" && repr != "-Infinity";
    ReadNumberInverts(repr, x);
    ReadNumeralInverts(repr, x);
  }

  predicate StartsToken(t: string) {
    t != [] && t[0] !in {'"', '[', '{', ']'}
  }

  lemma NameStarts(v: Json, x: string)
    requires v.Null? || v.Bool? || (v.Float? && v.repr in ["NaN", "Infinity", "-Infinity"])
    ensures Token(v) != [] && StartsToken(Token(v) + x)
  {
    assert "null"[0] == 'n' && "true"[0] == 't' && "false"[0] == 'f' && "NaN"[0] == 'N' && "Infinity"[0] == 'I' && "-Infinity"[0] == '-';
  }

  lemma ReadTokenInverts(v: Json, x: string)
    requires IsToken(v) && Stops(x)
    ensures Token(v) != [] && ReadToken(Token(v) + x) == Some((v, x)) && StartsToken(Token(v) + x)
  {
    if v.Int? {
      ReadIntInverts(v.number, x);
    } else if v.Float? && v.repr !in ["NaN", "Infinity", "-Infinity"] {
      ReadFloatInverts(v.repr, x);
    } else {
      ReadNameInverts(v, x);
      NameStarts(v, x);
    }
  }

  /** The first character tells which kind of value follows. */
  lemma PrintStart(v: Json, ascii: bool, x: string)
    requires Stops(x)
    ensures var p := Print(v, ascii, x);
            p != [] && p[0] != ']' && (v.Str? <==> p[0] == '"') && (v.Arr? <==> p[0] == '[') && (v.Obj? <==> p[0] == '{')
  {
    if IsToken(v) {
      ReadTokenInverts(v, x);
    }
  }

  /** The reader gives a printed value back, and stops exactly at its end. */
  lemma {:induction false} ReadInverts(v: Json, ascii: bool, x: string)
    requires Stops(x)
    ensures ReadValue(Print(v, ascii, x)) == Some((v, x))
    decreases v
  {
    PrintStart(v, ascii, x);
    var p := Print(v, ascii, x);
    if v.Str? {
      assert p[1..] == LiteralTail(v.text, ascii, x);
      DecodeLiteralInverts(v.text, ascii, x);
    } else if v.Arr? {
      ReadArrayInverts(v, ascii, x);
    } else if v.Obj? {
      ReadObjectInverts(v, ascii, x);
    } else {
      ReadTokenInverts(v, x);
    }
  }

  lemma {:induction false} ReadArrayInverts(v: Json, ascii: bool, x: string)
    requires v.Arr? && Stops(x)
    ensures ReadValue(Print(v, ascii, x)) == Some((v, x))
    decreases v, 0
  {
    var p := Print(v, ascii, x);
    if v.items == [] {
      assert p[1] == ']' && p[2..] == x;
    } else {
      var more := PrintRest(v.items[1..], ascii, x);
      assert Stops(more);
      assert p[1..] == Print(v.items[0], ascii, more);
      PrintStart(v.items[0], ascii, more);
      ReadItemsInverts(v.items, ascii, x);
    }
  }

  lemma {:induction false} ReadItemsInverts(items: seq<Json>, ascii: bool, x: string)
    requires items != [] && Stops(x)
    ensures ReadItems(Print(items[0], ascii, PrintRest(items[1..], ascii, x))) == Some((items, x))
    decreases items
  {
    var rest := items[1..];
    var more := PrintRest(rest, ascii, x);
    ReadInverts(items[0], ascii, more);
    if rest == [] {
      assert more[1..] == x && items == [items[0]];
    } else {
      assert more[1..] == Print(rest[0], ascii, PrintRest(rest[1..], ascii, x));
      ReadItemsInverts(rest, ascii, x);
      assert items == [items[0]] + rest;
    }
  }

  /** The members that a part of the keys selects. */
  function Selected(fields: map<string, Json>, keys: seq<string>): map<string, Json> {
    map k | k in keys && k in fields :: fields[k]
  }

  lemma ReadObjectOf(p: string, fields: map<string, Json>, x: string)
    requires p != [] && p[0] == '"' && ReadMembers(p, None) == Some((fields, x))
    ensures ReadObject(p) == Some((Obj(fields), x))
  {
  }

  lemma ReadBraced(p: string)
    requires p != [] && p[0] == '{'
    ensures ReadValue(p) == ReadObject(p[1..])
  {
  }

  lemma SelectedAll(fields: map<string, Json>, keys: seq<string>)
    requires forall k <- fields :: k in keys
    ensures Selected(fields, keys) == fields
  {
  }

  lemma {:induction false} ReadObjectInverts(v: Json, ascii: bool, x: string)
    requires v.Obj? && Stops(x)
    ensures ReadValue(Print(v, ascii, x)) == Some((v, x))
    decreases v, 0
  {
    var keys := SortedKeys(v.fields.Keys);
    var p := Print(v, ascii, x);
    var members := PrintFields(v, keys, ascii, x);
    assert p == ['{'] + members && p[1..] == members;
    SelectedAll(v.fields, keys);
    ReadBraced(p);
    if keys == [] {
      assert members == ['}'] + x && (['}'] + x)[1..] == x && v.fields == map[];
    } else {
      ReadMembersInverts(v, keys, ascii, x, None);
      ReadObjectOf(members, v.fields, x);
    }
  }

  ghost predicate AreIncreasing(keys: seq<string>) {
    forall i, j | 0 <= i < j < |keys| :: LexLeq(keys[i], keys[j]) && keys[i] != keys[j]
  }

  /** One turn of the reader's recursion over members. */
  lemma ReadOneMember(t: string, last: Option<string>, name: string, rest: string, value: Json, more: string)
    requires t != [] && t[0] == '"' && DecodeLiteral(t[1..]) == Some((name, rest)) && Follows(name, last)
    requires rest != [] && rest[0] == ':' && ReadValue(rest[1..]) == Some((value, more)) && more != []
    ensures more[0] == '}' ==> ReadMembers(t, last) == Some((map[name := value], more[1..]))
    ensures more[0] == ',' && ReadMembers(more[1..], Some(name)).Some? ==>
              var (fields, end) := ReadMembers(more[1..], Some(name)).value;
              ReadMembers(t, last) == Some((fields[name := value], end))
  {
  }

  lemma SelectedFirst(fields: map<string, Json>, keys: seq<string>)
    requires keys != [] && keys[0] in fields
    ensures Selected(fields, keys) == Selected(fields, keys[1..])[keys[0] := fields[keys[0]]]
  {
    assert keys == [keys[0]] + keys[1..];
  }

  /** How a member's text is made up. */
  lemma MemberParts(v: Json, keys: seq<string>, ascii: bool, x: string)
    requires v.Obj? && keys != [] && forall k <- keys :: k in v.fields
    ensures var t := PrintMember(v, keys, ascii, x);
            var rest := [':'] + Print(v.fields[keys[0]], ascii, PrintMembers(v, keys[1..], ascii, x));
            t != [] && t[0] == '"' && DecodeLiteral(t[1..]) == Some((keys[0], rest))
            && rest[1..] == Print(v.fields[keys[0]], ascii, PrintMembers(v, keys[1..], ascii, x))
  {
    var rest := [':'] + Print(v.fields[keys[0]], ascii, PrintMembers(v, keys[1..], ascii, x));
    assert PrintMember(v, keys, ascii, x)[1..] == LiteralTail(keys[0], ascii, rest);
    DecodeLiteralInverts(keys[0], ascii, rest);
  }

  lemma {:induction false} ReadMembersInverts(v: Json, keys: seq<string>, ascii: bool, x: string, last: Option<string>)
    requires v.Obj? && Stops(x) && keys != [] && AreIncreasing(keys) && (forall k <- keys :: k in v.fields) && Follows(keys[0], last)
    ensures ReadMembers(PrintMember(v, keys, ascii, x), last) == Some((Selected(v.fields, keys), x))
    decreases v, 0, |keys|
  {
    var name, others := keys[0], keys[1..];
    var more := PrintMembers(v, others, ascii, x);
    MemberParts(v, keys, ascii, x);
    ReadInverts(v.fields[name], ascii, more);
    ReadOneMember(PrintMember(v, keys, ascii, x), last, name, [':'] + Print(v.fields[name], ascii, more), v.fields[name], more);
    SelectedFirst(v.fields, keys);
    if others == [] {
      assert more[1..] == x && Selected(v.fields, others) == map[];
    } else {
      assert more[1..] == PrintMember(v, others, ascii, x);
      assert others[0] == keys[1];
      ReadMembersInverts(v, others, ascii, x, Some(name));
    }
  }

  /** Reading what was printed gives the value back, and its names come in strictly increasing order. */
  lemma ParseInverts(v: Json, ascii: bool)
    ensures Parse(Dumps(v, ascii)) == Some(v)
  {
    ReadInverts(v, ascii, "");
  }

  /** So a printed value ends where its own text says it ends. */
  lemma PrintUnique(a: Json, b: Json, ascii: bool, x: string, y: string)
    requires Print(a, ascii, x) == Print(b, ascii, y) && Stops(x) && Stops(y)
    ensures a == b && x == y
  {
    ReadInverts(a, ascii, x);
    ReadInverts(b, ascii, y);
  }

  /** Two string-keyed JSON values print alike exactly when they are equal. */
  lemma DumpsInjective(a: Json, b: Json, ascii: bool)
    ensures Dumps(a, ascii) == Dumps(b, ascii) <==> a == b
  {
    ParseInverts(a, ascii);
    ParseInverts(b, ascii);
  }

  // ----- the characters of the text -----

  predicate IsAscii(t: string) {
    forall c <- t :: 0x20 <= c as int <= 0x7e
  }

  lemma EscapeIsAscii(c: char, rest: string)
    requires IsAscii(rest)
    ensures IsAscii(EscapeChar(c, true, rest))
  {
  }

  lemma {:induction false} LiteralIsAscii(s: string, rest: string)
    requires IsAscii(rest)
    ensures IsAscii(LiteralTail(s, true, rest))
  {
    if s != [] {
      LiteralIsAscii(s[1..], rest);
      EscapeIsAscii(s[0], LiteralTail(s[1..], true, rest));
    }
  }

  lemma {:induction false} DigitSpanIsAscii(t: string)
    ensures IsAscii(t[..DigitSpan(t)])
  {
    assert forall c <- t[..DigitSpan(t)] :: IsDigit(c);
  }

  lemma SignedIsAscii(t: string, a: nat)
    requires a <= |t| && IsAscii(t[..a])
    ensures IsAscii(t[..a + DigitSpan(t[a..])])
  {
    DigitSpanIsAscii(t[a..]);
    assert t[..a + DigitSpan(t[a..])] == t[..a] + t[a..][..DigitSpan(t[a..])];
  }

  lemma IntIsAscii(t: string)
    ensures IsAscii(t[..IntLength(t)])
  {
    SignedIsAscii(t, if t != [] && t[0] == '-' then 1 else 0);
  }

  lemma FractionIsAscii(t: string)
    ensures IsAscii(t[..FractionLength(t)])
  {
    if FractionLength(t) > 0 {
      SignedIsAscii(t, 1);
    }
  }

  lemma ExponentIsAscii(t: string)
    ensures IsAscii(t[..ExponentLength(t)])
  {
    if ExponentLength(t) > 0 {
      SignedIsAscii(t, if |t| > 1 && (t[1] == '+' || t[1] == '-') then 2 else 1);
    }
  }

  lemma AsciiFurther(t: string, i: nat, n: nat)
    requires i + n <= |t| && IsAscii(t[..i]) && IsAscii(t[i..][..n])
    ensures IsAscii(t[..i + n])
  {
    assert t[..i + n] == t[..i] + t[i..][..n];
  }

  lemma NumberIsAscii(t: string)
    ensures IsAscii(t[..NumberLength(t)])
  {
    var i := IntLength(t);
    if i > 0 {
      IntIsAscii(t);
      var f := FractionLength(t[i..]);
      FractionIsAscii(t[i..]);
      AsciiFurther(t, i, f);
      ExponentIsAscii(t[i + f..]);
      AsciiFurther(t, i + f, ExponentLength(t[i + f..]));
    }
  }

  lemma WholeNumberIsAscii(t: string)
    requires NumberLength(t) == |t|
    ensures IsAscii(t)
  {
    NumberIsAscii(t);
    assert t[..|t|] == t;
  }

  lemma NameIsAscii(v: Json)
    requires v.Null? || v.Bool? || (v.Float? && v.repr in ["NaN", "Infinity", "-Infinity"])
    ensures IsAscii(Token(v))
  {
    LongNameIsAscii();
  }

  lemma LongNameIsAscii()
    ensures IsAscii("Infinity") && IsAscii("-Infinity")
  {
    assert "-Infinity" == ['-'] + "Infinity";
  }

  lemma TokenIsAscii(v: Json)
    requires IsToken(v)
    ensures IsAscii(Token(v))
  {
    if v.Int? {
      DecimalReads(v.number);
      WholeNumberIsAscii(Decimal(v.number));
    } else if v.Float? && v.repr !in ["NaN", "Infinity", "-Infinity"] {
      assert v.repr != "NaN" && v.repr != "Infinity" && v.repr != "-Infinity";
      WholeNumberIsAscii(v.repr);
    } else {
      NameIsAscii(v);
    }
  }

  lemma {:induction false} PrintIsAscii(v: Json, rest: string)
    requires IsAscii(rest)
    ensures IsAscii(Print(v, true, rest))
    decreases v
  {
    match v
    case Str(text) => LiteralIsAscii(text, rest);
    case Arr(items) =>
      if items != [] {
        RestIsAscii(items[1..], rest);
        PrintIsAscii(items[0], PrintRest(items[1..], true, rest));
      }
    case Obj(fields) =>
      var keys := SortedKeys(fields.Keys);
      if keys != [] {
        MemberIsAscii(v, keys, rest);
      }
    case _ => TokenIsAscii(v);
  }

  lemma {:induction false} RestIsAscii(items: seq<Json>, rest: string)
    requires IsAscii(rest)
    ensures IsAscii(PrintRest(items, true, rest))
    decreases items
  {
    if items != [] {
      RestIsAscii(items[1..], rest);
      PrintIsAscii(items[0], PrintRest(items[1..], true, rest));
    }
  }

  lemma {:induction false} MemberIsAscii(v: Json, keys: seq<string>, rest: string)
    requires v.Obj? && keys != [] && (forall k <- keys :: k in v.fields) && IsAscii(rest)
    ensures IsAscii(PrintMember(v, keys, true, rest))
    decreases v, 0, |keys|
  {
    var more := PrintMembers(v, keys[1..], true, rest);
    if keys[1..] != [] {
      MemberIsAscii(v, keys[1..], rest);
    }
    PrintIsAscii(v.fields[keys[0]], more);
    LiteralIsAscii(keys[0], [':'] + Print(v.fields[keys[0]], true, more));
  }

  predicate IsPlainText(s: string) {
    forall c <- s :: c as int >= 0x20 && c != '"' && c != '\\'
  }

  lemma {:induction false} PlainLiteral(s: string, rest: string)
    requires IsPlainText(s)
    ensures LiteralTail(s, false, rest) == s + ['"'] + rest
  {
    if s != [] {
      assert forall c <- s[1..] :: c in s;
      PlainLiteral(s[1..], rest);
      assert s == [s[0]] + s[1..] && s[0] in s;
    }
  }

  /**
   What the flag decides: with `ensure_ascii` every character of the text is a printable ASCII
   one; without it, text that needs no escape is printed as it is.
   */
  lemma AsciiFlag(v: Json, s: string)
    ensures IsAscii(Dumps(v, true))
    ensures IsPlainText(s) ==> Dumps(Str(s), false) == ['"'] + s + ['"']
  {
    PrintIsAscii(v, "");
    if IsPlainText(s) {
      PlainLiteral(s, "");
    }
  }
}
