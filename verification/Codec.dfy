/** The text codecs behind cursors and global ids: UTF-8, base64 and decimal integers. */
module Codec {
  import opened Ast

  type Byte = x: int | 0 <= x < 256

  // ----- base64 ------------------------------------------------------------------------------

  type Sextet = x: int | 0 <= x < 64

  function Digit(x: Sextet): char {
    if x < 26 then (x + 'A' as int) as char
    else if x < 52 then (x - 26 + 'a' as int) as char
    else if x < 62 then (x - 52 + '0' as int) as char
    else if x == 62 then '+' else '/'
  }

  function Value(c: char): Option<Sextet> {
    if 'A' <= c <= 'Z' then Some(c as int - 'A' as int)
    else if 'a' <= c <= 'z' then Some(c as int - 'a' as int + 26)
    else if '0' <= c <= '9' then Some(c as int - '0' as int + 52)
    else if c == '+' then Some(62) else if c == '/' then Some(63) else None
  }

  lemma DigitValue(x: Sextet)
    ensures Value(Digit(x)) == Some(x) && Digit(x) != '='
  {
  }

  function Four(a: Byte, b: Byte, c: Byte): (r: (Sextet, Sextet, Sextet, Sextet)) {
    (a / 4, a % 4 * 16 + b / 16, b % 16 * 4 + c / 64, c % 64)
  }

  function Three(w: Sextet, x: Sextet, y: Sextet, z: Sextet): (Byte, Byte, Byte) {
    (w * 4 + x / 16, x % 16 * 16 + y / 4, y % 4 * 64 + z)
  }

  lemma ThreeOfFour(a: Byte, b: Byte, c: Byte)
    ensures var (w, x, y, z) := Four(a, b, c); Three(w, x, y, z) == (a, b, c)
  {
  }

  /** `base64.b64encode`. */
  function Encode(bytes: seq<Byte>): string {
    if bytes == [] then ""
    else if |bytes| == 1 then
      var (w, x, _, _) := Four(bytes[0], 0, 0);
      [Digit(w), Digit(x), '=', '=']
    else if |bytes| == 2 then
      var (w, x, y, _) := Four(bytes[0], bytes[1], 0);
      [Digit(w), Digit(x), Digit(y), '=']
    else
      var (w, x, y, z) := Four(bytes[0], bytes[1], bytes[2]);
      [Digit(w), Digit(x), Digit(y), Digit(z)] + Encode(bytes[3..])
  }

  /** `base64.b64decode(text, validate=True)`; nothing stands for the raised error. */
  function Decode(text: string): Option<seq<Byte>> {
    if text == "" then Some([])
    else if |text| < 4 then None
    else
      var w :- Value(text[0]);
      var x :- Value(text[1]);
      if |text| == 4 && text[2] == '=' && text[3] == '=' then Some([Three(w, x, 0, 0).0])
      else
        var y :- Value(text[2]);
        if |text| == 4 && text[3] == '=' then Some([Three(w, x, y, 0).0, Three(w, x, y, 0).1])
        else
          var z :- Value(text[3]);
          var rest :- Decode(text[4..]);
          var (a, b, c) := Three(w, x, y, z);
          Some([a, b, c] + rest)
  }

  lemma {:induction false} DecodesEncoded(bytes: seq<Byte>)
    ensures Decode(Encode(bytes)) == Some(bytes)
  {
    if bytes == [] {
    } else if |bytes| == 1 {
      OneByte(bytes[0]);
      assert bytes == [bytes[0]];
    } else if |bytes| == 2 {
      TwoBytes(bytes[0], bytes[1]);
      assert bytes == [bytes[0], bytes[1]];
    } else {
      ThreeBytes(bytes[0], bytes[1], bytes[2], Encode(bytes[3..]));
      DecodesEncoded(bytes[3..]);
      assert bytes == [bytes[0], bytes[1], bytes[2]] + bytes[3..];
    }
  }

  lemma OneByte(a: Byte)
    ensures Decode(Encode([a])) == Some([a])
  {
    var (w, x, _, _) := Four(a, 0, 0);
    DigitValue(w);
    DigitValue(x);
  }

  lemma TwoBytes(a: Byte, b: Byte)
    ensures Decode(Encode([a, b])) == Some([a, b])
  {
    var (w, x, y, _) := Four(a, b, 0);
    DigitValue(w);
    DigitValue(x);
    DigitValue(y);
    ThreeOfFour(a, b, 0);
  }

  lemma ThreeBytes(a: Byte, b: Byte, c: Byte, more: string)
    ensures var (w, x, y, z) := Four(a, b, c);
            var rest := Decode(more);
            Decode([Digit(w), Digit(x), Digit(y), Digit(z)] + more) == if rest.None? then None
                else Some([a, b, c] + rest.value)
  {
    var (w, x, y, z) := Four(a, b, c);
    DigitValue(w);
    DigitValue(x);
    DigitValue(y);
    DigitValue(z);
    ThreeOfFour(a, b, c);
    assert ([Digit(w), Digit(x), Digit(y), Digit(z)] + more)[4..] == more;
  }

  /** The two texts differ at most in a last digit before padding, which has bits to spare. */
  predicate SameButSpare(text: string, code: string) {
    && |text| == |code|
    && forall i | 0 <= i < |text| ::
         text[i] == code[i] || (i + 1 < |text| && text[i + 1] == '=' == code[i + 1] && text[i] != '=')
  }

  lemma ValueDigit(c: char)
    requires Value(c).Some?
    ensures Digit(Value(c).value) == c && c != '='
  {
  }

  lemma FourOfThree(w: Sextet, x: Sextet, y: Sextet, z: Sextet)
    ensures var (a, b, c) := Three(w, x, y, z); Four(a, b, c) == (w, x, y, z)
  {
    FirstByte(w, x / 16);
    SecondByte(x % 16, y / 4);
    TwoTails(y % 4, z);
  }

  lemma FirstByte(w: Sextet, high: int)
    requires 0 <= high < 4
    ensures (w * 4 + high) / 4 == w && (w * 4 + high) % 4 == high
  {
  }

  lemma SecondByte(low: int, high: int)
    requires 0 <= low < 16 && 0 <= high < 16
    ensures (low * 16 + high) / 16 == low && (low * 16 + high) % 16 == high
  {
  }

  /** What decodes is what its bytes are encoded as, bits to spare aside: anything else is refused. */
  lemma {:induction false} DecodesOnlyEncoded(text: string)
    ensures Decode(text).Some? ==> SameButSpare(text, Encode(Decode(text).value))
  {
    if text != "" && Decode(text).Some? {
      ValueDigit(text[0]);
      ValueDigit(text[1]);
      var w, x := Value(text[0]).value, Value(text[1]).value;
      if |text| == 4 && text[2] == '=' && text[3] == '=' {
        FourOfThree(w, x, 0, 0);
      } else {
        ValueDigit(text[2]);
        var y := Value(text[2]).value;
        if |text| == 4 && text[3] == '=' {
          FourOfThree(w, x, y, 0);
        } else {
          ValueDigit(text[3]);
          var z := Value(text[3]).value;
          var (a, b, c) := Three(w, x, y, z);
          FourOfThree(w, x, y, z);
          DecodesOnlyEncoded(text[4..]);
          GroupSame(text, [a, b, c], Decode(text[4..]).value);
        }
      }
    }
  }

  lemma GroupSame(text: string, group: seq<Byte>, rest: seq<Byte>)
    requires |text| >= 4 && |group| == 3 && SameButSpare(text[4..], Encode(rest))
    requires var (w, x, y, z) := Four(group[0], group[1], group[2]);
             text[..4] == [Digit(w), Digit(x), Digit(y), Digit(z)]
    ensures SameButSpare(text, Encode(group + rest))
  {
    assert (group + rest)[3..] == rest;
    var code := Encode(group + rest);
    assert code == text[..4] + Encode(rest);
    forall i | 4 <= i < |text|
      ensures text[i] == code[i] || (i + 1 < |text| && text[i + 1] == '=' == code[i + 1] && text[i] != '=')
    {
      assert text[i] == text[4..][i - 4] && code[i] == Encode(rest)[i - 4];
    }
  }

  // ----- UTF-8 -------------------------------------------------------------------------------------

  function Utf8Char(c: char): seq<Byte> {
    var n := c as int;
    if n < 0x80 then [n]
    else if n < 0x800 then [0xC0 + n / 64, 0x80 + n % 64]
    else if n < 0x10000 then [0xE0 + n / 4096, 0x80 + n / 64 % 64, 0x80 + n % 64]
    else [0xF0 + n / 262144, 0x80 + n / 4096 % 64, 0x80 + n / 64 % 64, 0x80 + n % 64]
  }

  /** `text.encode("utf-8")`. */
  function Utf8(text: string): seq<Byte> { if text == "" then [] else Utf8Char(text[0]) + Utf8(text[1..]) }

  predicate IsTail(b: Byte) { 0x80 <= b < 0xC0 }

  function Low(b: Byte): int { b - 0x80 }

  predicate IsScalar(n: int) { 0 <= n < 0xD800 || 0xE000 <= n < 0x110000 }

  /** The first character of a byte string and its length, when it is well-formed and in shortest form. */
  function FirstChar(bytes: seq<Byte>): (r: Option<(char, nat)>)
    requires bytes != []
    ensures r.Some? ==> 0 < r.value.1 <= |bytes|
  {
    var b: int := bytes[0];
    if b < 0x80 then Some((b as char, 1))
    else if 0xC0 <= b < 0xE0 && |bytes| >= 2 && IsTail(bytes[1]) then
      var n: int := (b - 0xC0) * 64 + Low(bytes[1]);
      if n >= 0x80 then Some((n as char, 2)) else None
    else if 0xE0 <= b < 0xF0 && |bytes| >= 3 && IsTail(bytes[1]) && IsTail(bytes[2]) then
      var n: int := (b - 0xE0) * 4096 + Low(bytes[1]) * 64 + Low(bytes[2]);
      if n >= 0x800 && IsScalar(n) then Some((n as char, 3)) else None
    else if 0xF0 <= b < 0xF8 && |bytes| >= 4 && IsTail(bytes[1]) && IsTail(bytes[2]) && IsTail(bytes[3]) then
      var n: int := (b - 0xF0) * 262144 + Low(bytes[1]) * 4096 + Low(bytes[2]) * 64 + Low(bytes[3]);
      if n >= 0x10000 && IsScalar(n) then Some((n as char, 4)) else None
    else None
  }

  /** `bytes.decode("utf-8")`. */
  function FromUtf8(bytes: seq<Byte>): Option<string>
    decreases |bytes|
  {
    if bytes == [] then Some("")
    else
      var first :- FirstChar(bytes);
      var rest :- FromUtf8(bytes[first.1..]);
      Some([first.0] + rest)
  }

  lemma FirstOfUtf8(c: char, rest: seq<Byte>)
    ensures FirstChar(Utf8Char(c) + rest) == Some((c, |Utf8Char(c)|))
  {
    var n := c as int;
    var bytes := Utf8Char(c) + rest;
    if 0x800 <= n < 0x10000 {
      assert n / 64 == n / 4096 * 64 + n / 64 % 64;
    } else if 0x10000 <= n {
      assert n / 64 == n / 4096 * 64 + n / 64 % 64;
      assert n / 4096 == n / 262144 * 64 + n / 4096 % 64;
    }
  }

  lemma {:induction false} DecodesUtf8(text: string)
    ensures FromUtf8(Utf8(text)) == Some(text)
  {
    if text != "" {
      DecodesUtf8(text[1..]);
      FirstOfUtf8(text[0], Utf8(text[1..]));
      assert (Utf8Char(text[0]) + Utf8(text[1..]))[|Utf8Char(text[0])|..] == Utf8(text[1..]);
      assert text == [text[0]] + text[1..];
    }
  }

  lemma FirstIsUtf8(bytes: seq<Byte>)
    requires bytes != [] && FirstChar(bytes).Some?
    ensures var (c, n) := FirstChar(bytes).value; bytes[..n] == Utf8Char(c)
  {
    var b, n := bytes[0], FirstChar(bytes).value.1;
    if n == 2 {
      TwoTails(b - 0xC0, Low(bytes[1]));
    } else if n == 3 {
      ThreeTails(b - 0xE0, Low(bytes[1]), Low(bytes[2]));
    } else if n == 4 {
      FourTails(b - 0xF0, Low(bytes[1]), Low(bytes[2]), Low(bytes[3]));
    }
  }

  lemma TwoTails(a: int, b: int)
    requires 0 <= b < 64
    ensures (a * 64 + b) / 64 == a && (a * 64 + b) % 64 == b
  {
  }

  lemma Above4096(a: int, r: int)
    requires 0 <= r < 4096
    ensures (a * 4096 + r) / 4096 == a
  {
  }

  lemma Above262144(a: int, r: int)
    requires 0 <= r < 262144
    ensures (a * 262144 + r) / 262144 == a
  {
  }

  lemma ThreeTails(a: int, b: int, c: int)
    requires 0 <= b < 64 && 0 <= c < 64
    ensures var n := a * 4096 + b * 64 + c; n / 4096 == a && n / 64 % 64 == b && n % 64 == c
  {
    TwoTails(a * 64 + b, c);
    TwoTails(a, b);
    Above4096(a, b * 64 + c);
  }

  lemma FourTails(a: int, b: int, c: int, d: int)
    requires 0 <= b < 64 && 0 <= c < 64 && 0 <= d < 64
    ensures var n := a * 262144 + b * 4096 + c * 64 + d;
            n / 262144 == a && n / 4096 % 64 == b && n / 64 % 64 == c && n % 64 == d
  {
    ThreeTails(a * 64 + b, c, d);
    TwoTails(a, b);
    Above262144(a, b * 4096 + c * 64 + d);
  }

  /** Bytes decode to a text exactly when they are its encoding. */
  lemma {:induction false} Utf8Exactly(bytes: seq<Byte>, text: string)
    ensures FromUtf8(bytes) == Some(text) <==> bytes == Utf8(text)
    decreases |bytes|
  {
    DecodesUtf8(text);
    if FromUtf8(bytes) == Some(text) && bytes != [] {
      var n := FirstChar(bytes).value.1;
      FirstIsUtf8(bytes);
      Utf8Exactly(bytes[n..], text[1..]);
      assert bytes == bytes[..n] + bytes[n..];
    }
  }

  /** Text to base64 and back. */
  function ToBase64(text: string): string { Encode(Utf8(text)) }

  function FromBase64(code: string): Option<string> {
    var bytes :- Decode(code);
    FromUtf8(bytes)
  }

  lemma Base64RoundTrip(text: string)
    ensures FromBase64(ToBase64(text)) == Some(text)
  {
    DecodesEncoded(Utf8(text));
    DecodesUtf8(text);
  }

  // ----- decimal integers ---------------------------------------------------------------------------

  predicate IsDecimal(c: char) { '0' <= c <= '9' }

  function DecimalChar(d: int): char
    requires 0 <= d < 10
  {
    (d + '0' as int) as char
  }

  function DecimalNat(n: nat): string {
    if n < 10 then [DecimalChar(n)] else DecimalNat(n / 10) + [DecimalChar(n % 10)]
  }

  /** `str(n)`. */
  function Decimal(n: int): string { if n < 0 then "-" + DecimalNat(-n) else DecimalNat(n) }

  predicate IsSpace(c: char) { c == ' ' || '\t' <= c <= '\r' || '\U{001C}' <= c <= '\U{001F}' }

  function Stripped(s: string): string
    decreases |s|
  {
    if s != "" && IsSpace(s[0]) then Stripped(s[1..])
    else if s != "" && IsSpace(s[|s| - 1]) then Stripped(s[..|s| - 1])
    else s
  }

  /** Digits with single underscores between them. */
  function Digits(s: string): Option<nat>
    decreases |s|
  {
    if s == "" || !IsDecimal(s[|s| - 1]) then None
    else
      var last: nat := s[|s| - 1] as int - '0' as int;
      if |s| == 1 then Some(last)
      else
        var front := if |s| > 2 && s[|s| - 2] == '_' then s[..|s| - 2] else s[..|s| - 1];
        var n :- Digits(front);
        Some(n * 10 + last)
  }

  /** `int(text)` on ASCII text. */
  function ParseInt(text: string): Option<int> {
    var s := Stripped(text);
    if s != "" && (s[0] == '-' || s[0] == '+') then
      var n: int :- Digits(s[1..]);
      Some(if s[0] == '-' then -n else n)
    else
      var n: int :- Digits(s);
      Some(n)
  }

  lemma {:induction false} DigitsOfDecimal(n: nat)
    ensures DecimalNat(n) != "" && (forall c <- DecimalNat(n) :: IsDecimal(c)) && Digits(DecimalNat(n)) == Some(n)
  {
    if n >= 10 {
      DigitsOfDecimal(n / 10);
      var front := DecimalNat(n / 10);
      var s := front + [DecimalChar(n % 10)];
      assert s[..|s| - 1] == front;
      assert front[|front| - 1] in front;
      assert s[|s| - 2] == front[|front| - 1];
    }
  }

  lemma ParsesDecimal(n: int)
    ensures ParseInt(Decimal(n)) == Some(n)
  {
    DigitsOfDecimal(if n < 0 then -n else n);
    var s := Decimal(n);
    var digits := DecimalNat(if n < 0 then -n else n);
    assert n < 0 ==> s[1..] == digits;
    assert digits[0] in digits && digits[|digits| - 1] in digits;
    assert s[|s| - 1] == digits[|digits| - 1];
    assert Stripped(s) == s;
  }
}
