/**
 * The text of JSON scalars in libjson/jsoncpp.cpp: integers, quoted strings and UTF-8. A `char`
 * is a byte of the C program.
 *
 * Integers are written backwards into a buffer of 25 bytes, and read by a loop whose accumulator
 * is 64 bits wide; the value of a numeral is given by its digits alone, and the lemmas say when
 * the loop gives that value, when it leaves the numeral to sscanf, and when it wraps.
 *
 * Strings are escaped byte by byte. What an escape stands for, and where a string ends, is
 * related to the text of Unicode characters through the encoding of RFC 3629, for which there is
 * a decoder of its own here.
 */
module JsonText {
  import opened Wrappers
  import opened Seqs
  import opened HexTable

  const TWO_63: int := 0x8000_0000_0000_0000
  const TWO_64: int := 0x1_0000_0000_0000_0000
  const MAX_INT: int := 0x7FFF_FFFF
  const BACKSPACE: char := '\U{0008}'
  const FORM_FEED: char := '\U{000C}'

  // ---------- 64-bit conversions ----------

  function ToUInt64(x: int): (u: nat)
    ensures u < TWO_64
  {
    x % TWO_64
  }

  function ToInt64(u: int): (i: int)
    ensures -TWO_63 <= i < TWO_63
  {
    var m := u % TWO_64;
    if m < TWO_63 then m else m - TWO_64
  }

  // ---------- decimal digits ----------

  predicate IsDigit(c: char) {
    '0' <= c <= '9'
  }

  predicate AllDigits(s: string) {
    forall i :: 0 <= i < |s| ==> IsDigit(s[i])
  }

  function DigitChar(d: nat): (c: char)
    requires d < 10
    ensures IsDigit(c) && DigitValue(c) == d
  {
    (d + 48) as char
  }

  function DigitValue(c: char): (d: int)
    ensures IsDigit(c) ==> 0 <= d <= 9
  {
    c as int - 48
  }

  // The decimal numeral of n, without leading zeros.
  function Decimal(n: nat): (s: string)
    ensures |s| > 0 && AllDigits(s)
  {
    if n < 10 then [DigitChar(n)] else Decimal(n / 10) + [DigitChar(n % 10)]
  }

  function IntText(i: int): string {
    if i < 0 then "-" + Decimal(-i) else Decimal(i)
  }

  function Pow10(k: nat): nat {
    if k == 0 then 1 else 10 * Pow10(k - 1)
  }

  lemma {:induction false} DecimalLength(n: nat, k: nat)
    requires k > 0 && n < Pow10(k)
    ensures |Decimal(n)| <= k
  {
    if n >= 10 {
      assert k > 1;
      DecimalLength(n / 10, k - 1);
    }
  }

  lemma TwentyDigits()
    ensures Pow10(20) == 100_000_000_000_000_000_000 > TWO_64
  {
    assert Pow10(5) == 100_000;
    assert Pow10(10) == 10_000_000_000;
    assert Pow10(15) == 1_000_000_000_000_000;
  }

  // The size of UIntToStringBuffer: 3*sizeof(LargestUInt)+1.
  const BUFFER_SIZE := 25

  lemma AtMostTwenty(value: nat)
    requires value < TWO_64
    ensures |Decimal(value)| <= 20
  {
    TwentyDigits();
    DecimalLength(value, 20);
  }

  // *current = '0' + digit
  method PutDigit(digit: nat, buffer: array<char>, current: nat, end: nat)
    requires digit < 10 && current + 1 < end == buffer.Length
    modifies buffer
    ensures buffer[current..end - 1] == [DigitChar(digit)] + old(buffer[current + 1..end - 1])
    ensures buffer[end - 1] == old(buffer[end - 1])
  {
    buffer[current] := DigitChar(digit);
  }

  // Writes the numeral of `value` and its terminator backwards from `end`.
  method UintToString(value: nat, buffer: array<char>, end: nat) returns (current: nat)
    requires value < TWO_64
    requires end == buffer.Length == BUFFER_SIZE
    modifies buffer
    ensures 4 <= current < end - 1
    ensures buffer[current..end - 1] == Decimal(value)
    ensures buffer[end - 1] == '\0'
  {
    hide DigitValue, Decimal, AllDigits, DigitChar, Left;
    AtMostTwenty(value);
    current := end - 1;
    buffer[current] := '\0';
    var rest := value;
    FirstDigit(value);
    current := current - 1;
    PutDigit(rest % 10, buffer, current, end);
    rest := rest / 10;
    while rest != 0
      invariant 0 <= current <= end - 2
      invariant Left(rest) + buffer[current..end - 1] == Decimal(value)
      invariant |Decimal(value)| <= 20
      invariant buffer[end - 1] == '\0'
      decreases rest
    {
      ghost var written := buffer[current..end - 1];
      NextDigit(rest, written);
      current := current - 1;
      PutDigit(rest % 10, buffer, current, end);
      rest := rest / 10;
    }
    NothingLeft(buffer[current..end - 1]);
  }

  // The digits that are not written yet
  function Left(rest: nat): (s: string)
    ensures rest > 0 ==> s != []
  {
    if rest == 0 then [] else Decimal(rest)
  }

  lemma FirstDigit(n: nat)
    ensures Left(n / 10) + [DigitChar(n % 10)] == Decimal(n)
  {
  }

  lemma NextDigit(rest: nat, written: string)
    requires rest > 0
    ensures Left(rest) + written == Left(rest / 10) + ([DigitChar(rest % 10)] + written)
  {
    FirstDigit(rest);
    Associative(Left(rest / 10), [DigitChar(rest % 10)], written);
  }

  lemma NothingLeft(written: string)
    ensures Left(0) + written == written
  {
  }

  // Negation of the smallest value wraps, and the cast to unsigned still gives its magnitude.
  lemma MagnitudeBits(value: int)
    requires -TWO_63 <= value < 0
    ensures ToUInt64(ToInt64(-value)) == -value
  {
    assert (-value) % TWO_64 == -value;
    if value == -TWO_63 {
      assert (-TWO_63) % TWO_64 == TWO_63;
    }
  }

  method LargestIntToString(value: int) returns (text: string)
    requires -TWO_63 <= value < TWO_63
    ensures text == IntText(value)
  {
    var buffer := new char[BUFFER_SIZE];
    var magnitude := value;
    if value < 0 {
      MagnitudeBits(value);
      magnitude := ToInt64(-value);
    }
    var current := UintToString(ToUInt64(magnitude), buffer, BUFFER_SIZE);
    assert ToUInt64(magnitude) == if value < 0 then -value else value;
    if value < 0 {
      current := current - 1;
      buffer[current] := '-';
      assert buffer[current..BUFFER_SIZE - 1] == "-" + buffer[current + 1..BUFFER_SIZE - 1];
    }
    text := buffer[current..BUFFER_SIZE - 1];
  }

  method LargestUIntToString(value: nat) returns (text: string)
    requires value < TWO_64
    ensures text == Decimal(value)
  {
    var buffer := new char[BUFFER_SIZE];
    var current := UintToString(value, buffer, BUFFER_SIZE);
    text := buffer[current..BUFFER_SIZE - 1];
  }

  // ---------- reading integers ----------

  // What decodeNumber's digit loop ends with.
  datatype Scan = Whole(value: nat) | TooLarge | NotDigits

  function ScanDigits(s: string, value: nat, max: nat): Scan {
    if s == "" then Whole(value)
    else if !IsDigit(s[0]) then NotDigits
    else
      var digit := DigitValue(s[0]);
      if value >= max / 10 && (|s| > 1 || digit > max % 10) then TooLarge
      else ScanDigits(s[1..], ToUInt64(value * 10 + digit), max)
  }

  // The number a digit string denotes, continuing from `acc`.
  function Numeral(s: string, acc: nat): (n: nat)
    requires AllDigits(s)
  {
    if s == "" then acc else Numeral(s[1..], acc * 10 + DigitValue(s[0]))
  }

  lemma {:induction false} NumeralGrows(s: string, acc: nat)
    requires AllDigits(s)
    ensures Numeral(s, acc) >= acc
    ensures |s| == 1 ==> Numeral(s, acc) / 10 == acc
    ensures |s| >= 2 ==> Numeral(s, acc) / 100 >= acc
    ensures |s| == 2 ==> Numeral(s, acc) / 100 == acc
  {
    if s != "" {
      NumeralGrows(s[1..], acc * 10 + DigitValue(s[0]));
    }
  }

  lemma {:induction false} NumeralAppend(s: string, c: char, acc: nat)
    requires AllDigits(s) && IsDigit(c)
    ensures Numeral(s + [c], acc) == Numeral(s, acc) * 10 + DigitValue(c)
  {
    if s == "" {
      assert Numeral([c], acc) == Numeral("", acc * 10 + DigitValue(c));
    } else {
      assert (s + [c])[1..] == s[1..] + [c];
      NumeralAppend(s[1..], c, acc * 10 + DigitValue(s[0]));
    }
  }

  lemma {:induction false} NumeralOfDecimal(n: nat)
    ensures Numeral(Decimal(n), 0) == n
  {
    if n >= 10 {
      NumeralOfDecimal(n / 10);
      NumeralAppend(Decimal(n / 10), DigitChar(n % 10), 0);
    } else {
      assert Decimal(n)[1..] == "";
    }
  }

  lemma {:induction false} NumeralOfZeros(zeros: nat, s: string)
    requires AllDigits(s)
    ensures var z := seq(zeros, _ => '0');
            AllDigits(z + s) && Numeral(z + s, 0) == Numeral(s, 0)
  {
    var z := seq(zeros, _ => '0');
    if zeros == 0 {
      assert z + s == s;
    } else {
      var rest := seq(zeros - 1, _ => '0');
      assert z == ['0'] + rest;
      assert (z + s)[1..] == rest + s;
      NumeralOfZeros(zeros - 1, s);
    }
  }

  // The digits by their places, and the value of a numeral with any zeros in front
  lemma NumeralIsValue(zeros: nat, n: nat)
    ensures Decimal(n) == if n < 10 then [LOWER_DIGITS[n]] else Decimal(n / 10) + [LOWER_DIGITS[n % 10]]
    ensures var s := seq(zeros, _ => '0') + Decimal(n);
            AllDigits(s) && Numeral(s, 0) == n
  {
    NumeralOfDecimal(n);
    NumeralOfZeros(zeros, Decimal(n));
    DigitPlace(n % 10);
  }

  lemma DigitPlace(d: nat)
    requires d < 10
    ensures DigitChar(d) == LOWER_DIGITS[d]
  {
  }

  // What the loop returns for a digit string of the given length and value: a numeral above
  // `max` is normally left to decodeDouble; the wrapped result is reached when the part before
  // its last two digits is below the threshold and its last digit is no larger than that of `max`.
  function ScanOutcome(length: nat, n: nat, max: nat): Scan {
    if n <= max then Whole(n)
    else if n % 10 <= max % 10 && (length == 1 || n / 100 < max / 10) then Whole(ToUInt64(n))
    else TooLarge
  }

  lemma ScanLast(c: char, acc: nat, max: nat)
    requires IsDigit(c) && 100 <= max < TWO_64
    ensures ScanDigits([c], acc, max) == ScanOutcome(1, acc * 10 + DigitValue(c), max)
  {
    var n := acc * 10 + DigitValue(c);
    assert n / 10 == acc && n % 10 == DigitValue(c);
    assert [c][1..] == "";
    assert ScanDigits("", ToUInt64(n), max) == Whole(ToUInt64(n));
    if n <= max {
      assert ToUInt64(n) == n;
    }
  }

  lemma {:induction false} ScanMeaning(s: string, acc: nat, max: nat)
    requires s != "" && AllDigits(s)
    requires 100 <= max < TWO_64
    ensures ScanDigits(s, acc, max) == ScanOutcome(|s|, Numeral(s, acc), max)
  {
    var next := acc * 10 + DigitValue(s[0]);
    if |s| == 1 {
      assert s == [s[0]] && s[1..] == "";
      ScanLast(s[0], acc, max);
    } else {
      NumeralGrows(s, acc);
      if acc < max / 10 {
        assert ToUInt64(next) == next;
        ScanMeaning(s[1..], next, max);
      }
    }
  }

  // The result of decodeNumber on a token without fraction or exponent.
  datatype Number = Signed(i: int) | Unsigned(u: nat) | Floating | NotANumber

  function DecodeInteger(text: string): Number {
    var negative := text != "" && text[0] == '-';
    var scan := ScanDigits(if negative then text[1..] else text, 0, if negative then TWO_63 else TWO_64 - 1);
    match scan
    case TooLarge => Floating
    case NotDigits => NotANumber
    case Whole(value) =>
      if negative then Signed(ToInt64(-ToInt64(value)))
      else if value <= MAX_INT then Signed(value)
      else Unsigned(value)
  }

  // The integer a token of digits denotes.
  function Denotes(text: string): int
    requires text != "" && AllDigits(if text[0] == '-' then text[1..] else text)
  {
    if text[0] == '-' then 0 - Numeral(text[1..], 0) else Numeral(text, 0)
  }

  // Digit strings of any length are read exactly when the value fits 64 bits (signed when
  // negative, unsigned otherwise), and only then.
  lemma IntegerExact(text: string)
    requires text != "" && AllDigits(if text[0] == '-' then text[1..] else text)
    ensures -TWO_63 <= Denotes(text) < TWO_64 <==>
            match DecodeInteger(text)
            case Signed(i) => i == Denotes(text)
            case Unsigned(u) => u == Denotes(text)
            case _ => false
  {
    if text == "-" {
    } else if text[0] == '-' {
      ScanMeaning(text[1..], 0, TWO_63);
      var n := Numeral(text[1..], 0);
      if n <= TWO_63 {
        NegatedBits(n);
      }
    } else {
      ScanMeaning(text, 0, TWO_64 - 1);
    }
  }

  lemma NegatedBits(n: nat)
    requires n <= TWO_63
    ensures ToInt64(-ToInt64(n)) == 0 - n
  {
    SmallMod(n);
    if 0 < n {
      assert ToInt64(n) == if n < TWO_63 then n else 0 - n;
      SmallMod(TWO_64 - n);
      NegativeMod(n);
    }
  }

  lemma SmallMod(n: nat)
    requires n < TWO_64
    ensures n % TWO_64 == n
  {
  }

  lemma NegativeMod(n: nat)
    requires 0 < n <= TWO_63
    ensures (0 - n) % TWO_64 == TWO_64 - n
  {
  }

  // 18446744073709551620 is 2^64 + 4, and is read as 4.
  lemma WrapsAboveRange(text: string)
    requires |text| > 1 && AllDigits(text) && Numeral(text, 0) == 18446744073709551620
    ensures DecodeInteger(text) == Signed(4)
  {
    ScanMeaning(text, 0, TWO_64 - 1);
    assert IsDigit(text[0]);
  }

  // ---------- control characters and hexadecimal ----------

  predicate IsControl(c: char) {
    0 < c as int <= 0x1F
  }

  function HexChar(d: nat): (c: char)
    requires d < 16
    ensures HexValue(c) == d
  {
    if d < 10 then (d + 48) as char else (d + 55) as char
  }

  // 0..15, or 16 when c is no hexadecimal digit
  function HexValue(c: char): (d: nat)
    ensures d <= 16
  {
    if '0' <= c <= '9' then c as int - 48
    else if 'a' <= c <= 'f' then c as int - 87
    else if 'A' <= c <= 'F' then c as int - 55
    else 16
  }

  function Hex4(n: nat): (s: string)
    requires n < 0x1_0000
    ensures |s| == 4
  {
    [HexChar(n / 16 / 16 / 16), HexChar(n / 16 / 16 % 16), HexChar(n / 16 % 16), HexChar(n % 16)]
  }

  // ---------- valueToQuotedString ----------

  function EscapeChar(c: char): (s: string)
  {
    if c == '"' then "\\\""
    else if c == '\\' then "\\\\"
    else if c == BACKSPACE then "\\b"
    else if c == FORM_FEED then "\\f"
    else if c == '\n' then "\\n"
    else if c == '\r' then "\\r"
    else if c == '\t' then "\\t"
    else if IsControl(c) then "\\u" + Hex4(c as int)
    else [c]
  }

  function Escaped(s: string): string {
    if s == "" then "" else EscapeChar(s[0]) + Escaped(s[1..])
  }

  function Quoted(s: string): string {
    "\"" + Escaped(s) + "\""
  }

  predicate NeedsEscape(c: char) {
    || c == '"' || c == '\\' || c == BACKSPACE || c == FORM_FEED || c == '\n' || c == '\r' || c == '\t'
    || IsControl(c)
  }

  // strpbrk found nothing and containsControlCharacter is false
  predicate Plain(s: string) {
    forall i :: 0 <= i < |s| ==> !NeedsEscape(s[i])
  }

  lemma {:induction false} EscapedPlain(s: string)
    requires Plain(s)
    ensures Escaped(s) == s
  {
    if s != "" {
      EscapedPlain(s[1..]);
      assert s == [s[0]] + s[1..];
    }
  }

  lemma {:induction false} EscapedAppend(s: string, c: char)
    ensures Escaped(s + [c]) == Escaped(s) + EscapeChar(c)
  {
    if s == "" {
      assert Escaped([c]) == EscapeChar(c) + Escaped("");
      assert s + [c] == [c];
    } else {
      assert (s + [c])[1..] == s[1..] + [c];
      EscapedAppend(s[1..], c);
    }
  }

  lemma EscapedNothing()
    ensures Escaped([]) == []
  {
  }

  method ValueToQuotedString(value: string) returns (result: string)
    ensures result == Quoted(value)
  {
    hide EscapeChar, Escaped, Plain;
    if Plain(value) {
      EscapedPlain(value);
      return "\"" + value + "\"";
    }
    result := "\"";
    assert value[..0] == [];
    EscapedNothing();
    for i := 0 to |value|
      invariant result == "\"" + Escaped(value[..i])
    {
      EscapedAppend(value[..i], value[i]);
      assert value[..i + 1] == value[..i] + [value[i]];
      Associative("\"", Escaped(value[..i]), EscapeChar(value[i]));
      result := result + EscapeChar(value[i]);
    }
    assert value[..|value|] == value;
    result := result + "\"";
  }

  // ---------- codePointToUTF8 ----------

  function Byte(n: nat): (c: char)
    requires n < 256
    ensures c as int == n
  {
    n as char
  }

  // The masks and shifts of the C code, written as quotients and remainders.
  function CodePointToUTF8(cp: nat): (s: string)
    ensures cp <= 0x10FFFF ==> 1 <= |s| <= 4
  {
    if cp <= 0x7F then [Byte(cp)]
    else if cp <= 0x7FF then
      [Byte(0xC0 + cp / 64 % 32), Byte(0x80 + cp % 64)]
    else if cp <= 0xFFFF then
      [Byte(0xE0 + cp / 64 / 64 % 16), Byte(0x80 + cp / 64 % 64), Byte(0x80 + cp % 64)]
    else if cp <= 0x10FFFF then
      [Byte(0xF0 + cp / 64 / 64 / 64 % 8), Byte(0x80 + cp / 64 / 64 % 64), Byte(0x80 + cp / 64 % 64), Byte(0x80 + cp % 64)]
    else ""
  }

  predicate IsScalarValue(cp: nat) {
    cp <= 0x10FFFF && !(0xD800 <= cp <= 0xDFFF)
  }

  predicate IsTail(c: char) {
    0x80 <= c as int <= 0xBF
  }

  // The syntax of section 4 of RFC 3629 (UTF8-1 .. UTF8-4): the first character's number
  // and the number of octets it takes.
  function DecodeUTF8(s: string): Option<(nat, nat)> {
    if |s| >= 1 && s[0] as int <= 0x7F then Some((s[0] as int, 1))
    else if |s| >= 2 && 0xC2 <= s[0] as int <= 0xDF && IsTail(s[1]) then
      Some(((s[0] as int - 0xC0) * 64 + (s[1] as int - 0x80), 2))
    else if |s| >= 3 && 0xE0 <= s[0] as int <= 0xEF && IsTail(s[1]) && IsTail(s[2])
            && (s[0] as int == 0xE0 ==> s[1] as int >= 0xA0) && (s[0] as int == 0xED ==> s[1] as int <= 0x9F) then
      Some(((s[0] as int - 0xE0) * 4096 + (s[1] as int - 0x80) * 64 + (s[2] as int - 0x80), 3))
    else if |s| >= 4 && 0xF0 <= s[0] as int <= 0xF4 && IsTail(s[1]) && IsTail(s[2]) && IsTail(s[3])
            && (s[0] as int == 0xF0 ==> s[1] as int >= 0x90) && (s[0] as int == 0xF4 ==> s[1] as int <= 0x8F) then
      Some(((s[0] as int - 0xF0) * 262144 + (s[1] as int - 0x80) * 4096 + (s[2] as int - 0x80) * 64 + (s[3] as int - 0x80), 4))
    else None
  }

  // Every scalar value is encoded, and decodes to itself whatever follows it.
  lemma Utf8RoundTrip(cp: nat, rest: string)
    requires IsScalarValue(cp)
    ensures DecodeUTF8(CodePointToUTF8(cp) + rest) == Some((cp, |CodePointToUTF8(cp)|))
  {
    var s := CodePointToUTF8(cp) + rest;
    if cp <= 0x7FF {
      assert s[0] == CodePointToUTF8(cp)[0];
      assert cp > 0x7F ==> s[1] == CodePointToUTF8(cp)[1];
    } else if cp <= 0xFFFF {
      ThreeGroups(cp, rest);
    } else {
      FourGroups(cp, rest);
    }
  }

  lemma ThreeGroups(cp: nat, rest: string)
    requires IsScalarValue(cp) && 0x7FF < cp <= 0xFFFF
    ensures DecodeUTF8(CodePointToUTF8(cp) + rest) == Some((cp, 3))
  {
    var s := CodePointToUTF8(cp) + rest;
    assert s[0] as int == 0xE0 + cp / 64 / 64;
    assert s[1] as int == 0x80 + cp / 64 % 64;
    assert s[2] as int == 0x80 + cp % 64;
  }

  lemma FourGroups(cp: nat, rest: string)
    requires 0xFFFF < cp <= 0x10FFFF
    ensures DecodeUTF8(CodePointToUTF8(cp) + rest) == Some((cp, 4))
  {
    var s := CodePointToUTF8(cp) + rest;
    assert s[0] as int == 0xF0 + cp / 64 / 64 / 64;
    assert s[1] as int == 0x80 + cp / 64 / 64 % 64;
    assert s[2] as int == 0x80 + cp / 64 % 64;
    assert s[3] as int == 0x80 + cp % 64;
  }

  lemma GroupsUnique(q: nat, r: nat)
    requires r < 64
    ensures (q * 64 + r) / 64 == q && (q * 64 + r) % 64 == r
  {
  }

  // The encoder produces every octet sequence the syntax of RFC 3629 accepts.
  lemma Utf8Complete(s: string)
    requires DecodeUTF8(s).Some?
    ensures var (cp, used) := DecodeUTF8(s).value;
            IsScalarValue(cp) && used <= |s| && CodePointToUTF8(cp) == s[..used]
  {
    hide CodePointToUTF8;
    var used := DecodeUTF8(s).value.1;
    if used == 1 {
      OneOctet(s[0]);
      assert s[..1] == [s[0]];
    } else if used == 2 {
      TwoOctets(s[0], s[1]);
      assert s[..2] == [s[0], s[1]];
    } else if used == 3 {
      ThreeOctets(s[0], s[1], s[2]);
      assert s[..3] == [s[0], s[1], s[2]];
    } else {
      FourOctets(s[0], s[1], s[2], s[3]);
      assert s[..4] == [s[0], s[1], s[2], s[3]];
    }
  }

  lemma OneOctet(c: char)
    requires c as int <= 0x7F
    ensures CodePointToUTF8(c as int) == [c]
  {
  }

  lemma TwoOctets(c0: char, c1: char)
    requires 0xC2 <= c0 as int <= 0xDF && IsTail(c1)
    ensures var cp := (c0 as int - 0xC0) * 64 + (c1 as int - 0x80);
            0x7F < cp <= 0x7FF && CodePointToUTF8(cp) == [c0, c1]
  {
    GroupsUnique(c0 as int - 0xC0, c1 as int - 0x80);
  }

  lemma ThreeOctets(c0: char, c1: char, c2: char)
    requires 0xE0 <= c0 as int <= 0xEF && IsTail(c1) && IsTail(c2) && (c0 as int == 0xE0 ==> c1 as int >= 0xA0)
    ensures var cp := (c0 as int - 0xE0) * 4096 + (c1 as int - 0x80) * 64 + (c2 as int - 0x80);
            && 0x7FF < cp <= 0xFFFF && CodePointToUTF8(cp) == [c0, c1, c2]
            && (0xD800 <= cp <= 0xDFFF ==> c0 as int == 0xED && c1 as int >= 0xA0)
  {
    var a, b, c := c0 as int - 0xE0, c1 as int - 0x80, c2 as int - 0x80;
    GroupsUnique(a, b);
    GroupsUnique(a * 64 + b, c);
    assert (a * 64 + b) * 64 + c == a * 4096 + b * 64 + c;
  }

  lemma FourOctets(c0: char, c1: char, c2: char, c3: char)
    requires 0xF0 <= c0 as int <= 0xF4 && IsTail(c1) && IsTail(c2) && IsTail(c3)
    requires (c0 as int == 0xF0 ==> c1 as int >= 0x90) && (c0 as int == 0xF4 ==> c1 as int <= 0x8F)
    ensures var cp := (c0 as int - 0xF0) * 262144 + (c1 as int - 0x80) * 4096 + (c2 as int - 0x80) * 64 + (c3 as int - 0x80);
            0xFFFF < cp <= 0x10FFFF && CodePointToUTF8(cp) == [c0, c1, c2, c3]
  {
    var a, b, c, d := c0 as int - 0xF0, c1 as int - 0x80, c2 as int - 0x80, c3 as int - 0x80;
    GroupsUnique(a, b);
    GroupsUnique(a * 64 + b, c);
    GroupsUnique((a * 64 + b) * 64 + c, d);
    assert ((a * 64 + b) * 64 + c) * 64 + d == a * 262144 + b * 4096 + c * 64 + d;
  }

  // ---------- decodeString ----------

  // The text a string body stands for, or the error message with the position `extra`
  // at which the scan stopped.
  datatype Decoded = Decoded(text: string) | Bad(why: StringError, extra: nat)

  datatype CodePoint = CodePoint(cp: nat, next: nat) | BadCodePoint(why: StringError, extra: nat)

  // One constructor for each message of the three decoding functions.
  datatype StringError =
    | EmptyEscape | BadEscape | FourDigitsExpected | HexDigitExpected | SixCharactersExpected | SecondHalfExpected

  // decodeUnicodeEscapeSequence: four hexadecimal digits from position i on.
  function HexQuad(body: string, i: nat): (r: CodePoint)
    requires i <= |body|
    ensures r.CodePoint? ==> r.next == i + 4 <= |body| && r.cp < 0x1_0000
    ensures r.BadCodePoint? ==> i <= r.extra <= |body|
  {
    if |body| - i < 4 then BadCodePoint(FourDigitsExpected, i)
    else HexDigits(body, i, 0, 0)
  }

  function HexDigits(body: string, i: nat, index: nat, unicode: nat): (r: CodePoint)
    requires index <= 4 && i + 4 - index <= |body|
    requires (index == 0 ==> unicode == 0) && (index == 1 ==> unicode < 16) && (index == 2 ==> unicode < 256)
             && (index == 3 ==> unicode < 4096) && (index == 4 ==> unicode < 0x1_0000)
    ensures r.CodePoint? ==> r.next == i + 4 - index <= |body| && r.cp < 0x1_0000
    ensures r.BadCodePoint? ==> i <= r.extra <= |body|
    decreases 4 - index
  {
    if index == 4 then CodePoint(unicode, i)
    else
      var d := HexValue(body[i]);
      if d == 16 then BadCodePoint(HexDigitExpected, i + 1)
      else HexDigits(body, i + 1, index + 1, unicode * 16 + d)
  }

  // decodeUnicodeCodePoint. The second half of a pair is not checked to be a low surrogate.
  function UnicodeCodePoint(body: string, i: nat): (r: CodePoint)
    requires i <= |body|
    ensures r.CodePoint? ==> i < r.next <= |body| && r.cp <= 0x10FFFF
    ensures r.BadCodePoint? ==> i <= r.extra <= |body|
  {
    var first := HexQuad(body, i);
    if first.BadCodePoint? then first
    else if !(0xD800 <= first.cp <= 0xDBFF) then first
    else
      var j := first.next;
      if |body| - j < 6 then BadCodePoint(SixCharactersExpected, j)
      else if body[j] != '\\' then BadCodePoint(SecondHalfExpected, j + 1)
      else if body[j + 1] != 'u' then BadCodePoint(SecondHalfExpected, j + 2)
      else
        var second := HexQuad(body, j + 2);
        if second.BadCodePoint? then second
        else CodePoint(0x1_0000 + first.cp % 1024 * 1024 + second.cp % 1024, second.next)
  }

  // The character a one-letter escape stands for.
  function ShortEscape(c: char): Option<char> {
    match c
    case '"' => Some('"')
    case '/' => Some('/')
    case '\\' => Some('\\')
    case 'b' => Some(BACKSPACE)
    case 'f' => Some(FORM_FEED)
    case 'n' => Some('\n')
    case 'r' => Some('\r')
    case 't' => Some('\t')
    case _ => None
  }

  function Prepend(s: string, d: Decoded): Decoded {
    if d.Decoded? then Decoded(s + d.text) else d
  }

  datatype EscapeText = EscapeText(text: string, next: nat) | BadEscapeText(why: StringError, extra: nat)

  // The escape sequence whose backslash is at position i.
  function EscapeAt(body: string, i: nat): (r: EscapeText)
    requires i < |body|
    ensures r.EscapeText? ==> i < r.next <= |body|
  {
    if i + 1 == |body| then BadEscapeText(EmptyEscape, i + 1)
    else if body[i + 1] == 'u' then
      var u := UnicodeCodePoint(body, i + 2);
      if u.BadCodePoint? then BadEscapeText(u.why, u.extra) else EscapeText(CodePointToUTF8(u.cp), u.next)
    else
      var e := ShortEscape(body[i + 1]);
      if e.None? then BadEscapeText(BadEscape, i + 2) else EscapeText([e.value], i + 2)
  }

  function Unescape(body: string, i: nat): Decoded
    requires i <= |body|
    decreases |body| - i
  {
    if i == |body| || body[i] == '"' then Decoded("")
    else if body[i] != '\\' then Prepend([body[i]], Unescape(body, i + 1))
    else
      var e := EscapeAt(body, i);
      if e.BadEscapeText? then Bad(e.why, e.extra) else Prepend(e.text, Unescape(body, e.next))
  }

  // ---------- what decodeString undoes ----------

  // How one character may be written inside a JSON string (section 7 of RFC 8259).
  datatype Spelling =
    | Raw(cp: nat)
    | Short(letter: char)
    | Escape(hex: string)
    | Pair(high: string, low: string)

  function HexNumber(s: string): nat
    requires |s| == 4
  {
    HexValue(s[0]) * 4096 + HexValue(s[1]) * 256 + HexValue(s[2]) * 16 + HexValue(s[3])
  }

  predicate IsHex4(s: string) {
    |s| == 4 && HexValue(s[0]) < 16 && HexValue(s[1]) < 16 && HexValue(s[2]) < 16 && HexValue(s[3]) < 16
  }

  predicate ValidSpelling(p: Spelling) {
    match p
    case Raw(cp) => IsScalarValue(cp) && cp != 0x22 && cp != 0x5C
    case Short(letter) => ShortEscape(letter).Some?
    case Escape(hex) => IsHex4(hex) && IsScalarValue(HexNumber(hex))
    case Pair(high, low) =>
      && IsHex4(high) && 0xD800 <= HexNumber(high) <= 0xDBFF
      && IsHex4(low) && 0xDC00 <= HexNumber(low) <= 0xDFFF
  }

  predicate AllValid(ps: seq<Spelling>) {
    forall i :: 0 <= i < |ps| ==> ValidSpelling(ps[i])
  }

  // The scalar value a spelling denotes; a surrogate pair by the formula of UTF-16.
  function Denoted(p: Spelling): nat
    requires ValidSpelling(p)
  {
    match p
    case Raw(cp) => cp
    case Short(letter) => ShortEscape(letter).value as int
    case Escape(hex) => HexNumber(hex)
    case Pair(high, low) => 0x1_0000 + (HexNumber(high) - 0xD800) * 0x400 + (HexNumber(low) - 0xDC00)
  }

  function Spell(p: Spelling): string {
    match p
    case Raw(cp) => CodePointToUTF8(cp)
    case Short(letter) => ['\\', letter]
    case Escape(hex) => "\\u" + hex
    case Pair(high, low) => "\\u" + high + "\\u" + low
  }

  function SpellAll(ps: seq<Spelling>): string {
    if ps == [] then "" else Spell(ps[0]) + SpellAll(ps[1..])
  }

  function DenotedAll(ps: seq<Spelling>): string
    requires AllValid(ps)
  {
    if ps == [] then "" else CodePointToUTF8(Denoted(ps[0])) + DenotedAll(ps[1..])
  }

  lemma HexQuadReads(body: string, i: nat, hex: string)
    requires IsHex4(hex) && i + 4 <= |body| && body[i..i + 4] == hex
    ensures HexQuad(body, i) == CodePoint(HexNumber(hex), i + 4)
    ensures HexNumber(hex) < 0x1_0000
  {
    assert body[i] == hex[0] && body[i + 1] == hex[1] && body[i + 2] == hex[2] && body[i + 3] == hex[3];
    var n := (HexValue(hex[0]) * 16 + HexValue(hex[1])) * 16 + HexValue(hex[2]);
    assert HexDigits(body, i + 3, 3, n) == CodePoint(n * 16 + HexValue(hex[3]), i + 4);
    assert HexDigits(body, i + 1, 1, HexValue(hex[0])) == HexDigits(body, i + 3, 3, n);
  }

  predicate NoQuoting(s: string) {
    forall i :: 0 <= i < |s| ==> s[i] != '"' && s[i] != '\\'
  }

  // `piece` stands in `body` from position i on.
  predicate At(body: string, i: nat, piece: string) {
    i + |piece| <= |body| && body[i..i + |piece|] == piece
  }

  lemma AtIndex(body: string, i: nat, piece: string, k: nat)
    requires At(body, i, piece) && k < |piece|
    ensures body[i + k] == piece[k]
    ensures At(body, i + k, piece[k..])
  {
    assert body[i + k] == body[i..i + |piece|][k];
    assert body[i + k..i + |piece|] == body[i..i + |piece|][k..];
  }

  lemma AtConcat(body: string, i: nat, a: string, b: string)
    requires At(body, i, a + b)
    ensures At(body, i, a) && At(body, i + |a|, b)
  {
    var ab := body[i..i + |a + b|];
    assert ab[..|a|] == a && ab[|a|..] == b;
  }

  // Bytes other than the quote and the backslash are copied.
  lemma {:induction false} UnescapeCopies(body: string, i: nat, raw: string)
    requires At(body, i, raw) && NoQuoting(raw)
    ensures Unescape(body, i) == Prepend(raw, Unescape(body, i + |raw|))
    decreases |raw|
  {
    var rest := Unescape(body, i + |raw|);
    if raw == "" {
      PrependNothing(rest);
    } else {
      AtRest(body, i, raw);
      CopyOne(body, i);
      hide Unescape, At, NoQuoting, Prepend;
      UnescapeCopies(body, i + 1, raw[1..]);
      PrependBoth([raw[0]], raw[1..], rest);
      assert [raw[0]] + raw[1..] == raw;
    }
  }

  lemma CopyOne(body: string, i: nat)
    requires i < |body| && body[i] != '"' && body[i] != '\\'
    ensures Unescape(body, i) == Prepend([body[i]], Unescape(body, i + 1))
  {
  }

  lemma AtRest(body: string, i: nat, raw: string)
    requires At(body, i, raw) && NoQuoting(raw) && raw != []
    ensures i < |body| && body[i] == raw[0] && body[i] != '"' && body[i] != '\\'
    ensures At(body, i + 1, raw[1..]) && NoQuoting(raw[1..])
  {
    AtIndex(body, i, raw, 0);
    assert body[i + 1..i + |raw|] == body[i..i + |raw|][1..];
  }

  lemma PrependNothing(d: Decoded)
    ensures Prepend([], d) == d
  {
    if d.Decoded? {
      assert [] + d.text == d.text;
    }
  }

  lemma PrependBoth(s: string, t: string, d: Decoded)
    ensures Prepend(s, Prepend(t, d)) == Prepend(s + t, d)
  {
    if d.Decoded? {
      Associative(s, t, d.text);
    }
  }

  lemma EscapeShort(body: string, i: nat, letter: char)
    requires At(body, i, ['\\', letter]) && ShortEscape(letter).Some?
    ensures EscapeAt(body, i) == EscapeText([ShortEscape(letter).value], i + 2)
    ensures CodePointToUTF8(ShortEscape(letter).value as int) == [ShortEscape(letter).value]
  {
    AtIndex(body, i, ['\\', letter], 1);
  }

  lemma EscapeHex(body: string, i: nat, hex: string)
    requires At(body, i, "\\u" + hex) && IsHex4(hex) && IsScalarValue(HexNumber(hex))
    ensures EscapeAt(body, i) == EscapeText(CodePointToUTF8(HexNumber(hex)), i + 6)
  {
    var s := "\\u" + hex;
    AtIndex(body, i, s, 1);
    AtIndex(body, i, s, 2);
    assert s[2..] == hex;
    HexQuadReads(body, i + 2, hex);
  }

  lemma PairLayout(body: string, i: nat, high: string, low: string)
    requires At(body, i, Spell(Pair(high, low))) && |high| == |low| == 4
    ensures i + 12 <= |body|
    ensures body[i + 1] == 'u' && At(body, i + 2, high)
    ensures body[i + 6] == '\\' && body[i + 7] == 'u' && At(body, i + 8, low)
  {
    assert Spell(Pair(high, low)) == "\\u" + (high + ("\\u" + low));
    AtConcat(body, i, "\\u", high + ("\\u" + low));
    AtConcat(body, i + 2, high, "\\u" + low);
    AtConcat(body, i + 6, "\\u", low);
    AtIndex(body, i, "\\u", 1);
    AtIndex(body, i + 6, "\\u", 0);
    AtIndex(body, i + 6, "\\u", 1);
  }

  lemma EscapePair(body: string, i: nat, high: string, low: string)
    requires At(body, i, Spell(Pair(high, low))) && ValidSpelling(Pair(high, low))
    ensures EscapeAt(body, i) == EscapeText(CodePointToUTF8(Denoted(Pair(high, low))), i + 12)
  {
    hide CodePointToUTF8, HexQuad, HexNumber, Spell;
    PairLayout(body, i, high, low);
    HexQuadReads(body, i + 2, high);
    HexQuadReads(body, i + 8, low);
    assert HexNumber(high) % 1024 == HexNumber(high) - 0xD800;
    assert HexNumber(low) % 1024 == HexNumber(low) - 0xDC00;
  }

  lemma UnescapeOne(body: string, i: nat, p: Spelling)
    requires ValidSpelling(p) && At(body, i, Spell(p))
    ensures IsScalarValue(Denoted(p))
    ensures Unescape(body, i) == Prepend(CodePointToUTF8(Denoted(p)), Unescape(body, i + |Spell(p)|))
  {
    hide EscapeAt, CodePointToUTF8, At, HexNumber, IsHex4;
    if p.Raw? {
      RawIsPlain(p.cp);
      hide NoQuoting, Unescape;
      UnescapeCopies(body, i, Spell(p));
    } else {
      AtIndex(body, i, Spell(p), 0);
      EscapeOne(body, i, p);
    }
  }

  lemma RawIsPlain(cp: nat)
    requires IsScalarValue(cp) && cp != 0x22 && cp != 0x5C
    ensures NoQuoting(CodePointToUTF8(cp))
  {
  }

  lemma EscapeOne(body: string, i: nat, p: Spelling)
    requires ValidSpelling(p) && !p.Raw? && At(body, i, Spell(p)) && i < |body|
    ensures IsScalarValue(Denoted(p))
    ensures EscapeAt(body, i) == EscapeText(CodePointToUTF8(Denoted(p)), i + |Spell(p)|)
  {
    hide EscapeAt, CodePointToUTF8, At;
    match p
    case Short(letter) => EscapeShort(body, i, letter);
    case Escape(hex) => EscapeHex(body, i, hex);
    case Pair(high, low) => EscapePair(body, i, high, low);
  }

  // decodeString turns every spelling of a character sequence into its UTF-8 text.
  lemma {:induction false} UnescapeSpelled(body: string, i: nat, ps: seq<Spelling>)
    requires AllValid(ps)
    requires At(body, i, SpellAll(ps)) && i + |SpellAll(ps)| == |body|
    ensures Unescape(body, i) == Decoded(DenotedAll(ps))
    decreases |ps|
  {
    hide At, Spell, CodePointToUTF8, ValidSpelling, Denoted;
    if ps != [] {
      AtConcat(body, i, Spell(ps[0]), SpellAll(ps[1..]));
      UnescapeOne(body, i, ps[0]);
      UnescapeSpelled(body, i + |Spell(ps[0])|, ps[1..]);
    }
  }

  lemma UnescapeEscapedChar(body: string, i: nat, c: char)
    requires c != '\0' && At(body, i, EscapeChar(c))
    ensures Unescape(body, i) == Prepend([c], Unescape(body, i + |EscapeChar(c)|))
  {
    if |EscapeChar(c)| == 1 {
      UnescapeCopies(body, i, EscapeChar(c));
    } else {
      EscapedCharAt(body, i, c);
      hide EscapeChar, EscapeAt;
    }
  }

  lemma EscapedCharAt(body: string, i: nat, c: char)
    requires c != '\0' && At(body, i, EscapeChar(c)) && |EscapeChar(c)| > 1
    ensures body[i] == '\\' && EscapeAt(body, i) == EscapeText([c], i + |EscapeChar(c)|)
  {
    hide EscapeAt, CodePointToUTF8, Hex4, HexNumber, IsHex4;
    var e := EscapeChar(c);
    AtIndex(body, i, e, 0);
    if |e| == 2 {
      assert e == ['\\', e[1]];
      EscapeShort(body, i, e[1]);
    } else {
      HexNumberOfHex4(c as int);
      EscapeHex(body, i, Hex4(c as int));
      OneOctet(c);
    }
  }

  // decodeString undoes valueToQuotedString on every NUL-free byte string.
  lemma {:induction false} UnescapeEscaped(body: string, i: nat, s: string)
    requires '\0' !in s
    requires At(body, i, Escaped(s)) && i + |Escaped(s)| == |body|
    ensures Unescape(body, i) == Decoded(s)
    decreases |s|
  {
    hide EscapeChar, At;
    if s != "" {
      AtConcat(body, i, EscapeChar(s[0]), Escaped(s[1..]));
      UnescapeEscapedChar(body, i, s[0]);
      UnescapeEscaped(body, i + |EscapeChar(s[0])|, s[1..]);
      hide Unescape, Escaped;
      assert [s[0]] + s[1..] == s;
    }
  }

  lemma HexNumberOfHex4(n: nat)
    requires n < 0x1_0000
    ensures IsHex4(Hex4(n)) && HexNumber(Hex4(n)) == n
  {
  }

  // ---------- where a string ends ----------

  // A string body in which every quote and backslash is escaped.
  predicate Closed(body: string) {
    if body == "" then true
    else if body[0] == '\\' then |body| >= 2 && Closed(body[2..])
    else body[0] != '"' && Closed(body[1..])
  }

  lemma {:induction false} ClosedConcat(a: string, b: string)
    requires Closed(a) && Closed(b)
    ensures Closed(a + b)
  {
    if a == "" {
      assert a + b == b;
    } else if a[0] == '\\' {
      Dropped(a, 2, b);
      ClosedConcat(a[2..], b);
    } else {
      Dropped(a, 1, b);
      ClosedConcat(a[1..], b);
    }
  }

  lemma Dropped(a: string, n: nat, b: string)
    requires 0 < n <= |a|
    ensures (a + b)[0] == a[0] && (a + b)[n..] == a[n..] + b
  {
  }

  lemma {:induction false} PlainIsClosed(s: string)
    requires NoQuoting(s)
    ensures Closed(s)
  {
    if s != "" {
      PlainIsClosed(s[1..]);
    }
  }

  lemma HexEscapeIsClosed(hex: string)
    requires IsHex4(hex)
    ensures Closed("\\u" + hex)
  {
    PlainIsClosed(hex);
    assert ("\\u" + hex)[2..] == hex;
  }

  lemma {:induction false} EscapedIsClosed(s: string)
    ensures Closed(Escaped(s))
  {
    if s != "" {
      var e := EscapeChar(s[0]);
      if |e| == 6 {
        HexNumberOfHex4(s[0] as int);
        HexEscapeIsClosed(Hex4(s[0] as int));
      } else {
        assert |e| == 2 ==> e[2..] == "";
        assert |e| == 1 ==> e[1..] == "";
      }
      EscapedIsClosed(s[1..]);
      ClosedConcat(e, Escaped(s[1..]));
    }
  }

  lemma {:induction false} SpelledIsClosed(ps: seq<Spelling>)
    requires AllValid(ps)
    ensures Closed(SpellAll(ps))
  {
    hide Closed, Spell, ValidSpelling;
    if ps == [] {
      assert Closed([]) by { NothingIsClosed(); }
    } else {
      OneIsClosed(ps[0]);
      SpelledIsClosed(ps[1..]);
      ClosedConcat(Spell(ps[0]), SpellAll(ps[1..]));
    }
  }

  lemma NothingIsClosed()
    ensures Closed([])
  {
  }

  lemma OneIsClosed(p: Spelling)
    requires ValidSpelling(p)
    ensures Closed(Spell(p))
  {
    match p
    case Raw(cp) => RawIsClosed(cp);
    case Short(letter) => assert ['\\', letter][2..] == "";
    case Escape(hex) => HexEscapeIsClosed(hex);
    case Pair(high, low) => PairIsClosed(high, low);
  }

  lemma RawIsClosed(cp: nat)
    requires ValidSpelling(Raw(cp))
    ensures Closed(Spell(Raw(cp)))
  {
    PlainIsClosed(Spell(Raw(cp)));
  }

  lemma PairIsClosed(high: string, low: string)
    requires ValidSpelling(Pair(high, low))
    ensures Closed(Spell(Pair(high, low)))
  {
    HexEscapeIsClosed(high);
    HexEscapeIsClosed(low);
    hide Closed;
    ClosedConcat("\\u" + high, "\\u" + low);
    assert Spell(Pair(high, low)) == ("\\u" + high) + ("\\u" + low);
  }
}
