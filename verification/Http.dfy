/**
 * Request parsing and percent-encoding in src/http.c, and the query cut of src/main.cc.
 * Bytes are characters below 256.
 */
module Http {
  import opened Wrappers
  import opened Seqs
  import opened HexTable
  import opened ByteBuffer

  // ---------- percent-encoding ----------

  predicate IsUnreserved(c: char) {
    'a' <= c <= 'z' || 'A' <= c <= 'Z' || '0' <= c <= '9' || c == '-' || c == '.' || c == '_' || c == '~'
  }

  predicate IsXdigit(c: char) {
    '0' <= c <= '9' || 'a' <= c <= 'f' || 'A' <= c <= 'F'
  }

  function XdigitValue(c: char): (d: nat)
    requires IsXdigit(c)
    ensures d < 16
  {
    if '0' <= c <= '9' then c as int - '0' as int
    else if 'a' <= c <= 'f' then c as int - 'a' as int + 10
    else c as int - 'A' as int + 10
  }

  function UpperXdigit(d: nat): (c: char)
    requires d < 16
    ensures IsXdigit(c) && XdigitValue(c) == d && c != '\0'
  {
    if d < 10 then '0' + d as char else 'A' + (d - 10) as char
  }

  // %%%02X
  function PercentByte(c: char): (s: string)
    ensures |s| == 3
  {
    var n := c as int % 256;
    ['%', UpperXdigit(n / 16), UpperXdigit(n % 16)]
  }

  function EncodeChar(c: char, spaceAsPlus: bool): string {
    if IsUnreserved(c) then [c] else if c == ' ' && spaceAsPlus then "+" else PercentByte(c)
  }

  function Encode(uri: string, spaceAsPlus: bool): string {
    if uri == [] then [] else EncodeChar(uri[0], spaceAsPlus) + Encode(uri[1..], spaceAsPlus)
  }

  // The bytes before the terminator that http_decode_uri writes
  function Decode(uri: string, decodePlus: bool): string
    decreases |uri|
  {
    if uri == [] then []
    else if uri[0] == '+' && decodePlus then " " + Decode(uri[1..], decodePlus)
    else if |uri| >= 3 && uri[0] == '%' && IsXdigit(uri[1]) && IsXdigit(uri[2]) then
      [(16 * XdigitValue(uri[1]) + XdigitValue(uri[2])) as char] + Decode(uri[3..], decodePlus)
    else [uri[0]] + Decode(uri[1..], decodePlus)
  }

  // http_encode_uri, on a buffer of its own
  method EncodeUri(uri: string, spaceAsPlus: bool) returns (result: string)
    ensures result == Encode(uri, spaceAsPlus) + "\0"
  {
    var buf := new Buffer();
    assert uri[0..] == uri;
    for p := 0 to |uri|
      invariant buf.Valid() && fresh(buf) && fresh(buf.origBuffer)
      invariant buf.Contents() + Encode(uri[p..], spaceAsPlus) == Encode(uri, spaceAsPlus)
    {
      hide Encode;
      ghost var before := buf.Contents();
      EncodeStep(uri, p, spaceAsPlus);
      if IsUnreserved(uri[p]) {
        buf.Add([uri[p]]);
      } else if uri[p] == ' ' && spaceAsPlus {
        buf.Add("+");
      } else {
        var _, _ := buf.AddVprintf(PercentByte(uri[p]));
      }
      Associative(before, EncodeChar(uri[p], spaceAsPlus), Encode(uri[p + 1..], spaceAsPlus));
    }
    assert buf.Contents() == Encode(uri, spaceAsPlus);
    buf.Add("\0");
    result := buf.Remove(buf.len);
  }

  lemma EncodeStep(uri: string, p: nat, spaceAsPlus: bool)
    requires p < |uri|
    ensures Encode(uri[p..], spaceAsPlus) == EncodeChar(uri[p], spaceAsPlus) + Encode(uri[p + 1..], spaceAsPlus)
  {
  }

  // http_decode_uri: one byte is written for each position taken
  method DecodeUri(uri: string, decodePlus: bool) returns (ret: string)
    ensures ret == Decode(uri, decodePlus)
  {
    hide Decode, XdigitValue, IsXdigit;
    ret := [];
    var i := 0;
    assert uri[0..] == uri;
    while i < |uri|
      invariant 0 <= i <= |uri| && |ret| <= i
      invariant ret + Decode(uri[i..], decodePlus) == Decode(uri, decodePlus)
    {
      var c := uri[i];
      ghost var was, from := ret, i;
      DecodeStep(uri, from, decodePlus);
      if c == '+' && decodePlus {
        c := ' ';
      } else if c == '%' && i + 2 < |uri| && IsXdigit(uri[i + 1]) && IsXdigit(uri[i + 2]) {
        c := (16 * XdigitValue(uri[i + 1]) + XdigitValue(uri[i + 2])) as char;
        i := i + 2;
      }
      ret := ret + [c];
      i := i + 1;
      Associative(was, [c], Decode(uri[i..], decodePlus));
    }
    assert uri[i..] == [];
    DecodeNothing(decodePlus);
  }

  lemma DecodeStep(uri: string, i: nat, decodePlus: bool)
    requires i < |uri|
    ensures Decode(uri[i..], decodePlus) ==
            if uri[i] == '+' && decodePlus then [' '] + Decode(uri[i + 1..], decodePlus)
            else if i + 2 < |uri| && uri[i] == '%' && IsXdigit(uri[i + 1]) && IsXdigit(uri[i + 2]) then
              [(16 * XdigitValue(uri[i + 1]) + XdigitValue(uri[i + 2])) as char] + Decode(uri[i + 3..], decodePlus)
            else [uri[i]] + Decode(uri[i + 1..], decodePlus)
  {
    hide IsXdigit, XdigitValue;
  }

  ghost predicate Bytes(s: string) {
    forall i :: 0 <= i < |s| ==> s[i] as int < 256
  }

  // What an encoded character decodes to, with anything behind it
  lemma DecodeCharBack(c: char, spaceAsPlus: bool, rest: string)
    requires c as int < 256
    ensures Decode(EncodeChar(c, spaceAsPlus) + rest, true) == [c] + Decode(rest, true)
  {
    if !IsUnreserved(c) && !(c == ' ' && spaceAsPlus) {
      DecodePercent(c, rest);
    } else {
      var s := EncodeChar(c, spaceAsPlus);
      assert (s + rest)[0] == s[0] && (s + rest)[1..] == rest;
    }
  }

  lemma DecodePercent(c: char, rest: string)
    requires c as int < 256
    ensures Decode(PercentByte(c) + rest, true) == [c] + Decode(rest, true)
  {
    var b := PercentByte(c);
    PercentDigits(c);
    hide IsXdigit, XdigitValue, UpperXdigit, PercentByte;
    var s := b + rest;
    assert s[0] == b[0] && s[1] == b[1] && s[2] == b[2] && s[3..] == rest;
  }

  lemma PercentDigits(c: char)
    requires c as int < 256
    ensures var b := PercentByte(c);
            b[0] == '%' && IsXdigit(b[1]) && IsXdigit(b[2])
            && (16 * XdigitValue(b[1]) + XdigitValue(b[2])) as char == c
  {
    hide IsXdigit, XdigitValue, UpperXdigit;
    var n := c as int;
    assert 16 * (n / 16) + n % 16 == n;
  }

  lemma {:induction false} DecodeBack(uri: string, spaceAsPlus: bool)
    requires Bytes(uri)
    ensures Decode(Encode(uri, spaceAsPlus), true) == uri
  {
    hide Decode, EncodeChar;
    if uri == [] {
      assert Decode([], true) == [] by { DecodeNothing(true); }
    } else {
      DecodeCharBack(uri[0], spaceAsPlus, Encode(uri[1..], spaceAsPlus));
      DecodeBack(uri[1..], spaceAsPlus);
    }
  }

  lemma DecodeNothing(decodePlus: bool)
    ensures Decode([], decodePlus) == []
  {
  }

  // ---------- every spelling of a byte ----------

  lemma HexAtIs(d: nat, upper: bool)
    requires d < 16
    ensures IsXdigit(HexAt(d, upper)) && XdigitValue(HexAt(d, upper)) == d
  {
  }

  // Two hexadecimal digits of either case behind a percent sign
  lemma DecodeHex(d: nat, e: nat, upperD: bool, upperE: bool, rest: string, plus: bool)
    requires d < 16 && e < 16
    ensures Decode("%" + [HexAt(d, upperD), HexAt(e, upperE)] + rest, plus) == [(16 * d + e) as char] + Decode(rest, plus)
  {
    HexAtIs(d, upperD);
    HexAtIs(e, upperE);
    hide HexAt, IsXdigit, XdigitValue;
    var uri := "%" + [HexAt(d, upperD), HexAt(e, upperE)] + rest;
    assert uri[3..] == rest;
  }

  lemma HexDigits(c: char)
    ensures IsXdigit(c) <==> c in LOWER_DIGITS || c in UPPER_DIGITS
  {
    if IsXdigit(c) {
      if c <= '9' {
        assert LOWER_DIGITS[c as int - '0' as int] == c;
      } else if c >= 'a' {
        assert LOWER_DIGITS[c as int - 'a' as int + 10] == c;
      } else {
        assert UPPER_DIGITS[c as int - 'A' as int + 10] == c;
      }
    }
  }

  // A percent sign without two digits behind it stands for itself.
  lemma LonePercent(rest: string, plus: bool)
    requires forall c, d :: c in LOWER_DIGITS + UPPER_DIGITS && d in LOWER_DIGITS + UPPER_DIGITS ==> !([c, d] <= rest)
    ensures Decode("%" + rest, plus) == "%" + Decode(rest, plus)
  {
    hide IsXdigit, XdigitValue;
    var uri := "%" + rest;
    assert uri[1..] == rest;
    if |rest| >= 2 {
      HexDigits(rest[0]);
      HexDigits(rest[1]);
      assert [rest[0], rest[1]] <= rest;
    }
  }

  const UPPER_LETTERS := "ABCDEFGHIJKLMNOPQRSTUVWXYZ"
  const LOWER_LETTERS := "abcdefghijklmnopqrstuvwxyz"
  const DIGITS := "0123456789"

  lemma UpperLetters(c: char)
    ensures 'A' <= c <= 'Z' <==> c in UPPER_LETTERS
  {
    assert forall i :: 0 <= i < 26 ==> UPPER_LETTERS[i] as int == 'A' as int + i;
    if 'A' <= c <= 'Z' {
      assert UPPER_LETTERS[c as int - 'A' as int] == c;
    }
  }

  lemma LowerLetters(c: char)
    ensures 'a' <= c <= 'z' <==> c in LOWER_LETTERS
  {
    assert forall i :: 0 <= i < 26 ==> LOWER_LETTERS[i] as int == 'a' as int + i;
    if 'a' <= c <= 'z' {
      assert LOWER_LETTERS[c as int - 'a' as int] == c;
    }
  }

  lemma Digits(c: char)
    ensures '0' <= c <= '9' <==> c in DIGITS
  {
    assert forall i :: 0 <= i < 10 ==> DIGITS[i] as int == '0' as int + i;
    if '0' <= c <= '9' {
      assert DIGITS[c as int - '0' as int] == c;
    }
  }

  // Section 2.3 of RFC 3986
  lemma UnreservedAre(c: char)
    ensures IsUnreserved(c) <==>
            c in UPPER_LETTERS || c in LOWER_LETTERS || c in DIGITS || c == '-' || c == '.' || c == '_' || c == '~'
  {
    UpperLetters(c);
    LowerLetters(c);
    Digits(c);
  }

  lemma UpperIs(d: nat)
    requires d < 16
    ensures UpperXdigit(d) == UPPER_DIGITS[d]
  {
  }

  // Every other byte is written with two upper-case digits, or as a plus sign.
  lemma EncodedAs(c: char, plus: bool)
    requires c as int < 256 && !IsUnreserved(c)
    ensures EncodeChar(c, plus) ==
            if c == ' ' && plus then "+" else "%" + [UPPER_DIGITS[c as int / 16], UPPER_DIGITS[c as int % 16]]
  {
    hide UpperXdigit, IsUnreserved;
    var n := c as int;
    UpperIs(n / 16);
    UpperIs(n % 16);
    assert n % 256 == n;
  }

  // How a byte of a value may be written
  datatype Spelling = Raw(c: char) | Plus | Percent(d: nat, e: nat, upperD: bool, upperE: bool)

  predicate ValidSpelling(p: Spelling) {
    match p
    case Raw(c) => c != '%' && c != '+' && c != '&'
    case Plus => true
    case Percent(d, e, _, _) => d < 16 && e < 16
  }

  function Spell(p: Spelling): string
    requires ValidSpelling(p)
  {
    match p
    case Raw(c) => [c]
    case Plus => "+"
    case Percent(d, e, upperD, upperE) => "%" + [HexAt(d, upperD), HexAt(e, upperE)]
  }

  function Denoted(p: Spelling): char
    requires ValidSpelling(p)
  {
    match p
    case Raw(c) => c
    case Plus => ' '
    case Percent(d, e, _, _) => (16 * d + e) as char
  }

  predicate AllValid(ps: seq<Spelling>) {
    forall i :: 0 <= i < |ps| ==> ValidSpelling(ps[i])
  }

  function SpellAll(ps: seq<Spelling>): string
    requires AllValid(ps)
  {
    if ps == [] then [] else Spell(ps[0]) + SpellAll(ps[1..])
  }

  function DenotedAll(ps: seq<Spelling>): string
    requires AllValid(ps)
  {
    if ps == [] then [] else [Denoted(ps[0])] + DenotedAll(ps[1..])
  }

  lemma DecodeSpelled(p: Spelling, rest: string)
    requires ValidSpelling(p)
    ensures Decode(Spell(p) + rest, true) == [Denoted(p)] + Decode(rest, true)
  {
    match p
    case Percent(d, e, upperD, upperE) => DecodeHex(d, e, upperD, upperE, rest, true);
    case _ =>
      hide IsXdigit, XdigitValue;
      assert (Spell(p) + rest)[1..] == rest;
  }

  // Every value decodes to the bytes it spells, in whatever way.
  lemma {:induction false} SpelledBack(ps: seq<Spelling>)
    requires AllValid(ps)
    ensures Decode(SpellAll(ps), true) == DenotedAll(ps)
    decreases |ps|
  {
    hide ValidSpelling, Spell, Denoted, Decode;
    if ps == [] {
      DecodeNothing(true);
    } else {
      SpelledBack(ps[1..]);
      DecodeSpelled(ps[0], SpellAll(ps[1..]));
    }
  }

  // ---------- query strings ----------

  datatype Header = Header(name: string, value: string)

  // strchr, strsep: the first position of c, or the length
  function IndexOf(s: string, c: char): (i: nat)
    ensures i <= |s| && (i < |s| ==> s[i] == c) && forall k :: 0 <= k < i ==> s[k] != c
  {
    if s == [] || s[0] == c then 0 else 1 + IndexOf(s[1..], c)
  }

  lemma {:induction false} FirstAt(before: string, c: char, after: string)
    requires c !in before
    ensures IndexOf(before + ([c] + after), c) == |before|
  {
    if before != [] {
      FirstAt(before[1..], c, after);
      HeadTailConcat(before, [c] + after);
    }
  }

  // One argument of a query; its key is taken as it is, only its value is decoded.
  function Argument(arg: string): Option<Header> {
    var j := IndexOf(arg, '=');
    if j == |arg| || j == 0 then None else Some(Header(arg[..j], CString(Decode(arg[j + 1..], true))))
  }

  function ParseQuery(s: string): Option<seq<Header>>
    decreases |s|
  {
    if s == [] then Some([])
    else
      var i := IndexOf(s, '&');
      match Argument(s[..i])
      case None => None
      case Some(h) =>
        match ParseQuery(if i < |s| then s[i + 1..] else [])
        case None => None
        case Some(hs) => Some([h] + hs)
  }

  // http_parse_query_str; an error clears the headers.
  method ParseQueryStr(str: string) returns (result: int, headers: seq<Header>)
    ensures result == if ParseQuery(str).Some? then 0 else -1
    ensures headers == if ParseQuery(str).Some? then ParseQuery(str).value else []
  {
    hide ParseQuery, Argument, IndexOf, Decode;
    headers := [];
    var p := Some(str);
    PrependedNothing(ParseQuery(str));
    while p.Some? && p.value != []
      invariant p == None ==> ParseQuery(str) == Some(headers)
      invariant p.Some? ==> ParseQuery(str) == Prepended(headers, ParseQuery(p.value))
      decreases if p == None then 0 else 1 + |p.value|
    {
      ghost var was, s := headers, p.value;
      var i := IndexOf(p.value, '&');
      var argument := p.value[..i];
      p := if i < |p.value| then Some(p.value[i + 1..]) else None;
      var j := IndexOf(argument, '=');
      BadArgument(was, s);
      ArgumentParts(argument);
      if j == |argument| || j == 0 {
        return -1, [];
      }
      var decodedValue := DecodeUri(argument[j + 1..], true);
      headers := headers + [Header(argument[..j], CString(decodedValue))];
      PrependedStep(was, s);
      if p == None {
        PrependedEnd(headers);
      }
    }
    result := 0;
    if p.Some? {
      PrependedEnd(headers);
    }
  }

  lemma PrependedNothing(more: Option<seq<Header>>)
    ensures Prepended([], more) == more
  {
    if more.Some? {
      assert [] + more.value == more.value;
    }
  }

  lemma PrependedEnd(hs: seq<Header>)
    ensures Prepended(hs, ParseQuery([])) == Some(hs)
  {
    assert hs + [] == hs;
  }

  lemma BadArgument(was: seq<Header>, s: string)
    requires s != []
    ensures Argument(s[..IndexOf(s, '&')]) == None ==> Prepended(was, ParseQuery(s)) == None
  {
    hide Argument, IndexOf;
  }

  lemma ArgumentParts(arg: string)
    ensures var j := IndexOf(arg, '=');
            Argument(arg) == if j == |arg| || j == 0 then None
                             else Some(Header(arg[..j], CString(Decode(arg[j + 1..], true))))
  {
    hide IndexOf, Decode;
  }

  function Prepended(hs: seq<Header>, more: Option<seq<Header>>): Option<seq<Header>> {
    if more.Some? then Some(hs + more.value) else None
  }

  lemma PrependedStep(was: seq<Header>, s: string)
    requires s != [] && Argument(s[..IndexOf(s, '&')]).Some?
    ensures var i := IndexOf(s, '&');
            Prepended(was, ParseQuery(s))
            == Prepended(was + [Argument(s[..i]).value], ParseQuery(if i < |s| then s[i + 1..] else []))
  {
    hide Argument, IndexOf;
    var i := IndexOf(s, '&');
    var more := ParseQuery(if i < |s| then s[i + 1..] else []);
    if more.Some? {
      Associative(was, [Argument(s[..i]).value], more.value);
    }
  }

  // ---------- which queries are taken ----------

  function JoinArguments(args: seq<string>): string
    requires args != []
  {
    if |args| == 1 then args[0] else args[0] + ("&" + JoinArguments(args[1..]))
  }

  predicate HasKey(arg: string) {
    '=' in arg && arg[0] != '='
  }

  // Every argument needs a key and an equals sign, but for an empty one at the end.
  lemma {:induction false} QueryExact(args: seq<string>)
    requires args != [] && forall i :: 0 <= i < |args| ==> '&' !in args[i]
    ensures ParseQuery(JoinArguments(args)).Some? <==>
            forall i :: 0 <= i < |args| ==> HasKey(args[i]) || (i == |args| - 1 && args[i] == [])
    decreases |args|
  {
    hide Argument, IndexOf, HasKey;
    var s := JoinArguments(args);
    ArgumentTaken(args[0]);
    if |args| == 1 {
      NoneAt(args[0], '&');
      assert args[0][..|args[0]|] == args[0];
    } else {
      var more := JoinArguments(args[1..]);
      FirstAt(args[0], '&', more);
      Parts(args[0], '&', more);
      QueryExact(args[1..]);
      EmptyHasNoKey();
      assert forall i :: 0 <= i < |args| - 1 ==> args[1..][i] == args[i + 1];
      assert forall i :: 1 <= i < |args| ==> args[i] == args[1..][i - 1];
    }
  }

  lemma EmptyHasNoKey()
    ensures !HasKey([])
  {
  }

  lemma NoneAt(s: string, c: char)
    requires c !in s
    ensures IndexOf(s, c) == |s|
  {
  }

  lemma ArgumentTaken(arg: string)
    ensures Argument(arg).Some? <==> HasKey(arg)
  {
    hide Decode;
    if '=' in arg {
      var k :| 0 <= k < |arg| && arg[k] == '=';
      assert IndexOf(arg, '=') <= k;
    }
  }

  // A key, which is taken as it is, and a value in any spelling
  datatype SpelledPair = SpelledPair(key: string, value: seq<Spelling>) {
    predicate Valid() {
      key != [] && '=' !in key && '&' !in key && AllValid(value)
    }

    function Text(): string
      requires Valid()
    {
      key + ("=" + SpellAll(value))
    }

    function Meant(): Header
      requires Valid()
    {
      Header(key, CString(DenotedAll(value)))
    }
  }

  lemma {:induction false} NoAmpersand(ps: seq<Spelling>)
    requires AllValid(ps)
    ensures '&' !in SpellAll(ps)
    decreases |ps|
  {
    hide ValidSpelling, Spell;
    if ps != [] {
      NoAmpersandIn(ps[0]);
      NoAmpersand(ps[1..]);
    }
  }

  lemma NoAmpersandIn(p: Spelling)
    requires ValidSpelling(p)
    ensures '&' !in Spell(p)
  {
    if p.Percent? {
      HexAtIs(p.d, p.upperD);
      HexAtIs(p.e, p.upperE);
      hide HexAt;
    }
  }

  lemma SpelledArgument(p: SpelledPair)
    requires p.Valid()
    ensures Argument(p.Text()) == Some(p.Meant()) && '&' !in p.Text()
  {
    NoAmpersand(p.value);
    SpelledBack(p.value);
    hide IndexOf, Decode, CString, AllValid, SpellAll, DenotedAll;
    FirstAt(p.key, '=', SpellAll(p.value));
    Parts(p.key, '=', SpellAll(p.value));
  }

  function SpelledQuery(ps: seq<SpelledPair>): string
    requires forall i :: 0 <= i < |ps| ==> ps[i].Valid()
  {
    if ps == [] then [] else if |ps| == 1 then ps[0].Text() else ps[0].Text() + ("&" + SpelledQuery(ps[1..]))
  }

  function MeantQuery(ps: seq<SpelledPair>): seq<Header>
    requires forall i :: 0 <= i < |ps| ==> ps[i].Valid()
  {
    if ps == [] then [] else [ps[0].Meant()] + MeantQuery(ps[1..])
  }

  // Every query of keys and spelled values gives these keys and the bytes of these values.
  lemma {:induction false} SpelledQueryBack(ps: seq<SpelledPair>)
    requires forall i :: 0 <= i < |ps| ==> ps[i].Valid()
    ensures ParseQuery(SpelledQuery(ps)) == Some(MeantQuery(ps))
    decreases |ps|
  {
    hide Argument, IndexOf, SpelledPair.Text, SpelledPair.Meant, SpelledPair.Valid;
    if ps != [] {
      var text := ps[0].Text();
      SpelledArgument(ps[0]);
      TextNotEmpty(ps[0]);
      if |ps| == 1 {
        NoneAt(text, '&');
        assert text[..|text|] == text;
        assert MeantQuery(ps[1..]) == [];
      } else {
        var more := SpelledQuery(ps[1..]);
        FirstAt(text, '&', more);
        Parts(text, '&', more);
        SpelledQueryBack(ps[1..]);
      }
    }
  }

  lemma TextNotEmpty(p: SpelledPair)
    requires p.Valid()
    ensures p.Text() != []
  {
  }

  // The query that is built from pairs with http_encode_uri
  function PutPair(h: Header, plus: bool): string {
    Encode(h.name, plus) + ("=" + Encode(h.value, plus))
  }

  function PutQuery(hs: seq<Header>, plus: bool): string {
    if hs == [] then []
    else if |hs| == 1 then PutPair(hs[0], plus)
    else PutPair(hs[0], plus) + ("&" + PutQuery(hs[1..], plus))
  }

  predicate IsEncoded(c: char) {
    IsUnreserved(c) || c == '%' || c == '+'
  }

  lemma {:induction false} EncodedChars(s: string, plus: bool)
    ensures forall i :: 0 <= i < |Encode(s, plus)| ==> IsEncoded(Encode(s, plus)[i])
    ensures |Encode(s, plus)| >= |s|
  {
    if s != [] {
      EncodedChars(s[1..], plus);
      EncodedChar(s[0], plus);
      hide EncodeChar, IsEncoded;
    }
  }

  lemma EncodedChar(c: char, plus: bool)
    ensures forall i :: 0 <= i < |EncodeChar(c, plus)| ==> IsEncoded(EncodeChar(c, plus)[i])
    ensures |EncodeChar(c, plus)| >= 1
  {
  }

  lemma {:induction false} EncodeIsIdentity(s: string, plus: bool)
    ensures Encode(s, plus) == s <==> forall i :: 0 <= i < |s| ==> IsUnreserved(s[i])
  {
    if s != [] {
      EncodeIsIdentity(s[1..], plus);
      EncodeHead(s, plus);
      hide IsUnreserved, Encode;
      assert forall i :: 0 <= i < |s| - 1 ==> s[1..][i] == s[i + 1];
      assert forall i :: 1 <= i < |s| ==> s[i] == s[1..][i - 1];
    }
  }

  lemma EncodeHead(s: string, plus: bool)
    requires s != []
    ensures Encode(s, plus) == s <==> IsUnreserved(s[0]) && Encode(s[1..], plus) == s[1..]
  {
    assert s == [s[0]] + s[1..];
    EncodedChars(s[1..], plus);
    hide IsEncoded;
    if IsUnreserved(s[0]) {
      assert Encode(s, plus)[1..] == Encode(s[1..], plus);
    } else {
      assert Encode(s, plus)[0] == EncodeChar(s[0], plus)[0];
    }
  }

  // What a pair comes back as
  function Recovered(h: Header, plus: bool): Header {
    Header(Encode(h.name, plus), CString(h.value))
  }

  lemma PairBack(h: Header, plus: bool)
    requires Bytes(h.value)
    ensures Argument(PutPair(h, plus)) == if h.name == [] then None else Some(Recovered(h, plus))
  {
    EncodedChars(h.name, plus);
    DecodeBack(h.value, plus);
    var k, v := Encode(h.name, plus), Encode(h.value, plus);
    assert h.name == [] ==> k == [];
    hide Encode, Decode, IndexOf;
    assert '=' !in k;
    FirstAt(k, '=', v);
    Parts(k, '=', v);
  }

  // No ampersand inside a pair
  lemma PairChars(h: Header, plus: bool)
    ensures PutPair(h, plus) != [] && forall i :: 0 <= i < |PutPair(h, plus)| ==>
              PutPair(h, plus)[i] != '&' && PutPair(h, plus)[i] != '#' && PutPair(h, plus)[i] != '\0'
  {
    EncodedChars(h.name, plus);
    EncodedChars(h.value, plus);
    hide Encode;
  }

  function RecoveredAll(hs: seq<Header>, plus: bool): Option<seq<Header>> {
    if hs == [] then Some([])
    else if hs[0].name == [] then None
    else
      match RecoveredAll(hs[1..], plus)
      case None => None
      case Some(rest) => Some([Recovered(hs[0], plus)] + rest)
  }

  ghost predicate ValueBytes(hs: seq<Header>) {
    forall i :: 0 <= i < |hs| ==> Bytes(hs[i].value)
  }

  lemma {:induction false} QueryBack(hs: seq<Header>, plus: bool)
    requires ValueBytes(hs)
    ensures ParseQuery(PutQuery(hs, plus)) == RecoveredAll(hs, plus)
    decreases |hs|
  {
    hide PutPair, Argument, Recovered, Bytes;
    if hs != [] {
      var pair, s := PutPair(hs[0], plus), PutQuery(hs, plus);
      assert Bytes(hs[0].value);
      PairBack(hs[0], plus);
      PairChars(hs[0], plus);
      assert s[..|pair|] == pair;
      if |hs| == 1 {
        assert IndexOf(s, '&') == |pair|;
        assert hs[1..] == [];
      } else {
        QueryBack(hs[1..], plus);
        Parts(pair, '&', PutQuery(hs[1..], plus));
        assert '&' !in pair;
        FirstAt(pair, '&', PutQuery(hs[1..], plus));
      }
    }
  }

  ghost predicate Plain(h: Header) {
    && h.name != [] && (forall i :: 0 <= i < |h.name| ==> IsUnreserved(h.name[i]))
    && forall i :: 0 <= i < |h.value| ==> h.value[i] != '\0'
  }

  lemma RecoveredIsSame(h: Header, plus: bool)
    requires h.name != []
    ensures Recovered(h, plus) == h <==> Plain(h)
  {
    EncodeIsIdentity(h.name, plus);
    hide Encode, IsUnreserved;
  }

  // The pairs come back exactly when every key is non-empty and needs no encoding, and no value
  // holds a NUL: the parser does not decode keys.
  lemma {:induction false} PairsBack(hs: seq<Header>, plus: bool)
    requires ValueBytes(hs)
    ensures ParseQuery(PutQuery(hs, plus)) == Some(hs) <==> forall i :: 0 <= i < |hs| ==> Plain(hs[i])
    decreases |hs|
  {
    QueryBack(hs, plus);
    AllSame(hs, plus);
  }

  lemma {:induction false} AllSame(hs: seq<Header>, plus: bool)
    ensures RecoveredAll(hs, plus) == Some(hs) <==> forall i :: 0 <= i < |hs| ==> Plain(hs[i])
    decreases |hs|
  {
    hide Recovered, Plain;
    if hs != [] {
      AllSame(hs[1..], plus);
      assert hs == [hs[0]] + hs[1..];
      assert forall i :: 1 <= i < |hs| ==> hs[i] == hs[1..][i - 1];
      assert forall i :: 0 <= i < |hs| - 1 ==> hs[1..][i] == hs[i + 1];
      if hs[0].name != [] {
        RecoveredIsSame(hs[0], plus);
      } else {
        assert !Plain(hs[0]) by { NoName(hs[0]); }
      }
    }
  }

  lemma NoName(h: Header)
    requires h.name == []
    ensures !Plain(h)
  {
  }

  // ---------- the cut in http_handler ----------

  function LastIndexOf(s: string, c: char): (i: nat)
    ensures i <= |s| && (i < |s| ==> s[i] == c && forall k :: i < k < |s| ==> s[k] != c)
    ensures i == |s| ==> forall k :: 0 <= k < |s| ==> s[k] != c
  {
    if s == [] then 0
    else if s[|s| - 1] == c then |s| - 1
    else
      var i := LastIndexOf(s[..|s| - 1], c);
      if i == |s| - 1 then |s| else i
  }

  // What is copied to query_str, which holds 4096 bytes with the terminator
  function QueryCut(uri: string): Option<string> {
    var q := IndexOf(uri, '?');
    if q == |uri| then None
    else
      var s := uri[q + 1..];
      var e := LastIndexOf(s, '#');
      if e > 4095 then None else Some(s[..e])
  }

  // The query between the question mark and the fragment, if it fits
  lemma CutBack(path: string, query: string, fragment: Option<string>)
    requires '?' !in path && '#' !in query && (fragment.Some? ==> '#' !in fragment.value)
    ensures QueryCut(PutUri(path, query, fragment))
            == if |query| < 4096 then Some(query) else None
  {
    var tail := query + if fragment.Some? then "#" + fragment.value else "";
    var uri := PutUri(path, query, fragment);
    CutTail(query, fragment);
    assert tail[..|query|] == query;
    hide LastIndexOf, IndexOf;
    FirstAt(path, '?', tail);
    Parts(path, '?', tail);
  }

  lemma CutTail(query: string, fragment: Option<string>)
    requires '#' !in query && (fragment.Some? ==> '#' !in fragment.value)
    ensures LastIndexOf(query + if fragment.Some? then "#" + fragment.value else "", '#') == |query|
  {
    if fragment.Some? {
      LastAt(query, '#', fragment.value);
    } else {
      hide LastIndexOf;
      assert query + "" == query;
    }
  }

  lemma {:induction false} LastAt(before: string, c: char, after: string)
    requires c !in after
    ensures LastIndexOf(before + ([c] + after), c) == |before|
    decreases |after|
  {
    var s := before + ([c] + after);
    if after == [] {
      assert s[|s| - 1] == c;
    } else {
      var n := |after| - 1;
      assert s[|s| - 1] == after[n] && s[..|s| - 1] == before + ([c] + after[..n]);
      LastAt(before, c, after[..n]);
    }
  }

  predicate IsQueryChar(c: char) {
    IsEncoded(c) || c == '=' || c == '&'
  }

  lemma PairIsQuery(h: Header, plus: bool)
    ensures forall c :: c in PutPair(h, plus) ==> IsQueryChar(c)
  {
    EncodedChars(h.name, plus);
    EncodedChars(h.value, plus);
    hide Encode, IsEncoded;
  }

  lemma {:induction false} QueryChars(hs: seq<Header>, plus: bool)
    ensures forall c :: c in PutQuery(hs, plus) ==> IsQueryChar(c)
    decreases |hs|
  {
    hide PutPair, IsEncoded;
    if hs != [] {
      PairIsQuery(hs[0], plus);
      QueryChars(hs[1..], plus);
    }
  }

  lemma NoHashInQuery(hs: seq<Header>, plus: bool)
    ensures '#' !in PutQuery(hs, plus)
  {
    hide PutQuery;
    QueryChars(hs, plus);
  }

  function PutUri(path: string, query: string, fragment: Option<string>): string {
    path + ("?" + (query + if fragment.Some? then "#" + fragment.value else ""))
  }

  // From pairs to the URI of a request and back
  lemma SearchUriBack(path: string, hs: seq<Header>, plus: bool, fragment: Option<string>)
    requires ValueBytes(hs) && '?' !in path && (fragment.Some? ==> '#' !in fragment.value)
    ensures var cut := QueryCut(PutUri(path, PutQuery(hs, plus), fragment));
            && (cut.Some? <==> |PutQuery(hs, plus)| < 4096)
            && (cut.Some? ==> (ParseQuery(cut.value) == Some(hs) <==> forall i :: 0 <= i < |hs| ==> Plain(hs[i])))
  {
    NoHashInQuery(hs, plus);
    PairsBack(hs, plus);
    CutBack(path, PutQuery(hs, plus), fragment);
  }
}
