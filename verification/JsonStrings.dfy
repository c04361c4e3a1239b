/**
 * The bodies of JSON strings as decodeString of libjson/jsoncpp.cpp takes them: exactly the
 * sequences of bytes, one-letter escapes, \uXXXX units and pairs of units. What a piece stands
 * for is given by tables, without the decoding functions.
 */
module JsonStrings {
  import opened Wrappers
  import opened JsonText
  import opened HexTable
  import Seqs

  // A byte, the k-th one-letter escape, a 16-bit unit, or a high surrogate and any unit; `upper`
  // says which hexadecimal digits are in upper case.
  datatype PieceForm =
    | Copied(c: char)
    | Letter(k: nat)
    | Unit(n: nat, upper: seq<bool>)
    | Units(high: nat, highUpper: seq<bool>, low: nat, lowUpper: seq<bool>)

  const LETTERS := "\"\\/bfnrt"
  const MEANINGS := ['"', '\\', '/', '\U{0008}', '\U{000C}', '\n', '\r', '\t']

  predicate IsHighSurrogate(n: nat) {
    0xD800 <= n < 0xDC00
  }

  predicate ValidPiece(p: PieceForm) {
    match p
    case Copied(c) => c != '"' && c != '\\'
    case Letter(k) => k < |LETTERS|
    case Unit(n, upper) => n < 0x1_0000 && |upper| == 4 && !IsHighSurrogate(n)
    case Units(high, highUpper, low, lowUpper) =>
      IsHighSurrogate(high) && |highUpper| == 4 && low < 0x1_0000 && |lowUpper| == 4
  }

  type Piece = p: PieceForm | ValidPiece(p) witness Copied(' ')

  function HexText(n: nat, upper: seq<bool>): (s: string)
    requires n < 0x1_0000 && |upper| == 4
    ensures |s| == 4
  {
    [HexAt(n / 4096, upper[0]), HexAt(n / 256 % 16, upper[1]), HexAt(n / 16 % 16, upper[2]), HexAt(n % 16, upper[3])]
  }

  function PieceSpelled(p: Piece): (s: string)
    ensures s != []
  {
    match p
    case Copied(c) => [c]
    case Letter(k) => ['\\', LETTERS[k]]
    case Unit(n, upper) => "\\u" + HexText(n, upper)
    case Units(high, highUpper, low, lowUpper) => "\\u" + HexText(high, highUpper) + ("\\u" + HexText(low, lowUpper))
  }

  function PieceText(p: Piece): string
  {
    match p
    case Copied(c) => [c]
    case Letter(k) => [MEANINGS[k]]
    case Unit(n, _) => CodePointToUTF8(n)
    case Units(high, _, low, _) => CodePointToUTF8(0x1_0000 + (high - 0xD800) * 0x400 + low % 0x400)
  }

  function PiecesSpelled(ps: seq<Piece>): string
  {
    if ps == [] then [] else PieceSpelled(ps[0]) + PiecesSpelled(ps[1..])
  }

  function PiecesText(ps: seq<Piece>): string
  {
    if ps == [] then [] else PieceText(ps[0]) + PiecesText(ps[1..])
  }

  // ---------- hexadecimal digits ----------

  lemma DigitBack(d: nat, upper: bool)
    requires d < 16
    ensures HexValue(HexAt(d, upper)) == d
  {
  }

  lemma DigitTaken(c: char) returns (upper: bool)
    requires HexValue(c) < 16
    ensures HexAt(HexValue(c), upper) == c
  {
    upper := c < 'a';
  }

  lemma HexSum(n: nat)
    requires n < 0x1_0000
    ensures n / 4096 < 16 && ((n / 4096 * 16 + n / 256 % 16) * 16 + n / 16 % 16) * 16 + n % 16 == n
  {
  }

  lemma HexParts(a: nat, b: nat, c: nat, d: nat)
    requires a < 16 && b < 16 && c < 16 && d < 16
    ensures var n := ((a * 16 + b) * 16 + c) * 16 + d;
            n / 4096 == a && n / 256 % 16 == b && n / 16 % 16 == c && n % 16 == d && n < 0x1_0000
  {
  }

  lemma DigitsUnfold(body: string, i: nat)
    requires i + 4 <= |body|
    ensures HexQuad(body, i).CodePoint? <==>
            HexValue(body[i]) < 16 && HexValue(body[i + 1]) < 16 && HexValue(body[i + 2]) < 16 && HexValue(body[i + 3]) < 16
    ensures HexQuad(body, i).CodePoint? ==>
            HexQuad(body, i).cp
            == ((HexValue(body[i]) * 16 + HexValue(body[i + 1])) * 16 + HexValue(body[i + 2])) * 16 + HexValue(body[i + 3])
  {
    hide HexValue;
    var a, b, c := HexValue(body[i]), HexValue(body[i + 1]), HexValue(body[i + 2]);
    if a < 16 {
      assert HexDigits(body, i, 0, 0) == HexDigits(body, i + 1, 1, a);
      if b < 16 {
        assert HexDigits(body, i + 1, 1, a) == HexDigits(body, i + 2, 2, a * 16 + b);
        if c < 16 {
          assert HexDigits(body, i + 2, 2, a * 16 + b) == HexDigits(body, i + 3, 3, (a * 16 + b) * 16 + c);
        }
      }
    }
  }

  lemma QuadBack(body: string, i: nat, n: nat, upper: seq<bool>)
    requires n < 0x1_0000 && |upper| == 4 && At(body, i, HexText(n, upper))
    ensures HexQuad(body, i) == CodePoint(n, i + 4)
  {
    var s := HexText(n, upper);
    hide HexQuad, HexValue, HexAt;
    QuadChars(body, i, s);
    HexSum(n);
    DigitBack(n / 4096, upper[0]);
    DigitBack(n / 256 % 16, upper[1]);
    DigitBack(n / 16 % 16, upper[2]);
    DigitBack(n % 16, upper[3]);
    DigitsUnfold(body, i);
  }

  lemma QuadChars(body: string, i: nat, s: string)
    requires At(body, i, s) && |s| == 4
    ensures i + 4 <= |body| && body[i] == s[0] && body[i + 1] == s[1] && body[i + 2] == s[2] && body[i + 3] == s[3]
  {
    AtIndex(body, i, s, 0);
    AtIndex(body, i, s, 1);
    AtIndex(body, i, s, 2);
    AtIndex(body, i, s, 3);
  }

  lemma QuadTaken(body: string, i: nat) returns (upper: seq<bool>)
    requires i <= |body| && HexQuad(body, i).CodePoint?
    ensures |upper| == 4 && At(body, i, HexText(HexQuad(body, i).cp, upper))
  {
    hide HexValue, HexAt;
    DigitsUnfold(body, i);
    var a, b, c, d := HexValue(body[i]), HexValue(body[i + 1]), HexValue(body[i + 2]), HexValue(body[i + 3]);
    HexParts(a, b, c, d);
    hide HexQuad;
    var u0 := DigitTaken(body[i]);
    var u1 := DigitTaken(body[i + 1]);
    var u2 := DigitTaken(body[i + 2]);
    var u3 := DigitTaken(body[i + 3]);
    upper := [u0, u1, u2, u3];
    assert body[i..i + 4] == [body[i], body[i + 1], body[i + 2], body[i + 3]];
  }

  // ---------- one piece ----------

  lemma LetterBack(k: nat)
    requires k < |LETTERS|
    ensures ShortEscape(LETTERS[k]) == Some(MEANINGS[k]) && LETTERS[k] != 'u'
  {
  }

  lemma LetterTaken(c: char) returns (k: nat)
    requires ShortEscape(c).Some?
    ensures k < |LETTERS| && LETTERS[k] == c
  {
    k := if c == '"' then 0 else if c == '\\' then 1 else if c == '/' then 2 else if c == 'b' then 3
         else if c == 'f' then 4 else if c == 'n' then 5 else if c == 'r' then 6 else 7;
  }

  lemma UnitsLayout(body: string, i: nat, s: string, t: string)
    requires |s| == 4 && |t| == 4
    ensures At(body, i, "\\u" + s + ("\\u" + t)) <==>
            && i + 12 <= |body| && body[i] == '\\' && body[i + 1] == 'u' && At(body, i + 2, s)
            && body[i + 6] == '\\' && body[i + 7] == 'u' && At(body, i + 8, t)
  {
    UnitLayout(body, i, s);
    UnitLayout(body, i + 6, t);
    var a, b := "\\u" + s, "\\u" + t;
    if At(body, i, a + b) {
      AtConcat(body, i, a, b);
    } else if At(body, i, a) && At(body, i + 6, b) {
      AtJoined(body, i, a, b);
    }
  }

  lemma AtJoined(body: string, i: nat, a: string, b: string)
    requires At(body, i, a) && At(body, i + |a|, b)
    ensures At(body, i, a + b)
  {
    assert body[i..i + |a + b|] == body[i..i + |a|] + body[i + |a|..i + |a| + |b|];
  }

  lemma UnitLayout(body: string, i: nat, s: string)
    ensures At(body, i, "\\u" + s) <==> i + 1 < |body| && body[i] == '\\' && body[i + 1] == 'u' && At(body, i + 2, s)
  {
    if At(body, i, "\\u" + s) {
      AtConcat(body, i, "\\u", s);
      AtIndex(body, i, "\\u", 0);
      AtIndex(body, i, "\\u", 1);
    } else if i + 1 < |body| && body[i] == '\\' && body[i + 1] == 'u' && At(body, i + 2, s) {
      assert body[i..i + 2] == "\\u";
      AtJoined(body, i, "\\u", s);
    }
  }

  lemma CopiedUnfold(body: string, i: nat)
    requires i < |body| && body[i] != '"' && body[i] != '\\'
    ensures Unescape(body, i) == Prepend([body[i]], Unescape(body, i + 1))
  {
  }

  lemma EscapeUnfold(body: string, i: nat)
    requires i < |body| && body[i] == '\\'
    ensures var e := EscapeAt(body, i);
            Unescape(body, i) == if e.BadEscapeText? then Bad(e.why, e.extra) else Prepend(e.text, Unescape(body, e.next))
  {
    hide EscapeAt;
  }

  lemma PairUnfold(body: string, i: nat)
    requires i + 12 <= |body| && body[i + 6] == '\\' && body[i + 7] == 'u'
    requires HexQuad(body, i + 2).CodePoint? && IsHighSurrogate(HexQuad(body, i + 2).cp) && HexQuad(body, i + 8).CodePoint?
    ensures UnicodeCodePoint(body, i + 2)
            == CodePoint(0x1_0000 + (HexQuad(body, i + 2).cp - 0xD800) * 0x400 + HexQuad(body, i + 8).cp % 0x400, i + 12)
  {
    hide HexQuad;
    assert HexQuad(body, i + 2).cp % 1024 == HexQuad(body, i + 2).cp - 0xD800;
  }

  lemma EscapedBack(body: string, i: nat, p: Piece)
    requires !p.Copied? && At(body, i, PieceSpelled(p))
    ensures i < |body| && body[i] == '\\' && EscapeAt(body, i) == EscapeText(PieceText(p), i + |PieceSpelled(p)|)
  {
    hide HexText, HexQuad, CodePointToUTF8, At, ShortEscape;
    match p
    case Letter(k) =>
      LetterBack(k);
      AtIndex(body, i, PieceSpelled(p), 0);
      AtIndex(body, i, PieceSpelled(p), 1);
    case Unit(n, upper) =>
      UnitLayout(body, i, HexText(n, upper));
      QuadBack(body, i + 2, n, upper);
    case Units(high, highUpper, low, lowUpper) =>
      UnitsLayout(body, i, HexText(high, highUpper), HexText(low, lowUpper));
      QuadBack(body, i + 2, high, highUpper);
      QuadBack(body, i + 8, low, lowUpper);
      PairUnfold(body, i);
  }

  lemma PieceBack(body: string, i: nat, p: Piece)
    requires At(body, i, PieceSpelled(p))
    ensures Unescape(body, i) == Prepend(PieceText(p), Unescape(body, i + |PieceSpelled(p)|))
  {
    hide Unescape, EscapeAt;
    if p.Copied? {
      AtIndex(body, i, [p.c], 0);
      CopiedUnfold(body, i);
    } else {
      EscapedBack(body, i, p);
      hide At, PieceSpelled;
      EscapeUnfold(body, i);
    }
  }

  lemma EscapedTaken(body: string, i: nat) returns (p: Piece)
    requires i < |body| && body[i] == '\\' && EscapeAt(body, i).EscapeText?
    ensures !p.Copied? && At(body, i, PieceSpelled(p))
  {
    hide HexText, HexQuad, CodePointToUTF8, ShortEscape;
    if body[i + 1] != 'u' {
      var k := LetterTaken(body[i + 1]);
      p := Letter(k);
      assert body[i..i + 2] == ['\\', body[i + 1]];
    } else {
      hide At;
      var first := HexQuad(body, i + 2);
      var upper := QuadTaken(body, i + 2);
      if IsHighSurrogate(first.cp) {
        var lowUpper := QuadTaken(body, i + 8);
        p := Units(first.cp, upper, HexQuad(body, i + 8).cp, lowUpper);
        UnitsLayout(body, i, HexText(first.cp, upper), HexText(p.low, lowUpper));
      } else {
        p := Unit(first.cp, upper);
        UnitLayout(body, i, HexText(first.cp, upper));
      }
    }
  }

  lemma PieceTaken(body: string, i: nat) returns (p: Piece)
    requires i < |body| && body[i] != '"' && Unescape(body, i).Decoded?
    ensures At(body, i, PieceSpelled(p))
  {
    hide Unescape, EscapeAt;
    if body[i] == '\\' {
      EscapeUnfold(body, i);
      p := EscapedTaken(body, i);
    } else {
      p := Copied(body[i]);
      assert body[i..i + 1] == [body[i]];
    }
  }

  // ---------- whole bodies ----------

  lemma {:induction false} PiecesBack(body: string, i: nat, ps: seq<Piece>)
    requires At(body, i, PiecesSpelled(ps)) && i + |PiecesSpelled(ps)| == |body|
    ensures Unescape(body, i) == Decoded(PiecesText(ps))
    decreases |ps|
  {
    hide At, PieceSpelled, PieceText;
    if ps != [] {
      AtConcat(body, i, PieceSpelled(ps[0]), PiecesSpelled(ps[1..]));
      PieceBack(body, i, ps[0]);
      PiecesBack(body, i + |PieceSpelled(ps[0])|, ps[1..]);
    }
  }

  lemma {:induction false} PiecesTaken(body: string, i: nat) returns (ps: seq<Piece>)
    requires i <= |body| && Closed(body[i..]) && Unescape(body, i).Decoded?
    ensures PiecesSpelled(ps) == body[i..]
    decreases |body| - i
  {
    hide Unescape, Closed, PieceSpelled, At;
    if i == |body| {
      ps := [];
    } else {
      ClosedHead(body[i..]);
      var p := PieceTaken(body, i);
      PieceBack(body, i, p);
      AtLength(body, i, PieceSpelled(p));
      var j := i + |PieceSpelled(p)|;
      ClosedRest(p, body, i);
      var rest := PiecesTaken(body, j);
      ps := [p] + rest;
      assert ps[1..] == rest;
      assert body[i..] == body[i..j] + body[j..];
    }
  }

  lemma AtLength(body: string, i: nat, s: string)
    requires At(body, i, s)
    ensures i + |s| <= |body| && body[i..i + |s|] == s
  {
  }

  lemma ClosedHead(s: string)
    requires Closed(s) && s != ""
    ensures s[0] != '"'
  {
  }

  lemma {:induction false} ClosedBehind(raw: string, s: string)
    requires NoQuoting(raw) && Closed(raw + s)
    ensures Closed(s)
  {
    if raw == "" {
      assert raw + s == s;
    } else {
      Dropped(raw, 1, s);
      ClosedBehind(raw[1..], s);
    }
  }

  lemma HexTextPlain(n: nat, upper: seq<bool>)
    requires n < 0x1_0000 && |upper| == 4
    ensures NoQuoting(HexText(n, upper))
  {
    DigitPlain(n / 4096, upper[0]);
    DigitPlain(n / 256 % 16, upper[1]);
    DigitPlain(n / 16 % 16, upper[2]);
    DigitPlain(n % 16, upper[3]);
  }

  lemma DigitPlain(d: nat, upper: bool)
    requires d < 16
    ensures HexAt(d, upper) != '"' && HexAt(d, upper) != '\\'
  {
  }

  lemma UnitClosed(n: nat, upper: seq<bool>, s: string)
    requires n < 0x1_0000 && |upper| == 4
    ensures Closed("\\u" + HexText(n, upper) + s) <==> Closed(s)
  {
    var t := HexText(n, upper);
    HexTextPlain(n, upper);
    hide HexText;
    assert ("\\u" + t + s)[2..] == t + s && ("\\u" + t + s)[0] == '\\';
    assert Closed("\\u" + t + s) == Closed(t + s);
    hide Closed;
    if Closed(s) {
      PlainIsClosed(t);
      ClosedConcat(t, s);
    }
    if Closed(t + s) {
      ClosedBehind(t, s);
    }
  }

  lemma PieceClosed(p: Piece, s: string)
    ensures Closed(PieceSpelled(p) + s) <==> Closed(s)
  {
    match p
    case Copied(c) => assert ([c] + s)[1..] == s;
    case Letter(k) => assert (['\\', LETTERS[k]] + s)[2..] == s;
    case Unit(n, upper) =>
      hide Closed;
      UnitClosed(n, upper, s);
    case Units(high, highUpper, low, lowUpper) =>
      hide Closed, HexText;
      var a, b := "\\u" + HexText(high, highUpper), "\\u" + HexText(low, lowUpper);
      Seqs.Associative(a, b, s);
      UnitClosed(high, highUpper, b + s);
      UnitClosed(low, lowUpper, s);
  }

  lemma ClosedRest(p: Piece, body: string, i: nat)
    requires At(body, i, PieceSpelled(p)) && i <= |body| && Closed(body[i..])
    ensures i + |PieceSpelled(p)| <= |body| && Closed(body[i + |PieceSpelled(p)|..])
  {
    hide Closed, PieceSpelled;
    var j := i + |PieceSpelled(p)|;
    assert body[i..] == body[i..j] + body[j..];
    PieceClosed(p, body[j..]);
  }

  lemma {:induction false} PiecesClosed(ps: seq<Piece>)
    ensures Closed(PiecesSpelled(ps))
  {
    hide PieceSpelled;
    if ps != [] {
      PiecesClosed(ps[1..]);
      hide Closed;
      PieceClosed(ps[0], PiecesSpelled(ps[1..]));
    }
  }

  // `body` is written as the pieces `ps`.
  ghost predicate Writes(ps: seq<Piece>, body: string) {
    PiecesSpelled(ps) == body
  }

  // A body without an inner quote is decoded if and only if it is a sequence of pieces, and then
  // to the text of any such sequence.
  lemma BodyExact(body: string)
    ensures Closed(body) && Unescape(body, 0).Decoded? <==> exists ps :: Writes(ps, body)
    ensures forall ps :: Writes(ps, body) ==> Unescape(body, 0) == Decoded(PiecesText(ps))
  {
    hide Closed, Unescape, PiecesSpelled, PiecesText;
    forall ps | Writes(ps, body) ensures Closed(body) && Unescape(body, 0) == Decoded(PiecesText(ps)) {
      PiecesClosed(ps);
      assert body[0..|body|] == body;
      PiecesBack(body, 0, ps);
    }
    if Closed(body) && Unescape(body, 0).Decoded? {
      assert body[0..] == body;
      var ps := PiecesTaken(body, 0);
      assert Writes(ps, body);
    }
  }

  // A unit that is no scalar value (a low surrogate alone) is written in three groups of bits,
  // like those that are.
  lemma LoneSurrogate(n: nat)
    requires 0x800 <= n < 0x1_0000
    ensures var s := CodePointToUTF8(n);
            && |s| == 3 && 0xE0 <= s[0] as int <= 0xEF && IsTail(s[1]) && IsTail(s[2])
            && (s[0] as int - 0xE0) * 4096 + (s[1] as int - 0x80) * 64 + (s[2] as int - 0x80) == n
  {
    assert (n / 64 / 64 * 64 + n / 64 % 64) * 64 + n % 64 == n;
  }
}
