/**
 * The tokens of `Json::Reader` (libjson/jsoncpp.cpp) as texts. A text that stands at the next
 * position that is no white space is read as one token of its kind, and every token that is read
 * is such a text: punctuation, words, numerals, strings and comments, and for everything else
 * what readToken takes for an error.
 */
module JsonLexemes {
  import opened Wrappers
  import opened JsonText
  import opened JsonGrammar
  import Seqs

  const BLANKS := " \t\r\n"
  const NUMBER_CHARS := "0123456789.eE+-"
  const NUMBER_STARTS := "0123456789-"

  predicate BeginsNumeral(c: char) {
    c in NUMBER_STARTS
  }

  predicate InNumeral(c: char) {
    c in NUMBER_CHARS
  }

  predicate IsNumeral(t: string) {
    t != "" && BeginsNumeral(t[0]) && forall k :: 0 <= k < |t| ==> InNumeral(t[k])
  }

  lemma CharTables(c: char)
    ensures IsSpace(c) <==> c in BLANKS
    ensures IsNumberChar(c) <==> InNumeral(c)
    ensures IsDigit(c) || c == '-' <==> BeginsNumeral(c)
  {
  }

  // ---------- token texts in a document ----------

  // From `pos` to `end`, `doc` is white space in front of each of the texts `ts`, and no
  // numeral runs into what follows it.
  predicate Covers(doc: string, pos: nat, ts: seq<string>, end: nat)
    requires pos <= |doc|
    decreases |ts|
  {
    if ts == [] then end == pos
    else
      var p := SkipSpaces(doc, pos);
      var q := p + |ts[0]|;
      && ts[0] != "" && At(doc, p, ts[0])
      && (BeginsNumeral(ts[0][0]) ==> q == |doc| || !InNumeral(doc[q]))
      && Covers(doc, q, ts[1..], end)
  }

  lemma First(doc: string, pos: nat, ts: seq<string>, end: nat)
    requires pos <= |doc| && ts != [] && Covers(doc, pos, ts, end)
    ensures var p := SkipSpaces(doc, pos);
            var q := p + |ts[0]|;
            && ts[0] != "" && p < q <= |doc| && At(doc, p, ts[0]) && doc[p] == ts[0][0]
            && (BeginsNumeral(ts[0][0]) ==> q == |doc| || !InNumeral(doc[q]))
            && Covers(doc, q, ts[1..], end)
  {
    AtIndex(doc, SkipSpaces(doc, pos), ts[0], 0);
  }

  lemma Cons(doc: string, pos: nat, ts: seq<string>, end: nat)
    requires pos <= |doc| && ts != []
    requires var p := SkipSpaces(doc, pos);
             var q := p + |ts[0]|;
             && ts[0] != "" && At(doc, p, ts[0])
             && (BeginsNumeral(ts[0][0]) ==> q == |doc| || !InNumeral(doc[q]))
             && Covers(doc, q, ts[1..], end)
    ensures Covers(doc, pos, ts, end)
  {
    hide SkipSpaces;
  }

  lemma One(doc: string, pos: nat, t: string, end: nat)
    requires pos <= |doc| && Covers(doc, pos, [t], end)
    ensures var p := SkipSpaces(doc, pos);
            && t != "" && end == p + |t| && p < end <= |doc| && At(doc, p, t) && doc[p] == t[0]
            && (BeginsNumeral(t[0]) ==> end == |doc| || !InNumeral(doc[end]))
  {
    hide SkipSpaces, At;
    First(doc, pos, [t], end);
    assert [t][1..] == [];
  }

  lemma {:induction false} CoversBounds(doc: string, pos: nat, ts: seq<string>, end: nat)
    requires pos <= |doc| && Covers(doc, pos, ts, end)
    ensures pos <= end <= |doc| && (ts != [] ==> pos < end)
    decreases |ts|
  {
    hide At, SkipSpaces;
    if ts != [] {
      First(doc, pos, ts, end);
      CoversBounds(doc, SkipSpaces(doc, pos) + |ts[0]|, ts[1..], end);
    }
  }

  lemma {:induction false} Split(doc: string, pos: nat, a: seq<string>, b: seq<string>, end: nat) returns (m: nat)
    requires pos <= |doc| && Covers(doc, pos, a + b, end)
    ensures pos <= m <= end <= |doc| && Covers(doc, pos, a, m) && Covers(doc, m, b, end)
    ensures a != [] ==> pos < m
    decreases |a|
  {
    hide At, SkipSpaces, Covers, BeginsNumeral, InNumeral;
    if a == [] {
      assert a + b == b;
      CoversBounds(doc, pos, b, end);
      NothingCovered(doc, pos);
      m := pos;
    } else {
      Seqs.HeadTailConcat(a, b);
      First(doc, pos, a + b, end);
      m := Split(doc, SkipSpaces(doc, pos) + |a[0]|, a[1..], b, end);
      Cons(doc, pos, a, m);
    }
  }

  lemma {:induction false} Joined(doc: string, pos: nat, a: seq<string>, m: nat, b: seq<string>, end: nat)
    requires pos <= |doc| && m <= |doc| && Covers(doc, pos, a, m) && Covers(doc, m, b, end)
    ensures Covers(doc, pos, a + b, end)
    decreases |a|
  {
    hide At, SkipSpaces, Covers, BeginsNumeral, InNumeral;
    if a == [] {
      assert a + b == b;
      NoneLeft(doc, pos, m);
    } else {
      Seqs.HeadTailConcat(a, b);
      First(doc, pos, a, m);
      Joined(doc, SkipSpaces(doc, pos) + |a[0]|, a[1..], m, b, end);
      Cons(doc, pos, a + b, end);
    }
  }

  lemma NothingCovered(doc: string, pos: nat)
    requires pos <= |doc|
    ensures Covers(doc, pos, [], pos)
  {
  }

  lemma NoneLeft(doc: string, pos: nat, end: nat)
    requires pos <= |doc| && Covers(doc, pos, [], end)
    ensures pos == end
  {
  }

  // A text that is no numeral, at the next position that is no white space
  lemma StandsAt(doc: string, pos: nat, t: string)
    requires pos <= |doc| && At(doc, SkipSpaces(doc, pos), t) && t != "" && !BeginsNumeral(t[0])
    ensures Covers(doc, pos, [t], SkipSpaces(doc, pos) + |t|)
  {
    hide SkipSpaces, Covers, At, BeginsNumeral, InNumeral;
    var end := SkipSpaces(doc, pos) + |t|;
    AtEnds(doc, SkipSpaces(doc, pos), t);
    NothingCovered(doc, end);
    assert [t][1..] == [];
    Cons(doc, pos, [t], end);
  }

  lemma AtEnds(doc: string, p: nat, t: string)
    requires At(doc, p, t)
    ensures p + |t| <= |doc|
  {
  }

  // White space before the first text makes no difference.
  lemma FromToken(doc: string, pos: nat, ts: seq<string>, end: nat)
    requires pos <= |doc| && ts != []
    ensures Covers(doc, SkipSpaces(doc, pos), ts, end) <==> Covers(doc, pos, ts, end)
  {
    SkipTwice(doc, pos);
  }

  lemma SkipTwice(doc: string, pos: nat)
    requires pos <= |doc|
    ensures SkipSpaces(doc, SkipSpaces(doc, pos)) == SkipSpaces(doc, pos)
  {
  }

  // ---------- punctuation ----------

  function PunctuationKind(c: char): TokenKind {
    match c
    case '{' => ObjectBegin
    case '}' => ObjectEnd
    case '[' => ArrayBegin
    case ']' => ArrayEnd
    case ',' => ArraySeparator
    case ':' => MemberSeparator
    case _ => ErrorToken
  }

  lemma PunctuationKinds()
    ensures PunctuationKind('{') == ObjectBegin && PunctuationKind('}') == ObjectEnd
    ensures PunctuationKind('[') == ArrayBegin && PunctuationKind(']') == ArrayEnd
    ensures PunctuationKind(',') == ArraySeparator && PunctuationKind(':') == MemberSeparator
  {
  }

  lemma PunctuationTaken(doc: string, pos: nat, c: char, end: nat)
    requires pos <= |doc| && PunctuationKind(c) != ErrorToken && Covers(doc, pos, [[c]], end)
    ensures ReadToken(doc, pos) == NextToken(doc, pos) == Token(PunctuationKind(c), SkipSpaces(doc, pos), end)
    ensures SkipSpaces(doc, pos) < |doc| && doc[SkipSpaces(doc, pos)] == c && end == SkipSpaces(doc, pos) + 1
  {
    hide At;
    One(doc, pos, [c], end);
  }

  lemma PunctuationRead(doc: string, pos: nat, c: char)
    requires pos <= |doc| && PunctuationKind(c) != ErrorToken && ReadToken(doc, pos).kind == PunctuationKind(c)
    ensures Covers(doc, pos, [[c]], ReadToken(doc, pos).end)
  {
    hide ReadToken, SkipSpaces;
    var p := SkipSpaces(doc, pos);
    PunctuationShape(doc, pos, c);
    assert doc[p..p + 1] == [c];
    assert [[c]][1..] == [];
  }

  lemma PunctuationShape(doc: string, pos: nat, c: char)
    requires pos <= |doc| && PunctuationKind(c) != ErrorToken && ReadToken(doc, pos).kind == PunctuationKind(c)
    ensures var p := SkipSpaces(doc, pos);
            p < |doc| && doc[p] == c && ReadToken(doc, pos).end == p + 1 && !BeginsNumeral(c)
  {
    hide SkipSpaces, SkipNumber, StringEnd, CommentEnd, Matches;
  }

  // ---------- words ----------

  function WordKind(word: string): TokenKind {
    if word == "null" then NullToken else if word == "true" then TrueToken else if word == "false" then FalseToken else ErrorToken
  }

  lemma WordTaken(doc: string, pos: nat, word: string, end: nat)
    requires pos <= |doc| && word in {"null", "true", "false"} && Covers(doc, pos, [word], end)
    ensures ReadToken(doc, pos) == NextToken(doc, pos) == Token(WordKind(word), SkipSpaces(doc, pos), end)
  {
    hide ReadToken, NextToken, SkipSpaces, At;
    One(doc, pos, word, end);
    var p := SkipSpaces(doc, pos);
    var c, more := word[0], word[1..];
    assert word == [c] + more;
    AtConcat(doc, p, [c], more);
    AtMatches(doc, p + 1, more);
    hide Matches;
    if word == "null" {
      assert more == "ull";
    } else if word == "true" {
      assert more == "rue";
    } else {
      assert more == "alse";
    }
    LiteralToken(doc, pos, c, more);
  }

  lemma AtMatches(doc: string, pos: nat, more: string)
    ensures At(doc, pos, more) == Matches(doc, pos, more)
  {
  }

  lemma LiteralToken(doc: string, pos: nat, c: char, more: string)
    requires pos <= |doc| && (c, more) in {('n', "ull"), ('t', "rue"), ('f', "alse")}
    requires var p := SkipSpaces(doc, pos); p < |doc| && doc[p] == c
    ensures var p := SkipSpaces(doc, pos);
            var t := ReadToken(doc, pos);
            && t == NextToken(doc, pos) && t.start == p
            && t.kind == (if Matches(doc, p + 1, more) then WordKind([c] + more) else ErrorToken)
            && t.end == (if Matches(doc, p + 1, more) then p + 1 + |more| else p + 1)
  {
    LiteralWord(c, more);
    hide SkipSpaces, Matches;
  }

  lemma LiteralWord(c: char, more: string)
    requires (c, more) in {('n', "ull"), ('t', "rue"), ('f', "alse")}
    ensures [c] + more in {"null", "true", "false"}
    ensures WordKind([c] + more) == if c == 'n' then NullToken else if c == 't' then TrueToken else FalseToken
  {
    assert [c] + more == if c == 'n' then "null" else if c == 't' then "true" else "false";
  }

  lemma WordRead(doc: string, pos: nat) returns (word: string)
    requires pos <= |doc| && ReadToken(doc, pos).kind in {NullToken, TrueToken, FalseToken}
    ensures word in {"null", "true", "false"} && WordKind(word) == ReadToken(doc, pos).kind
    ensures Covers(doc, pos, [word], ReadToken(doc, pos).end)
  {
    var kind := ReadToken(doc, pos).kind;
    var p := SkipSpaces(doc, pos);
    WordStart(doc, pos);
    var c := doc[p];
    hide ReadToken, NextToken, SkipSpaces;
    var more := if c == 'n' then "ull" else if c == 't' then "rue" else "alse";
    LiteralToken(doc, pos, c, more);
    LiteralWord(c, more);
    word := [c] + more;
    WordCovered(doc, pos, c, more);
  }

  lemma WordCovered(doc: string, pos: nat, c: char, more: string)
    requires pos <= |doc| && c in {'n', 't', 'f'}
    requires var p := SkipSpaces(doc, pos);
             p < |doc| && doc[p] == c && Matches(doc, p + 1, more)
    ensures Covers(doc, pos, [[c] + more], SkipSpaces(doc, pos) + 1 + |more|)
  {
    hide *;
    WordText(doc, SkipSpaces(doc, pos), c, more);
    WordNoNumber(c, more);
    StandsAt(doc, pos, [c] + more);
  }

  lemma WordNoNumber(c: char, more: string)
    requires c in {'n', 't', 'f'}
    ensures var word := [c] + more; word != "" && !BeginsNumeral(word[0]) && |word| == 1 + |more|
  {
  }

  lemma WordText(doc: string, p: nat, c: char, more: string)
    requires p < |doc| && doc[p] == c && Matches(doc, p + 1, more)
    ensures At(doc, p, [c] + more)
  {
    assert doc[p..p + 1 + |more|] == [doc[p]] + doc[p + 1..p + 1 + |more|];
  }

  lemma WordStart(doc: string, pos: nat)
    requires pos <= |doc|
    ensures var p := SkipSpaces(doc, pos);
            ReadToken(doc, pos).kind in {NullToken, TrueToken, FalseToken} ==> p < |doc| && doc[p] in {'n', 't', 'f'}
    ensures ReadToken(doc, pos).start == SkipSpaces(doc, pos)
  {
    hide SkipSpaces, Matches, StringEnd, CommentEnd, SkipNumber;
  }

  // ---------- numerals ----------

  lemma {:induction false} SkipNumberExact(doc: string, pos: nat, end: nat)
    requires pos <= end <= |doc|
    requires forall k :: pos <= k < end ==> InNumeral(doc[k])
    requires end == |doc| || !InNumeral(doc[end])
    ensures SkipNumber(doc, pos) == end
    decreases end - pos
  {
    if pos < end {
      CharTables(doc[pos]);
      SkipNumberExact(doc, pos + 1, end);
    } else if pos < |doc| {
      CharTables(doc[pos]);
    }
  }

  lemma {:induction false} SkipNumberStops(doc: string, pos: nat)
    requires pos <= |doc|
    ensures var end := SkipNumber(doc, pos);
            && (forall k :: pos <= k < end ==> InNumeral(doc[k])) && (end == |doc| || !InNumeral(doc[end]))
    decreases |doc| - pos
  {
    if pos < |doc| {
      CharTables(doc[pos]);
      if IsNumberChar(doc[pos]) {
        SkipNumberStops(doc, pos + 1);
      }
    }
  }

  lemma NumberAt(doc: string, pos: nat)
    requires pos <= |doc|
    ensures var p := SkipSpaces(doc, pos);
            p < |doc| && BeginsNumeral(doc[p])
            ==> ReadToken(doc, pos) == NextToken(doc, pos) == Token(NumberToken, p, SkipNumber(doc, p + 1))
    ensures var p := SkipSpaces(doc, pos);
            ReadToken(doc, pos).kind == NumberToken ==> p < |doc| && BeginsNumeral(doc[p])
  {
    hide SkipSpaces, SkipNumber, StringEnd, CommentEnd, Matches;
    var p := SkipSpaces(doc, pos);
    if p < |doc| {
      CharTables(doc[p]);
    }
  }

  lemma NumeralTaken(doc: string, pos: nat, t: string, end: nat)
    requires pos <= |doc| && IsNumeral(t) && Covers(doc, pos, [t], end)
    ensures ReadToken(doc, pos) == NextToken(doc, pos) == Token(NumberToken, SkipSpaces(doc, pos), end)
    ensures end <= |doc| && TokenText(doc, ReadToken(doc, pos)) == t
  {
    hide ReadToken, NextToken, SkipSpaces, Covers, SkipNumber;
    One(doc, pos, t, end);
    var p := SkipSpaces(doc, pos);
    NumberAt(doc, pos);
    forall k | p + 1 <= k < end ensures InNumeral(doc[k]) {
      AtIndex(doc, p, t, k - p);
    }
    SkipNumberExact(doc, p + 1, end);
  }

  lemma NumeralRead(doc: string, pos: nat)
    requires pos <= |doc| && ReadToken(doc, pos).kind == NumberToken
    ensures var t := ReadToken(doc, pos);
            IsNumeral(TokenText(doc, t)) && Covers(doc, pos, [TokenText(doc, t)], t.end)
  {
    hide ReadToken, NextToken, SkipSpaces, SkipNumber, Covers, BeginsNumeral, InNumeral;
    NumberAt(doc, pos);
    var p := SkipSpaces(doc, pos);
    var end := SkipNumber(doc, p + 1);
    SkipNumberStops(doc, p + 1);
    NumeralCovered(doc, pos, end);
  }

  lemma NumeralCovered(doc: string, pos: nat, end: nat)
    requires pos <= |doc|
    requires var p := SkipSpaces(doc, pos);
             && p < end <= |doc| && BeginsNumeral(doc[p]) && (forall k :: p < k < end ==> InNumeral(doc[k]))
             && (end == |doc| || !InNumeral(doc[end]))
    ensures var t := doc[SkipSpaces(doc, pos)..end];
            IsNumeral(t) && Covers(doc, pos, [t], end)
  {
    hide SkipSpaces, Covers, BeginsNumeral, InNumeral;
    var p := SkipSpaces(doc, pos);
    var t := doc[p..end];
    assert t[0] == doc[p] && forall k :: 0 < k < |t| ==> t[k] == doc[p + k];
    StartIsNumberChar(t[0]);
    NothingCovered(doc, end);
    assert [t][1..] == [];
    Cons(doc, pos, [t], end);
  }

  lemma StartIsNumberChar(c: char)
    requires BeginsNumeral(c)
    ensures InNumeral(c)
  {
  }

  // ---------- strings ----------

  lemma AtSuffix(doc: string, pos: nat, piece: string, k: nat)
    requires At(doc, pos, piece) && k <= |piece|
    ensures At(doc, pos + k, piece[k..])
  {
    assert piece[..k] + piece[k..] == piece;
    AtConcat(doc, pos, piece[..k], piece[k..]);
  }

  lemma {:induction false} StringEndsAt(doc: string, pos: nat, body: string)
    requires At(doc, pos, body) && Closed(body)
    requires pos + |body| < |doc| && doc[pos + |body|] == '"'
    ensures StringEnd(doc, pos) == (true, pos + |body| + 1)
    decreases |body|
  {
    if body != "" {
      AtIndex(doc, pos, body, 0);
      if body[0] == '\\' {
        AtSuffix(doc, pos, body, 2);
        StringEndsAt(doc, pos + 2, body[2..]);
      } else {
        AtSuffix(doc, pos, body, 1);
        StringEndsAt(doc, pos + 1, body[1..]);
      }
    }
  }

  lemma {:induction false} StringEndFound(doc: string, pos: nat)
    requires pos <= |doc|
    ensures var (ok, end) := StringEnd(doc, pos);
            && (ok ==> pos < end <= |doc| && doc[end - 1] == '"' && Closed(doc[pos..end - 1]))
            && (!ok ==> end == |doc|)
    decreases |doc| - pos
  {
    if pos < |doc| {
      if doc[pos] == '\\' {
        var next := Next(doc, pos + 1);
        StringEndFound(doc, next);
        var (ok, end) := StringEnd(doc, next);
        if ok {
          assert doc[pos..end - 1][2..] == doc[next..end - 1];
        }
      } else if doc[pos] != '"' {
        StringEndFound(doc, pos + 1);
        var (ok, end) := StringEnd(doc, pos + 1);
        if ok {
          assert doc[pos..end - 1][1..] == doc[pos + 1..end - 1];
        }
      }
    }
  }

  function InQuotes(body: string): string {
    ['"'] + body + ['"']
  }

  lemma QuotedLayout(doc: string, p: nat, body: string)
    requires At(doc, p, InQuotes(body))
    ensures p + |body| + 2 <= |doc| && doc[p] == '"' && At(doc, p + 1, body) && doc[p + 1 + |body|] == '"'
  {
    Seqs.Associative(['"'], body, ['"']);
    AtConcat(doc, p, ['"'], body + ['"']);
    AtConcat(doc, p + 1, body, ['"']);
    AtIndex(doc, p, ['"'], 0);
    AtIndex(doc, p + 1 + |body|, ['"'], 0);
  }

  lemma QuoteAt(doc: string, pos: nat)
    requires pos <= |doc|
    ensures var p := SkipSpaces(doc, pos);
            p < |doc| && doc[p] == '"' ==>
              var (ok, end) := StringEnd(doc, p + 1);
              ReadToken(doc, pos) == NextToken(doc, pos) == Token(if ok then StringToken else ErrorToken, p, end)
    ensures var p := SkipSpaces(doc, pos);
            ReadToken(doc, pos).kind == StringToken ==> p < |doc| && doc[p] == '"'
  {
    hide SkipSpaces, SkipNumber, StringEnd, CommentEnd, Matches;
  }

  // A quoted, closed body at the next position is one string token with this body.
  lemma ReadQuotedBody(doc: string, pos: nat, body: string)
    requires pos <= |doc| && Closed(body) && At(doc, SkipSpaces(doc, pos), InQuotes(body))
    ensures var p := SkipSpaces(doc, pos);
            && ReadToken(doc, pos) == NextToken(doc, pos) == Token(StringToken, p, p + |body| + 2)
            && p + |body| + 2 <= |doc| && doc[p + 1..p + |body| + 1] == body
  {
    hide ReadToken, NextToken, Closed, StringEnd, SkipSpaces, InQuotes;
    var p := SkipSpaces(doc, pos);
    QuotedLayout(doc, p, body);
    StringEndsAt(doc, p + 1, body);
    QuoteAt(doc, pos);
  }

  lemma StringTaken(doc: string, pos: nat, body: string, end: nat)
    requires pos <= |doc| && Closed(body) && Covers(doc, pos, [InQuotes(body)], end)
    ensures var t := ReadToken(doc, pos);
            && t == NextToken(doc, pos) == Token(StringToken, SkipSpaces(doc, pos), end)
            && DecodeString(doc, t) == Unescape(body, 0)
  {
    hide ReadToken, NextToken, Closed, SkipSpaces, Unescape, At;
    One(doc, pos, InQuotes(body), end);
    ReadQuotedBody(doc, pos, body);
  }

  lemma StringRead(doc: string, pos: nat) returns (body: string)
    requires pos <= |doc| && ReadToken(doc, pos).kind == StringToken
    ensures var t := ReadToken(doc, pos);
            Closed(body) && Covers(doc, pos, [InQuotes(body)], t.end) && DecodeString(doc, t) == Unescape(body, 0)
  {
    hide ReadToken, NextToken, Closed, SkipSpaces, Unescape, StringEnd;
    QuoteAt(doc, pos);
    var p := SkipSpaces(doc, pos);
    var end := StringEnd(doc, p + 1).1;
    StringEndFound(doc, p + 1);
    body := doc[p + 1..end - 1];
    assert doc[p..end] == InQuotes(body);
    assert [InQuotes(body)][1..] == [];
    QuoteNoNumber();
  }

  lemma QuoteNoNumber()
    ensures !BeginsNumeral('"') && !BeginsNumeral('/')
  {
  }

  // ---------- comments ----------

  predicate IsComment(c: string) {
    || (|c| >= 4 && c[..2] == "/*" && c[|c| - 2..] == "*/"
        && forall k :: 2 <= k < |c| - 2 ==> !(c[k] == '*' && c[k + 1] == '/'))
    || (|c| >= 3 && c[..2] == "//" && (c[|c| - 1] == '\n' || c[|c| - 1] == '\r')
        && forall k :: 2 <= k < |c| - 1 ==> c[k] != '\n' && c[k] != '\r')
  }

  predicate AllComments(cs: seq<string>) {
    forall i :: 0 <= i < |cs| ==> IsComment(cs[i])
  }

  lemma {:induction false} CStyleEndAt(doc: string, pos: nat, end: nat)
    requires pos <= end && end + 2 <= |doc| && doc[end] == '*' && doc[end + 1] == '/'
    requires forall k :: pos <= k < end ==> !(doc[k] == '*' && doc[k + 1] == '/')
    ensures CStyleEnd(doc, pos) == (true, end + 2)
    decreases end - pos
  {
    if pos < end {
      CStyleEndAt(doc, pos + 1, end);
    }
  }

  lemma {:induction false} CStyleEndFound(doc: string, pos: nat)
    requires pos <= |doc|
    ensures var (ok, end) := CStyleEnd(doc, pos);
            && (ok ==> pos + 2 <= end <= |doc| && doc[end - 2] == '*' && doc[end - 1] == '/'
                       && forall k :: pos <= k < end - 2 ==> !(doc[k] == '*' && doc[k + 1] == '/'))
            && (!ok ==> end == |doc|)
    decreases |doc| - pos
  {
    if pos < |doc| && !(doc[pos] == '*' && CharAt(doc, pos + 1) == '/') {
      CStyleEndFound(doc, pos + 1);
    }
  }

  lemma {:induction false} LineEndAt(doc: string, pos: nat, end: nat)
    requires pos <= end < |doc| && (doc[end] == '\n' || doc[end] == '\r')
    requires forall k :: pos <= k < end ==> doc[k] != '\n' && doc[k] != '\r'
    ensures LineEnd(doc, pos) == end + 1
    decreases end - pos
  {
    if pos < end {
      LineEndAt(doc, pos + 1, end);
    }
  }

  lemma {:induction false} LineEndFound(doc: string, pos: nat)
    requires pos <= |doc|
    ensures var end := LineEnd(doc, pos);
            end < |doc| ==>
              && pos < end && (doc[end - 1] == '\n' || doc[end - 1] == '\r')
              && forall k :: pos <= k < end - 1 ==> doc[k] != '\n' && doc[k] != '\r'
    decreases |doc| - pos
  {
    if pos < |doc| && doc[pos] != '\n' && doc[pos] != '\r' {
      LineEndFound(doc, pos + 1);
    }
  }

  lemma CommentAt(doc: string, pos: nat)
    requires pos <= |doc|
    ensures var p := SkipSpaces(doc, pos);
            p < |doc| && doc[p] == '/' ==>
              var (ok, end) := CommentEnd(doc, p + 1);
              ReadToken(doc, pos) == Token(if ok then CommentToken else ErrorToken, p, end)
    ensures var p := SkipSpaces(doc, pos);
            ReadToken(doc, pos).kind == CommentToken ==> p < |doc| && doc[p] == '/'
  {
    hide SkipSpaces, SkipNumber, StringEnd, CommentEnd, Matches;
  }

  lemma CommentEndAt(doc: string, p: nat, c: string)
    requires At(doc, p, c) && IsComment(c)
    ensures p < |doc| && doc[p] == '/' && CommentEnd(doc, p + 1) == (true, p + |c|)
  {
    forall k | 0 <= k < |c| ensures doc[p + k] == c[k] {
      AtIndex(doc, p, c, k);
    }
    var n := |c|;
    assert c[0] == c[..2][0] && c[1] == c[..2][1];
    if c[..2] == "//" {
      forall k | p + 2 <= k < p + n - 1 ensures doc[k] != '\n' && doc[k] != '\r' {
        assert doc[p + (k - p)] == c[k - p];
      }
      LineEndAt(doc, p + 2, p + n - 1);
    } else {
      assert c[n - 2] == c[n - 2..][0] && c[n - 1] == c[n - 2..][1];
      forall k | p + 2 <= k < p + n - 2 ensures !(doc[k] == '*' && doc[k + 1] == '/') {
        assert doc[p + (k - p)] == c[k - p] && doc[p + (k - p + 1)] == c[k - p + 1];
      }
      CStyleEndAt(doc, p + 2, p + n - 2);
    }
  }

  lemma CommentTaken(doc: string, pos: nat, c: string, end: nat)
    requires pos <= |doc| && IsComment(c) && Covers(doc, pos, [c], end)
    ensures ReadToken(doc, pos) == Token(CommentToken, SkipSpaces(doc, pos), end)
  {
    hide SkipSpaces, At, CommentEnd, IsComment, ReadToken;
    One(doc, pos, c, end);
    CommentEndAt(doc, SkipSpaces(doc, pos), c);
    CommentAt(doc, pos);
  }

  lemma CommentEndFound(doc: string, p: nat)
    requires p < |doc| && doc[p] == '/' && CommentEnd(doc, p + 1).0 && CommentEnd(doc, p + 1).1 < |doc|
    ensures IsComment(doc[p..CommentEnd(doc, p + 1).1])
  {
    var end := CommentEnd(doc, p + 1).1;
    var c := doc[p..end];
    if CharAt(doc, p + 1) == '*' {
      CStyleEndFound(doc, p + 2);
      hide CStyleEnd;
      assert c[..2] == "/*" && c[|c| - 2..] == "*/";
      forall k | 2 <= k < |c| - 2 ensures !(c[k] == '*' && c[k + 1] == '/') {
        assert c[k] == doc[p + k] && c[k + 1] == doc[p + k + 1];
      }
    } else {
      LineEndFound(doc, p + 2);
      hide LineEnd;
      assert c[..2] == "//" && c[|c| - 1] == doc[end - 1];
      forall k | 2 <= k < |c| - 1 ensures c[k] != '\n' && c[k] != '\r' {
        assert c[k] == doc[p + k];
      }
    }
  }

  lemma CommentRead(doc: string, pos: nat) returns (c: string)
    requires pos <= |doc| && ReadToken(doc, pos).kind == CommentToken && ReadToken(doc, pos).end < |doc|
    ensures IsComment(c) && Covers(doc, pos, [c], ReadToken(doc, pos).end)
  {
    hide ReadToken, SkipSpaces, CommentEnd, IsComment;
    CommentAt(doc, pos);
    var p := SkipSpaces(doc, pos);
    var end := CommentEnd(doc, p + 1).1;
    CommentEndFound(doc, p);
    c := doc[p..end];
    assert [c][1..] == [];
    QuoteNoNumber();
    CommentNotEmpty(c);
  }

  lemma CommentNotEmpty(c: string)
    requires IsComment(c)
    ensures c != "" && c[0] == '/'
  {
    assert c[0] == c[..2][0];
  }

  // Comments are skipped up to the next token that is none.
  lemma {:induction false} CommentsTaken(doc: string, pos: nat, cs: seq<string>, end: nat)
    requires pos <= |doc| && AllComments(cs) && Covers(doc, pos, cs, end)
    ensures end <= |doc| && NextToken(doc, end) == NextToken(doc, pos) && (cs == [] ==> end == pos)
    ensures cs != [] ==> ReadToken(doc, pos).kind == CommentToken
    decreases |cs|
  {
    hide ReadToken, SkipSpaces, IsComment;
    if cs != [] {
      var m := Split(doc, pos, [cs[0]], cs[1..], end) by {
        assert cs == [cs[0]] + cs[1..];
      }
      hide Covers;
      assert IsComment(cs[0]);
      CommentTaken(doc, pos, cs[0], m);
      CommentsTaken(doc, m, cs[1..], end);
    }
  }

  // The comments in front of the next other token, if it is not the end of the document
  lemma {:induction false} CommentsRead(doc: string, pos: nat) returns (cs: seq<string>, end: nat)
    requires pos <= |doc| && NextToken(doc, pos).start < |doc|
    ensures AllComments(cs) && Covers(doc, pos, cs, end) && pos <= end <= |doc|
    ensures NextToken(doc, pos) == NextToken(doc, end) == ReadToken(doc, end)
    ensures cs == [] <==> ReadToken(doc, pos).kind != CommentToken
    decreases |doc| - pos
  {
    hide ReadToken, SkipSpaces, IsComment, Covers;
    var t := ReadToken(doc, pos);
    if t.kind == CommentToken {
      var c := CommentRead(doc, pos);
      var rest;
      rest, end := CommentsRead(doc, t.end);
      cs := [c] + rest;
      Joined(doc, pos, [c], t.end, rest, end);
    } else {
      cs, end := [], pos;
      assert Covers(doc, pos, cs, end) by { NothingCovered(doc, pos); }
    }
  }

  // ---------- any other token ----------

  // Behind a member and a comment readObject takes any token but '}' for the separator: these
  // are the texts of such tokens.
  predicate IsAnyToken(s: string) {
    || s in {"null", "true", "false"}
    || IsNumeral(s)
    || (|s| >= 2 && s == InQuotes(s[1..|s| - 1]) && Closed(s[1..|s| - 1]))
    || (|s| == 2 && s[0] == '/' && s[1] != '*' && s[1] != '/')
    || (|s| == 1 && s[0] !in BLANKS && !BeginsNumeral(s[0]) && s[0] != '"' && s[0] != '/' && s[0] != '}')
  }

  // What a name or a closing brace begins with, and the comments before it
  predicate BeginsMember(c: char) {
    c == '"' || c == '/' || c == '}'
  }

  lemma AnyTokenTaken(doc: string, pos: nat, s: string, end: nat)
    requires pos <= |doc| && IsAnyToken(s) && Covers(doc, pos, [s], end)
    requires end < |doc| && (IsSpace(doc[end]) || BeginsMember(doc[end]))
    ensures var t := NextToken(doc, pos);
            t.kind != ObjectEnd && t.end == end
  {
    hide ReadToken, NextToken, SkipSpaces, Covers, IsNumeral;
    if s in {"null", "true", "false"} {
      WordTaken(doc, pos, s, end);
    } else if IsNumeral(s) {
      NumeralTaken(doc, pos, s, end);
    } else if s[0] == '"' {
      StringTaken(doc, pos, s[1..|s| - 1], end);
    } else if |s| == 2 {
      One(doc, pos, s, end);
      AtIndex(doc, SkipSpaces(doc, pos), s, 1);
      BadCommentTaken(doc, pos);
    } else {
      One(doc, pos, s, end);
      SingleTaken(doc, pos);
    }
  }

  lemma BadCommentTaken(doc: string, pos: nat)
    requires pos <= |doc|
    requires var p := SkipSpaces(doc, pos);
             p + 1 < |doc| && doc[p] == '/' && doc[p + 1] != '*' && doc[p + 1] != '/'
    ensures var p := SkipSpaces(doc, pos);
            ReadToken(doc, pos) == NextToken(doc, pos) == Token(ErrorToken, p, p + 2)
  {
    hide SkipSpaces, SkipNumber, StringEnd, CStyleEnd, LineEnd, Matches;
  }

  lemma NoWord(doc: string, pos: nat)
    requires pos < |doc| && (IsSpace(doc[pos]) || BeginsMember(doc[pos]))
    ensures !Matches(doc, pos, "rue") && !Matches(doc, pos, "alse") && !Matches(doc, pos, "ull")
  {
    hide Matches;
    MatchHead(doc, pos, "rue");
    MatchHead(doc, pos, "alse");
    MatchHead(doc, pos, "ull");
  }

  lemma MatchHead(doc: string, pos: nat, pattern: string)
    requires pattern != ""
    ensures Matches(doc, pos, pattern) ==> pos < |doc| && doc[pos] == pattern[0]
  {
    if Matches(doc, pos, pattern) {
      assert doc[pos] == doc[pos..pos + |pattern|][0];
    }
  }

  lemma SingleTaken(doc: string, pos: nat)
    requires pos <= |doc|
    requires var p := SkipSpaces(doc, pos);
             && p + 1 < |doc| && !BeginsNumeral(doc[p]) && doc[p] != '"' && doc[p] != '/' && doc[p] != '}'
             && (IsSpace(doc[p + 1]) || BeginsMember(doc[p + 1]))
    ensures var t := NextToken(doc, pos);
            t.kind != ObjectEnd && t.end == SkipSpaces(doc, pos) + 1
  {
    hide SkipSpaces, SkipNumber, StringEnd, CommentEnd, Matches, NextToken;
    var p := SkipSpaces(doc, pos);
    NoWord(doc, p + 1);
    NoNumber(doc[p]);
    hide IsSpace, BeginsMember, IsDigit;
    SingleShort(doc, pos);
    NoCommentNext(doc, pos);
  }

  lemma NoNumber(c: char)
    requires !BeginsNumeral(c)
    ensures !IsDigit(c) && c != '-'
  {
    CharTables(c);
  }

  lemma SingleShort(doc: string, pos: nat)
    requires pos <= |doc|
    requires var p := SkipSpaces(doc, pos);
             && p < |doc| && !IsDigit(doc[p]) && doc[p] != '-' && doc[p] != '"' && doc[p] != '/' && doc[p] != '}'
             && !Matches(doc, p + 1, "rue") && !Matches(doc, p + 1, "alse") && !Matches(doc, p + 1, "ull")
    ensures var t := ReadToken(doc, pos);
            t.kind != ObjectEnd && t.kind != CommentToken && t.end == SkipSpaces(doc, pos) + 1
  {
    hide SkipSpaces, Matches, IsDigit;
  }

  lemma NoCommentNext(doc: string, pos: nat)
    requires pos <= |doc| && ReadToken(doc, pos).kind != CommentToken
    ensures NextToken(doc, pos) == ReadToken(doc, pos)
  {
    hide ReadToken;
  }

  lemma AnyTokenRead(doc: string, pos: nat)
    requires pos <= |doc|
    requires ReadToken(doc, pos).kind != ObjectEnd && ReadToken(doc, pos).kind != CommentToken
    requires ReadToken(doc, pos).end < |doc|
    ensures var t := ReadToken(doc, pos);
            IsAnyToken(TokenText(doc, t)) && Covers(doc, pos, [TokenText(doc, t)], t.end)
  {
    hide ReadToken, NextToken, SkipSpaces, IsNumeral, Covers;
    var t := ReadToken(doc, pos);
    if t.kind in {NullToken, TrueToken, FalseToken} {
      var word := WordRead(doc, pos);
      CoveredText(doc, pos, word);
    } else if t.kind == NumberToken {
      NumeralRead(doc, pos);
    } else if t.kind == StringToken {
      var body := StringRead(doc, pos);
      CoveredText(doc, pos, InQuotes(body));
      assert InQuotes(body)[1..|body| + 1] == body;
    } else {
      OtherRead(doc, pos);
    }
  }

  lemma CoveredText(doc: string, pos: nat, s: string)
    requires pos <= |doc| && Covers(doc, pos, [s], ReadToken(doc, pos).end)
    ensures TokenText(doc, ReadToken(doc, pos)) == s
  {
    hide ReadToken, SkipSpaces;
    WordStart(doc, pos);
    One(doc, pos, s, ReadToken(doc, pos).end);
  }

  lemma OtherRead(doc: string, pos: nat)
    requires pos <= |doc| && ReadToken(doc, pos).end < |doc|
    requires ReadToken(doc, pos).kind !in {NullToken, TrueToken, FalseToken, NumberToken, StringToken, ObjectEnd, CommentToken}
    ensures var t := ReadToken(doc, pos);
            IsAnyToken(TokenText(doc, t)) && Covers(doc, pos, [TokenText(doc, t)], t.end)
  {
    hide ReadToken, SkipSpaces, CommentEnd, StringEnd;
    var t := ReadToken(doc, pos);
    var p := SkipSpaces(doc, pos);
    OtherShape(doc, pos);
    var s := doc[p..t.end];
    assert s[0] == doc[p] && (|s| == 2 ==> s[1] == doc[p + 1]);
    CharTables(doc[p]);
    assert [s][1..] == [];
    QuoteNoNumber();
  }

  lemma OtherShape(doc: string, pos: nat)
    requires pos <= |doc| && ReadToken(doc, pos).end < |doc|
    requires ReadToken(doc, pos).kind !in {NullToken, TrueToken, FalseToken, NumberToken, StringToken, ObjectEnd, CommentToken}
    ensures var t := ReadToken(doc, pos);
            var p := SkipSpaces(doc, pos);
            && t.start == p < t.end && !BeginsNumeral(doc[p]) && doc[p] != '"' && doc[p] != '}'
            && (if doc[p] == '/' then t.end == p + 2 && doc[p + 1] != '*' && doc[p + 1] != '/' else t.end == p + 1)
  {
    hide ReadToken, SkipSpaces, StringEnd, CommentEnd;
    var p := SkipSpaces(doc, pos);
    NotAtEnd(doc, pos);
    NumberAt(doc, pos);
    QuoteAt(doc, pos);
    StringEndFound(doc, p + 1);
    if doc[p] == '/' {
      CommentAt(doc, pos);
      BadCommentEnd(doc, p);
    } else {
      SingleShape(doc, pos);
    }
  }

  lemma NotAtEnd(doc: string, pos: nat)
    requires pos <= |doc| && ReadToken(doc, pos).end < |doc|
    ensures SkipSpaces(doc, pos) < |doc|
  {
    hide SkipSpaces;
  }

  lemma BadCommentEnd(doc: string, p: nat)
    requires p < |doc| && doc[p] == '/' && !CommentEnd(doc, p + 1).0 && CommentEnd(doc, p + 1).1 < |doc|
    ensures CommentEnd(doc, p + 1).1 == p + 2 && doc[p + 1] != '*' && doc[p + 1] != '/'
  {
    if p + 1 < |doc| && doc[p + 1] == '*' {
      CStyleEndFound(doc, p + 2);
    }
  }

  lemma SingleShape(doc: string, pos: nat)
    requires pos <= |doc|
    requires ReadToken(doc, pos).kind !in {NullToken, TrueToken, FalseToken, NumberToken, StringToken, ObjectEnd, CommentToken}
    requires var p := SkipSpaces(doc, pos);
             p < |doc| && doc[p] != '"' && doc[p] != '/'
    ensures var p := SkipSpaces(doc, pos);
            doc[p] != '}' && ReadToken(doc, pos).start == p && ReadToken(doc, pos).end == p + 1
  {
    hide SkipSpaces, SkipNumber, StringEnd, CommentEnd, Matches;
  }
}
