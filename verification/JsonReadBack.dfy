/**
 * The reader of libjson/jsoncpp.cpp on a text that spells the tokens of a value: it rebuilds the
 * canonical form of the value and stops behind its last token.
 *
 * The tokens of a value are those of a document without comments, whose integers and strings are
 * spelled as the writers spell them; what such a document means is the canonical form of the
 * value. The members of an object are met in the order of their keys, so that each is appended
 * to those before it; the elements of an array are met in the order of their indices.
 */
module JsonReadBack {
  import opened Wrappers
  import opened JsonValue
  import opened JsonText
  import opened JsonGrammar
  import opened JsonStrings
  import opened JsonLexemes
  import opened JsonDocuments
  import opened JsonTokens
  import opened HexTable
  import Seqs

  // ---------- strings as the writers spell them ----------

  function PieceOf(c: char): Piece {
    if c == '"' then Letter(0)
    else if c == '\\' then Letter(1)
    else if c == BACKSPACE then Letter(3)
    else if c == FORM_FEED then Letter(4)
    else if c == '\n' then Letter(5)
    else if c == '\r' then Letter(6)
    else if c == '\t' then Letter(7)
    else if IsControl(c) then Unit(c as int, [true, true, true, true])
    else Copied(c)
  }

  function PiecesOf(s: string): seq<Piece> {
    if s == "" then [] else [PieceOf(s[0])] + PiecesOf(s[1..])
  }

  lemma PieceOfChar(c: char)
    ensures PieceSpelled(PieceOf(c)) == EscapeChar(c) && PieceText(PieceOf(c)) == [c]
  {
    hide Hex4, HexText, CodePointToUTF8;
    if IsControl(c) {
      ControlText(c);
    }
  }

  lemma ControlText(c: char)
    requires c as int < 0x80
    ensures HexText(c as int, [true, true, true, true]) == Hex4(c as int) && CodePointToUTF8(c as int) == [c]
  {
    HexPlaces(0);
    HexPlaces(c as int / 16 % 16);
    HexPlaces(c as int % 16);
    hide HexChar, HexAt;
  }

  lemma HexPlaces(d: nat)
    requires d < 16
    ensures HexAt(d, true) == HexChar(d)
  {
  }

  lemma {:induction false} PiecesOfText(s: string)
    ensures PiecesSpelled(PiecesOf(s)) == Escaped(s) && PiecesText(PiecesOf(s)) == s
  {
    hide PieceSpelled, PieceText, EscapeChar, PieceOf;
    if s != "" {
      PieceOfChar(s[0]);
      PiecesOfText(s[1..]);
      assert PiecesOf(s)[1..] == PiecesOf(s[1..]);
      assert [s[0]] + s[1..] == s;
    }
  }

  // For every sequence of Unicode characters, each spelled raw, by a short escape, as \uXXXX
  // or as a surrogate pair: the token ends at the closing quote, whatever follows, and
  // decodes to the UTF-8 text of the sequence.
  lemma SpelledStringToken(before: string, ps: seq<Spelling>, after: string)
    requires AllValid(ps) && Blank(before)
    ensures var doc := before + InQuotes(SpellAll(ps)) + after;
            var t := ReadToken(doc, 0);
            && t == Token(StringToken, |before|, |before| + |SpellAll(ps)| + 2)
            && DecodeString(doc, t) == Decoded(DenotedAll(ps))
  {
    hide Closed, StringEnd, ReadToken, Unescape, SpellAll, DenotedAll, Blank;
    var body := SpellAll(ps);
    QuotedAfterSpaces(before, InQuotes(body), after);
    SpelledIsClosed(ps);
    ReadQuotedBody(before + InQuotes(body) + after, 0, body);
    assert body[0..|body|] == body;
    UnescapeSpelled(body, 0, ps);
  }

  lemma QuotedAfterSpaces(before: string, q: string, after: string)
    requires Blank(before) && q != "" && q[0] !in BLANKS
    ensures SkipSpaces(before + q + after, 0) == |before| && At(before + q + after, |before|, q)
  {
    var doc := before + q + after;
    assert doc[0..|before|] == before && doc[|before|] == q[0];
    assert doc[|before|..|before| + |q|] == q;
    SkipsGap(doc, 0, |before|);
  }

  // ---------- the document of a value ----------

  function TextOf(fl: Floats, v: Value): Text
    decreases Size(v), 0
  {
    match v
    case Null => Word("null")
    case Bool(b) => Word(if b then "true" else "false")
    case Str(s) => Chars(PiecesOf(if s.Some? then s.value else ""))
    case Arr(items) => Array(ElementsOf(fl, items, 0))
    case Obj(items) => Object(MembersOf(fl, items, 0), [])
    case _ => Number(ScalarText(fl, v))
  }

  // The elements from `index` on
  function ElementsOf(fl: Floats, items: seq<Entry>, index: nat): seq<Item>
    decreases SizeItems(items), ArraySize(items) - index
  {
    if index >= ArraySize(items) then []
    else
      SizeOfGet(items, Index(index));
      [Item([], TextOf(fl, Element(items, index)), [])] + ElementsOf(fl, items, index + 1)
  }

  function MembersOf(fl: Floats, items: seq<Entry>, k: nat): seq<Member>
    decreases SizeItems(items), |items| - k
  {
    if k >= |items| then []
    else
      SizeOfItem(items, k);
      [MemberOf(items, k, TextOf(fl, items[k].val))] + MembersOf(fl, items, k + 1)
  }

  function MemberOf(items: seq<Entry>, k: nat, value: Text): Member
    requires k < |items|
  {
    Member([], PiecesOf(KeyName(items[k])), [], value, [], if k + 1 < |items| then Some(",") else None)
  }

  // The tokens of the document are those of the value.
  lemma {:induction false} TokensOfText(fl: Floats, v: Value)
    ensures TextTokens(TextOf(fl, v)) == Tokens(fl, v)
    decreases Size(v), 0
  {
    hide ElementsTokens, MembersTokens, ElementTokens, MemberTokens, ElementsOf, MembersOf;
    match v
    case Arr(items) =>
      TokensOfElements(fl, items, 0);
      ArrayTokens(ElementsOf(fl, items, 0));
    case Obj(items) =>
      TokensOfMembers(fl, items, 0);
      ObjectTokens(MembersOf(fl, items, 0));
    case Str(s) => PiecesOfText(if s.Some? then s.value else "");
    case _ =>
  }

  lemma ArrayTokens(es: seq<Item>)
    ensures TextTokens(Array(es)) == ["["] + ElementsTokens(es) + ["]"]
  {
    hide ElementsTokens;
    Seqs.Associative(["["], ElementsTokens(es), ["]"]);
  }

  lemma ObjectTokens(ms: seq<Member>)
    ensures TextTokens(Object(ms, [])) == ["{"] + MembersTokens(ms) + ["}"]
  {
    hide MembersTokens;
    assert [] + ["}"] == ["}"];
    Seqs.Associative(["{"], MembersTokens(ms), ["}"]);
  }

  lemma {:induction false} TokensOfElements(fl: Floats, items: seq<Entry>, index: nat)
    ensures ElementTokens(fl, items, index)
            == (if index < ArraySize(items) then Separator(index) else []) + ElementsTokens(ElementsOf(fl, items, index))
    decreases SizeItems(items), ArraySize(items) - index
  {
    hide Tokens, TextTokens, TextOf;
    if index < ArraySize(items) {
      SizeOfGet(items, Index(index));
      TokensOfText(fl, Element(items, index));
      TokensOfElements(fl, items, index + 1);
      var e := Item([], TextOf(fl, Element(items, index)), []);
      var es := ElementsOf(fl, items, index + 1);
      assert ElementsOf(fl, items, index)[1..] == es;
      hide ElementsOf;
      assert OneElement(e) == TextTokens(e.value);
      ElementsConcat(Separator(index), TextTokens(e.value), if index + 1 < ArraySize(items) then [","] else [], ElementsTokens(es));
    }
  }

  lemma ElementsConcat(a: seq<string>, b: seq<string>, c: seq<string>, d: seq<string>)
    ensures a + b + (c + d) == a + (b + (c + d))
  {
  }

  lemma {:induction false} TokensOfMembers(fl: Floats, items: seq<Entry>, k: nat)
    ensures MemberTokens(fl, items, k)
            == (if k < |items| then Separator(k) else []) + MembersTokens(MembersOf(fl, items, k))
    decreases SizeItems(items), |items| - k
  {
    hide Tokens, TextTokens, TextOf, Quoted, PiecesOf, PiecesSpelled, InQuotes;
    if k < |items| {
      SizeOfItem(items, k);
      TokensOfText(fl, items[k].val);
      TokensOfMembers(fl, items, k + 1);
      var m := MemberOf(items, k, TextOf(fl, items[k].val));
      var ms := MembersOf(fl, items, k + 1);
      assert MembersOf(fl, items, k)[1..] == ms;
      hide MembersOf;
      NameInQuotes(KeyName(items[k]));
      var comma := if k + 1 < |items| then [","] else [];
      MemberIs(m, Quoted(KeyName(items[k])), comma);
      MembersConcat(Separator(k), Quoted(KeyName(items[k])), TextTokens(m.value), comma, MembersTokens(ms));
    }
  }

  lemma NameInQuotes(s: string)
    ensures InQuotes(PiecesSpelled(PiecesOf(s))) == Quoted(s)
  {
    PiecesOfText(s);
    hide Escaped;
  }

  lemma MemberIs(m: Member, name: string, comma: seq<string>)
    requires m.front == m.before == m.after == [] && InQuotes(PiecesSpelled(m.name)) == name && SeparatorTokens(m) == comma
    ensures OneMember(m) == [name, ":"] + (TextTokens(m.value) + comma)
  {
    hide TextTokens, InQuotes, PiecesSpelled, SeparatorTokens;
  }

  lemma MembersConcat(a: seq<string>, name: string, b: seq<string>, c: seq<string>, d: seq<string>)
    ensures a + [name, ":"] + b + (c + d) == a + (([name, ":"] + (b + c)) + d)
  {
  }

  // ---------- what the document of a value means ----------

  lemma IntMeant(input: Input, i: int)
    requires -TWO_63 <= i < TWO_64
    ensures IsNumeral(IntText(i)) && NumeralMeant(input, IntText(i)) == Some(if i <= MAX_INT then Int(i) else UInt(i))
  {
    var t := IntText(i);
    IntTextIsToken(i);
    NumeralIs(t);
    FloatMarks(t);
    NumeralOfDecimal(if i < 0 then 0 - i else i);
    if i < 0 {
      assert t[1..] == Decimal(0 - i);
    } else {
      assert IsDigit(t[0]);
    }
    hide HasFloatMark, LooksFloating, IsNumeral, Decimal, IntText;
    NumeralIsInteger(t);
    assert Denotes(t) == i;
  }

  lemma NumeralIs(t: string)
    requires StartsNumber(t) && AllNumberChars(t)
    ensures IsNumeral(t)
  {
    CharTables(t[0]);
    forall k | 0 <= k < |t| ensures InNumeral(t[k]) {
      CharTables(t[k]);
    }
  }

  lemma RealMeant(input: Input, fl: Floats, r: real)
    requires input.scan == fl.scanf && ReadableReal(fl, r)
    ensures var t := fl.printf(r);
            IsNumeral(t) && NumeralMeant(input, t) == Some(Real(fl.scanf(t).value))
  {
    hide LooksFloating, HasFloatMark;
    NumeralIs(fl.printf(r));
    FloatMarks(fl.printf(r));
  }

  lemma {:induction false} TextIsValid(input: Input, fl: Floats, v: Value)
    requires input.scan == fl.scanf && Writable(v) && Readable(fl, v)
    ensures ValidText(input, TextOf(fl, v)) && Meant(input, TextOf(fl, v)) == Canon(fl, v)
    decreases Size(v), 0
  {
    hide TextOf, ValidText, Meant, Canon, Writable, Readable;
    match v
    case Arr(items) =>
      NoElements(fl, items);
      ElementsAreValid(input, fl, items, 0);
      ArrayIsMeant(input, fl, items);
    case Obj(items) =>
      NoMembers(fl, items);
      MembersAreValid(input, fl, items, 0);
      ClosesAt(fl, items, 0, []);
      ObjectIsMeant(input, fl, items);
    case _ => ScalarIsValid(input, fl, v);
  }

  lemma ScalarIsValid(input: Input, fl: Floats, v: Value)
    requires input.scan == fl.scanf && Writable(v) && Readable(fl, v) && !v.Arr? && !v.Obj?
    ensures ValidText(input, TextOf(fl, v)) && Meant(input, TextOf(fl, v)) == Canon(fl, v)
  {
    hide NumeralMeant, IsNumeral, PiecesText, CString, PiecesOf, LooksFloating, Decimal, IntText;
    match v
    case Int(i) => IntMeant(input, i);
    case UInt(u) =>
      IntMeant(input, u);
      UIntText(u);
    case Real(r) => RealMeant(input, fl, r);
    case Str(s) =>
      PiecesOfText(s.value);
      CStringNulFree(s.value);
    case _ =>
  }

  lemma UIntText(u: nat)
    ensures IntText(u) == Decimal(u)
  {
  }

  lemma ArrayIsMeant(input: Input, fl: Floats, items: seq<Entry>)
    requires forall i :: 0 <= i < |ElementsOf(fl, items, 0)| ==> ValidElement(input, ElementsOf(fl, items, 0)[i])
    ensures ValidText(input, TextOf(fl, Arr(items)))
    ensures Meant(input, TextOf(fl, Arr(items))) == Arr(StoredElements(input, ElementsOf(fl, items, 0), [], 0))
  {
    hide ValidElement, StoredElements, ElementsOf;
  }

  lemma ObjectIsMeant(input: Input, fl: Floats, items: seq<Entry>)
    requires forall i :: 0 <= i < |MembersOf(fl, items, 0)| ==> ValidMember(input, MembersOf(fl, items, 0)[i])
    requires Closes(MembersOf(fl, items, 0), [], [])
    ensures ValidText(input, TextOf(fl, Obj(items)))
    ensures Meant(input, TextOf(fl, Obj(items))) == Obj(StoredMembers(input, MembersOf(fl, items, 0), []))
  {
    hide ValidMember, StoredMembers, MembersOf, Closes;
    assert AllComments([]);
  }

  lemma NoElements(fl: Floats, items: seq<Entry>)
    requires Readable(fl, Arr(items))
    ensures CanonElements(fl, items, 0) == [] && Canon(fl, Arr(items)) == Arr(CanonElements(fl, items, ArraySize(items)))
  {
  }

  lemma NoMembers(fl: Floats, items: seq<Entry>)
    requires Readable(fl, Obj(items))
    ensures CanonMembers(fl, items, 0) == [] && Canon(fl, Obj(items)) == Obj(CanonMembers(fl, items, |items|))
    ensures AllComments([])
  {
  }

  lemma {:induction false} ClosesAt(fl: Floats, items: seq<Entry>, k: nat, name: seq<Piece>)
    requires k >= |items| ==> name == []
    ensures Closes(MembersOf(fl, items, k), name, [])
    decreases |items| - k
  {
    hide TextOf;
    if k < |items| {
      var ms := MembersOf(fl, items, k);
      assert ms[1..] == MembersOf(fl, items, k + 1);
      if k + 1 < |items| {
        ClosesAt(fl, items, k + 1, ms[0].name);
      }
    }
  }

  lemma ElementIsGood(fl: Floats, items: seq<Entry>, index: nat)
    requires Writable(Arr(items)) && Readable(fl, Arr(items)) && index < ArraySize(items)
    ensures items != [] && Writable(Element(items, index)) && Readable(fl, Element(items, index))
  {
    ElementWritable(items, index);
    ElementReadable(fl, items, index);
  }

  lemma {:induction false} ElementsAreValid(input: Input, fl: Floats, items: seq<Entry>, index: nat)
    requires input.scan == fl.scanf && Writable(Arr(items)) && Readable(fl, Arr(items)) && index <= ArraySize(items)
    ensures forall i :: 0 <= i < |ElementsOf(fl, items, index)| ==> ValidElement(input, ElementsOf(fl, items, index)[i])
    ensures StoredElements(input, ElementsOf(fl, items, index), CanonElements(fl, items, index), index)
            == CanonElements(fl, items, ArraySize(items))
    decreases SizeItems(items), ArraySize(items) - index
  {
    hide Meant, Put, TextOf, ValidText, Canon, Readable, Writable, ArraySize;
    if index < ArraySize(items) {
      ElementIsGood(fl, items, index);
      SizeOfGet(items, Index(index));
      TextIsValid(input, fl, Element(items, index));
      ElementsAreValid(input, fl, items, index + 1);
      var es := ElementsOf(fl, items, index);
      assert es[1..] == ElementsOf(fl, items, index + 1);
      var done := CanonElements(fl, items, index);
      PutAppends(done, Index(index), Canon(fl, Element(items, index)));
    }
  }

  lemma {:induction false} MembersAreValid(input: Input, fl: Floats, items: seq<Entry>, k: nat)
    requires input.scan == fl.scanf && Writable(Obj(items)) && Readable(fl, Obj(items)) && k <= |items|
    ensures forall i :: 0 <= i < |MembersOf(fl, items, k)| ==> ValidMember(input, MembersOf(fl, items, k)[i])
    ensures StoredMembers(input, MembersOf(fl, items, k), CanonMembers(fl, items, k)) == CanonMembers(fl, items, |items|)
    decreases SizeItems(items), |items| - k
  {
    hide Meant, Put, TextOf, ValidText, Canon, PiecesOf, PiecesText, MemberKey, CString, Writable, Readable, KeyName;
    if k < |items| {
      SizeOfItem(items, k);
      MemberIsGood(fl, items, k);
      TextIsValid(input, fl, items[k].val);
      MembersAreValid(input, fl, items, k + 1);
      var ms := MembersOf(fl, items, k);
      assert ms[1..] == MembersOf(fl, items, k + 1);
      NameMeant(items, k, ms[0]);
      NoCommentsAtAll();
      LaterKey(fl, items, k);
      PutAppends(CanonMembers(fl, items, k), items[k].key, Canon(fl, items[k].val));
    }
  }

  lemma NoCommentsAtAll()
    ensures AllComments([])
  {
  }

  lemma MemberIsGood(fl: Floats, items: seq<Entry>, k: nat)
    requires Writable(Obj(items)) && Readable(fl, Obj(items)) && k < |items|
    ensures Writable(items[k].val) && Readable(fl, items[k].val)
  {
    assert WritableEntry(items[k]) && ReadableEntry(fl, items[k]);
  }

  lemma LaterKey(fl: Floats, items: seq<Entry>, k: nat)
    requires Writable(Obj(items)) && Readable(fl, Obj(items)) && k < |items|
    ensures forall e <- CanonMembers(fl, items, k) :: KeyLess(e.key, items[k].key)
  {
    hide CanonMembers, KeyLess;
    assert KeySorted(items);
  }

  lemma NameMeant(items: seq<Entry>, k: nat, m: Member)
    requires k < |items| && Writable(Obj(items)) && m.name == PiecesOf(KeyName(items[k]))
    ensures MemberKey(m) == items[k].key
  {
    hide Writable, CString;
    WritableName(items, k);
    PiecesOfText(KeyName(items[k]));
    CStringNulFree(KeyName(items[k]));
  }

  lemma WritableName(items: seq<Entry>, k: nat)
    requires k < |items| && Writable(Obj(items))
    ensures items[k].key == Name(KeyName(items[k])) && '\0' !in KeyName(items[k])
  {
    hide KeySorted, WritableEntry;
    assert items[k] in items;
  }

  // ---------- reading back ----------

  // A text that spells tokens covers the first of them.
  lemma {:induction false} SpellsCovers(doc: string, pos: nat, ts: seq<string>, rest: seq<string>) returns (m: nat)
    requires pos <= |doc| && Spells(doc, pos, ts + rest)
    ensures m <= |doc| && Covers(doc, pos, ts, m) && Spells(doc, m, rest)
    decreases |ts|
  {
    hide SkipSpaces, At, Spells, BeginsNumeral, InNumeral;
    if ts == [] {
      assert ts + rest == rest;
      m := pos;
    } else {
      Seqs.HeadTailConcat(ts, rest);
      SpelledHead(doc, pos, ts + rest);
      m := SpellsCovers(doc, SkipSpaces(doc, pos) + |ts[0]|, ts[1..], rest);
    }
  }

  lemma SpelledHead(doc: string, pos: nat, ts: seq<string>)
    requires pos <= |doc| && ts != [] && Spells(doc, pos, ts)
    ensures var p := SkipSpaces(doc, pos);
            var q := p + |ts[0]|;
            && ts[0] != "" && At(doc, p, ts[0]) && q <= |doc|
            && (BeginsNumeral(ts[0][0]) ==> q == |doc| || !InNumeral(doc[q]))
            && Spells(doc, q, ts[1..])
  {
    hide Spells, SkipSpaces, At, IsNumberChar, AllNumberChars, IsDigit, BeginsNumeral, InNumeral;
    SpellsHead(doc, pos, ts);
    CharTables(ts[0][0]);
    var q := SkipSpaces(doc, pos) + |ts[0]|;
    if q < |doc| {
      CharTables(doc[q]);
    }
  }

  // Reading the tokens of a value, followed by any others, rebuilds the value and leaves the
  // others to be read.
  lemma ReadBack(input: Input, pos: nat, fl: Floats, v: Value, rest: seq<string>, node: Value, errors: seq<ErrorInfo>)
    requires pos <= |input.doc| && input.scan == fl.scanf
    requires Writable(v) && Readable(fl, v)
    requires Spells(input.doc, pos, Tokens(fl, v) + rest)
    ensures var r := ReadValue(input, pos, node, errors);
            r.ok && r.node == Canon(fl, v) && r.errors == errors && Spells(input.doc, r.pos, rest)
  {
    hide *;
    TextIsValid(input, fl, v);
    TokensOfText(fl, v);
    var end := SpellsCovers(input.doc, pos, Tokens(fl, v), rest);
    ReadTree(input, pos, TextOf(fl, v), end, node, errors);
  }

  // parse succeeds on every text that spells a value and returns the canonical form of the
  // value, whatever the features (in strict mode for arrays, objects and null).
  lemma ParseSpelled(input: Input, fl: Floats, v: Value, root: Value)
    requires input.scan == fl.scanf && Writable(v) && Readable(fl, v)
    requires Spells(input.doc, 0, Tokens(fl, v))
    requires input.strictRoot ==> v.Arr? || v.Obj? || v.Null?
    ensures Parse(input, root).ok && Parse(input, root).node == Canon(fl, v) && Parse(input, root).errors == []
  {
    hide Spells, Tokens, ReadValue, Parse, Writable, Readable;
    assert Tokens(fl, v) + [] == Tokens(fl, v);
    ReadBack(input, 0, fl, v, [], root, []);
    ParseUnfold(input, root);
  }
}
