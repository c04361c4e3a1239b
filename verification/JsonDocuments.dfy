/**
 * Which documents `Json::Reader` (libjson/jsoncpp.cpp) accepts, and as which values.
 *
 * A document is a tree: words, numerals, strings, arrays and objects, with comments where the
 * reader skips them. Its value is given without the reader: elements and members are stored one
 * after the other in a map, so that of two members of one name the later one stays. The reader
 * accepts a text if and only if it begins with the tokens of such a tree, laid out with any white
 * space, and then gives the value of the tree.
 *
 * Two freedoms of readObject are part of the trees: after a member whose value is followed by a
 * comment any token but '}' is taken for the separator, and after a member with the empty name
 * the separator may be the last one.
 */
module JsonDocuments {
  import opened Wrappers
  import opened JsonValue
  import opened JsonText
  import opened JsonGrammar
  import opened JsonStrings
  import opened JsonLexemes
  import JsonReader
  import Seqs

  datatype Text =
    | Word(word: string)
    | Number(numeral: string)
    | Chars(pieces: seq<Piece>)
    | Array(elements: seq<Item>)
    | Object(members: seq<Member>, closing: seq<string>)

  // An element or a member, with the comments before and after its value; a member also has
  // comments in front of its name, and the token taken for the separator behind it.
  datatype Item = Item(before: seq<string>, value: Text, after: seq<string>)

  datatype Member = Member(front: seq<string>, name: seq<Piece>, before: seq<string>, value: Text, after: seq<string>,
    separator: Option<string>)

  // ---------- which trees are documents, and what they mean ----------

  predicate AllowedComments(input: Input, cs: seq<string>) {
    AllComments(cs) && (cs != [] ==> input.allowComments)
  }

  predicate ValidText(input: Input, t: Text)
    decreases t
  {
    match t
    case Word(word) => word in {"null", "true", "false"}
    case Number(numeral) => IsNumeral(numeral) && NumeralMeant(input, numeral).Some?
    case Chars(_) => true
    case Array(elements) => forall i :: 0 <= i < |elements| ==> ValidElement(input, elements[i])
    case Object(members, closing) =>
      (forall i :: 0 <= i < |members| ==> ValidMember(input, members[i])) && AllComments(closing) && Closes(members, [], closing)
  }

  predicate ValidElement(input: Input, e: Item)
    decreases e
  {
    AllowedComments(input, e.before) && AllComments(e.after) && ValidText(input, e.value)
  }

  predicate ValidMember(input: Input, m: Member)
    decreases m
  {
    && AllComments(m.front) && AllowedComments(input, m.before) && AllComments(m.after)
    && (m.separator.Some? ==> if m.after == [] then m.separator.value == "," else IsAnyToken(m.separator.value))
    && ValidText(input, m.value)
  }

  // Every member but the last has a separator; the last one has one only if its name is empty,
  // and only then, or without members, may there be comments before the closing brace. `name`
  // is that of the member before `ms`.
  predicate Closes(ms: seq<Member>, name: seq<Piece>, closing: seq<string>) {
    if ms == [] then name == []
    else if ms[0].separator.None? then |ms| == 1 && closing == []
    else Closes(ms[1..], ms[0].name, closing)
  }

  // A numeral without fraction and exponent is its value if this fits 64 bits; any other is left
  // to sscanf, but for the integers above 2^64 that decodeNumber wraps.
  function NumeralMeant(input: Input, numeral: string): Option<Value>
    requires IsNumeral(numeral)
  {
    if HasFloatMark(numeral) then
      var r := input.scan(numeral);
      if r.Some? then Some(Real(r.value)) else None
    else
      NumeralIsInteger(numeral);
      var i := Denotes(numeral);
      if -TWO_63 <= i <= MAX_INT then Some(Int(i))
      else if MAX_INT < i < TWO_64 then Some(UInt(i))
      else DecodeNumber(input, numeral)
  }

  function Meant(input: Input, t: Text): Value
    requires ValidText(input, t)
    decreases t
  {
    match t
    case Word(word) => if word == "null" then Null else Bool(word == "true")
    case Number(numeral) => NumeralMeant(input, numeral).value
    case Chars(pieces) => Str(Some(CString(PiecesText(pieces))))
    case Array(elements) => Arr(StoredElements(input, elements, [], 0))
    case Object(members, _) => Obj(StoredMembers(input, members, []))
  }

  // The elements are stored under the indices from `index` on.
  function StoredElements(input: Input, es: seq<Item>, items: seq<Entry>, index: nat): seq<Entry>
    requires forall i :: 0 <= i < |es| ==> ValidElement(input, es[i])
    decreases es
  {
    if es == [] then items
    else StoredElements(input, es[1..], Put(items, Index(index), ElementMeant(input, es[0])), index + 1)
  }

  function ElementMeant(input: Input, e: Item): Value
    requires ValidElement(input, e)
    decreases e
  {
    Meant(input, e.value)
  }

  // The members are stored under their names.
  function StoredMembers(input: Input, ms: seq<Member>, items: seq<Entry>): seq<Entry>
    requires forall i :: 0 <= i < |ms| ==> ValidMember(input, ms[i])
    decreases ms
  {
    if ms == [] then items
    else
      assert ValidMember(input, ms[0]);
      StoredMembers(input, ms[1..], Put(items, MemberKey(ms[0]), MemberMeant(input, ms[0])))
  }

  function MemberKey(m: Member): Key
  {
    Name(CString(PiecesText(m.name)))
  }

  function MemberMeant(input: Input, m: Member): Value
    requires ValidMember(input, m)
    decreases m
  {
    Meant(input, m.value)
  }

  // ---------- scalars ----------

  // A stored text is what stands before the first NUL.
  lemma {:induction false} CStringIs(s: string)
    ensures CString(s) <= s && '\0' !in CString(s)
    ensures CString(s) == s || s[|CString(s)|] == '\0'
  {
    if s != "" && s[0] != '\0' {
      CStringIs(s[1..]);
    }
  }

  predicate HasFloatMark(numeral: string) {
    exists k :: 0 <= k < |numeral| && (numeral[k] in ".eE+" || (numeral[k] == '-' && k > 0))
  }

  lemma FloatMarks(numeral: string)
    ensures HasFloatMark(numeral) <==> LooksFloating(numeral)
  {
    forall k | 0 <= k < |numeral|
      ensures FloatingAt(numeral, k) <==> numeral[k] in ".eE+" || (numeral[k] == '-' && k > 0)
    {
    }
  }

  lemma NumeralIsInteger(numeral: string)
    requires IsNumeral(numeral) && !HasFloatMark(numeral)
    ensures AllDigits(if numeral[0] == '-' then numeral[1..] else numeral)
  {
    forall k | 0 <= k < |numeral| && (k > 0 || numeral[0] != '-') ensures IsDigit(numeral[k]) {
      MarkOrDigit(numeral[k]);
    }
  }

  lemma MarkOrDigit(c: char)
    requires InNumeral(c)
    ensures IsDigit(c) || c in ".eE+" || c == '-'
  {
  }

  // decodeNumber on every numeral
  lemma NumeralExact(input: Input, numeral: string)
    requires IsNumeral(numeral)
    ensures DecodeNumber(input, numeral) == NumeralMeant(input, numeral)
  {
    FloatMarks(numeral);
    if !HasFloatMark(numeral) {
      NumeralIsInteger(numeral);
      hide LooksFloating, HasFloatMark, IsNumeral;
      IntegerExact(numeral);
      IntegerKind(numeral);
    }
  }

  // Only integers up to maxInt are stored as signed ones.
  lemma IntegerKind(numeral: string)
    ensures var n := DecodeInteger(numeral);
            && (n.Unsigned? ==> n.u > MAX_INT)
            && (n.Signed? && numeral != "" && numeral[0] != '-' ==> n.i <= MAX_INT)
            && (n.Unsigned? ==> numeral == "" || numeral[0] != '-')
  {
    hide ScanDigits;
  }

  // ---------- the tokens of a document ----------

  function TextTokens(t: Text): (ts: seq<string>)
    ensures ts != []
    decreases t
  {
    match t
    case Word(word) => [word]
    case Number(numeral) => [numeral]
    case Chars(pieces) => [InQuotes(PiecesSpelled(pieces))]
    case Array(elements) => ["["] + (ElementsTokens(elements) + ["]"])
    case Object(members, closing) => ["{"] + (MembersTokens(members) + (closing + ["}"]))
  }

  function ElementsTokens(es: seq<Item>): (ts: seq<string>)
    ensures es != [] ==> ts != []
    decreases es
  {
    if es == [] then [] else OneElement(es[0]) + ((if |es| > 1 then [","] else []) + ElementsTokens(es[1..]))
  }

  function OneElement(e: Item): (ts: seq<string>)
    ensures ts != []
    decreases e
  {
    e.before + (TextTokens(e.value) + e.after)
  }

  function MembersTokens(ms: seq<Member>): seq<string>
    decreases ms
  {
    if ms == [] then [] else OneMember(ms[0]) + MembersTokens(ms[1..])
  }

  function OneMember(m: Member): seq<string>
    decreases m
  {
    m.front + ([InQuotes(PiecesSpelled(m.name))] + ([":"] + (m.before + (TextTokens(m.value) + (m.after + SeparatorTokens(m))))))
  }

  function SeparatorTokens(m: Member): seq<string> {
    if m.separator.Some? then [m.separator.value] else []
  }

  // ---------- reading scalars and single tokens ----------

  // What readValue does with the token at `pos`
  lemma ValueUnfold(input: Input, pos: nat, node: Value, errors: seq<ErrorInfo>)
    requires pos <= |input.doc|
    ensures var t := ValueToken(input, pos);
            var r := ReadValue(input, pos, node, errors);
            && (t.kind == ObjectBegin ==> r == ReadMembers(input, t.end, [], "", errors))
            && (t.kind == ArrayBegin ==> r == ReadArray(input, t.end, errors))
            && (t.kind == NumberToken && DecodeNumber(input, TokenText(input.doc, t)).Some?
                ==> r == Outcome(true, t.end, DecodeNumber(input, TokenText(input.doc, t)).value, errors))
            && (t.kind == StringToken && DecodeString(input.doc, t).Decoded?
                ==> r == Outcome(true, t.end, Str(Some(CString(DecodeString(input.doc, t).text))), errors))
            && (t.kind == TrueToken ==> r == Outcome(true, t.end, Bool(true), errors))
            && (t.kind == FalseToken ==> r == Outcome(true, t.end, Bool(false), errors))
            && (t.kind == NullToken ==> r == Outcome(true, t.end, Null, errors))
  {
    hide ValueToken, ReadMembers, ReadArray, DecodeNumber, DecodeString, CString, TokenText;
  }

  // Which tokens readValue refuses
  lemma ValueRefused(input: Input, pos: nat, node: Value, errors: seq<ErrorInfo>)
    requires pos <= |input.doc| && ReadValue(input, pos, node, errors).ok
    ensures var t := ValueToken(input, pos);
            && t.kind in {ObjectBegin, ArrayBegin, NumberToken, StringToken, TrueToken, FalseToken, NullToken}
            && (t.kind == NumberToken ==> DecodeNumber(input, TokenText(input.doc, t)).Some?)
            && (t.kind == StringToken ==> DecodeString(input.doc, t).Decoded?)
            && t.start < |input.doc|
  {
    hide ValueToken, ReadMembers, ReadArray, DecodeNumber, DecodeString, CString, TokenText;
  }

  // A value depends only on the token it begins with.
  lemma SameFirstToken(input: Input, pos: nat, p: nat, node: Value, errors: seq<ErrorInfo>)
    requires pos <= |input.doc| && p <= |input.doc| && ValueToken(input, pos) == ValueToken(input, p)
    ensures ReadValue(input, pos, node, errors) == ReadValue(input, p, node, errors)
  {
    hide ValueToken, ReadMembers, ReadArray, DecodeNumber, DecodeString, CString;
  }

  lemma BeforeValue(input: Input, pos: nat, cs: seq<string>, m: nat, node: Value, errors: seq<ErrorInfo>)
    requires pos <= |input.doc| && AllowedComments(input, cs) && Covers(input.doc, pos, cs, m)
    ensures m <= |input.doc| && ReadValue(input, pos, node, errors) == ReadValue(input, m, node, errors)
  {
    hide Covers, ReadValue, ReadToken, NextToken, AllComments;
    CommentsTaken(input.doc, pos, cs, m);
    SameFirstToken(input, pos, m, node, errors);
  }

  lemma NumberTree(input: Input, pos: nat, numeral: string, end: nat, node: Value, errors: seq<ErrorInfo>)
    requires pos <= |input.doc| && IsNumeral(numeral) && NumeralMeant(input, numeral).Some?
    requires Covers(input.doc, pos, [numeral], end)
    ensures ReadValue(input, pos, node, errors) == Outcome(true, end, NumeralMeant(input, numeral).value, errors)
  {
    hide Covers, ReadToken, NextToken, ReadValue, DecodeNumber, NumeralMeant, IsNumeral;
    NumeralTaken(input.doc, pos, numeral, end);
    NumeralExact(input, numeral);
    ValueUnfold(input, pos, node, errors);
  }

  lemma PiecesDecoded(doc: string, pos: nat, ps: seq<Piece>, end: nat)
    requires pos <= |doc| && Covers(doc, pos, [InQuotes(PiecesSpelled(ps))], end)
    ensures var t := ReadToken(doc, pos);
            && t == NextToken(doc, pos) == Token(StringToken, SkipSpaces(doc, pos), end)
            && DecodeString(doc, t) == Decoded(PiecesText(ps))
  {
    hide Covers, ReadToken, NextToken, DecodeString, Unescape, Closed, PiecesText;
    BodyExact(PiecesSpelled(ps));
    assert Writes(ps, PiecesSpelled(ps));
    StringTaken(doc, pos, PiecesSpelled(ps), end);
  }

  lemma PiecesFound(doc: string, pos: nat) returns (ps: seq<Piece>)
    requires pos <= |doc| && ReadToken(doc, pos).kind == StringToken && DecodeString(doc, ReadToken(doc, pos)).Decoded?
    ensures Covers(doc, pos, [InQuotes(PiecesSpelled(ps))], ReadToken(doc, pos).end)
    ensures DecodeString(doc, ReadToken(doc, pos)) == Decoded(PiecesText(ps))
  {
    hide Covers, ReadToken, NextToken, DecodeString, Unescape, Closed, PiecesText;
    var body := StringRead(doc, pos);
    BodyExact(body);
    ps :| Writes(ps, body);
  }

  lemma StringTree(input: Input, pos: nat, ps: seq<Piece>, end: nat, node: Value, errors: seq<ErrorInfo>)
    requires pos <= |input.doc| && Covers(input.doc, pos, [InQuotes(PiecesSpelled(ps))], end)
    ensures ReadValue(input, pos, node, errors) == Outcome(true, end, Str(Some(CString(PiecesText(ps)))), errors)
  {
    hide Covers, ReadToken, NextToken, ReadValue, DecodeString, PiecesText, PiecesSpelled;
    PiecesDecoded(input.doc, pos, ps, end);
    ValueUnfold(input, pos, node, errors);
  }

  lemma WordTree(input: Input, pos: nat, word: string, end: nat, node: Value, errors: seq<ErrorInfo>)
    requires pos <= |input.doc| && word in {"null", "true", "false"} && Covers(input.doc, pos, [word], end)
    ensures ReadValue(input, pos, node, errors)
            == Outcome(true, end, if word == "null" then Null else Bool(word == "true"), errors)
  {
    hide Covers, ReadToken, NextToken, ReadValue;
    WordTaken(input.doc, pos, word, end);
    ValueUnfold(input, pos, node, errors);
  }

  // ---------- every tree is read as its value ----------

  lemma ArrayUnfold(input: Input, pos: nat, errors: seq<ErrorInfo>)
    requires pos <= |input.doc|
    ensures var p := SkipSpaces(input.doc, pos);
            ReadArray(input, pos, errors)
            == if p < |input.doc| && input.doc[p] == ']' then Outcome(true, p + 1, Arr([]), errors)
               else ReadElements(input, p, [], 0, errors)
  {
    hide ReadElements, SkipSpaces;
  }

  lemma ElementsUnfold(input: Input, pos: nat, items: seq<Entry>, index: nat, errors: seq<ErrorInfo>)
    requires pos <= |input.doc|
    ensures var r := ReadValue(input, pos, Get(items, Index(index)), errors);
            var items' := Put(items, Index(index), r.node);
            var whole := ReadElements(input, pos, items, index, errors);
            if r.ok then
              var t := NextToken(input.doc, r.pos);
              && (t.kind == ArrayEnd ==> whole == Outcome(true, t.end, Arr(items'), errors))
              && (t.kind == ArraySeparator ==> whole == ReadElements(input, t.end, items', index + 1, errors))
              && (t.kind != ArrayEnd && t.kind != ArraySeparator ==> !whole.ok)
            else !whole.ok
  {
    hide ReadValue, NextToken, Put, Get, Recover;
  }

  lemma {:induction false} ReadTree(input: Input, pos: nat, t: Text, end: nat, node: Value, errors: seq<ErrorInfo>)
    requires pos <= |input.doc| && ValidText(input, t) && Covers(input.doc, pos, TextTokens(t), end)
    ensures ReadValue(input, pos, node, errors) == Outcome(true, end, Meant(input, t), errors)
    decreases t, 0
  {
    hide Covers, ReadValue, ReadArray, ReadMembers, SkipSpaces, NumeralMeant, ElementsTokens, MembersTokens, StoredElements;
    hide StoredMembers, PiecesText, PiecesSpelled, IsNumeral, ReadToken, NextToken, AllComments;
    match t
    case Word(word) => WordTree(input, pos, word, end, node, errors);
    case Number(numeral) => NumberTree(input, pos, numeral, end, node, errors);
    case Chars(pieces) => StringTree(input, pos, pieces, end, node, errors);
    case Array(es) =>
      var m := Split(input.doc, pos, ["["], ElementsTokens(es) + ["]"], end);
      PunctuationTaken(input.doc, pos, '[', m);
      ValueUnfold(input, pos, node, errors);
      ReadArrayTree(input, m, es, end, errors);
    case Object(ms, closing) =>
      var m := Split(input.doc, pos, ["{"], MembersTokens(ms) + (closing + ["}"]), end);
      PunctuationTaken(input.doc, pos, '{', m);
      ValueUnfold(input, pos, node, errors);
      NoName();
      ReadMembersTree(input, m, ms, closing, [], [], end, errors);
  }

  lemma NoName()
    ensures PiecesText([]) == []
  {
  }

  lemma NothingStored(input: Input, items: seq<Entry>, index: nat)
    ensures StoredElements(input, [], items, index) == items && StoredMembers(input, [], items) == items
    ensures ElementsTokens([]) == [] && MembersTokens([]) == []
  {
  }

  lemma NotBracket(input: Input, t: Text)
    requires ValidText(input, t)
    ensures TextTokens(t)[0] != "" && TextTokens(t)[0][0] != ']'
  {
    hide PiecesSpelled, NumeralMeant;
  }

  lemma ElementNotBracket(input: Input, e: Item)
    requires ValidElement(input, e)
    ensures OneElement(e)[0] != "" && OneElement(e)[0][0] != ']'
  {
    hide IsComment, ValidText, TextTokens;
    NotBracket(input, e.value);
    if e.before != [] {
      CommentNotEmpty(e.before[0]);
      assert OneElement(e)[0] == e.before[0];
    } else {
      assert OneElement(e)[0] == TextTokens(e.value)[0];
    }
  }

  lemma {:induction false} ReadArrayTree(input: Input, pos: nat, es: seq<Item>, end: nat, errors: seq<ErrorInfo>)
    requires pos <= |input.doc| && (forall i :: 0 <= i < |es| ==> ValidElement(input, es[i]))
    requires Covers(input.doc, pos, ElementsTokens(es) + ["]"], end)
    ensures ReadArray(input, pos, errors) == Outcome(true, end, Arr(StoredElements(input, es, [], 0)), errors)
    decreases es, 1
  {
    hide Covers, ReadToken, NextToken, ReadElements, ReadArray, SkipSpaces, StoredElements, ValidElement, OneElement;
    var ts := ElementsTokens(es) + ["]"];
    ArrayUnfold(input, pos, errors);
    if es == [] {
      assert ts == [[']']];
      PunctuationTaken(input.doc, pos, ']', end);
      NothingStored(input, [], 0);
    } else {
      assert ValidElement(input, es[0]);
      ElementNotBracket(input, es[0]);
      assert ts[0] == OneElement(es[0])[0];
      First(input.doc, pos, ts, end);
      FromToken(input.doc, pos, ts, end);
      ReadElementsTree(input, SkipSpaces(input.doc, pos), es, [], 0, end, errors);
    }
  }

  function ElementsTail(es: seq<Item>): seq<string>
    requires es != []
  {
    if |es| > 1 then [","] + (ElementsTokens(es[1..]) + ["]"]) else ["]"]
  }

  // The tokens of the elements, element by element
  lemma ElementsSplit(es: seq<Item>)
    requires es != []
    ensures ElementsTokens(es) + ["]"] == es[0].before + (TextTokens(es[0].value) + (es[0].after + ElementsTail(es)))
  {
    hide TextTokens;
    var comma := if |es| > 1 then [","] else [];
    var more := ElementsTokens(es[1..]);
    assert |es| == 1 ==> more == [];
    Pieces(es[0].before, TextTokens(es[0].value), es[0].after, comma, more, ["]"]);
  }

  lemma Pieces(a: seq<string>, b: seq<string>, c: seq<string>, d: seq<string>, e: seq<string>, f: seq<string>)
    ensures ((a + (b + c)) + (d + e)) + f == a + (b + (c + (d + (e + f))))
    ensures d == [] && e == [] ==> d + (e + f) == f
  {
  }

  lemma {:induction false} ReadElementsTree(input: Input, pos: nat, es: seq<Item>, items: seq<Entry>, index: nat, end: nat,
          errors: seq<ErrorInfo>)
    requires pos <= |input.doc| && es != [] && (forall i :: 0 <= i < |es| ==> ValidElement(input, es[i]))
    requires Covers(input.doc, pos, ElementsTokens(es) + ["]"], end)
    ensures ReadElements(input, pos, items, index, errors)
            == Outcome(true, end, Arr(StoredElements(input, es, items, index)), errors)
    decreases es, 0
  {
    hide Covers, ReadToken, NextToken, ReadElements, ReadValue, SkipSpaces, Put, Get, ElementsTokens, ValidText, TextTokens;
    hide Meant, AllComments;
    var e := es[0];
    assert ValidElement(input, e);
    ElementsSplit(es);
    var node := Get(items, Index(index));
    var m := Split(input.doc, pos, e.before, TextTokens(e.value) + (e.after + ElementsTail(es)), end);
    BeforeValue(input, pos, e.before, m, node, errors);
    var p := Split(input.doc, m, TextTokens(e.value), e.after + ElementsTail(es), end);
    ReadTree(input, m, e.value, p, node, errors);
    var q := Split(input.doc, p, e.after, ElementsTail(es), end);
    CommentsTaken(input.doc, p, e.after, q);
    ElementsUnfold(input, pos, items, index, errors);
    var items' := Put(items, Index(index), Meant(input, e.value));
    if |es| > 1 {
      var next := Split(input.doc, q, [","], ElementsTokens(es[1..]) + ["]"], end);
      PunctuationTaken(input.doc, q, ',', next);
      ReadElementsTree(input, next, es[1..], items', index + 1, end, errors);
    } else {
      PunctuationTaken(input.doc, q, ']', end);
      NothingStored(input, items', index + 1);
    }
  }

  // ---------- objects ----------

  lemma NameUnfold(input: Input, pos: nat, items: seq<Entry>, name: string, errors: seq<ErrorInfo>)
    requires pos <= |input.doc|
    ensures var t := NextToken(input.doc, pos);
            var s := MemberName(input, pos, items, name, errors);
            if t.kind == ObjectEnd && name == "" then s == Step.Stop(Outcome(true, t.end, Obj(items), errors))
            else if t.kind == StringToken && DecodeString(input.doc, t).Decoded?
                    && ReadToken(input.doc, t.end).kind == MemberSeparator then
              s == Step.More(ReadToken(input.doc, t.end).end, DecodeString(input.doc, t).text)
            else s.Stop? && !s.result.ok
  {
    hide NextToken, ReadToken, DecodeString, Recover;
  }

  lemma EndUnfold(input: Input, pos: nat, items: seq<Entry>, name: string, errors: seq<ErrorInfo>)
    requires pos <= |input.doc|
    ensures var t := NextToken(input.doc, pos);
            var s := MemberEnd(input, pos, items, name, errors);
            if ReadToken(input.doc, pos).kind in {ObjectEnd, ArraySeparator, CommentToken} then
              s == if t.kind == ObjectEnd then Step.Stop(Outcome(true, t.end, Obj(items), errors)) else Step.More(t.end, name)
            else s.Stop? && !s.result.ok
  {
    hide NextToken, ReadToken, Recover;
  }

  // One turn of the loop of readObject
  lemma MembersUnfold(input: Input, pos: nat, items: seq<Entry>, name: string, errors: seq<ErrorInfo>)
    requires pos <= |input.doc|
    ensures var begun := MemberName(input, pos, items, name, errors);
            var whole := ReadMembers(input, pos, items, name, errors);
            if begun.Stop? then whole == begun.result
            else
              var key := Name(CString(begun.name));
              var r := ReadValue(input, begun.pos, Get(items, key), errors);
              var items' := Put(items, key, r.node);
              if r.ok then
                var ended := MemberEnd(input, r.pos, items', begun.name, errors);
                if ended.Stop? then whole == ended.result
                else whole == ReadMembers(input, ended.pos, items', begun.name, errors)
              else !whole.ok
  {
    hide ReadValue, MemberName, MemberEnd, Put, Get, CString, Recover;
  }

  lemma MembersSplit(ms: seq<Member>, closing: seq<string>)
    requires ms != []
    ensures MembersTokens(ms) + (closing + ["}"]) == OneMember(ms[0]) + (MembersTokens(ms[1..]) + (closing + ["}"]))
  {
    hide OneMember;
    Seqs.Associative(OneMember(ms[0]), MembersTokens(ms[1..]), closing + ["}"]);
  }

  // The name of a member and its colon
  lemma ReadName(input: Input, pos: nat, m: Member, start: nat, items: seq<Entry>, name: string, errors: seq<ErrorInfo>)
    requires pos <= |input.doc| && AllComments(m.front)
    requires Covers(input.doc, pos, m.front + ([InQuotes(PiecesSpelled(m.name))] + [":"]), start)
    ensures pos < start && MemberName(input, pos, items, name, errors) == Step.More(start, PiecesText(m.name))
  {
    hide Covers, ReadToken, NextToken, SkipSpaces, AllComments, MemberName, DecodeString, PiecesSpelled, PiecesText;
    var p := Split(input.doc, pos, m.front, [InQuotes(PiecesSpelled(m.name))] + [":"], start);
    CommentsTaken(input.doc, pos, m.front, p);
    var q := Split(input.doc, p, [InQuotes(PiecesSpelled(m.name))], [":"], start);
    PiecesDecoded(input.doc, p, m.name, q);
    assert [':'] == ":";
    PunctuationTaken(input.doc, q, ':', start);
    NameUnfold(input, pos, items, name, errors);
  }

  // The tokens of a member up to its colon, its value, and what stands behind it
  lemma MemberParts(m: Member)
    ensures OneMember(m) == (m.front + ([InQuotes(PiecesSpelled(m.name))] + [":"]))
                            + (m.before + (TextTokens(m.value) + (m.after + SeparatorTokens(m))))
  {
    hide TextTokens, PiecesSpelled;
  }

  // The name and the value of a member, up to what stands behind the value
  lemma {:induction false} ReadMemberTree(input: Input, pos: nat, m: Member, end: nat, items: seq<Entry>, name: string,
          errors: seq<ErrorInfo>)
    returns (p: nat)
    requires pos <= |input.doc| && ValidMember(input, m) && Covers(input.doc, pos, OneMember(m), end)
    ensures pos < p <= |input.doc| && end <= |input.doc| && Covers(input.doc, p, m.after + SeparatorTokens(m), end)
    ensures var begun := MemberName(input, pos, items, name, errors);
            && begun.More? && begun.name == PiecesText(m.name)
            && ReadValue(input, begun.pos, Get(items, MemberKey(m)), errors)
               == Outcome(true, p, MemberMeant(input, m), errors)
    decreases m, 1
  {
    hide Covers, ReadToken, NextToken, ReadValue, SkipSpaces, Get, ValidText, TextTokens, Meant;
    hide AllComments, MemberName, PiecesSpelled, PiecesText, MemberKey, SeparatorTokens, OneMember;
    var tail := m.after + SeparatorTokens(m);
    MemberParts(m);
    var start := Split(input.doc, pos, m.front + ([InQuotes(PiecesSpelled(m.name))] + [":"]),
                       m.before + (TextTokens(m.value) + tail), end);
    ReadName(input, pos, m, start, items, name, errors);
    var v := Split(input.doc, start, m.before, TextTokens(m.value) + tail, end);
    BeforeValue(input, start, m.before, v, Get(items, MemberKey(m)), errors);
    p := Split(input.doc, v, TextTokens(m.value), tail, end);
    ReadTree(input, v, m.value, p, Get(items, MemberKey(m)), errors);
  }

  lemma {:induction false} ReadMembersTree(input: Input, pos: nat, ms: seq<Member>, closing: seq<string>, name: seq<Piece>,
          items: seq<Entry>, end: nat, errors: seq<ErrorInfo>)
    requires pos <= |input.doc| && (forall i :: 0 <= i < |ms| ==> ValidMember(input, ms[i]))
    requires AllComments(closing) && Closes(ms, name, closing)
    requires Covers(input.doc, pos, MembersTokens(ms) + (closing + ["}"]), end)
    ensures ReadMembers(input, pos, items, PiecesText(name), errors)
            == Outcome(true, end, Obj(StoredMembers(input, ms, items)), errors)
    decreases ms, 0
  {
    hide *;
    if ms == [] {
      CloseObject(input, pos, closing, name, items, end, errors);
    } else {
      var m := ms[0];
      var rest := MembersTokens(ms[1..]) + (closing + ["}"]);
      assert ValidMember(input, m);
      MembersSplit(ms, closing);
      var next := Split(input.doc, pos, OneMember(m), rest, end);
      var p := ReadMemberTree(input, pos, m, next, items, PiecesText(name), errors);
      var items' := Put(items, MemberKey(m), MemberMeant(input, m));
      KeyOfMember(m);
      MembersUnfold(input, pos, items, PiecesText(name), errors);
      ClosesStep(ms, name, closing);
      StoredStep(input, ms, items);
      if m.separator.None? {
        NoSeparator(input, p, m, next, end, items', PiecesText(m.name), errors);
        NothingStored(input, items', 0);
      } else {
        ReadSeparator(input, p, m, next, ms[1..], closing, end, items', PiecesText(m.name), errors);
        ReadMembersTree(input, next, ms[1..], closing, m.name, items', end, errors);
      }
    }
  }

  lemma KeyOfMember(m: Member)
    ensures MemberKey(m) == Name(CString(PiecesText(m.name)))
  {
  }

  lemma ClosesStep(ms: seq<Member>, name: seq<Piece>, closing: seq<string>)
    requires ms != [] && Closes(ms, name, closing)
    ensures if ms[0].separator.None? then ms[1..] == [] && closing == [] && MembersTokens(ms[1..]) + (closing + ["}"]) == ["}"]
            else Closes(ms[1..], ms[0].name, closing)
  {
  }

  lemma StoredStep(input: Input, ms: seq<Member>, items: seq<Entry>)
    requires ms != [] && (forall i :: 0 <= i < |ms| ==> ValidMember(input, ms[i]))
    ensures ValidMember(input, ms[0])
    ensures StoredMembers(input, ms, items)
            == StoredMembers(input, ms[1..], Put(items, MemberKey(ms[0]), MemberMeant(input, ms[0])))
  {
    hide ValidMember, MemberMeant, MemberKey, Put;
  }

  lemma CloseObject(input: Input, pos: nat, closing: seq<string>, name: seq<Piece>, items: seq<Entry>, end: nat,
          errors: seq<ErrorInfo>)
    requires pos <= |input.doc| && AllComments(closing) && Closes([], name, closing)
    requires Covers(input.doc, pos, MembersTokens([]) + (closing + ["}"]), end)
    ensures ReadMembers(input, pos, items, PiecesText(name), errors)
            == Outcome(true, end, Obj(StoredMembers(input, [], items)), errors)
  {
    hide Covers, ReadToken, NextToken, SkipSpaces, AllComments, MemberName, ReadMembers;
    NothingStored(input, items, 0);
    assert MembersTokens([]) + (closing + ["}"]) == closing + ["}"];
    var p := Split(input.doc, pos, closing, ["}"], end);
    CommentsTaken(input.doc, pos, closing, p);
    PunctuationTaken(input.doc, p, '}', end);
    NoName();
    NameUnfold(input, pos, items, "", errors);
    MembersUnfold(input, pos, items, "", errors);
  }

  // The brace behind the last member
  lemma NoSeparator(input: Input, pos: nat, m: Member, next: nat, end: nat, items: seq<Entry>, name: string,
          errors: seq<ErrorInfo>)
    requires pos <= |input.doc| && next <= |input.doc| && ValidMember(input, m) && m.separator.None?
    requires Covers(input.doc, pos, m.after + SeparatorTokens(m), next) && Covers(input.doc, next, ["}"], end)
    ensures MemberEnd(input, pos, items, name, errors) == Step.Stop(Outcome(true, end, Obj(items), errors))
  {
    hide Covers, ReadToken, NextToken, SkipSpaces, AllComments, MemberEnd, ValidText;
    assert m.after + SeparatorTokens(m) == m.after;
    CommentsTaken(input.doc, pos, m.after, next);
    PunctuationTaken(input.doc, next, '}', end);
    EndUnfold(input, pos, items, name, errors);
  }

  // What follows a separator begins with a quote, a slash or a brace.
  lemma MemberBegins(input: Input, ms: seq<Member>, closing: seq<string>)
    requires (forall i :: 0 <= i < |ms| ==> ValidMember(input, ms[i])) && AllComments(closing)
    ensures var ts := MembersTokens(ms) + (closing + ["}"]);
            ts != [] && ts[0] != "" && BeginsMember(ts[0][0])
  {
    hide ValidText, TextTokens, PiecesSpelled, IsComment;
    var cs := if ms == [] then closing else ms[0].front;
    if ms != [] {
      assert ValidMember(input, ms[0]);
    }
    if cs != [] {
      CommentNotEmpty(cs[0]);
    }
  }

  lemma BehindSeparator(doc: string, pos: nat, ts: seq<string>, end: nat)
    requires pos <= |doc| && ts != [] && Covers(doc, pos, ts, end) && ts[0] != "" && BeginsMember(ts[0][0])
    ensures pos < |doc| && (IsSpace(doc[pos]) || BeginsMember(doc[pos]))
  {
    hide Covers, IsSpace;
    First(doc, pos, ts, end);
  }

  lemma ReadSeparator(input: Input, pos: nat, m: Member, next: nat, ms: seq<Member>, closing: seq<string>, end: nat,
          items: seq<Entry>, name: string, errors: seq<ErrorInfo>)
    requires pos <= |input.doc| && next <= |input.doc| && ValidMember(input, m) && m.separator.Some?
    requires (forall i :: 0 <= i < |ms| ==> ValidMember(input, ms[i])) && AllComments(closing)
    requires Covers(input.doc, pos, m.after + SeparatorTokens(m), next)
    requires Covers(input.doc, next, MembersTokens(ms) + (closing + ["}"]), end)
    ensures MemberEnd(input, pos, items, name, errors) == Step.More(next, name)
  {
    hide Covers, ReadToken, NextToken, SkipSpaces, AllComments, MemberEnd, ValidText, IsAnyToken, MembersTokens, BeginsMember;
    hide IsSpace;
    var sep := m.separator.value;
    var q := Split(input.doc, pos, m.after, [sep], next);
    CommentsTaken(input.doc, pos, m.after, q);
    if m.after == [] {
      PunctuationTaken(input.doc, q, ',', next);
    } else {
      MemberBegins(input, ms, closing);
      BehindSeparator(input.doc, next, MembersTokens(ms) + (closing + ["}"]), end);
      AnyTokenTaken(input.doc, q, sep, next);
    }
    EndUnfold(input, pos, items, name, errors);
  }

  // ---------- everything the reader accepts is a tree ----------

  // The comments in front of a value and the value that readValue has taken
  lemma {:induction false} TreeRead(input: Input, pos: nat, node: Value, errors: seq<ErrorInfo>)
    returns (cs: seq<string>, t: Text)
    requires pos <= |input.doc| && ReadValue(input, pos, node, errors).ok
    ensures ValidText(input, t) && AllowedComments(input, cs)
    ensures Covers(input.doc, pos, cs + TextTokens(t), ReadValue(input, pos, node, errors).pos)
    decreases |input.doc| - pos, 1
  {
    hide Covers, ReadValue, ReadArray, ReadMembers, SkipSpaces, ReadToken, NextToken, AllComments, ValidText, TextTokens;
    ValueRefused(input, pos, node, errors);
    var start;
    cs, start := CommentsBefore(input, pos);
    t := TextRead(input, pos, start, node, errors);
    Joined(input.doc, pos, cs, start, TextTokens(t), ReadValue(input, pos, node, errors).pos);
  }

  lemma CommentsBefore(input: Input, pos: nat) returns (cs: seq<string>, start: nat)
    requires pos <= |input.doc| && ValueToken(input, pos).start < |input.doc| && ValueToken(input, pos).kind != CommentToken
    ensures AllowedComments(input, cs) && pos <= start <= |input.doc| && Covers(input.doc, pos, cs, start)
    ensures ValueToken(input, pos) == ReadToken(input.doc, start)
  {
    hide Covers, ReadToken, NextToken, AllComments;
    if input.allowComments {
      cs, start := CommentsRead(input.doc, pos);
    } else {
      cs, start := [], pos;
      NothingCovered(input.doc, pos);
      NoComments();
    }
  }

  lemma NoComments()
    ensures AllComments([])
  {
  }

  // The value whose first token, behind the comments, is at `start`
  lemma {:induction false} TextRead(input: Input, pos: nat, start: nat, node: Value, errors: seq<ErrorInfo>) returns (t: Text)
    requires pos <= start <= |input.doc| && ReadValue(input, pos, node, errors).ok
    requires ValueToken(input, pos) == ReadToken(input.doc, start)
    ensures ValidText(input, t) && Covers(input.doc, start, TextTokens(t), ReadValue(input, pos, node, errors).pos)
    decreases |input.doc| - pos, 0
  {
    hide Covers, ReadValue, ReadArray, ReadMembers, SkipSpaces, ReadToken, ValueToken, NextToken, ValidText, TextTokens;
    hide DecodeString, DecodeNumber;
    ValueRefused(input, pos, node, errors);
    ValueUnfold(input, pos, node, errors);
    var first := ReadToken(input.doc, start);
    match first.kind
    case ArrayBegin =>
      PunctuationRead(input.doc, start, '[');
      var es := ArrayRead(input, first.end, errors);
      t := Array(es);
      Joined(input.doc, start, ["["], first.end, ElementsTokens(es) + ["]"], ReadArray(input, first.end, errors).pos);
      ArrayIsText(input, es);
    case ObjectBegin =>
      PunctuationRead(input.doc, start, '{');
      var ms, closing := MembersRead(input, first.end, [], [], errors);
      NoName();
      t := Object(ms, closing);
      Joined(input.doc, start, ["{"], first.end, MembersTokens(ms) + (closing + ["}"]), ReadMembers(input, first.end, [], "", errors).pos);
      ObjectIsText(input, ms, closing);
    case NumberToken =>
      NumeralRead(input.doc, start);
      t := Number(TokenText(input.doc, first));
      NumeralExact(input, t.numeral);
      ScalarIsText(input, t);
    case StringToken =>
      var ps := PiecesFound(input.doc, start);
      t := Chars(ps);
      ScalarIsText(input, t);
    case _ =>
      var word := WordRead(input.doc, start);
      t := Word(word);
      ScalarIsText(input, t);
  }

  lemma ArrayIsText(input: Input, es: seq<Item>)
    requires forall i :: 0 <= i < |es| ==> ValidElement(input, es[i])
    ensures ValidText(input, Array(es)) && TextTokens(Array(es)) == ["["] + (ElementsTokens(es) + ["]"])
  {
    hide ValidElement;
  }

  lemma ObjectIsText(input: Input, ms: seq<Member>, closing: seq<string>)
    requires (forall i :: 0 <= i < |ms| ==> ValidMember(input, ms[i])) && AllComments(closing) && Closes(ms, [], closing)
    ensures ValidText(input, Object(ms, closing))
    ensures TextTokens(Object(ms, closing)) == ["{"] + (MembersTokens(ms) + (closing + ["}"]))
  {
    hide ValidMember, AllComments, Closes;
  }

  lemma ScalarIsText(input: Input, t: Text)
    requires t.Number? ==> IsNumeral(t.numeral) && NumeralMeant(input, t.numeral).Some?
    requires t.Word? ==> t.word in {"null", "true", "false"}
    requires !t.Array? && !t.Object?
    ensures ValidText(input, t)
    ensures TextTokens(t) == [if t.Word? then t.word else if t.Number? then t.numeral else InQuotes(PiecesSpelled(t.pieces))]
  {
    hide IsNumeral, NumeralMeant, PiecesSpelled;
  }

  lemma {:induction false} ArrayRead(input: Input, pos: nat, errors: seq<ErrorInfo>) returns (es: seq<Item>)
    requires pos <= |input.doc| && ReadArray(input, pos, errors).ok
    ensures forall i :: 0 <= i < |es| ==> ValidElement(input, es[i])
    ensures Covers(input.doc, pos, ElementsTokens(es) + ["]"], ReadArray(input, pos, errors).pos)
    decreases |input.doc| - pos, 3
  {
    hide ReadArray, ReadElements, SkipSpaces, ReadToken, NextToken, ValidElement, ElementsTokens, Covers;
    ArrayUnfold(input, pos, errors);
    var p := SkipSpaces(input.doc, pos);
    if p < |input.doc| && input.doc[p] == ']' {
      es := [];
      BracketCovered(input.doc, pos);
      NothingStored(input, [], 0);
      assert ElementsTokens([]) + ["]"] == ["]"];
    } else {
      es := ElementsRead(input, p, [], 0, errors);
      FromToken(input.doc, pos, ElementsTokens(es) + ["]"], ReadArray(input, pos, errors).pos);
    }
  }

  lemma BracketCovered(doc: string, pos: nat)
    requires pos <= |doc|
    requires var p := SkipSpaces(doc, pos); p < |doc| && doc[p] == ']'
    ensures Covers(doc, pos, ["]"], SkipSpaces(doc, pos) + 1)
  {
    hide SkipSpaces;
    var p := SkipSpaces(doc, pos);
    assert doc[p..p + 1] == "]";
    assert ["]"][1..] == [];
  }

  lemma {:induction false} ElementsRead(input: Input, pos: nat, items: seq<Entry>, index: nat, errors: seq<ErrorInfo>)
    returns (es: seq<Item>)
    requires pos <= |input.doc| && ReadElements(input, pos, items, index, errors).ok
    ensures es != [] && forall i :: 0 <= i < |es| ==> ValidElement(input, es[i])
    ensures Covers(input.doc, pos, ElementsTokens(es) + ["]"], ReadElements(input, pos, items, index, errors).pos)
    decreases |input.doc| - pos, 2
  {
    hide *;
    PunctuationKinds();
    ElementsUnfold(input, pos, items, index, errors);
    var node := Get(items, Index(index));
    var cs, t := TreeRead(input, pos, node, errors);
    var r := ReadValue(input, pos, node, errors);
    CoversBounds(input.doc, pos, cs + TextTokens(t), r.pos);
    var end := ReadElements(input, pos, items, index, errors).pos;
    var next := NextToken(input.doc, r.pos);
    var after, q := CommentsRead(input.doc, r.pos);
    var e := Item(cs, t, after);
    ElementIsValid(input, e);
    if next.kind == ArrayEnd {
      es := [e];
      PunctuationRead(input.doc, q, ']');
      NothingStored(input, [], 0);
    } else {
      var rest := ElementsRead(input, next.end, Put(items, Index(index), r.node), index + 1, errors);
      es := [e] + rest;
      assert es[1..] == rest;
      PunctuationRead(input.doc, q, ',');
      Joined(input.doc, q, [","], next.end, ElementsTokens(rest) + ["]"], end);
    }
    TailIs(es);
    Joined(input.doc, r.pos, after, q, ElementsTail(es), end);
    Joined(input.doc, pos, cs + TextTokens(t), r.pos, after + ElementsTail(es), end);
    ElementsSplit(es);
    Seqs.Associative(cs, TextTokens(t), after + ElementsTail(es));
  }

  lemma TailIs(es: seq<Item>)
    requires es != []
    ensures ElementsTail(es) == if |es| > 1 then [","] + (ElementsTokens(es[1..]) + ["]"]) else ["]"]
  {
  }

  lemma ElementIsValid(input: Input, e: Item)
    requires AllowedComments(input, e.before) && ValidText(input, e.value) && AllComments(e.after)
    ensures ValidElement(input, e)
  {
  }

  lemma {:induction false} NonEmptyPieces(ps: seq<Piece>)
    ensures PiecesText(ps) == [] <==> ps == []
  {
    if ps != [] {
      PieceNotEmpty(ps[0]);
    }
  }

  lemma PieceNotEmpty(p: Piece)
    ensures PieceText(p) != []
  {
  }

  // At the end of the document no object is accepted.
  lemma NoMembersAtEnd(input: Input, items: seq<Entry>, name: string, errors: seq<ErrorInfo>)
    ensures !ReadMembers(input, |input.doc|, items, name, errors).ok
  {
    hide ReadMembers, MemberName, DecodeString;
    assert NextToken(input.doc, |input.doc|).kind == EndOfStream;
    NameUnfold(input, |input.doc|, items, name, errors);
    MembersUnfold(input, |input.doc|, items, name, errors);
  }

  // A member up to its value, as read from `pos` to `end`
  ghost predicate MemberCovers(input: Input, pos: nat, m: Member, end: nat) {
    && pos <= end <= |input.doc|
    && AllComments(m.front) && AllowedComments(input, m.before) && ValidText(input, m.value)
    && Covers(input.doc, pos, MemberStart(m), end)
  }

  function MemberStart(m: Member): seq<string> {
    (m.front + ([InQuotes(PiecesSpelled(m.name))] + [":"])) + (m.before + TextTokens(m.value))
  }

  lemma MemberStartIs(m: Member)
    ensures OneMember(m) == MemberStart(m) + (m.after + SeparatorTokens(m))
  {
    hide TextTokens, PiecesSpelled, SeparatorTokens;
  }

  // The next member, without what stands behind its value
  lemma {:induction false} MemberRead(input: Input, pos: nat, items: seq<Entry>, name: string, errors: seq<ErrorInfo>)
    returns (m: Member)
    requires pos <= |input.doc| && MemberName(input, pos, items, name, errors).More?
    requires var begun := MemberName(input, pos, items, name, errors);
             ReadValue(input, begun.pos, Get(items, Name(CString(begun.name))), errors).ok
    ensures var begun := MemberName(input, pos, items, name, errors);
            && begun.name == PiecesText(m.name)
            && MemberCovers(input, pos, m, ReadValue(input, begun.pos, Get(items, Name(CString(begun.name))), errors).pos)
    decreases |input.doc| - pos, 1
  {
    hide *;
    PunctuationKinds();
    NameUnfold(input, pos, items, name, errors);
    var doc := input.doc;
    var begun := MemberName(input, pos, items, name, errors);
    var front, p := CommentsRead(doc, pos);
    var t := ReadToken(doc, p);
    var ps := PiecesFound(doc, p);
    PunctuationRead(doc, t.end, ':');
    assert [':'] == ":";
    Joined(doc, p, [InQuotes(PiecesSpelled(ps))], t.end, [":"], begun.pos);
    Joined(doc, pos, front, p, [InQuotes(PiecesSpelled(ps))] + [":"], begun.pos);
    var node := Get(items, Name(CString(begun.name)));
    var cs, v := TreeRead(input, begun.pos, node, errors);
    m := Member(front, ps, cs, v, [], None);
    Joined(doc, pos, front + ([InQuotes(PiecesSpelled(ps))] + [":"]), begun.pos, cs + TextTokens(v),
           ReadValue(input, begun.pos, node, errors).pos);
    CoversBounds(doc, pos, front + ([InQuotes(PiecesSpelled(ps))] + [":"]) + (cs + TextTokens(v)),
                 ReadValue(input, begun.pos, node, errors).pos);
    MemberIsCovered(input, pos, m, ReadValue(input, begun.pos, node, errors).pos);
  }

  lemma MemberIsCovered(input: Input, pos: nat, m: Member, end: nat)
    requires pos <= end <= |input.doc|
    requires AllComments(m.front) && AllowedComments(input, m.before) && ValidText(input, m.value)
    requires Covers(input.doc, pos, (m.front + ([InQuotes(PiecesSpelled(m.name))] + [":"])) + (m.before + TextTokens(m.value)), end)
    ensures MemberCovers(input, pos, m, end)
  {
    hide Covers, AllComments, AllowedComments, ValidText, PiecesSpelled, TextTokens;
  }

  lemma MemberEnds(input: Input, pos: nat, m: Member, end: nat)
    requires MemberCovers(input, pos, m, end)
    ensures pos < end <= |input.doc|
  {
    hide Covers, AllComments, AllowedComments, ValidText, PiecesSpelled, TextTokens;
    CoversBounds(input.doc, pos, MemberStart(m), end);
  }

  lemma MemberWhole(input: Input, pos: nat, m: Member, p: nat, after: seq<string>, separator: Option<string>, end: nat)
    requires MemberCovers(input, pos, m, p) && AllComments(after)
    requires separator.Some? ==> if after == [] then separator.value == "," else IsAnyToken(separator.value)
    requires Covers(input.doc, p, after + SeparatorTokens(m.(after := after, separator := separator)), end)
    ensures var whole := m.(after := after, separator := separator);
            ValidMember(input, whole) && Covers(input.doc, pos, OneMember(whole), end)
  {
    hide Covers, AllComments, ValidText, IsAnyToken, TextTokens, PiecesSpelled, SeparatorTokens;
    var whole := m.(after := after, separator := separator);
    assert MemberStart(whole) == MemberStart(m);
    MemberStartIs(whole);
    hide MemberStart, OneMember;
    Joined(input.doc, pos, MemberStart(m), p, after + SeparatorTokens(whole), end);
  }

  // What stands behind the last member
  lemma BraceRead(input: Input, pos: nat, m: Member, p: nat, items: seq<Entry>, name: string, errors: seq<ErrorInfo>)
    returns (whole: Member)
    requires MemberCovers(input, pos, m, p) && NextToken(input.doc, p).kind == ObjectEnd
    requires ReadToken(input.doc, p).kind in {ObjectEnd, ArraySeparator, CommentToken}
    ensures whole.name == m.name && whole.separator.None? && ValidMember(input, whole)
    ensures Covers(input.doc, pos, OneMember(whole) + ["}"], NextToken(input.doc, p).end)
  {
    assert p <= |input.doc|;
    hide *;
    PunctuationKinds();
    var after, q := CommentsRead(input.doc, p);
    whole := m.(after := after, separator := None);
    NoSeparatorTokens(whole);
    MemberWhole(input, pos, m, p, after, None, q);
    PunctuationRead(input.doc, q, '}');
    Joined(input.doc, pos, OneMember(whole), q, ["}"], NextToken(input.doc, p).end);
  }

  lemma NoSeparatorTokens(m: Member)
    ensures m.after + SeparatorTokens(m) == if m.separator.None? then m.after else m.after + [m.separator.value]
  {
  }

  // What stands behind a member that is followed by another, or by comments and the brace
  lemma SeparatorRead(input: Input, pos: nat, m: Member, p: nat) returns (whole: Member)
    requires MemberCovers(input, pos, m, p) && NextToken(input.doc, p).kind != ObjectEnd
    requires ReadToken(input.doc, p).kind in {ObjectEnd, ArraySeparator, CommentToken}
    requires NextToken(input.doc, p).end < |input.doc|
    ensures whole.name == m.name && whole.separator.Some? && ValidMember(input, whole)
    ensures Covers(input.doc, pos, OneMember(whole), NextToken(input.doc, p).end)
  {
    assert p <= |input.doc|;
    hide *;
    PunctuationKinds();
    var after, q := CommentsRead(input.doc, p);
    var t := ReadToken(input.doc, q);
    var sep;
    if after == [] {
      NoCommentNext(input.doc, p);
      sep := ",";
      PunctuationRead(input.doc, p, ',');
      NoneLeft(input.doc, p, q);
    } else {
      sep := TokenText(input.doc, t);
      AnyTokenRead(input.doc, q);
    }
    whole := m.(after := after, separator := Some(sep));
    NoSeparatorTokens(whole);
    Joined(input.doc, p, after, q, [sep], t.end);
    MemberWhole(input, pos, m, p, after, Some(sep), t.end);
  }

  lemma {:induction false} MembersRead(input: Input, pos: nat, items: seq<Entry>, name: seq<Piece>, errors: seq<ErrorInfo>)
    returns (ms: seq<Member>, closing: seq<string>)
    requires pos <= |input.doc| && ReadMembers(input, pos, items, PiecesText(name), errors).ok
    ensures (forall i :: 0 <= i < |ms| ==> ValidMember(input, ms[i])) && AllComments(closing) && Closes(ms, name, closing)
    ensures Covers(input.doc, pos, MembersTokens(ms) + (closing + ["}"]),
                   ReadMembers(input, pos, items, PiecesText(name), errors).pos)
    decreases |input.doc| - pos, 2
  {
    hide *;
    PunctuationKinds();
    var doc := input.doc;
    var before := PiecesText(name);
    MembersUnfold(input, pos, items, before, errors);
    NameUnfold(input, pos, items, before, errors);
    var begun := MemberName(input, pos, items, before, errors);
    if begun.Stop? {
      NonEmptyPieces(name);
      var p;
      closing, p := CommentsRead(doc, pos);
      ms := [];
      PunctuationRead(doc, p, '}');
      Joined(doc, pos, closing, p, ["}"], begun.result.pos);
      EmptyCloses(name, closing);
    } else {
      var m := MemberRead(input, pos, items, before, errors);
      var key := Name(CString(begun.name));
      var r := ReadValue(input, begun.pos, Get(items, key), errors);
      var items' := Put(items, key, r.node);
      MemberEnds(input, pos, m, r.pos);
      EndUnfold(input, r.pos, items', begun.name, errors);
      if NextToken(doc, r.pos).kind == ObjectEnd {
        var whole := BraceRead(input, pos, m, r.pos, items', begun.name, errors);
        ms, closing := [whole], [];
        LastCloses(whole, name);
      } else {
        var next := NextToken(doc, r.pos).end;
        if next == |doc| {
          NoMembersAtEnd(input, items', begun.name, errors);
          assert false;
        }
        var whole := SeparatorRead(input, pos, m, r.pos);
        var rest;
        rest, closing := MembersRead(input, next, items', m.name, errors);
        ms := [whole] + rest;
        assert ms[1..] == rest;
        MoreCloses(ms, name, closing);
        MembersSplit(ms, closing);
        Joined(doc, pos, OneMember(whole), next, MembersTokens(rest) + (closing + ["}"]),
               ReadMembers(input, pos, items, before, errors).pos);
      }
    }
  }

  lemma EmptyCloses(name: seq<Piece>, closing: seq<string>)
    requires name == []
    ensures Closes([], name, closing) && MembersTokens([]) + (closing + ["}"]) == closing + ["}"]
  {
  }

  lemma LastCloses(m: Member, name: seq<Piece>)
    requires m.separator.None?
    ensures Closes([m], name, []) && MembersTokens([m]) + ([] + ["}"]) == OneMember(m) + ["}"] && AllComments([])
  {
    hide OneMember;
  }

  lemma MoreCloses(ms: seq<Member>, name: seq<Piece>, closing: seq<string>)
    requires ms != [] && ms[0].separator.Some? && Closes(ms[1..], ms[0].name, closing)
    ensures Closes(ms, name, closing)
  {
  }

  // ---------- the main result ----------

  predicate Blank(s: string) {
    forall k :: 0 <= k < |s| ==> s[k] in BLANKS
  }

  // Each text behind its gap, and `rest` behind the last one
  function LaidOut(gaps: seq<string>, ts: seq<string>, rest: string): string
    requires |gaps| == |ts|
  {
    if ts == [] then rest else gaps[0] + (ts[0] + LaidOut(gaps[1..], ts[1..], rest))
  }

  // The gaps are white space, and no numeral runs into what follows it.
  predicate Fits(gaps: seq<string>, ts: seq<string>, rest: string)
    requires |gaps| == |ts|
  {
    if ts == [] then true
    else
      var more := LaidOut(gaps[1..], ts[1..], rest);
      && Blank(gaps[0]) && ts[0] != "" && ts[0][0] !in BLANKS
      && (BeginsNumeral(ts[0][0]) && more != "" ==> !InNumeral(more[0]))
      && Fits(gaps[1..], ts[1..], rest)
  }

  lemma {:induction false} SkipsGap(doc: string, pos: nat, end: nat)
    requires pos <= end < |doc| && Blank(doc[pos..end]) && doc[end] !in BLANKS
    ensures SkipSpaces(doc, pos) == end
    decreases end - pos
  {
    CharTables(doc[pos]);
    if pos < end {
      assert doc[pos] == doc[pos..end][0];
      assert doc[pos + 1..end] == doc[pos..end][1..];
      SkipsGap(doc, pos + 1, end);
    }
  }

  lemma GapSkipped(doc: string, pos: nat)
    requires pos <= |doc|
    ensures Blank(doc[pos..SkipSpaces(doc, pos)])
    ensures SkipSpaces(doc, pos) < |doc| ==> doc[SkipSpaces(doc, pos)] !in BLANKS
  {
    hide IsSpace;
    var p := SkipSpaces(doc, pos);
    forall k | 0 <= k < p - pos ensures doc[pos..p][k] in BLANKS {
      CharTables(doc[pos + k]);
    }
    if p < |doc| {
      CharTables(doc[p]);
    }
  }

  lemma Pieced(doc: string, pos: nat, g: string, t: string, more: string)
    requires pos <= |doc| && doc[pos..] == g + (t + more)
    ensures var p := pos + |g|;
            var q := p + |t|;
            && q + |more| == |doc| && doc[pos..p] == g && At(doc, p, t) && doc[q..] == more
            && (t != "" ==> doc[p] == t[0]) && (more != "" ==> doc[q] == more[0])
  {
    var p := pos + |g|;
    assert doc[pos..p] == doc[pos..][..|g|];
    assert doc[p..p + |t|] == doc[pos..][|g|..|g| + |t|];
    assert doc[p + |t|..] == doc[pos..][|g| + |t|..];
    assert t != "" ==> doc[pos..][|g|] == t[0];
    assert more != "" ==> doc[pos..][|g| + |t|] == more[0];
  }

  lemma {:induction false} LaidOutCovers(doc: string, pos: nat, gaps: seq<string>, ts: seq<string>, rest: string)
    requires pos <= |doc| && |gaps| == |ts| && Fits(gaps, ts, rest) && doc[pos..] == LaidOut(gaps, ts, rest)
    ensures |rest| <= |doc| && Covers(doc, pos, ts, |doc| - |rest|)
    decreases |ts|
  {
    hide At, SkipSpaces, Blank, Fits, LaidOut, Covers, BeginsNumeral, InNumeral;
    if ts == [] {
      NothingLaidOut(rest);
      WholeRest(doc, pos, rest);
      NothingCovered(doc, pos);
    } else {
      var more := LaidOut(gaps[1..], ts[1..], rest);
      LaidOutHead(gaps, ts, rest);
      Pieced(doc, pos, gaps[0], ts[0], more);
      SkipsGap(doc, pos, pos + |gaps[0]|);
      LaidOutCovers(doc, pos + |gaps[0]| + |ts[0]|, gaps[1..], ts[1..], rest);
      Cons(doc, pos, ts, |doc| - |rest|);
    }
  }

  lemma WholeRest(doc: string, pos: nat, rest: string)
    requires pos <= |doc| && doc[pos..] == rest
    ensures pos == |doc| - |rest|
  {
  }

  lemma LaidOutHead(gaps: seq<string>, ts: seq<string>, rest: string)
    requires ts != [] && |gaps| == |ts| && Fits(gaps, ts, rest)
    ensures var more := LaidOut(gaps[1..], ts[1..], rest);
            && LaidOut(gaps, ts, rest) == gaps[0] + (ts[0] + more)
            && Blank(gaps[0]) && ts[0] != "" && ts[0][0] !in BLANKS && Fits(gaps[1..], ts[1..], rest)
            && (BeginsNumeral(ts[0][0]) && more != "" ==> !InNumeral(more[0]))
  {
    hide Blank;
  }

  lemma {:induction false} CoversLaidOut(doc: string, pos: nat, ts: seq<string>, end: nat) returns (gaps: seq<string>)
    requires pos <= |doc| && end <= |doc| && Covers(doc, pos, ts, end)
    ensures |gaps| == |ts| && Fits(gaps, ts, doc[end..]) && doc[pos..] == LaidOut(gaps, ts, doc[end..])
    decreases |ts|
  {
    hide At, SkipSpaces, Blank, Fits, LaidOut, Covers, BeginsNumeral, InNumeral;
    if ts == [] {
      gaps := [];
      NoneLeft(doc, pos, end);
      NothingLaidOut(doc[end..]);
    } else {
      First(doc, pos, ts, end);
      GapSkipped(doc, pos);
      var p := SkipSpaces(doc, pos);
      var q := p + |ts[0]|;
      var more := CoversLaidOut(doc, q, ts[1..], end);
      gaps := [doc[pos..p]] + more;
      AtText(doc, p, ts[0]);
      ThreeParts(doc, pos, p, q);
      LaidOutCons(doc[pos..p], more, ts, doc[end..]);
    }
  }

  lemma NothingLaidOut(rest: string)
    ensures Fits([], [], rest) && LaidOut([], [], rest) == rest
  {
  }

  lemma LaidOutCons(gap: string, gaps: seq<string>, ts: seq<string>, rest: string)
    requires ts != [] && |gaps| == |ts| - 1 && Fits(gaps, ts[1..], rest) && Blank(gap)
    requires ts[0] != "" && ts[0][0] !in BLANKS
    requires var more := LaidOut(gaps, ts[1..], rest);
             BeginsNumeral(ts[0][0]) && more != "" ==> !InNumeral(more[0])
    ensures Fits([gap] + gaps, ts, rest)
    ensures LaidOut([gap] + gaps, ts, rest) == gap + (ts[0] + LaidOut(gaps, ts[1..], rest))
  {
    hide Blank;
    assert ([gap] + gaps)[1..] == gaps;
  }

  lemma AtText(doc: string, p: nat, t: string)
    requires At(doc, p, t)
    ensures p + |t| <= |doc| && doc[p..p + |t|] == t
  {
  }

  lemma ThreeParts(doc: string, a: nat, b: nat, c: nat)
    requires a <= b <= c <= |doc|
    ensures doc[a..] == doc[a..b] + (doc[b..c] + doc[c..])
    ensures c < |doc| ==> doc[c..][0] == doc[c]
  {
  }

  predicate RootAllowed(input: Input, t: Text) {
    input.strictRoot ==> t.Array? || t.Object? || t == Word("null")
  }

  // The document is laid out as the comments `cs` and the tree `t`, and ends with `rest`.
  ghost predicate IsDocument(input: Input, cs: seq<string>, t: Text, gaps: seq<string>, rest: string) {
    && AllowedComments(input, cs) && ValidText(input, t) && RootAllowed(input, t)
    && |gaps| == |cs + TextTokens(t)|
    && Fits(gaps, cs + TextTokens(t), rest) && input.doc == LaidOut(gaps, cs + TextTokens(t), rest)
  }

  // What parse does with the outcome of readValue
  lemma ParseUnfold(input: Input, root: Value)
    ensures var r := ReadValue(input, 0, root, []);
            var p := Parse(input, root);
            && p.node == r.node
            && (p.ok <==> r.ok && (input.strictRoot ==> r.node.Arr? || r.node.Obj? || r.node.Null?))
            && (p.ok ==> p.errors == [])
  {
    hide ReadValue, ValueToken;
  }

  lemma RootKind(input: Input, t: Text)
    requires ValidText(input, t)
    ensures RootAllowed(input, t) <==>
            (input.strictRoot ==> Meant(input, t).Arr? || Meant(input, t).Obj? || Meant(input, t).Null?)
  {
    hide StoredElements, StoredMembers, IsNumeral, CString, PiecesText, ValidElement, ValidMember, Closes;
    if t.Number? {
      NumeralKind(input, t.numeral);
    }
  }

  lemma NumeralKind(input: Input, numeral: string)
    requires IsNumeral(numeral) && NumeralMeant(input, numeral).Some?
    ensures var v := NumeralMeant(input, numeral).value; v.Int? || v.UInt? || v.Real?
  {
    hide HasFloatMark, LooksFloating, DecodeInteger, Denotes;
  }

  lemma {:induction false} DocumentIsRead(input: Input, cs: seq<string>, t: Text, gaps: seq<string>, rest: string, root: Value)
    requires IsDocument(input, cs, t, gaps, rest)
    ensures var r := Parse(input, root);
            r.ok && r.node == Meant(input, t) && r.errors == []
  {
    hide ReadValue, Covers, ValidText, AllowedComments, TextTokens, Fits, LaidOut, Parse, Meant, RootAllowed;
    assert input.doc[0..] == input.doc;
    LaidOutCovers(input.doc, 0, gaps, cs + TextTokens(t), rest);
    var end := |input.doc| - |rest|;
    var m := Split(input.doc, 0, cs, TextTokens(t), end);
    BeforeValue(input, 0, cs, m, root, []);
    ReadTree(input, m, t, end, root, []);
    ParseUnfold(input, root);
    RootKind(input, t);
  }

  // parse accepts a document if and only if it is laid out as a tree, and then gives the value
  // of the tree, whatever follows it.
  lemma AcceptsExactly(input: Input, root: Value)
    ensures Parse(input, root).ok <==> exists cs, t, gaps, rest :: IsDocument(input, cs, t, gaps, rest)
    ensures forall cs, t, gaps, rest ::
              IsDocument(input, cs, t, gaps, rest) ==> ValidText(input, t) && Parse(input, root).node == Meant(input, t)
  {
    hide IsDocument, Parse, Meant;
    forall cs, t, gaps, rest | IsDocument(input, cs, t, gaps, rest)
      ensures ValidText(input, t) && Parse(input, root).ok && Parse(input, root).node == Meant(input, t)
    {
      assert ValidText(input, t) by { DocumentIsValid(input, cs, t, gaps, rest); }
      DocumentIsRead(input, cs, t, gaps, rest, root);
    }
    if Parse(input, root).ok {
      DocumentFound(input, root);
    }
  }

  lemma DocumentIsValid(input: Input, cs: seq<string>, t: Text, gaps: seq<string>, rest: string)
    requires IsDocument(input, cs, t, gaps, rest)
    ensures ValidText(input, t)
  {
    hide ValidText, Fits, LaidOut, TextTokens;
  }

  lemma DocumentFound(input: Input, root: Value)
    requires Parse(input, root).ok
    ensures exists cs, t, gaps, rest :: IsDocument(input, cs, t, gaps, rest)
  {
    hide ReadValue, Covers, ValidText, AllowedComments, TextTokens, Fits, LaidOut, Parse, Meant, RootAllowed;
    ParseUnfold(input, root);
    var r := ReadValue(input, 0, root, []);
    var cs, t := TreeRead(input, 0, root, []);
    var gaps := CoversLaidOut(input.doc, 0, cs + TextTokens(t), r.pos);
    assert input.doc[0..] == input.doc;
    var m := Split(input.doc, 0, cs, TextTokens(t), r.pos);
    BeforeValue(input, 0, cs, m, root, []);
    ReadTree(input, m, t, r.pos, root, []);
    RootKind(input, t);
    assert IsDocument(input, cs, t, gaps, input.doc[r.pos..]);
  }

  // What a fresh Reader does with any text
  method ReadText(input: Input, root: Value) returns (ok: bool, result: Value)
    ensures ok <==> exists cs, t, gaps, rest :: IsDocument(input, cs, t, gaps, rest)
    ensures forall cs, t, gaps, rest :: IsDocument(input, cs, t, gaps, rest) ==> ValidText(input, t) && result == Meant(input, t)
  {
    hide IsDocument, Parse, Meant, ValidText;
    var reader := new JsonReader.Reader(input.allowComments, input.strictRoot, input.scan);
    ok, result := reader.ParseDocument(input.doc, root);
    AcceptsExactly(input, root);
  }

  // ---------- what the reader takes besides RFC 8259 ----------

  lemma OneDigit(input: Input)
    ensures IsNumeral("1") && NumeralMeant(input, "1") == Some(Int(1))
  {
    var t := "1";
    assert t[0] == '1' && BeginsNumeral(t[0]) && InNumeral(t[0]);
    assert !HasFloatMark(t);
    NumeralIsValue(0, 1);
    assert seq(0, _ => '0') + Decimal(1) == t;
  }

  function Gaps(n: nat): (gaps: seq<string>)
    ensures |gaps| == n
  {
    seq(n, _ => "")
  }

  lemma {:induction false} WithoutGaps(t: string, ts: seq<string>, rest: string)
    requires t != "" && t[0] !in BLANKS && Fits(Gaps(|ts|), ts, rest)
    requires var more := LaidOut(Gaps(|ts|), ts, rest);
             BeginsNumeral(t[0]) && more != "" ==> !InNumeral(more[0])
    ensures Fits(Gaps(|ts| + 1), [t] + ts, rest)
    ensures LaidOut(Gaps(|ts| + 1), [t] + ts, rest) == t + LaidOut(Gaps(|ts|), ts, rest)
  {
    hide BeginsNumeral, InNumeral, Fits, LaidOut;
    assert Blank("");
    assert [""] + Gaps(|ts|) == Gaps(|ts| + 1);
    assert ([t] + ts)[1..] == ts;
    LaidOutCons("", Gaps(|ts|), [t] + ts, rest);
  }

  const ONE: Text := Number("1")
  const ODD_MEMBER: Member := Member([], [], [], ONE, ["/**/"], Some("["))
  const ODD_TREE: Text := Object([ODD_MEMBER], [])

  lemma OddTreeIsValid(input: Input)
    ensures ValidText(input, ODD_TREE) && Meant(input, ODD_TREE) == Obj([Entry(Name(""), Int(1))])
  {
    OneDigit(input);
    hide IsNumeral, NumeralMeant;
    assert IsComment("/**/");
    assert IsAnyToken("[") by { CharTables('['); }
    assert ValidText(input, ONE) && Meant(input, ONE) == Int(1);
    assert ValidMember(input, ODD_MEMBER) && MemberKey(ODD_MEMBER) == Name("");
    var ms := [ODD_MEMBER];
    assert ms[1..] == [] && Closes(ms[1..], [], []) && Closes(ms, [], []) && AllComments([]);
    hide ValidMember;
    assert ValidText(input, Object(ms, []));
    assert StoredMembers(input, ms, []) == StoredMembers(input, ms[1..], Put([], Name(""), Int(1)));
  }

  lemma OddTreeTokens()
    ensures TextTokens(ODD_TREE) == ["{", "\"\"", ":", "1", "/**/", "[", "}"]
  {
    assert InQuotes(PiecesSpelled([])) == "\"\"";
    assert OneMember(ODD_MEMBER) == ["\"\"", ":", "1", "/**/", "["];
    assert MembersTokens([ODD_MEMBER]) == OneMember(ODD_MEMBER);
  }

  // The texts `ts` laid out without white space are `text`.
  predicate Together(ts: seq<string>, text: string) {
    Fits(Gaps(|ts|), ts, "") && LaidOut(Gaps(|ts|), ts, "") == text
  }

  lemma Before(t: string, ts: seq<string>, text: string)
    requires Together(ts, text) && t != "" && t[0] !in BLANKS && (text != "" && BeginsNumeral(t[0]) ==> !InNumeral(text[0]))
    ensures Together([t] + ts, t + text)
  {
    WithoutGaps(t, ts, "");
  }

  function OddText(): string {
    "{" + ("\"\"" + (":" + ("1" + ("/**/" + ("[" + "}")))))
  }

  lemma SingleTexts()
    ensures Apart("{") && Apart("\"\"") && Apart(":") && Apart("/**/") && Apart("[") && Apart("}")
    ensures "1" != "" && "1"[0] !in BLANKS && forall text :: !InNumeral(("/**/" + text)[0])
  {
  }

  predicate Apart(t: string) {
    t != "" && t[0] !in BLANKS && !BeginsNumeral(t[0])
  }

  lemma OddTextTogether() returns (ts: seq<string>)
    ensures Together(ts, OddText()) && ts == ["{", "\"\"", ":", "1", "/**/", "[", "}"]
  {
    assert Together([], "");
    SingleTexts();
    hide Together, InNumeral, BeginsNumeral;
    Before("}", [], "");
    Before("[", ["}"], "}");
    ts := ["["] + ["}"];
    Before("/**/", ts, "[" + "}");
    ts := ["/**/"] + ts;
    Before("1", ts, "/**/" + ("[" + "}"));
    ts := ["1"] + ts;
    Before(":", ts, "1" + ("/**/" + ("[" + "}")));
    ts := [":"] + ts;
    Before("\"\"", ts, ":" + ("1" + ("/**/" + ("[" + "}"))));
    ts := ["\"\""] + ts;
    Before("{", ts, "\"\"" + (":" + ("1" + ("/**/" + ("[" + "}")))));
    ts := ["{"] + ts;
  }

  // Behind a comment a bracket passes for a comma, and the object ends behind it, because its
  // last name is empty.
  lemma BeyondTheStandard(input: Input, root: Value)
    requires input.doc == OddText()
    ensures Parse(input, root).ok && Parse(input, root).node == Obj([Entry(Name(""), Int(1))])
  {
    OddTreeTokens();
    var ts := OddTextTogether();
    hide ValidText, TextTokens, Fits, LaidOut, Parse, Meant, OddText;
    OddTreeIsValid(input);
    assert [] + TextTokens(ODD_TREE) == TextTokens(ODD_TREE);
    assert AllComments([]);
    assert IsDocument(input, [], ODD_TREE, Gaps(7), "");
    DocumentIsRead(input, [], ODD_TREE, Gaps(7), "", root);
  }
}
