/**
 * How the texts of the writers look. The compact text is nothing but its tokens; the styled text
 * is given line by line, from the value alone.
 */
module JsonLayout {
  import opened Wrappers
  import opened JsonValue
  import opened JsonText
  import opened JsonGrammar
  import opened JsonTokens
  import opened JsonWriter
  import Seqs

  // ---------- the compact text ----------

  // The tokens one behind the other, with `colon` for the colon
  function Concat(ts: seq<string>, colon: string): string {
    if ts == [] then "" else (if ts[0] == ":" then colon else ts[0]) + Concat(ts[1..], colon)
  }

  lemma {:induction false} ConcatAppend(ts: seq<string>, us: seq<string>, colon: string)
    ensures Concat(ts + us, colon) == Concat(ts, colon) + Concat(us, colon)
    decreases |ts|
  {
    hide Concat;
    if ts == [] {
      assert ts + us == us;
      ConcatNothing(colon);
      assert "" + Concat(us, colon) == Concat(us, colon);
    } else {
      ConcatAppend(ts[1..], us, colon);
      Seqs.HeadTailConcat(ts, us);
      ConcatUnfold(ts, colon);
      ConcatUnfold(ts + us, colon);
      Seqs.Associative(if ts[0] == ":" then colon else ts[0], Concat(ts[1..], colon), Concat(us, colon));
    }
  }

  lemma ConcatNothing(colon: string)
    ensures Concat([], colon) == ""
  {
  }

  lemma ConcatUnfold(ts: seq<string>, colon: string)
    requires ts != []
    ensures Concat(ts, colon) == (if ts[0] == ":" then colon else ts[0]) + Concat(ts[1..], colon)
  {
  }

  lemma ConcatOne(t: string, colon: string)
    ensures Concat([t], colon) == if t == ":" then colon else t
  {
    assert [t][1..] == [];
  }

  lemma ScalarNoColon(fl: Floats, v: Value)
    requires !v.Arr? && !v.Obj? && Readable(fl, v)
    ensures ScalarText(fl, v) != ":"
  {
    ScalarIsToken(fl, v);
    if v.Int? {
      IntTextIsToken(v.i);
    } else if v.UInt? {
      IntTextIsToken(v.u);
    }
  }

  // Between the tokens of the compact text there is nothing.
  lemma {:induction false} FastIsTokens(fl: Floats, colon: string, doc: string, v: Value)
    requires Readable(fl, v)
    ensures FastText(fl, colon, doc, v) == doc + Concat(Tokens(fl, v), colon)
    decreases Size(v), 0
  {
    hide FastElements, FastMembers, ElementTokens, MemberTokens, Concat, Readable;
    match v
    case Arr(items) =>
      FastElementsAreTokens(fl, colon, doc + "[", items, 0);
      BracketedConcat("[", ElementTokens(fl, items, 0), "]", colon);
      Bracketed(doc, "[", Concat(ElementTokens(fl, items, 0), colon), "]");
    case Obj(items) =>
      FastMembersAreTokens(fl, colon, doc + "{", items, 0);
      BracketedConcat("{", MemberTokens(fl, items, 0), "}", colon);
      Bracketed(doc, "{", Concat(MemberTokens(fl, items, 0), colon), "}");
    case _ =>
      ScalarNoColon(fl, v);
      ConcatOne(ScalarText(fl, v), colon);
  }

  lemma Bracketed(doc: string, open: string, inner: string, close: string)
    ensures doc + open + inner + close == doc + (open + inner + close)
  {
  }

  lemma BracketedConcat(open: string, ts: seq<string>, close: string, colon: string)
    requires open != ":" && close != ":"
    ensures Concat([open] + ts + [close], colon) == open + Concat(ts, colon) + close
  {
    ConcatAppend([open] + ts, [close], colon);
    ConcatAppend([open], ts, colon);
    ConcatOne(open, colon);
    ConcatOne(close, colon);
  }

  lemma {:induction false} FastElementsAreTokens(fl: Floats, colon: string, doc: string, items: seq<Entry>, index: nat)
    requires Readable(fl, Arr(items))
    ensures FastElements(fl, colon, doc, items, index) == doc + Concat(ElementTokens(fl, items, index), colon)
    decreases SizeItems(items), ArraySize(items) - index
  {
    hide FastText, Tokens, ElementTokens, Readable, Concat, ArraySize, Element, SizeItems;
    if index < ArraySize(items) {
      ElementSize(items, index);
      ElementIsReadable(fl, items, index);
      var v := Element(items, index);
      var separated := if index > 0 then doc + "," else doc;
      FastIsTokens(fl, colon, separated, v);
      FastElementsAreTokens(fl, colon, FastText(fl, colon, separated, v), items, index + 1);
      ElementsConcat(fl, colon, items, index);
      Separated(doc, if index > 0 then "," else "", Concat(Tokens(fl, v), colon), Concat(ElementTokens(fl, items, index + 1), colon));
    } else {
      NothingListed(fl, colon, items, index);
      assert doc + "" == doc;
    }
  }

  lemma NothingListed(fl: Floats, colon: string, items: seq<Entry>, index: nat)
    ensures index >= ArraySize(items) ==> Concat(ElementTokens(fl, items, index), colon) == ""
    ensures index >= |items| ==> Concat(MemberTokens(fl, items, index), colon) == ""
  {
  }

  lemma ElementSize(items: seq<Entry>, index: nat)
    requires index < ArraySize(items)
    ensures Size(Element(items, index)) <= SizeItems(items)
  {
    SizeOfGet(items, Index(index));
  }

  lemma Separated(doc: string, comma: string, text: string, more: string)
    ensures doc + comma + text + more == doc + (comma + text + more)
    ensures comma == "" ==> doc + comma == doc
  {
  }

  lemma ElementIsReadable(fl: Floats, items: seq<Entry>, index: nat)
    requires Readable(fl, Arr(items))
    ensures Readable(fl, Element(items, index))
  {
    ElementReadable(fl, items, index);
  }

  lemma SeparatorConcat(k: nat, colon: string)
    ensures Concat(Separator(k), colon) == if k > 0 then "," else ""
  {
    if k > 0 {
      ConcatOne(",", colon);
    }
  }

  lemma ElementsConcat(fl: Floats, colon: string, items: seq<Entry>, index: nat)
    requires index < ArraySize(items)
    ensures Concat(ElementTokens(fl, items, index), colon) ==
            (if index > 0 then "," else "") + Concat(Tokens(fl, Element(items, index)), colon)
            + Concat(ElementTokens(fl, items, index + 1), colon)
  {
    hide Tokens, Concat, Separator;
    ConcatAppend(Separator(index) + Tokens(fl, Element(items, index)), ElementTokens(fl, items, index + 1), colon);
    ConcatAppend(Separator(index), Tokens(fl, Element(items, index)), colon);
    SeparatorConcat(index, colon);
  }

  lemma {:induction false} FastMembersAreTokens(fl: Floats, colon: string, doc: string, items: seq<Entry>, k: nat)
    requires Readable(fl, Obj(items))
    ensures FastMembers(fl, colon, doc, items, k) == doc + Concat(MemberTokens(fl, items, k), colon)
    decreases SizeItems(items), |items| - k
  {
    hide FastText, Tokens, MemberTokens, Quoted, Readable, Concat;
    if k < |items| {
      SizeOfItem(items, k);
      MemberReadable(fl, items, k);
      var v := items[k].val;
      var separated := if k > 0 then doc + "," else doc;
      var named := separated + Quoted(KeyName(items[k])) + colon;
      FastIsTokens(fl, colon, named, v);
      FastMembersAreTokens(fl, colon, FastText(fl, colon, named, v), items, k + 1);
      MembersConcat(fl, colon, items, k);
      Separated(doc, if k > 0 then "," else "", Quoted(KeyName(items[k])) + colon + Concat(Tokens(fl, v), colon),
                Concat(MemberTokens(fl, items, k + 1), colon));
      Bracketed(separated, Quoted(KeyName(items[k])), colon, Concat(Tokens(fl, v), colon));
    } else {
      NothingListed(fl, colon, items, k);
      assert doc + "" == doc;
    }
  }

  lemma MemberReadable(fl: Floats, items: seq<Entry>, k: nat)
    requires Readable(fl, Obj(items)) && k < |items|
    ensures Readable(fl, items[k].val)
  {
    assert ReadableEntry(fl, items[k]);
  }

  lemma MembersConcat(fl: Floats, colon: string, items: seq<Entry>, k: nat)
    requires k < |items|
    ensures Concat(MemberTokens(fl, items, k), colon) ==
            (if k > 0 then "," else "") + (Quoted(KeyName(items[k])) + colon + Concat(Tokens(fl, items[k].val), colon))
            + Concat(MemberTokens(fl, items, k + 1), colon)
  {
    hide Tokens, Concat, Separator, Quoted;
    var name, rest := [Quoted(KeyName(items[k])), ":"], Tokens(fl, items[k].val);
    ConcatAppend(Separator(k) + name + rest, MemberTokens(fl, items, k + 1), colon);
    ConcatAppend(Separator(k) + name, rest, colon);
    ConcatAppend(Separator(k), name, colon);
    SeparatorConcat(k, colon);
    NameConcat(KeyName(items[k]), colon);
    Seqs.Associative(if k > 0 then "," else "", Quoted(KeyName(items[k])) + colon, Concat(rest, colon));
  }

  lemma NameConcat(name: string, colon: string)
    ensures Concat([Quoted(name), ":"], colon) == Quoted(name) + colon
  {
    var q := Quoted(name);
    assert q[0] == '\"';
    hide Quoted, Concat;
    assert [q, ":"] == [q] + [":"];
    ConcatAppend([q], [":"], colon);
    ConcatOne(q, colon);
    ConcatOne(":", colon);
  }

  // ---------- the lines of the styled text ----------

  function Blanks(n: nat): string {
    seq(n, i => ' ')
  }

  // The elements of an array that is written on one line, from `index` on
  function Listed(fl: Floats, items: seq<Entry>, index: nat): string
    requires AllSimple(items)
    decreases ArraySize(items) - index
  {
    if index >= ArraySize(items) then ""
    else SimpleText(fl, Element(items, index)) + (if index + 1 < ArraySize(items) then ", " else "") + Listed(fl, items, index + 1)
  }

  function FlatText(fl: Floats, items: seq<Entry>): string
    requires AllSimple(items)
  {
    "[ " + Listed(fl, items, 0) + " ]"
  }

  // An array is on one line if its elements are scalars or empty, and few and short enough.
  predicate OnOneLine(fl: Floats, items: seq<Entry>) {
    AllSimple(items) && |FlatText(fl, items)| < 74 && 3 * ArraySize(items) < 74
  }

  // `text` stands in front of the first line.
  function Behind(text: string, lines: seq<string>): (r: seq<string>)
    requires lines != []
    ensures |r| == |lines|
  {
    [text + lines[0]] + lines[1..]
  }

  function WithComma(lines: seq<string>, comma: bool): (r: seq<string>)
    requires lines != []
    ensures |r| == |lines|
  {
    if comma then lines[..|lines| - 1] + [lines[|lines| - 1] + ","] else lines
  }

  // The lines of a value whose inner lines are `depth` levels deep; its first line begins where
  // the value is put. Every element of an array that is not on one line and every member of an
  // object has its own lines, and a closing bracket stands alone under the line of its opener.
  function Lines(fl: Floats, v: Value, depth: nat): (ls: seq<string>)
    ensures ls != []
    decreases Size(v), 0
  {
    match v
    case Arr(items) =>
      if ArraySize(items) == 0 then ["[]"]
      else if OnOneLine(fl, items) then [FlatText(fl, items)]
      else ["["] + ElementLines(fl, items, 0, depth + 1) + [Blanks(3 * depth) + "]"]
    case Obj(items) =>
      if items == [] then ["{}"]
      else ["{"] + MemberLines(fl, items, 0, depth + 1) + [Blanks(3 * depth) + "}"]
    case _ => [ScalarText(fl, v)]
  }

  function ElementLines(fl: Floats, items: seq<Entry>, index: nat, depth: nat): (ls: seq<string>)
    ensures index < ArraySize(items) ==> ls != []
    decreases SizeItems(items), ArraySize(items) - index
  {
    if index >= ArraySize(items) then []
    else
      SizeOfGet(items, Index(index));
      WithComma(Behind(Blanks(3 * depth), Lines(fl, Element(items, index), depth)), index + 1 < ArraySize(items))
      + ElementLines(fl, items, index + 1, depth)
  }

  function MemberLines(fl: Floats, items: seq<Entry>, k: nat, depth: nat): (ls: seq<string>)
    ensures k < |items| ==> ls != []
    decreases SizeItems(items), |items| - k
  {
    if k >= |items| then []
    else
      SizeOfItem(items, k);
      WithComma(Behind(Blanks(3 * depth) + Quoted(KeyName(items[k])) + " : ", Lines(fl, items[k].val, depth)), k + 1 < |items|)
      + MemberLines(fl, items, k + 1, depth)
  }

  function Join(lines: seq<string>): string
    requires lines != []
  {
    if |lines| == 1 then lines[0] else lines[0] + ("\n" + Join(lines[1..]))
  }

  // ---------- joining ----------

  lemma {:induction false} JoinConcat(a: seq<string>, b: seq<string>)
    requires a != [] && b != []
    ensures Join(a + b) == Join(a) + "\n" + Join(b)
    decreases |a|
  {
    if |a| == 1 {
      assert (a + b)[1..] == b;
      Seqs.Associative(a[0], "\n", Join(b));
    } else {
      JoinConcat(a[1..], b);
      Seqs.HeadTailConcat(a, b);
    }
  }

  lemma JoinBehind(text: string, lines: seq<string>)
    requires lines != []
    ensures Join(Behind(text, lines)) == text + Join(lines)
  {
    var r := Behind(text, lines);
    assert r[1..] == lines[1..];
    if |lines| > 1 {
      hide Behind;
      Seqs.Associative(text, lines[0], "\n" + Join(lines[1..]));
    }
  }

  lemma JoinComma(lines: seq<string>)
    requires lines != []
    ensures Join(WithComma(lines, true)) == Join(lines) + ","
  {
    var n := |lines| - 1;
    if n > 0 {
      JoinConcat(lines[..n], [lines[n]]);
      JoinConcat(lines[..n], [lines[n] + ","]);
      assert lines == lines[..n] + [lines[n]];
    }
  }

  // One part, and the parts behind it
  lemma JoinPart(text: string, lines: seq<string>, more: seq<string>)
    requires lines != []
    ensures Join(WithComma(Behind(text, lines), more != []) + more)
            == text + Join(lines) + if more != [] then "," + ("\n" + Join(more)) else ""
  {
    hide Join, WithComma, Behind;
    var part := Behind(text, lines);
    JoinBehind(text, lines);
    if more == [] {
      NoComma(part);
      assert part + more == part;
    } else {
      JoinConcat(WithComma(part, true), more);
      JoinComma(part);
    }
  }

  lemma NoComma(lines: seq<string>)
    requires lines != []
    ensures WithComma(lines, false) == lines
  {
  }

  // An opening line, the lines inside, and a closing line
  lemma JoinBlock(open: string, inner: seq<string>, close: string)
    requires inner != []
    ensures Join([open] + inner + [close]) == open + ("\n" + Join(inner)) + ("\n" + close)
  {
    JoinConcat([open] + inner, [close]);
    JoinConcat([open], inner);
  }

  // ---------- where a line begins ----------

  predicate Inked(s: string) {
    s != "" && s[|s| - 1] != ' ' && s[|s| - 1] != '\n'
  }

  // The text before a value: nothing at all, or an indentation or a colon that ends in a blank
  predicate Placed(doc: string, depth: nat) {
    (doc == "" && depth == 0) || (doc != "" && doc[|doc| - 1] == ' ')
  }

  lemma NewLine(doc: string, depth: nat)
    requires Inked(doc)
    ensures Indented(doc, 3 * depth) == doc + "\n" + Blanks(3 * depth)
    ensures depth > 0 ==> Placed(doc + "\n" + Blanks(3 * depth), depth)
  {
    assert Spaces(3 * depth) == Blanks(3 * depth);
  }

  lemma SameLine(doc: string, depth: nat)
    requires Placed(doc, depth)
    ensures Indented(doc, 3 * depth) == doc
  {
  }

  lemma InkedAppend(a: string, b: string)
    requires Inked(b)
    ensures Inked(a + b)
  {
  }

  lemma ScalarInked(fl: Floats, v: Value)
    requires !v.Arr? && !v.Obj? && Readable(fl, v)
    ensures Inked(ScalarText(fl, v))
  {
    match v
    case Int(i) => NumberInked(IntText(i), i);
    case UInt(u) => NumberInked(Decimal(u), u);
    case Real(r) =>
      var t := fl.printf(r);
      assert IsNumberChar(t[|t| - 1]);
    case _ =>
  }

  lemma NumberInked(t: string, i: int)
    requires t == IntText(i)
    ensures Inked(t)
  {
    IntTextIsToken(i);
    assert IsNumberChar(t[|t| - 1]);
  }

  lemma BracketInked(doc: string, bracket: string)
    requires bracket in {"[", "]", "{", "}", "[]", "{}"}
    ensures Inked(doc + bracket)
  {
  }

  lemma {:induction false} LinesInked(fl: Floats, v: Value, depth: nat)
    requires Readable(fl, v)
    ensures Inked(Join(Lines(fl, v, depth)))
  {
    hide ElementLines, MemberLines, FlatText, Blanks, Join;
    JoinOne(fl, v, depth);
    match v
    case Arr(items) =>
      if ArraySize(items) > 0 {
        if OnOneLine(fl, items) {
          FlatInked(fl, items);
        } else {
          JoinBlock("[", ElementLines(fl, items, 0, depth + 1), Blanks(3 * depth) + "]");
        }
      }
    case Obj(items) =>
      if items != [] {
        JoinBlock("{", MemberLines(fl, items, 0, depth + 1), Blanks(3 * depth) + "}");
      }
    case _ => ScalarInked(fl, v);
  }

  lemma JoinOne(fl: Floats, v: Value, depth: nat)
    ensures |Lines(fl, v, depth)| == 1 ==> Join(Lines(fl, v, depth)) == Lines(fl, v, depth)[0]
  {
    hide Lines;
  }

  lemma FlatInked(fl: Floats, items: seq<Entry>)
    requires AllSimple(items)
    ensures Inked(FlatText(fl, items))
  {
  }

  // ---------- one line or several ----------

  lemma {:induction false} ListedLength(fl: Floats, items: seq<Entry>, k: nat)
    requires AllSimple(items) && k <= ArraySize(items)
    ensures var size := ArraySize(items);
            |Listed(fl, items, k)| ==
            TotalLength(ChildTexts(fl, items, size)) - TotalLength(ChildTexts(fl, items, k))
            + if k < size then 2 * (size - 1 - k) else 0
    decreases ArraySize(items) - k
  {
    hide SimpleText;
    if k < ArraySize(items) {
      ListedLength(fl, items, k + 1);
      OneMoreChild(fl, items, k);
    }
  }

  lemma OneMoreChild(fl: Floats, items: seq<Entry>, k: nat)
    requires AllSimple(items) && k < ArraySize(items)
    ensures TotalLength(ChildTexts(fl, items, k + 1))
            == TotalLength(ChildTexts(fl, items, k)) + |SimpleText(fl, Element(items, k))|
  {
    hide SimpleText;
    var texts := ChildTexts(fl, items, k + 1);
    assert texts[..|texts| - 1] == ChildTexts(fl, items, k);
  }

  // isMultineArray says no exactly when all elements are scalars or empty, the whole text is
  // shorter than 74 characters, and three for each element are too.
  lemma OnOneLineIff(fl: Floats, items: seq<Entry>)
    requires ArraySize(items) > 0
    ensures MultiLine(fl, items) <==> !OnOneLine(fl, items)
  {
    if AllSimple(items) {
      ListedLength(fl, items, 0);
      hide Listed, ChildTexts, AllSimple;
      assert |FlatText(fl, items)| == 4 + |Listed(fl, items, 0)|;
      NoChildren(fl, items);
    }
  }

  lemma NoChildren(fl: Floats, items: seq<Entry>)
    requires AllSimple(items)
    ensures TotalLength(ChildTexts(fl, items, 0)) == 0
  {
  }

  lemma {:induction false} OneLineIsListed(fl: Floats, doc: string, items: seq<Entry>, index: nat)
    requires AllSimple(items)
    ensures OneLine(fl, doc, items, index)
            == if index >= ArraySize(items) then doc else doc + (if index > 0 then ", " else "") + Listed(fl, items, index)
    decreases ArraySize(items) - index
  {
    hide SimpleText;
    if index < ArraySize(items) {
      var t := SimpleText(fl, Element(items, index));
      var separated := if index > 0 then doc + ", " else doc;
      OneLineIsListed(fl, separated + t, items, index + 1);
      ListedStep(fl, items, index, separated);
    }
  }

  lemma ListedStep(fl: Floats, items: seq<Entry>, index: nat, doc: string)
    requires AllSimple(items) && index < ArraySize(items)
    ensures var t := SimpleText(fl, Element(items, index));
            doc + Listed(fl, items, index) ==
            if index + 1 >= ArraySize(items) then doc + t else doc + t + ", " + Listed(fl, items, index + 1)
  {
    hide SimpleText;
    var t := SimpleText(fl, Element(items, index));
    if index + 1 >= ArraySize(items) {
      assert t + "" + "" == t;
    } else {
      assert doc + (t + ", " + Listed(fl, items, index + 1)) == doc + t + ", " + Listed(fl, items, index + 1);
    }
  }

  // ---------- the styled text is its lines ----------

  lemma {:induction false} StyledIsLines(fl: Floats, doc: string, depth: nat, v: Value)
    requires Readable(fl, v) && Placed(doc, depth)
    ensures StyledText(fl, doc, 3 * depth, v) == doc + Join(Lines(fl, v, depth))
    decreases Size(v), 0
  {
    match v
    case Arr(items) =>
      if ArraySize(items) == 0 {
        hide Placed, Readable;
      } else if MultiLine(fl, items) {
        StyledArrayIsLines(fl, doc, depth, items);
      } else {
        FlatArrayIsLine(fl, doc, depth, items);
      }
    case Obj(items) =>
      if items == [] {
        hide Placed, Readable;
      } else {
        StyledObjectIsLines(fl, doc, depth, items);
      }
    case _ => hide Placed, Readable, ScalarText;
  }

  lemma FlatArrayIsLine(fl: Floats, doc: string, depth: nat, items: seq<Entry>)
    requires ArraySize(items) > 0 && !MultiLine(fl, items)
    ensures StyledText(fl, doc, 3 * depth, Arr(items)) == doc + Join(Lines(fl, Arr(items), depth))
  {
    OnOneLineIff(fl, items);
    OneLineIsListed(fl, doc + "[ ", items, 0);
    FlatPieces(doc, Listed(fl, items, 0));
    hide OneLine, Listed, MultiLine, OnOneLine, Simple, SimpleText;
  }

  lemma FlatPieces(doc: string, listed: string)
    ensures doc + "[ " + "" + listed + " ]" == doc + ("[ " + listed + " ]")
  {
  }

  lemma {:induction false} StyledArrayIsLines(fl: Floats, doc: string, depth: nat, items: seq<Entry>)
    requires Readable(fl, Arr(items)) && Placed(doc, depth) && ArraySize(items) > 0 && MultiLine(fl, items)
    ensures StyledText(fl, doc, 3 * depth, Arr(items)) == doc + Join(Lines(fl, Arr(items), depth))
    decreases SizeItems(items), ArraySize(items) + 1
  {
    hide Readable, Placed, MultiLine, OnOneLine, Indented, StyledElements, ElementLines, Join, Blanks, Inked;
    var begun := doc + "[";
    var inner := ElementLines(fl, items, 0, depth + 1);
    SameLine(doc, depth);
    BracketInked(doc, "[");
    StyledElementsAreLines(fl, begun, depth + 1, items, 0);
    var ended := begun + "\n" + Join(inner);
    ElementLinesInked(fl, items, 0, depth + 1);
    InkedAppend(begun + "\n", Join(inner));
    NewLine(ended, depth);
    OnOneLineIff(fl, items);
    JoinBlock("[", inner, Blanks(3 * depth) + "]");
    Pieces(doc, "[", Join(inner), Blanks(3 * depth), "]");
  }

  lemma Pieces(doc: string, open: string, inner: string, blanks: string, close: string)
    ensures doc + open + "\n" + inner + "\n" + blanks + close == doc + (open + ("\n" + inner) + ("\n" + (blanks + close)))
  {
  }

  lemma {:induction false} ElementLinesInked(fl: Floats, items: seq<Entry>, index: nat, depth: nat)
    requires Readable(fl, Arr(items)) && index < ArraySize(items)
    ensures Inked(Join(ElementLines(fl, items, index, depth)))
    decreases ArraySize(items) - index
  {
    hide *;
    ElementIsReadable(fl, items, index);
    ElementsJoin(fl, items, index, depth);
    LinesInked(fl, Element(items, index), depth);
    if index + 1 < ArraySize(items) {
      ElementLinesInked(fl, items, index + 1, depth);
    }
    PartInked(Blanks(3 * depth), Join(Lines(fl, Element(items, index), depth)), ElementLines(fl, items, index + 1, depth));
  }

  // The text of the lines of one element, and of those behind it
  lemma ElementsJoin(fl: Floats, items: seq<Entry>, index: nat, depth: nat)
    requires index < ArraySize(items)
    ensures var more := ElementLines(fl, items, index + 1, depth);
            && (more != [] <==> index + 1 < ArraySize(items))
            && Join(ElementLines(fl, items, index, depth))
               == Blanks(3 * depth) + Join(Lines(fl, Element(items, index), depth))
                  + if more != [] then "," + ("\n" + Join(more)) else ""
  {
    hide Lines, Join, Blanks, WithComma, Behind, ArraySize, Element;
    JoinPart(Blanks(3 * depth), Lines(fl, Element(items, index), depth), ElementLines(fl, items, index + 1, depth));
  }

  lemma PartInked(prefix: string, text: string, more: seq<string>)
    requires Inked(text) && (more != [] ==> Inked(Join(more)))
    ensures Inked(prefix + text + if more != [] then "," + ("\n" + Join(more)) else "")
  {
    hide Join;
  }

  lemma {:induction false} StyledElementsAreLines(fl: Floats, doc: string, depth: nat, items: seq<Entry>, index: nat)
    requires Readable(fl, Arr(items)) && Inked(doc) && depth > 0 && index < ArraySize(items)
    ensures StyledElements(fl, doc, 3 * depth, items, index)
            == (if index > 0 then doc + "," else doc) + "\n" + Join(ElementLines(fl, items, index, depth))
    decreases SizeItems(items), ArraySize(items) - index
  {
    hide Readable, StyledText, Lines, Join, Blanks, Indented, Inked, Placed;
    SizeOfGet(items, Index(index));
    var v := Element(items, index);
    var separated := if index > 0 then doc + "," else doc;
    CommaInked(doc);
    NewLine(separated, depth);
    var placed := separated + "\n" + Blanks(3 * depth);
    ElementIsReadable(fl, items, index);
    StyledIsLines(fl, placed, depth, v);
    var lines, more := Lines(fl, v, depth), ElementLines(fl, items, index + 1, depth);
    ElementsJoin(fl, items, index, depth);
    hide ElementLines;
    LinesInked(fl, v, depth);
    InkedAppend(placed, Join(lines));
    var t := placed + Join(lines);
    if index + 1 < ArraySize(items) {
      StyledElementsAreLines(fl, t, depth, items, index + 1);
      MorePieces(separated, Blanks(3 * depth), Join(lines), Join(more));
    } else {
      assert more == [];
      LastPieces(separated, Blanks(3 * depth), Join(lines));
    }
  }

  lemma CommaInked(doc: string)
    requires Inked(doc)
    ensures Inked(doc + ",")
  {
  }

  lemma MorePieces(doc: string, prefix: string, lines: string, more: string)
    ensures doc + "\n" + prefix + lines + "," + "\n" + more == doc + "\n" + (prefix + lines + ("," + ("\n" + more)))
  {
  }

  lemma LastPieces(doc: string, prefix: string, lines: string)
    ensures doc + "\n" + prefix + lines == doc + "\n" + (prefix + lines + "")
  {
  }

  lemma {:induction false} StyledObjectIsLines(fl: Floats, doc: string, depth: nat, items: seq<Entry>)
    requires Readable(fl, Obj(items)) && Placed(doc, depth) && items != []
    ensures StyledText(fl, doc, 3 * depth, Obj(items)) == doc + Join(Lines(fl, Obj(items), depth))
    decreases SizeItems(items), |items| + 1
  {
    hide Readable, Placed, Indented, StyledMembers, MemberLines, Join, Blanks, Inked;
    var begun := doc + "{";
    var inner := MemberLines(fl, items, 0, depth + 1);
    SameLine(doc, depth);
    BracketInked(doc, "{");
    StyledMembersAreLines(fl, begun, depth + 1, items, 0);
    var ended := begun + "\n" + Join(inner);
    MemberLinesInked(fl, items, 0, depth + 1);
    InkedAppend(begun + "\n", Join(inner));
    NewLine(ended, depth);
    JoinBlock("{", inner, Blanks(3 * depth) + "}");
    Pieces(doc, "{", Join(inner), Blanks(3 * depth), "}");
  }

  function NamePrefix(items: seq<Entry>, k: nat, depth: nat): string
    requires k < |items|
  {
    Blanks(3 * depth) + Quoted(KeyName(items[k])) + " : "
  }

  lemma {:induction false} MemberLinesInked(fl: Floats, items: seq<Entry>, k: nat, depth: nat)
    requires Readable(fl, Obj(items)) && k < |items|
    ensures Inked(Join(MemberLines(fl, items, k, depth)))
    decreases |items| - k
  {
    hide *;
    MemberReadable(fl, items, k);
    MembersJoin(fl, items, k, depth);
    LinesInked(fl, items[k].val, depth);
    if k + 1 < |items| {
      MemberLinesInked(fl, items, k + 1, depth);
    }
    PartInked(NamePrefix(items, k, depth), Join(Lines(fl, items[k].val, depth)), MemberLines(fl, items, k + 1, depth));
  }

  lemma MembersJoin(fl: Floats, items: seq<Entry>, k: nat, depth: nat)
    requires k < |items|
    ensures var more := MemberLines(fl, items, k + 1, depth);
            && (more != [] <==> k + 1 < |items|)
            && Join(MemberLines(fl, items, k, depth))
               == NamePrefix(items, k, depth) + Join(Lines(fl, items[k].val, depth))
                  + if more != [] then "," + ("\n" + Join(more)) else ""
  {
    hide Lines, Join, Blanks, WithComma, Behind, Quoted;
    JoinPart(NamePrefix(items, k, depth), Lines(fl, items[k].val, depth), MemberLines(fl, items, k + 1, depth));
  }

  lemma {:induction false} StyledMembersAreLines(fl: Floats, doc: string, depth: nat, items: seq<Entry>, k: nat)
    requires Readable(fl, Obj(items)) && Inked(doc) && depth > 0 && k < |items|
    ensures StyledMembers(fl, doc, 3 * depth, items, k)
            == (if k > 0 then doc + "," else doc) + "\n" + Join(MemberLines(fl, items, k, depth))
    decreases SizeItems(items), |items| - k
  {
    hide Readable, StyledText, Lines, Join, Blanks, Indented, Inked, Placed, Quoted;
    SizeOfItem(items, k);
    var v := items[k].val;
    var separated := if k > 0 then doc + "," else doc;
    CommaInked(doc);
    NewLine(separated, depth);
    var named := separated + "\n" + Blanks(3 * depth) + Quoted(KeyName(items[k])) + " : ";
    var prefix := NamePrefix(items, k, depth);
    ColonPlaced(separated + "\n" + Blanks(3 * depth) + Quoted(KeyName(items[k])), depth);
    MemberReadable(fl, items, k);
    StyledIsLines(fl, named, depth, v);
    NamePieces(separated, Blanks(3 * depth), Quoted(KeyName(items[k])));
    var lines, more := Lines(fl, v, depth), MemberLines(fl, items, k + 1, depth);
    MembersJoin(fl, items, k, depth);
    hide MemberLines;
    LinesInked(fl, v, depth);
    InkedAppend(named, Join(lines));
    var t := named + Join(lines);
    if k + 1 < |items| {
      StyledMembersAreLines(fl, t, depth, items, k + 1);
      MorePieces(separated, prefix, Join(lines), Join(more));
    } else {
      assert more == [];
      LastPieces(separated, prefix, Join(lines));
    }
  }

  lemma ColonPlaced(doc: string, depth: nat)
    ensures Placed(doc + " : ", depth)
  {
  }

  lemma NamePieces(doc: string, blanks: string, name: string)
    ensures doc + "\n" + blanks + name + " : " == doc + "\n" + (blanks + name + " : ")
  {
  }

  // ---------- the writers ----------

  lemma StyledWritten(fl: Floats, v: Value)
    requires Readable(fl, v)
    ensures StyledText(fl, "", 0, v) == Join(Lines(fl, v, 0))
  {
    hide StyledText, Join, Lines, Readable;
    StyledIsLines(fl, "", 0, v);
    assert "" + Join(Lines(fl, v, 0)) == Join(Lines(fl, v, 0));
  }

  // What a StyledWriter gives, line by line
  method WriteStyled(fl: Floats, v: Value) returns (text: string)
    requires Writable(v) && Readable(fl, v)
    ensures text == Join(Lines(fl, v, 0)) + "\n"
  {
    hide *;
    var writer := new StyledWriter(fl);
    text := writer.Write(v);
    StyledWritten(fl, v);
  }

  lemma FastWritten(fl: Floats, colon: string, v: Value)
    requires Readable(fl, v)
    ensures FastText(fl, colon, "", v) == Concat(Tokens(fl, v), colon)
  {
    hide FastText, Concat, Tokens, Readable;
    FastIsTokens(fl, colon, "", v);
    assert "" + Concat(Tokens(fl, v), colon) == Concat(Tokens(fl, v), colon);
  }

  // What a FastWriter gives, token by token
  method WriteCompact(fl: Floats, v: Value, yaml: bool) returns (text: string)
    requires Writable(v) && Readable(fl, v)
    ensures text == Concat(Tokens(fl, v), if yaml then ": " else ":") + "\n"
  {
    hide FastText, Concat, Tokens, Readable, Writable;
    var writer := new FastWriter(yaml, fl);
    text := writer.Write(v);
    FastWritten(fl, if yaml then ": " else ":", v);
  }
}
