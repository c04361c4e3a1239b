/**
 * Writing and reading back: both writers spell the token stream of the value, so the reader
 * rebuilds its canonical form, and the value itself exactly when it is canonical.
 */
module JsonRoundTrip {
  import opened Wrappers
  import opened JsonValue
  import opened JsonText
  import opened JsonGrammar
  import opened JsonTokens
  import opened JsonWriter
  import opened JsonReader
  import JsonReadBack
  import Seqs

  // ---------- appending what the writers append ----------

  predicate IsPunctuation(t: string) {
    t in {"[", "]", "{", "}", ",", ":"}
  }

  lemma AppendPunctuation(doc: string, ts: seq<string>, t: string)
    requires Spells(doc, 0, ts) && IsPunctuation(t)
    ensures Spells(doc + t, 0, ts + [t]) && !EndsInNumber(ts + [t])
  {
    AppendToken(doc, ts, t);
  }

  lemma AppendScalar(fl: Floats, doc: string, ts: seq<string>, v: Value)
    requires Spells(doc, 0, ts) && !EndsInNumber(ts) && !v.Arr? && !v.Obj? && Readable(fl, v)
    ensures Spells(doc + ScalarText(fl, v), 0, ts + Tokens(fl, v))
  {
    ScalarIsToken(fl, v);
    AppendToken(doc, ts, ScalarText(fl, v));
  }

  lemma AppendSimple(fl: Floats, doc: string, ts: seq<string>, v: Value)
    requires Spells(doc, 0, ts) && !EndsInNumber(ts) && Simple(v) && Readable(fl, v)
    ensures Spells(doc + SimpleText(fl, v), 0, ts + Tokens(fl, v))
  {
    if v.Arr? || v.Obj? {
      var open, close := if v.Arr? then "[" else "{", if v.Arr? then "]" else "}";
      AppendPunctuation(doc, ts, open);
      AppendPunctuation(doc + open, ts + [open], close);
      assert Tokens(fl, v) == [open, close];
      Seqs.Associative(doc, open, close);
      Seqs.Associative(ts, [open], [close]);
      assert SimpleText(fl, v) == open + close && [open] + [close] == [open, close];
    } else {
      AppendScalar(fl, doc, ts, v);
    }
  }

  lemma AppendQuoted(doc: string, ts: seq<string>, name: string)
    requires Spells(doc, 0, ts) && !EndsInNumber(ts)
    ensures Spells(doc + Quoted(name), 0, ts + [Quoted(name)])
    ensures !EndsInNumber(ts + [Quoted(name)])
  {
    AppendToken(doc, ts, Quoted(name));
  }

  lemma AppendBlank(doc: string, ts: seq<string>, ws: string)
    requires Spells(doc, 0, ts) && ws in {" ", "\n"}
    ensures Spells(doc + ws, 0, ts)
  {
    AppendSpaces(doc, ts, ws);
  }

  lemma IndentedSpells(doc: string, ts: seq<string>, indent: nat)
    requires Spells(doc, 0, ts)
    ensures Spells(Indented(doc, indent), 0, ts)
  {
    AppendSpaces(doc, ts, Spaces(indent));
    AppendBlank(doc, ts, "\n");
    AppendSpaces(doc + "\n", ts, Spaces(indent));
    assert "" + Spaces(indent) == Spaces(indent);
  }

  // The separator before element or member k, and the start of what follows it
  lemma AppendSeparator(doc: string, ts: seq<string>, k: nat)
    requires Spells(doc, 0, ts) && (k == 0 ==> !EndsInNumber(ts))
    ensures Spells(if k > 0 then doc + "," else doc, 0, ts + Separator(k)) && !EndsInNumber(ts + Separator(k))
  {
    if k > 0 {
      AppendPunctuation(doc, ts, ",");
    } else {
      assert ts + [] == ts;
    }
  }

  // ---------- FastWriter ----------

  lemma {:induction false} FastSpells(fl: Floats, colon: string, doc: string, v: Value, ts: seq<string>)
    requires Spells(doc, 0, ts) && !EndsInNumber(ts) && colon in {":", ": "} && Readable(fl, v)
    ensures Spells(FastText(fl, colon, doc, v), 0, ts + Tokens(fl, v))
    decreases Size(v), 0
  {
    hide Spells;
    match v
    case Arr(items) =>
      AppendPunctuation(doc, ts, "[");
      FastElementsSpell(fl, colon, doc + "[", items, 0, ts + ["["]);
      AppendPunctuation(FastElements(fl, colon, doc + "[", items, 0), ts + ["["] + ElementTokens(fl, items, 0), "]");
      Seqs.Enclosed(ts, "[", ElementTokens(fl, items, 0), "]");
    case Obj(items) =>
      AppendPunctuation(doc, ts, "{");
      FastMembersSpell(fl, colon, doc + "{", items, 0, ts + ["{"]);
      AppendPunctuation(FastMembers(fl, colon, doc + "{", items, 0), ts + ["{"] + MemberTokens(fl, items, 0), "}");
      Seqs.Enclosed(ts, "{", MemberTokens(fl, items, 0), "}");
    case _ => AppendScalar(fl, doc, ts, v);
  }

  lemma {:induction false} FastElementsSpell(fl: Floats, colon: string, doc: string, items: seq<Entry>, index: nat,
          ts: seq<string>)
    requires Spells(doc, 0, ts) && (index == 0 ==> !EndsInNumber(ts)) && colon in {":", ": "} && Readable(fl, Arr(items))
    ensures Spells(FastElements(fl, colon, doc, items, index), 0, ts + ElementTokens(fl, items, index))
    decreases SizeItems(items), ArraySize(items) - index
  {
    hide Spells, FastText;
    if index >= ArraySize(items) {
      assert ts + [] == ts;
    } else {
      SizeOfGet(items, Index(index));
      ElementReadable(fl, items, index);
      var v := Element(items, index);
      AppendSeparator(doc, ts, index);
      var separated := if index > 0 then doc + "," else doc;
      FastSpells(fl, colon, separated, v, ts + Separator(index));
      FastElementsSpell(fl, colon, FastText(fl, colon, separated, v), items, index + 1, ts + Separator(index) + Tokens(fl, v));
      Seqs.Associative4(ts, Separator(index), Tokens(fl, v), ElementTokens(fl, items, index + 1));
    }
  }

  lemma {:induction false} FastMembersSpell(fl: Floats, colon: string, doc: string, items: seq<Entry>, k: nat,
          ts: seq<string>)
    requires Spells(doc, 0, ts) && (k == 0 ==> !EndsInNumber(ts)) && colon in {":", ": "} && Readable(fl, Obj(items))
    ensures Spells(FastMembers(fl, colon, doc, items, k), 0, ts + MemberTokens(fl, items, k))
    decreases SizeItems(items), |items| - k
  {
    hide Spells, FastText, Quoted, Tokens;
    if k >= |items| {
      assert ts + [] == ts;
    } else {
      SizeOfItem(items, k);
      assert ReadableEntry(fl, items[k]);
      var v := items[k].val;
      var name := Quoted(KeyName(items[k]));
      AppendSeparator(doc, ts, k);
      var separated := if k > 0 then doc + "," else doc;
      var us := ts + Separator(k);
      AppendQuoted(separated, us, KeyName(items[k]));
      AppendPunctuation(separated + name, us + [name], ":");
      if colon == ": " {
        AppendBlank(separated + name + ":", us + [name] + [":"], " ");
        assert separated + name + ":" + " " == separated + name + colon;
      }
      FastSpells(fl, colon, separated + name + colon, v, us + [name] + [":"]);
      FastMembersSpell(fl, colon, FastText(fl, colon, separated + name + colon, v), items, k + 1, us + [name] + [":"] + Tokens(fl, v));
      MemberTokensSplit(fl, items, k, ts);
    }
  }

  lemma MemberTokensSplit(fl: Floats, items: seq<Entry>, k: nat, ts: seq<string>)
    requires k < |items|
    ensures ts + MemberTokens(fl, items, k) ==
            ts + Separator(k) + [Quoted(KeyName(items[k]))] + [":"] + Tokens(fl, items[k].val) + MemberTokens(fl, items, k + 1)
  {
    hide Tokens, Quoted;
    var name := Quoted(KeyName(items[k]));
    assert [name, ":"] == [name] + [":"];
    Seqs.Associative4(ts, Separator(k) + [name, ":"], Tokens(fl, items[k].val), MemberTokens(fl, items, k + 1));
    Seqs.Associative4(ts, Separator(k), [name], [":"]);
  }

  // ---------- StyledWriter ----------

  lemma {:induction false} StyledSpells(fl: Floats, doc: string, indent: nat, v: Value, ts: seq<string>)
    requires Spells(doc, 0, ts) && !EndsInNumber(ts) && Readable(fl, v)
    ensures Spells(StyledText(fl, doc, indent, v), 0, ts + Tokens(fl, v))
    decreases Size(v), 0
  {
    hide Spells, MultiLine, Indented;
    if Simple(v) {
      AppendSimple(fl, doc, ts, v);
    } else if v.Obj? {
      StyledObjectSpells(fl, doc, indent, v.items, ts);
    } else if MultiLine(fl, v.items) {
      StyledArraySpells(fl, doc, indent, v.items, ts);
    } else {
      OneLineArraySpells(fl, doc, v.items, ts);
    }
  }

  lemma {:induction false} StyledObjectSpells(fl: Floats, doc: string, indent: nat, items: seq<Entry>, ts: seq<string>)
    requires Spells(doc, 0, ts) && !EndsInNumber(ts) && Readable(fl, Obj(items)) && items != []
    ensures Spells(StyledText(fl, doc, indent, Obj(items)), 0, ts + Tokens(fl, Obj(items)))
    decreases SizeItems(items), |items| + 1
  {
    hide Spells, Indented;
    var begun := Indented(doc, indent) + "{";
    var inner := indent + INDENT_SIZE;
    IndentedSpells(doc, ts, indent);
    AppendPunctuation(Indented(doc, indent), ts, "{");
    StyledMembersSpell(fl, begun, inner, items, 0, ts + ["{"]);
    var ended := StyledMembers(fl, begun, inner, items, 0);
    IndentedSpells(ended, ts + ["{"] + MemberTokens(fl, items, 0), indent);
    AppendPunctuation(Indented(ended, indent), ts + ["{"] + MemberTokens(fl, items, 0), "}");
    Seqs.Enclosed(ts, "{", MemberTokens(fl, items, 0), "}");
  }

  lemma {:induction false} StyledMembersSpell(fl: Floats, doc: string, indent: nat, items: seq<Entry>, k: nat,
          ts: seq<string>)
    requires Spells(doc, 0, ts) && (k == 0 ==> !EndsInNumber(ts)) && Readable(fl, Obj(items))
    ensures Spells(StyledMembers(fl, doc, indent, items, k), 0, ts + MemberTokens(fl, items, k))
    decreases SizeItems(items), |items| - k
  {
    hide Spells, StyledText, Quoted, Tokens, Indented;
    if k >= |items| {
      assert ts + [] == ts;
    } else {
      SizeOfItem(items, k);
      assert ReadableEntry(fl, items[k]);
      var v := items[k].val;
      AppendSeparator(doc, ts, k);
      var separated := if k > 0 then doc + "," else doc;
      StyledNameSpells(separated, indent, KeyName(items[k]), ts + Separator(k));
      var named := Indented(separated, indent) + Quoted(KeyName(items[k])) + " : ";
      var us := ts + Separator(k) + [Quoted(KeyName(items[k]))] + [":"];
      StyledSpells(fl, named, indent, v, us);
      StyledMembersSpell(fl, StyledText(fl, named, indent, v), indent, items, k + 1, us + Tokens(fl, v));
      MemberTokensSplit(fl, items, k, ts);
    }
  }

  lemma StyledNameSpells(doc: string, indent: nat, name: string, ts: seq<string>)
    requires Spells(doc, 0, ts) && !EndsInNumber(ts)
    ensures Spells(Indented(doc, indent) + Quoted(name) + " : ", 0, ts + [Quoted(name)] + [":"])
    ensures !EndsInNumber(ts + [Quoted(name)] + [":"])
  {
    hide Spells, Quoted, Indented;
    var d := Indented(doc, indent);
    var q := Quoted(name);
    IndentedSpells(doc, ts, indent);
    AppendQuoted(d, ts, name);
    AppendBlank(d + q, ts + [q], " ");
    AppendPunctuation(d + q + " ", ts + [q], ":");
    AppendBlank(d + q + " " + ":", ts + [q] + [":"], " ");
    assert d + q + " " + ":" + " " == d + q + " : ";
  }

  lemma {:induction false} StyledArraySpells(fl: Floats, doc: string, indent: nat, items: seq<Entry>, ts: seq<string>)
    requires Spells(doc, 0, ts) && !EndsInNumber(ts) && Readable(fl, Arr(items))
    requires ArraySize(items) > 0 && MultiLine(fl, items)
    ensures Spells(StyledText(fl, doc, indent, Arr(items)), 0, ts + Tokens(fl, Arr(items)))
    decreases SizeItems(items), ArraySize(items) + 1
  {
    hide Spells, MultiLine, Indented;
    var begun := Indented(doc, indent) + "[";
    var inner := indent + INDENT_SIZE;
    IndentedSpells(doc, ts, indent);
    AppendPunctuation(Indented(doc, indent), ts, "[");
    StyledElementsSpell(fl, begun, inner, items, 0, ts + ["["]);
    var ended := StyledElements(fl, begun, inner, items, 0);
    IndentedSpells(ended, ts + ["["] + ElementTokens(fl, items, 0), indent);
    AppendPunctuation(Indented(ended, indent), ts + ["["] + ElementTokens(fl, items, 0), "]");
    Seqs.Enclosed(ts, "[", ElementTokens(fl, items, 0), "]");
  }

  lemma {:induction false} StyledElementsSpell(fl: Floats, doc: string, indent: nat, items: seq<Entry>, index: nat,
          ts: seq<string>)
    requires Spells(doc, 0, ts) && (index == 0 ==> !EndsInNumber(ts)) && Readable(fl, Arr(items))
    ensures Spells(StyledElements(fl, doc, indent, items, index), 0, ts + ElementTokens(fl, items, index))
    decreases SizeItems(items), ArraySize(items) - index
  {
    hide Spells, StyledText, Indented;
    if index >= ArraySize(items) {
      assert ts + [] == ts;
    } else {
      SizeOfGet(items, Index(index));
      ElementReadable(fl, items, index);
      var v := Element(items, index);
      AppendSeparator(doc, ts, index);
      var separated := if index > 0 then doc + "," else doc;
      var us := ts + Separator(index);
      IndentedSpells(separated, us, indent);
      var indented := Indented(separated, indent);
      StyledSpells(fl, indented, indent, v, us);
      StyledElementsSpell(fl, StyledText(fl, indented, indent, v), indent, items, index + 1, us + Tokens(fl, v));
      Seqs.Associative4(ts, Separator(index), Tokens(fl, v), ElementTokens(fl, items, index + 1));
    }
  }

  lemma OneLineArraySpells(fl: Floats, doc: string, items: seq<Entry>, ts: seq<string>)
    requires Spells(doc, 0, ts) && !EndsInNumber(ts) && Readable(fl, Arr(items))
    requires ArraySize(items) > 0 && !MultiLine(fl, items)
    ensures Spells(StyledText(fl, doc, 0, Arr(items)), 0, ts + Tokens(fl, Arr(items)))
    ensures forall indent :: StyledText(fl, doc, indent, Arr(items)) == StyledText(fl, doc, 0, Arr(items))
  {
    hide Spells;
    AppendPunctuation(doc, ts, "[");
    AppendBlank(doc + "[", ts + ["["], " ");
    assert doc + "[" + " " == doc + "[ ";
    OneLineSpells(fl, doc + "[ ", items, 0, ts + ["["]);
    var ended := OneLine(fl, doc + "[ ", items, 0);
    var us := ts + ["["] + ElementTokens(fl, items, 0);
    AppendBlank(ended, us, " ");
    AppendPunctuation(ended + " ", us, "]");
    assert ended + " " + "]" == ended + " ]";
    Seqs.Enclosed(ts, "[", ElementTokens(fl, items, 0), "]");
  }

  lemma {:induction false} OneLineSpells(fl: Floats, doc: string, items: seq<Entry>, index: nat, ts: seq<string>)
    requires Spells(doc, 0, ts) && (index == 0 ==> !EndsInNumber(ts)) && Readable(fl, Arr(items)) && AllSimple(items)
    ensures Spells(OneLine(fl, doc, items, index), 0, ts + ElementTokens(fl, items, index))
    decreases ArraySize(items) - index
  {
    hide Spells, Tokens;
    if index >= ArraySize(items) {
      assert ts + [] == ts;
    } else {
      ElementReadable(fl, items, index);
      var v := Element(items, index);
      AppendSeparator(doc, ts, index);
      var us := ts + Separator(index);
      var separated := if index > 0 then doc + ", " else doc;
      if index > 0 {
        AppendBlank(doc + ",", us, " ");
        assert doc + "," + " " == doc + ", ";
      }
      AppendSimple(fl, separated, us, v);
      OneLineSpells(fl, separated + SimpleText(fl, v), items, index + 1, us + Tokens(fl, v));
      Seqs.Associative4(ts, Separator(index), Tokens(fl, v), ElementTokens(fl, items, index + 1));
    }
  }

  // ---------- the main results ----------

  // Both writers spell the same token stream, whatever isMultineArray chooses.
  lemma SameTokens(fl: Floats, v: Value)
    requires Readable(fl, v)
    ensures Spells(FastText(fl, ":", "", v) + "\n", 0, Tokens(fl, v))
    ensures Spells(FastText(fl, ": ", "", v) + "\n", 0, Tokens(fl, v))
    ensures Spells(StyledText(fl, "", 0, v) + "\n", 0, Tokens(fl, v))
  {
    assert Spells("", 0, []);
    assert [] + Tokens(fl, v) == Tokens(fl, v);
    FastSpells(fl, ":", "", v, []);
    FastSpells(fl, ": ", "", v, []);
    StyledSpells(fl, "", 0, v, []);
    AppendBlank(FastText(fl, ":", "", v), Tokens(fl, v), "\n");
    AppendBlank(FastText(fl, ": ", "", v), Tokens(fl, v), "\n");
    AppendBlank(StyledText(fl, "", 0, v), Tokens(fl, v), "\n");
  }

  // Reading what either writer wrote gives the canonical form of the value.
  lemma WrittenTextParses(fl: Floats, v: Value, text: string, allowComments: bool, strictRoot: bool, root: Value)
    requires Writable(v) && Readable(fl, v)
    requires text in {FastText(fl, ":", "", v) + "\n", FastText(fl, ": ", "", v) + "\n", StyledText(fl, "", 0, v) + "\n"}
    requires strictRoot ==> v.Arr? || v.Obj? || v.Null?
    ensures var r := Parse(Input(text, allowComments, strictRoot, fl.scanf), root);
            r.ok && r.node == Canon(fl, v) && r.errors == []
  {
    SameTokens(fl, v);
    JsonReadBack.ParseSpelled(Input(text, allowComments, strictRoot, fl.scanf), fl, v, root);
  }

  // Writing a value with either writer and reading the text with a fresh reader succeeds, and
  // gives the value back exactly when it is canonical.
  method WriteAndRead(fl: Floats, v: Value, styled: bool, yaml: bool) returns (ok: bool, result: Value)
    requires Writable(v) && Readable(fl, v)
    ensures ok && result == Canon(fl, v)
    ensures result == v <==> Canonical(fl, v)
  {
    var text;
    if styled {
      var writer := new StyledWriter(fl);
      text := writer.Write(v);
    } else {
      var writer := new FastWriter(yaml, fl);
      text := writer.Write(v);
    }
    var reader := new Reader(true, false, fl.scanf);
    ok, result := reader.ParseDocument(text, Null);
    WrittenTextParses(fl, v, text, true, false, Null);
    CanonIdentity(fl, v);
  }
}
