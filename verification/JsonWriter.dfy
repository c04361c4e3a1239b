/**
 * `FastWriter` and `StyledWriter` (libjson/jsoncpp.cpp). Each class appends to `document`
 * step by step and is proved to produce the text given by a function; the functions are
 * shown to spell the token stream of the value, whatever the layout.
 *
 * The styled text depends on the text before it, because an indentation is written only where
 * the text does not already end in one. The functions therefore take the document so far and
 * give the longer document.
 */
module JsonWriter {
  import opened Wrappers
  import opened JsonValue
  import opened JsonText
  import opened JsonGrammar
  import opened JsonTokens
  import Seqs

  const RIGHT_MARGIN := 74
  const INDENT_SIZE := 3

  // ---------- the text of FastWriter ----------

  // document_ after writeValue
  function FastText(fl: Floats, colon: string, doc: string, v: Value): string
    decreases Size(v), 0
  {
    match v
    case Arr(items) => FastElements(fl, colon, doc + "[", items, 0) + "]"
    case Obj(items) => FastMembers(fl, colon, doc + "{", items, 0) + "}"
    case _ => doc + ScalarText(fl, v)
  }

  function FastElements(fl: Floats, colon: string, doc: string, items: seq<Entry>, index: nat): string
    decreases SizeItems(items), ArraySize(items) - index
  {
    if index >= ArraySize(items) then doc
    else
      SizeOfGet(items, Index(index));
      var separated := if index > 0 then doc + "," else doc;
      FastElements(fl, colon, FastText(fl, colon, separated, Element(items, index)), items, index + 1)
  }

  function FastMembers(fl: Floats, colon: string, doc: string, items: seq<Entry>, k: nat): string
    decreases SizeItems(items), |items| - k
  {
    if k >= |items| then doc
    else
      SizeOfItem(items, k);
      var separated := if k > 0 then doc + "," else doc;
      var named := separated + Quoted(KeyName(items[k])) + colon;
      FastMembers(fl, colon, FastText(fl, colon, named, items[k].val), items, k + 1)
  }

  // ---------- the text of StyledWriter ----------

  function Spaces(n: nat): (s: string)
    ensures |s| == n && forall k :: 0 <= k < n ==> s[k] == ' '
  {
    if n == 0 then "" else " " + Spaces(n - 1)
  }

  // writeIndent
  function Indented(doc: string, indent: nat): string {
    if doc == "" then Spaces(indent)
    else
      var last := doc[|doc| - 1];
      if last == ' ' then doc
      else (if last != '\n' then doc + "\n" else doc) + Spaces(indent)
  }

  // No scalar with members: what writeValue hands to pushValue in one piece.
  predicate Simple(v: Value) {
    (v.Arr? ==> ArraySize(v.items) == 0) && (v.Obj? ==> v.items == [])
  }

  function SimpleText(fl: Floats, v: Value): string
    requires Simple(v)
  {
    if v.Arr? then "[]" else if v.Obj? then "{}" else ScalarText(fl, v)
  }

  predicate AllSimple(items: seq<Entry>) {
    forall k :: 0 <= k < ArraySize(items) ==> Simple(Element(items, k))
  }

  // The first n entries of childValues_
  function ChildTexts(fl: Floats, items: seq<Entry>, n: nat): (r: seq<string>)
    requires AllSimple(items) && n <= ArraySize(items)
    ensures |r| == n
  {
    if n == 0 then [] else ChildTexts(fl, items, n - 1) + [SimpleText(fl, Element(items, n - 1))]
  }

  lemma {:induction false} ChildText(fl: Floats, items: seq<Entry>, n: nat, k: nat)
    requires AllSimple(items) && k < n <= ArraySize(items)
    ensures ChildTexts(fl, items, n)[k] == SimpleText(fl, Element(items, k))
  {
    if k < n - 1 {
      ChildText(fl, items, n - 1, k);
    }
  }

  function TotalLength(texts: seq<string>): nat {
    if texts == [] then 0 else TotalLength(texts[..|texts| - 1]) + |texts[|texts| - 1]|
  }

  // isMultineArray
  predicate MultiLine(fl: Floats, items: seq<Entry>) {
    var size := ArraySize(items);
    || size * 3 >= RIGHT_MARGIN
    || !AllSimple(items)
    || 4 + (size - 1) * 2 + TotalLength(ChildTexts(fl, items, size)) >= RIGHT_MARGIN
  }

  // document_ after writeValue, with indentString_ of length `indent`
  function StyledText(fl: Floats, doc: string, indent: nat, v: Value): string
    decreases Size(v), 0
  {
    match v
    case Arr(items) =>
      if ArraySize(items) == 0 then doc + "[]"
      else if MultiLine(fl, items) then
        Indented(StyledElements(fl, Indented(doc, indent) + "[", indent + INDENT_SIZE, items, 0), indent) + "]"
      else OneLine(fl, doc + "[ ", items, 0) + " ]"
    case Obj(items) =>
      if items == [] then doc + "{}"
      else Indented(StyledMembers(fl, Indented(doc, indent) + "{", indent + INDENT_SIZE, items, 0), indent) + "}"
    case _ => doc + ScalarText(fl, v)
  }

  function StyledElements(fl: Floats, doc: string, indent: nat, items: seq<Entry>, index: nat): string
    decreases SizeItems(items), ArraySize(items) - index
  {
    if index >= ArraySize(items) then doc
    else
      SizeOfGet(items, Index(index));
      var separated := if index > 0 then doc + "," else doc;
      StyledElements(fl, StyledText(fl, Indented(separated, indent), indent, Element(items, index)), indent, items, index + 1)
  }

  function OneLine(fl: Floats, doc: string, items: seq<Entry>, index: nat): string
    requires AllSimple(items)
    decreases ArraySize(items) - index
  {
    if index >= ArraySize(items) then doc
    else
      var separated := if index > 0 then doc + ", " else doc;
      OneLine(fl, separated + SimpleText(fl, Element(items, index)), items, index + 1)
  }

  function StyledMembers(fl: Floats, doc: string, indent: nat, items: seq<Entry>, k: nat): string
    decreases SizeItems(items), |items| - k
  {
    if k >= |items| then doc
    else
      SizeOfItem(items, k);
      var separated := if k > 0 then doc + "," else doc;
      var named := Indented(separated, indent) + Quoted(KeyName(items[k])) + " : ";
      StyledMembers(fl, StyledText(fl, named, indent, items[k].val), indent, items, k + 1)
  }

  // ---------- class FastWriter ----------

  class FastWriter {
    var document: string
    const yamlCompatibilityEnabled: bool
    const fl: Floats

    constructor (yamlCompatibilityEnabled: bool, fl: Floats)
      ensures this.yamlCompatibilityEnabled == yamlCompatibilityEnabled && this.fl == fl
    {
      this.yamlCompatibilityEnabled := yamlCompatibilityEnabled;
      this.fl := fl;
      document := "";
    }

    function Colon(): string {
      if yamlCompatibilityEnabled then ": " else ":"
    }

    method Write(root: Value) returns (text: string)
      requires Writable(root)
      modifies this
      ensures text == FastText(fl, Colon(), "", root) + "\n"
    {
      document := "";
      WriteValue(root);
      document := document + "\n";
      text := document;
    }

    method WriteValue(v: Value)
      requires Writable(v)
      modifies this`document
      ensures document == FastText(fl, Colon(), old(document), v)
      decreases Size(v), 0
    {
      match v
      case Arr(items) => WriteArray(items);
      case Obj(items) => WriteObject(items);
      case _ =>
        var text := ScalarToString(fl, v);
        document := document + text;
    }

    method WriteArray(items: seq<Entry>)
      requires Writable(Arr(items))
      modifies this`document
      ensures document == FastText(fl, Colon(), old(document), Arr(items))
      decreases SizeItems(items), ArraySize(items) + 1
    {
      document := document + "[";
      ghost var begun := document;
      for index := 0 to ArraySize(items)
        invariant FastElements(fl, Colon(), begun, items, 0) == FastElements(fl, Colon(), document, items, index)
      {
        if index > 0 {
          document := document + ",";
        }
        SizeOfGet(items, Index(index));
        ElementWritable(items, index);
        WriteValue(Element(items, index));
      }
      document := document + "]";
    }

    method WriteObject(items: seq<Entry>)
      requires Writable(Obj(items))
      modifies this`document
      ensures document == FastText(fl, Colon(), old(document), Obj(items))
      decreases SizeItems(items), |items| + 1
    {
      document := document + "{";
      ghost var begun := document;
      for k := 0 to |items|
        invariant FastMembers(fl, Colon(), begun, items, 0) == FastMembers(fl, Colon(), document, items, k)
      {
        if k > 0 {
          document := document + ",";
        }
        assert items[k] in items && WritableEntry(items[k]);
        var name := ValueToQuotedString(items[k].key.s);
        document := document + name + Colon();
        GetSorted(items, k);
        SizeOfItem(items, k);
        WriteValue(Get(items, items[k].key));
      }
      document := document + "}";
    }
  }

  method ScalarToString(fl: Floats, v: Value) returns (text: string)
    requires Writable(v) && !v.Arr? && !v.Obj?
    ensures text == ScalarText(fl, v)
  {
    match v
    case Null => text := "null";
    case Int(i) => text := LargestIntToString(i);
    case UInt(u) => text := LargestUIntToString(u);
    case Real(r) => text := fl.printf(r);
    case Bool(b) => text := if b then "true" else "false";
    case Str(s) => text := ValueToQuotedString(s.value);
  }

  // ---------- class StyledWriter ----------

  class StyledWriter {
    var document: string
    var childValues: seq<string>
    var indentString: string
    var addChildValues: bool
    const fl: Floats

    constructor (fl: Floats)
      ensures this.fl == fl
    {
      this.fl := fl;
      document, childValues, indentString, addChildValues := "", [], "", false;
    }

    // indentString_ holds nothing but spaces, and values go to the document.
    ghost predicate Ready()
      reads this
    {
      indentString == Spaces(|indentString|) && !addChildValues
    }

    method Write(root: Value) returns (text: string)
      requires Writable(root)
      modifies this
      ensures text == StyledText(fl, "", 0, root) + "\n"
    {
      document := "";
      addChildValues := false;
      indentString := "";
      WriteValue(root);
      document := document + "\n";
      text := document;
    }

    method PushValue(value: string)
      modifies this`document, this`childValues
      ensures addChildValues ==> childValues == old(childValues) + [value] && document == old(document)
      ensures !addChildValues ==> document == old(document) + value && childValues == old(childValues)
    {
      if addChildValues {
        childValues := childValues + [value];
      } else {
        document := document + value;
      }
    }

    method WriteIndent()
      requires indentString == Spaces(|indentString|)
      modifies this`document
      ensures document == Indented(old(document), |indentString|)
    {
      if document != "" {
        var last := document[|document| - 1];
        if last == ' ' {
          return;
        }
        if last != '\n' {
          document := document + "\n";
        }
      }
      document := document + indentString;
    }

    method WriteWithIndent(value: string)
      requires indentString == Spaces(|indentString|)
      modifies this`document
      ensures document == Indented(old(document), |indentString|) + value
    {
      WriteIndent();
      document := document + value;
    }

    method Indent()
      requires indentString == Spaces(|indentString|)
      modifies this`indentString
      ensures |indentString| == old(|indentString|) + INDENT_SIZE && indentString == Spaces(|indentString|)
    {
      indentString := indentString + Spaces(INDENT_SIZE);
      SpacesUnique(indentString);
    }

    method Unindent()
      requires indentString == Spaces(|indentString|) && |indentString| >= INDENT_SIZE
      modifies this`indentString
      ensures |indentString| == old(|indentString|) - INDENT_SIZE && indentString == Spaces(|indentString|)
    {
      indentString := indentString[..|indentString| - INDENT_SIZE];
      SpacesUnique(indentString);
    }

    // One call for a scalar or an empty container
    method WriteSimple(v: Value)
      requires Writable(v) && Simple(v)
      modifies this`document, this`childValues
      ensures addChildValues ==> childValues == old(childValues) + [SimpleText(fl, v)] && document == old(document)
      ensures !addChildValues ==> document == old(document) + SimpleText(fl, v) && childValues == old(childValues)
    {
      if v.Arr? {
        PushValue("[]");
      } else if v.Obj? {
        PushValue("{}");
      } else {
        var text := ScalarToString(fl, v);
        PushValue(text);
      }
    }

    method WriteValue(v: Value)
      requires Writable(v) && Ready()
      modifies this`document, this`childValues, this`indentString, this`addChildValues
      ensures document == StyledText(fl, old(document), |old(indentString)|, v)
      ensures Ready() && indentString == old(indentString)
      decreases Size(v), 0
    {
      if Simple(v) {
        WriteSimple(v);
      } else if v.Arr? {
        WriteArrayValue(v.items);
      } else {
        WriteObjectValue(v.items);
      }
    }

    method WriteMember(items: seq<Entry>, k: nat)
      requires Writable(Obj(items)) && Ready() && k < |items|
      modifies this`document, this`childValues, this`indentString, this`addChildValues
      ensures var named := Indented(old(document), |old(indentString)|) + Quoted(KeyName(items[k])) + " : ";
              document == StyledText(fl, named, |old(indentString)|, items[k].val)
      ensures Ready() && indentString == old(indentString)
      decreases SizeItems(items), |items|
    {
      hide StyledText, Quoted, Indented;
      assert items[k] in items && WritableEntry(items[k]);
      var name := ValueToQuotedString(items[k].key.s);
      WriteWithIndent(name);
      document := document + " : ";
      GetSorted(items, k);
      SizeOfItem(items, k);
      WriteValue(Get(items, items[k].key));
    }

    method WriteObjectValue(items: seq<Entry>)
      requires Writable(Obj(items)) && Ready() && items != []
      modifies this`document, this`childValues, this`indentString, this`addChildValues
      ensures document == StyledText(fl, old(document), |old(indentString)|, Obj(items))
      ensures Ready() && indentString == old(indentString)
      decreases SizeItems(items), |items| + 2
    {
      hide Indented, StyledMembers;
      WriteWithIndent("{");
      Indent();
      WriteMembers(items);
      Unindent();
      SpacesUnique(old(indentString));
      WriteWithIndent("}");
    }

    method WriteMembers(items: seq<Entry>)
      requires Writable(Obj(items)) && Ready() && items != []
      modifies this`document, this`childValues, this`indentString, this`addChildValues
      ensures document == StyledMembers(fl, old(document), |old(indentString)|, items, 0)
      ensures Ready() && indentString == old(indentString)
      decreases SizeItems(items), |items| + 1
    {
      hide Quoted, Indented, StyledText, Writable;
      var k := 0;
      ghost var done := document;
      while true
        invariant 0 <= k < |items| && Ready() && indentString == old(indentString)
        invariant document == if k > 0 then done + "," else done
        invariant StyledMembers(fl, old(document), |indentString|, items, 0) == StyledMembers(fl, done, |indentString|, items, k)
        decreases |items| - k
      {
        WriteMember(items, k);
        done := document;
        k := k + 1;
        if k == |items| {
          break;
        }
        document := document + ",";
      }
    }

    method WriteArrayValue(items: seq<Entry>)
      requires Writable(Arr(items)) && Ready() && ArraySize(items) > 0
      modifies this`document, this`childValues, this`indentString, this`addChildValues
      ensures document == StyledText(fl, old(document), |old(indentString)|, Arr(items))
      ensures Ready() && indentString == old(indentString)
      decreases SizeItems(items), ArraySize(items) + 3
    {
      var isArrayMultiLine := IsMultineArray(items);
      if isArrayMultiLine {
        WriteMultiLine(items);
      } else {
        WriteOneLine(items);
      }
    }

    method WriteOneLine(items: seq<Entry>)
      requires Ready() && AllSimple(items) && childValues == ChildTexts(fl, items, ArraySize(items))
      modifies this`document
      ensures document == OneLine(fl, old(document) + "[ ", items, 0) + " ]"
    {
      hide ChildTexts, SimpleText, Simple;
      document := document + "[ ";
      for index := 0 to ArraySize(items)
        invariant OneLine(fl, old(document) + "[ ", items, 0) == OneLine(fl, document, items, index)
      {
        if index > 0 {
          document := document + ", ";
        }
        ChildText(fl, items, ArraySize(items), index);
        document := document + childValues[index];
      }
      document := document + " ]";
    }

    method WriteElement(items: seq<Entry>, index: nat, hasChildValue: bool)
      requires Writable(Arr(items)) && Ready() && index < ArraySize(items)
      requires hasChildValue ==> AllSimple(items) && childValues == ChildTexts(fl, items, ArraySize(items))
      modifies this`document, this`childValues, this`indentString, this`addChildValues
      ensures document == StyledText(fl, Indented(old(document), |old(indentString)|), |old(indentString)|, Element(items, index))
      ensures Ready() && indentString == old(indentString)
      ensures hasChildValue ==> childValues == old(childValues)
      decreases SizeItems(items), 1
    {
      hide MultiLine, Indented;
      SizeOfGet(items, Index(index));
      ElementWritable(items, index);
      if hasChildValue {
        ChildText(fl, items, ArraySize(items), index);
        WriteWithIndent(childValues[index]);
      } else {
        WriteIndent();
        WriteValue(Element(items, index));
      }
    }

    method WriteMultiLine(items: seq<Entry>)
      requires Writable(Arr(items)) && Ready() && ArraySize(items) > 0 && MultiLine(fl, items)
      requires childValues != [] ==> AllSimple(items) && childValues == ChildTexts(fl, items, ArraySize(items))
      modifies this`document, this`childValues, this`indentString, this`addChildValues
      ensures document == StyledText(fl, old(document), |old(indentString)|, Arr(items))
      ensures Ready() && indentString == old(indentString)
      decreases SizeItems(items), ArraySize(items) + 2
    {
      hide Indented, MultiLine, StyledElements, ChildTexts;
      WriteWithIndent("[");
      Indent();
      WriteElements(items);
      Unindent();
      SpacesUnique(old(indentString));
      WriteWithIndent("]");
    }

    method WriteElements(items: seq<Entry>)
      requires Writable(Arr(items)) && Ready() && ArraySize(items) > 0
      requires childValues != [] ==> AllSimple(items) && childValues == ChildTexts(fl, items, ArraySize(items))
      modifies this`document, this`childValues, this`indentString, this`addChildValues
      ensures document == StyledElements(fl, old(document), |old(indentString)|, items, 0)
      ensures Ready() && indentString == old(indentString)
      decreases SizeItems(items), ArraySize(items) + 1
    {
      hide Indented, StyledText, ChildTexts, AllSimple, Writable;
      var hasChildValue := childValues != [];
      var size := ArraySize(items);
      var index := 0;
      ghost var done := document;
      while true
        invariant 0 <= index < size && Ready() && indentString == old(indentString)
        invariant hasChildValue ==> childValues == old(childValues)
        invariant document == if index > 0 then done + "," else done
        invariant StyledElements(fl, old(document), |indentString|, items, 0) == StyledElements(fl, done, |indentString|, items, index)
        decreases size - index
      {
        WriteElement(items, index, hasChildValue);
        done := document;
        index := index + 1;
        if index == size {
          break;
        }
        document := document + ",";
      }
    }

    // Also leaves the texts of the elements in childValues_, unless the array is known to
    // take several lines before they are written.
    method IsMultineArray(items: seq<Entry>) returns (isMultiLine: bool)
      requires Writable(Arr(items)) && Ready() && ArraySize(items) > 0
      modifies this`document, this`childValues, this`addChildValues
      ensures isMultiLine == MultiLine(fl, items)
      ensures document == old(document) && Ready()
      ensures childValues != [] || !isMultiLine ==>
                AllSimple(items) && childValues == ChildTexts(fl, items, ArraySize(items))
    {
      var size := ArraySize(items);
      isMultiLine := size * 3 >= RIGHT_MARGIN;
      childValues := [];
      var index := 0;
      while index < size && !isMultiLine
        invariant 0 <= index <= size && childValues == [] && document == old(document)
        invariant !isMultiLine ==> forall k :: 0 <= k < index ==> Simple(Element(items, k))
        invariant isMultiLine ==> size * 3 >= RIGHT_MARGIN || !AllSimple(items)
        invariant size * 3 >= RIGHT_MARGIN ==> isMultiLine
      {
        var child := Element(items, index);
        isMultiLine := (child.Arr? && ArraySize(child.items) > 0) || (child.Obj? && |child.items| > 0);
        index := index + 1;
      }
      if !isMultiLine {
        addChildValues := true;
        var length := WriteChildValues(items);
        addChildValues := false;
        isMultiLine := 4 + (size - 1) * 2 + length >= RIGHT_MARGIN;
      }
    }

    // The loop of isMultineArray that writes every element into childValues_
    method WriteChildValues(items: seq<Entry>) returns (length: nat)
      requires AllSimple(items) && addChildValues && childValues == []
      requires forall k :: 0 <= k < |items| ==> WritableEntry(items[k])
      modifies this`document, this`childValues
      ensures document == old(document)
      ensures childValues == ChildTexts(fl, items, ArraySize(items)) && length == TotalLength(childValues)
    {
      hide SimpleText, Simple, Writable, Element;
      length := 0;
      for k := 0 to ArraySize(items)
        invariant document == old(document)
        invariant childValues == ChildTexts(fl, items, k) && length == TotalLength(childValues)
      {
        ElementWritable(items, k);
        WriteSimple(Element(items, k));
        assert childValues[..|childValues| - 1] == ChildTexts(fl, items, k);
        length := length + |childValues[k]|;
      }
    }
  }

  lemma {:induction false} SpacesUnique(s: string)
    requires forall k :: 0 <= k < |s| ==> s[k] == ' '
    ensures s == Spaces(|s|)
  {
    assert forall k :: 0 <= k < |s| ==> s[k] == Spaces(|s|)[k];
  }
}
