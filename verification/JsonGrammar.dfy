/**
 * What `Json::Reader` (libjson/jsoncpp.cpp) computes, as functions of the document and a
 * position: the tokens, and the recursive descent with its error recovery.
 *
 * Every outcome is `Sane`: the position has not moved back or past the end, and the call
 * succeeds exactly when it adds no error. This is also why the recursion ends: each turn of a
 * loop takes at least one character, and each call takes one or has a lower rank than its
 * caller.
 */
module JsonGrammar {
  import opened Wrappers
  import opened JsonValue
  import opened JsonText

  datatype TokenKind =
    | EndOfStream | ObjectBegin | ObjectEnd | ArrayBegin | ArrayEnd | StringToken | NumberToken
    | TrueToken | FalseToken | NullToken | ArraySeparator | MemberSeparator | CommentToken | ErrorToken

  datatype Token = Token(kind: TokenKind, start: nat, end: nat)

  // The messages handed to addError, and the position in its `extra` argument.
  datatype Message =
    | ValueExpected | MissingColon | MissingMemberEnd | MissingObjectEnd | MissingElementEnd
    | NotANumberText | BadString(why: StringError) | RootNotContainer

  datatype ErrorInfo = ErrorInfo(token: Token, message: Message, extra: Option<nat>)

  // The document, the Features, and sscanf("%lf").
  datatype Input = Input(doc: string, allowComments: bool, strictRoot: bool, scan: string -> Option<real>)

  // ---------- characters ----------

  // *current_; the document is a C string, so the position one past its end holds NUL.
  function CharAt(doc: string, pos: nat): char {
    if pos < |doc| then doc[pos] else '\0'
  }

  function Next(doc: string, pos: nat): (p: nat)
    requires pos <= |doc|
    ensures pos <= p <= |doc|
  {
    if pos == |doc| then pos else pos + 1
  }

  predicate IsSpace(c: char) {
    c == ' ' || c == '\t' || c == '\r' || c == '\n'
  }

  predicate IsNumberChar(c: char) {
    IsDigit(c) || c == '.' || c == 'e' || c == 'E' || c == '+' || c == '-'
  }

  function SkipSpaces(doc: string, pos: nat): (p: nat)
    requires pos <= |doc|
    ensures pos <= p <= |doc|
    ensures forall k :: pos <= k < p ==> IsSpace(doc[k])
    ensures p < |doc| ==> !IsSpace(doc[p])
    decreases |doc| - pos
  {
    if pos < |doc| && IsSpace(doc[pos]) then SkipSpaces(doc, pos + 1) else pos
  }

  function SkipNumber(doc: string, pos: nat): (p: nat)
    requires pos <= |doc|
    ensures pos <= p <= |doc|
    decreases |doc| - pos
  {
    if pos < |doc| && IsNumberChar(doc[pos]) then SkipNumber(doc, pos + 1) else pos
  }

  predicate Matches(doc: string, pos: nat, pattern: string) {
    pos + |pattern| <= |doc| && doc[pos..pos + |pattern|] == pattern
  }

  // The end of a string whose opening quote was read, and whether its closing quote was found.
  function StringEnd(doc: string, pos: nat): (r: (bool, nat))
    requires pos <= |doc|
    ensures pos <= r.1 <= |doc| && (r.0 ==> pos < r.1)
    decreases |doc| - pos
  {
    if pos == |doc| then (false, pos)
    else if doc[pos] == '\\' then StringEnd(doc, Next(doc, pos + 1))
    else if doc[pos] == '"' then (true, pos + 1)
    else StringEnd(doc, pos + 1)
  }

  function CStyleEnd(doc: string, pos: nat): (r: (bool, nat))
    requires pos <= |doc|
    ensures pos <= r.1 <= |doc|
    decreases |doc| - pos
  {
    if pos == |doc| then (false, pos)
    else if doc[pos] == '*' && CharAt(doc, pos + 1) == '/' then (true, pos + 2)
    else CStyleEnd(doc, pos + 1)
  }

  function LineEnd(doc: string, pos: nat): (p: nat)
    requires pos <= |doc|
    ensures pos <= p <= |doc|
    decreases |doc| - pos
  {
    if pos == |doc| then pos
    else if doc[pos] == '\r' || doc[pos] == '\n' then pos + 1
    else LineEnd(doc, pos + 1)
  }

  function CommentEnd(doc: string, pos: nat): (r: (bool, nat))
    requires pos <= |doc|
    ensures pos <= r.1 <= |doc|
  {
    var c := CharAt(doc, pos);
    var p := Next(doc, pos);
    if c == '*' then CStyleEnd(doc, p)
    else if c == '/' then (true, LineEnd(doc, p))
    else (false, p)
  }

  // ---------- readToken ----------

  function Literal(doc: string, start: nat, rest: string, kind: TokenKind): (t: Token)
    requires start < |doc|
    ensures start < t.end <= |doc| && t.start == start && (t.kind == kind || t.kind == ErrorToken)
  {
    if Matches(doc, start + 1, rest) then Token(kind, start, start + 1 + |rest|) else Token(ErrorToken, start, start + 1)
  }

  function ReadToken(doc: string, pos: nat): (t: Token)
    requires pos <= |doc|
    ensures pos <= t.start <= t.end <= |doc|
    ensures t.kind != EndOfStream ==> t.start < t.end
    ensures t.kind == StringToken ==> t.start + 2 <= t.end
  {
    var start := SkipSpaces(doc, pos);
    if start == |doc| then Token(EndOfStream, start, start)
    else
      var c := doc[start];
      if c == '{' then Token(ObjectBegin, start, start + 1)
      else if c == '}' then Token(ObjectEnd, start, start + 1)
      else if c == '[' then Token(ArrayBegin, start, start + 1)
      else if c == ']' then Token(ArrayEnd, start, start + 1)
      else if c == ',' then Token(ArraySeparator, start, start + 1)
      else if c == ':' then Token(MemberSeparator, start, start + 1)
      else if c == '\0' then Token(EndOfStream, start, start + 1)
      else if c == '"' then
        var (ok, end) := StringEnd(doc, start + 1);
        Token(if ok then StringToken else ErrorToken, start, end)
      else if c == '/' then
        var (ok, end) := CommentEnd(doc, start + 1);
        Token(if ok then CommentToken else ErrorToken, start, end)
      else if IsDigit(c) || c == '-' then Token(NumberToken, start, SkipNumber(doc, start + 1))
      else if c == 't' then Literal(doc, start, "rue", TrueToken)
      else if c == 'f' then Literal(doc, start, "alse", FalseToken)
      else if c == 'n' then Literal(doc, start, "ull", NullToken)
      else Token(ErrorToken, start, start + 1)
  }

  // The next token that is no comment.
  function NextToken(doc: string, pos: nat): (t: Token)
    requires pos <= |doc|
    ensures pos <= t.start <= t.end <= |doc|
    ensures t.kind != EndOfStream ==> t.start < t.end
    ensures t.kind == StringToken ==> t.start + 2 <= t.end
    ensures t.kind != CommentToken
    decreases |doc| - pos
  {
    var t := ReadToken(doc, pos);
    if t.kind == CommentToken then NextToken(doc, t.end) else t
  }

  // skipCommentTokens
  function ValueToken(input: Input, pos: nat): (t: Token)
    requires pos <= |input.doc|
    ensures pos <= t.start <= t.end <= |input.doc|
    ensures t.kind != EndOfStream ==> t.start < t.end
    ensures t.kind == StringToken ==> t.start + 2 <= t.end
  {
    if input.allowComments then NextToken(input.doc, pos) else ReadToken(input.doc, pos)
  }

  // recoverFromError: where the search for `until` stops.
  function Recover(doc: string, pos: nat, until: TokenKind): (p: nat)
    requires pos <= |doc|
    ensures pos <= p <= |doc|
    decreases |doc| - pos
  {
    var t := ReadToken(doc, pos);
    if t.kind == until || t.kind == EndOfStream then t.end else Recover(doc, t.end, until)
  }

  // ---------- scalars ----------

  function TokenText(doc: string, t: Token): string
    requires t.start <= t.end <= |doc|
  {
    doc[t.start..t.end]
  }

  predicate FloatingAt(text: string, k: nat)
    requires k < |text|
  {
    text[k] == '.' || text[k] == 'e' || text[k] == 'E' || text[k] == '+' || (text[k] == '-' && k > 0)
  }

  // Some character makes decodeNumber hand the token to sscanf.
  predicate LooksFloating(text: string) {
    exists k :: 0 <= k < |text| && FloatingAt(text, k)
  }

  function DecodeNumber(input: Input, text: string): Option<Value> {
    var n := if LooksFloating(text) then Floating else DecodeInteger(text);
    match n
    case Signed(i) => Some(Int(i))
    case Unsigned(u) => Some(UInt(u))
    case NotANumber => None
    case Floating =>
      var r := input.scan(text);
      if r.Some? then Some(Real(r.value)) else None
  }

  // The characters between the quotes of a string token.
  function DecodeString(doc: string, t: Token): Decoded
    requires t.start + 2 <= t.end <= |doc|
  {
    Unescape(doc[t.start + 1..t.end - 1], 0)
  }

  function StringErrorInfo(t: Token, d: Decoded): ErrorInfo
    requires d.Bad?
  {
    ErrorInfo(t, BadString(d.why), Some(t.start + 1 + d.extra))
  }

  // A std::string stored in a Value or used as a key is cut at its first NUL.
  function CString(s: string): string {
    if s == "" || s[0] == '\0' then "" else [s[0]] + CString(s[1..])
  }

  lemma {:induction false} CStringNulFree(s: string)
    ensures '\0' !in CString(s)
    ensures '\0' !in s ==> CString(s) == s
  {
    if s != "" && s[0] != '\0' {
      CStringNulFree(s[1..]);
      assert s == [s[0]] + s[1..];
    }
  }

  // ---------- readValue, readObject, readArray ----------

  // The return value, current_, the value on top of nodes_, and errors_.
  datatype Outcome = Outcome(ok: bool, pos: nat, node: Value, errors: seq<ErrorInfo>)

  // An outcome of a call made at `pos` with `errors`: the position has not moved back or past
  // the end, and the call succeeds exactly when it reports nothing.
  predicate Sane(r: Outcome, doc: string, pos: nat, errors: seq<ErrorInfo>) {
    && pos <= r.pos <= |doc|
    && (r.ok ==> r.errors == errors)
    && (!r.ok ==> errors < r.errors)
  }

  function Fail(input: Input, t: Token, message: Message, until: TokenKind, node: Value,
          errors: seq<ErrorInfo>): (r: Outcome)
    requires t.end <= |input.doc|
    ensures Sane(r, input.doc, t.end, errors)
  {
    Outcome(false, Recover(input.doc, t.end, until), node, errors + [ErrorInfo(t, message, None)])
  }

  function ReadValue(input: Input, pos: nat, node: Value, errors: seq<ErrorInfo>): (r: Outcome)
    requires pos <= |input.doc|
    ensures Sane(r, input.doc, pos, errors)
    decreases |input.doc| - pos, 0
  {
    var t := ValueToken(input, pos);
    match t.kind
    case ObjectBegin => ReadMembers(input, t.end, [], "", errors)
    case ArrayBegin => ReadArray(input, t.end, errors)
    case NumberToken =>
      var n := DecodeNumber(input, TokenText(input.doc, t));
      if n.Some? then Outcome(true, t.end, n.value, errors)
      else Outcome(false, t.end, node, errors + [ErrorInfo(t, NotANumberText, None)])
    case StringToken =>
      var d := DecodeString(input.doc, t);
      if d.Decoded? then Outcome(true, t.end, Str(Some(CString(d.text))), errors)
      else Outcome(false, t.end, node, errors + [StringErrorInfo(t, d)])
    case TrueToken => Outcome(true, t.end, Bool(true), errors)
    case FalseToken => Outcome(true, t.end, Bool(false), errors)
    case NullToken => Outcome(true, t.end, Null, errors)
    case _ => Outcome(false, t.end, node, errors + [ErrorInfo(t, ValueExpected, None)])
  }

  // One part of a turn of a loop: the reader returns, or goes on from `pos`.
  datatype Step = Stop(result: Outcome) | More(pos: nat, name: string)

  // readObject up to the colon: the end of the object, or the name of the next member.
  function MemberName(input: Input, pos: nat, items: seq<Entry>, name: string, errors: seq<ErrorInfo>): (s: Step)
    requires pos <= |input.doc|
    ensures s.Stop? ==> Sane(s.result, input.doc, pos, errors)
    ensures s.More? ==> pos < s.pos <= |input.doc|
  {
    var t := NextToken(input.doc, pos);
    if t.kind == ObjectEnd && name == "" then Stop(Outcome(true, t.end, Obj(items), errors))
    else if t.kind != StringToken then Stop(Fail(input, t, MissingObjectEnd, ObjectEnd, Obj(items), errors))
    else
      var d := DecodeString(input.doc, t);
      if d.Bad? then
        Stop(Outcome(false, Recover(input.doc, t.end, ObjectEnd), Obj(items), errors + [StringErrorInfo(t, d)]))
      else
        var colon := ReadToken(input.doc, t.end);
        if colon.kind != MemberSeparator then Stop(Fail(input, colon, MissingColon, ObjectEnd, Obj(items), errors))
        else More(colon.end, d.text)
  }

  // readObject after a member. Past a comment, any token but '}' is taken for the separator.
  function MemberEnd(input: Input, pos: nat, items: seq<Entry>, name: string, errors: seq<ErrorInfo>): (s: Step)
    requires pos <= |input.doc|
    ensures s.Stop? ==> Sane(s.result, input.doc, pos, errors)
    ensures s.More? ==> pos <= s.pos <= |input.doc|
  {
    var comma := ReadToken(input.doc, pos);
    if comma.kind != ObjectEnd && comma.kind != ArraySeparator && comma.kind != CommentToken then
      Stop(Fail(input, comma, MissingMemberEnd, ObjectEnd, Obj(items), errors))
    else
      var after := NextToken(input.doc, pos);
      if after.kind == ObjectEnd then Stop(Outcome(true, after.end, Obj(items), errors))
      else More(after.end, name)
  }

  datatype Turn = Return(result: Outcome) | Again(pos: nat, items: seq<Entry>, name: string)

  // One turn of the loop of readObject; `name` is the member name read last.
  function MemberTurn(input: Input, pos: nat, items: seq<Entry>, name: string, errors: seq<ErrorInfo>): (t: Turn)
    requires pos <= |input.doc|
    ensures t.Return? ==> Sane(t.result, input.doc, pos, errors)
    ensures t.Again? ==> pos < t.pos <= |input.doc|
    decreases |input.doc| - pos, 1
  {
    var begun := MemberName(input, pos, items, name, errors);
    if begun.Stop? then Return(begun.result)
    else
      var key := Name(CString(begun.name));
      var r := ReadValue(input, begun.pos, Get(items, key), errors);
      var items' := Put(items, key, r.node);
      if !r.ok then Return(Outcome(false, Recover(input.doc, r.pos, ObjectEnd), Obj(items'), r.errors))
      else
        var ended := MemberEnd(input, r.pos, items', begun.name, errors);
        if ended.Stop? then Return(ended.result) else Again(ended.pos, items', begun.name)
  }

  function ReadMembers(input: Input, pos: nat, items: seq<Entry>, name: string, errors: seq<ErrorInfo>): (r: Outcome)
    requires pos <= |input.doc|
    ensures Sane(r, input.doc, pos, errors)
    decreases |input.doc| - pos, 2
  {
    match MemberTurn(input, pos, items, name, errors)
    case Return(r) => r
    case Again(pos', items', name') => ReadMembers(input, pos', items', name', errors)
  }

  function ReadArray(input: Input, pos: nat, errors: seq<ErrorInfo>): (r: Outcome)
    requires pos <= |input.doc|
    ensures Sane(r, input.doc, pos, errors)
    decreases |input.doc| - pos, 2
  {
    var p := SkipSpaces(input.doc, pos);
    if CharAt(input.doc, p) == ']' then Outcome(true, p + 1, Arr([]), errors)
    else ReadElements(input, p, [], 0, errors)
  }

  // The loop of readArray
  function ReadElements(input: Input, pos: nat, items: seq<Entry>, index: nat, errors: seq<ErrorInfo>): (r: Outcome)
    requires pos <= |input.doc|
    ensures Sane(r, input.doc, pos, errors)
    decreases |input.doc| - pos, 1
  {
    var r := ReadValue(input, pos, Get(items, Index(index)), errors);
    var items' := Put(items, Index(index), r.node);
    if !r.ok then Outcome(false, Recover(input.doc, r.pos, ArrayEnd), Arr(items'), r.errors)
    else
      var t := NextToken(input.doc, r.pos);
      if t.kind != ArraySeparator && t.kind != ArrayEnd then
        Fail(input, t, MissingElementEnd, ArrayEnd, Arr(items'), errors)
      else if t.kind == ArrayEnd then Outcome(true, t.end, Arr(items'), errors)
      else ReadElements(input, t.end, items', index + 1, errors)
  }

  // parse: one value, whatever follows it, and in strict mode a check of the root.
  function Parse(input: Input, root: Value): (r: Outcome)
    ensures r.pos <= |input.doc|
    ensures r.ok <==> r.errors == []
  {
    var r := ReadValue(input, 0, root, []);
    var t := ValueToken(input, r.pos);
    if input.strictRoot && !r.node.Arr? && !r.node.Obj? && !r.node.Null? then
      Outcome(false, t.end, r.node, r.errors + [ErrorInfo(Token(ErrorToken, 0, |input.doc|), RootNotContainer, None)])
    else Outcome(r.ok, t.end, r.node, r.errors)
  }
}
