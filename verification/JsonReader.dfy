/**
 * `Json::Reader` (libjson/jsoncpp.cpp) as the imperative parser it is: a cursor, a stack of
 * values under construction and an error list, changed step by step. Every method is proved
 * to compute the function of JsonGrammar that describes it.
 *
 * The pointers of `nodes_` point into the tree being built. Only the top of the stack is
 * written, so the stack holds the values themselves, and popping stores the value back into
 * the entry of its parent that the pointer designated.
 */
module JsonReader {
  import opened Wrappers
  import opened JsonValue
  import opened JsonText
  import opened JsonGrammar

  class Reader {
    var document: string
    var current: nat
    var nodes: seq<Value>
    var errors: seq<ErrorInfo>
    const allowComments: bool
    const strictRoot: bool
    const scan: string -> Option<real>

    constructor (allowComments: bool, strictRoot: bool, scan: string -> Option<real>)
      ensures this.allowComments == allowComments && this.strictRoot == strictRoot && this.scan == scan
      ensures Valid()
    {
      this.allowComments := allowComments;
      this.strictRoot := strictRoot;
      this.scan := scan;
      document := "";
      current := 0;
      nodes := [];
      errors := [];
    }

    ghost predicate Valid()
      reads this
    {
      current <= |document|
    }

    ghost function In(): Input
      reads this
    {
      Input(document, allowComments, strictRoot, scan)
    }

    function Top(): Value
      requires nodes != []
      reads this
    {
      nodes[|nodes| - 1]
    }

    // The stack with its top value replaced.
    function Stored(v: Value): seq<Value>
      requires nodes != []
      reads this
    {
      nodes[..|nodes| - 1] + [v]
    }

    // ---------- characters ----------

    method GetNextChar() returns (c: char)
      requires Valid()
      modifies this`current
      ensures c == CharAt(document, old(current)) && current == Next(document, old(current))
    {
      if current == |document| {
        return '\0';
      }
      c := document[current];
      current := current + 1;
    }

    method SkipBlanks()
      requires Valid()
      modifies this`current
      ensures current == SkipSpaces(document, old(current))
    {
      while current != |document|
        invariant current <= |document|
        invariant SkipSpaces(document, old(current)) == SkipSpaces(document, current)
        decreases |document| - current
      {
        if !IsSpace(document[current]) {
          break;
        }
        current := current + 1;
      }
    }

    method Match(pattern: string) returns (ok: bool)
      requires Valid()
      modifies this`current
      ensures ok == Matches(document, old(current), pattern)
      ensures current == if ok then old(current) + |pattern| else old(current)
    {
      if |document| - current < |pattern| {
        return false;
      }
      var index := |pattern|;
      while index != 0
        invariant 0 <= index <= |pattern|
        invariant forall k :: index <= k < |pattern| ==> document[current + k] == pattern[k]
      {
        index := index - 1;
        if document[current + index] != pattern[index] {
          assert document[current..current + |pattern|][index] != pattern[index];
          return false;
        }
      }
      assert document[current..current + |pattern|] == pattern;
      current := current + |pattern|;
      ok := true;
    }

    method ReadString() returns (ok: bool)
      requires Valid()
      modifies this`current
      ensures (ok, current) == StringEnd(document, old(current))
    {
      var c := '\0';
      while current != |document|
        invariant current <= |document|
        invariant c != '"' && StringEnd(document, old(current)) == StringEnd(document, current)
        decreases |document| - current
      {
        c := GetNextChar();
        if c == '\\' {
          var _ := GetNextChar();
        } else if c == '"' {
          break;
        }
      }
      ok := c == '"';
    }

    method ReadCStyleComment() returns (ok: bool)
      requires Valid()
      modifies this`current
      ensures (ok, current) == CStyleEnd(document, old(current))
    {
      while current != |document|
        invariant current <= |document|
        invariant CStyleEnd(document, old(current)) == CStyleEnd(document, current)
        decreases |document| - current
      {
        var c := GetNextChar();
        if c == '*' && CharAt(document, current) == '/' {
          break;
        }
      }
      var last := GetNextChar();
      ok := last == '/';
    }

    method ReadCppStyleComment() returns (ok: bool)
      requires Valid()
      modifies this`current
      ensures ok && current == LineEnd(document, old(current))
    {
      while current != |document|
        invariant current <= |document|
        invariant LineEnd(document, old(current)) == LineEnd(document, current)
        decreases |document| - current
      {
        var c := GetNextChar();
        if c == '\r' || c == '\n' {
          break;
        }
      }
      ok := true;
    }

    method ReadComment() returns (ok: bool)
      requires Valid()
      modifies this`current
      ensures (ok, current) == CommentEnd(document, old(current))
    {
      var c := GetNextChar();
      ok := false;
      if c == '*' {
        ok := ReadCStyleComment();
      } else if c == '/' {
        ok := ReadCppStyleComment();
      }
    }

    method ReadNumber()
      requires Valid()
      modifies this`current
      ensures current == SkipNumber(document, old(current))
    {
      while current != |document|
        invariant current <= |document|
        invariant SkipNumber(document, old(current)) == SkipNumber(document, current)
        decreases |document| - current
      {
        if !IsNumberChar(document[current]) {
          break;
        }
        current := current + 1;
      }
    }

    // ---------- tokens ----------

    method GetToken() returns (token: Token)
      requires Valid()
      modifies this`current
      ensures token == ReadToken(document, old(current)) && current == token.end
    {
      SkipBlanks();
      var start := current;
      var c := GetNextChar();
      var kind := ErrorToken;
      var ok := true;
      if c == '{' {
        kind := ObjectBegin;
      } else if c == '}' {
        kind := ObjectEnd;
      } else if c == '[' {
        kind := ArrayBegin;
      } else if c == ']' {
        kind := ArrayEnd;
      } else if c == '"' {
        kind := StringToken;
        ok := ReadString();
      } else if c == '/' {
        kind := CommentToken;
        ok := ReadComment();
      } else if IsDigit(c) || c == '-' {
        kind := NumberToken;
        ReadNumber();
      } else if c == 't' {
        kind := TrueToken;
        ok := Match("rue");
      } else if c == 'f' {
        kind := FalseToken;
        ok := Match("alse");
      } else if c == 'n' {
        kind := NullToken;
        ok := Match("ull");
      } else if c == ',' {
        kind := ArraySeparator;
      } else if c == ':' {
        kind := MemberSeparator;
      } else if c == '\0' {
        kind := EndOfStream;
      } else {
        ok := false;
      }
      if !ok {
        kind := ErrorToken;
      }
      token := Token(kind, start, current);
    }

    // The loops over comment tokens in readObject and readArray.
    method GetTokenAfterComments() returns (token: Token)
      requires Valid()
      modifies this`current
      ensures token == NextToken(document, old(current)) && current == token.end
    {
      token := GetToken();
      while token.kind == CommentToken
        invariant Valid() && current == token.end
        invariant token.kind != EndOfStream ==> token.start < token.end
        invariant NextToken(document, old(current)) == if token.kind == CommentToken then NextToken(document, current) else token
        decreases |document| - current, if token.kind == CommentToken then 1 else 0
      {
        token := GetToken();
      }
    }

    method SkipCommentTokens() returns (token: Token)
      requires Valid()
      modifies this`current
      ensures token == ValueToken(In(), old(current)) && current == token.end
    {
      if allowComments {
        token := GetTokenAfterComments();
      } else {
        token := GetToken();
      }
    }

    // ---------- errors ----------

    method AddError(token: Token, message: Message, extra: Option<nat>) returns (ok: bool)
      modifies this`errors
      ensures !ok && errors == old(errors) + [ErrorInfo(token, message, extra)]
    {
      errors := errors + [ErrorInfo(token, message, extra)];
      ok := false;
    }

    method RecoverFromError(until: TokenKind) returns (ok: bool)
      requires Valid()
      modifies this`current
      ensures !ok && current == Recover(document, old(current), until)
    {
      while true
        invariant Valid()
        invariant Recover(document, old(current), until) == Recover(document, current, until)
        decreases |document| - current
      {
        var skip := GetToken();
        if skip.kind == until || skip.kind == EndOfStream {
          break;
        }
      }
      ok := false;
    }

    method AddErrorAndRecover(token: Token, message: Message, until: TokenKind) returns (ok: bool)
      requires Valid()
      modifies this`current, this`errors
      ensures !ok && current == Recover(document, old(current), until)
      ensures errors == old(errors) + [ErrorInfo(token, message, None)]
    {
      ok := AddError(token, message, None);
      ok := RecoverFromError(until);
    }

    // ---------- scalars ----------

    method DecodeNumberToken(token: Token) returns (ok: bool)
      requires Valid() && nodes != [] && token.start < token.end <= |document|
      modifies this`nodes, this`errors
      ensures var n := DecodeNumber(In(), TokenText(document, token));
              && ok == n.Some?
              && nodes == old(Stored(if n.Some? then n.value else Top()))
              && errors == if ok then old(errors) else old(errors) + [ErrorInfo(token, NotANumberText, None)]
    {
      ghost var text := TokenText(document, token);
      var isDouble := false;
      for inspect := token.start to token.end
        invariant isDouble <==> exists k :: 0 <= k < inspect - token.start && FloatingAt(text, k)
      {
        var c := document[inspect];
        assert text[inspect - token.start] == c;
        assert FloatingAt(text, inspect - token.start) <==>
               (c == '.' || c == 'e' || c == 'E' || c == '+' || (c == '-' && inspect != token.start));
        isDouble := isDouble || c == '.' || c == 'e' || c == 'E' || c == '+' || (c == '-' && inspect != token.start);
      }
      assert isDouble <==> LooksFloating(text);
      if isDouble {
        ok := DecodeDouble(token);
      } else {
        ok := DecodeIntegerToken(token);
      }
    }

    // decodeNumber past the check for a floating-point numeral
    method DecodeIntegerToken(token: Token) returns (ok: bool)
      requires Valid() && nodes != [] && token.start < token.end <= |document|
      requires !LooksFloating(TokenText(document, token))
      modifies this`nodes, this`errors
      ensures var n := DecodeNumber(In(), TokenText(document, token));
              && ok == n.Some?
              && nodes == old(Stored(if n.Some? then n.value else Top()))
              && errors == if ok then old(errors) else old(errors) + [ErrorInfo(token, NotANumberText, None)]
    {
      hide LooksFloating, ScanDigits, DecodeInteger, ToInt64;
      IntegerText(document, token.start, token.end);
      var isNegative := document[token.start] == '-';
      var maxIntegerValue := if isNegative then TWO_63 else TWO_64 - 1;
      var scanned := ScanIntegerToken(if isNegative then token.start + 1 else token.start, token.end, maxIntegerValue);
      match scanned
      case NotDigits =>
        ok := AddError(token, NotANumberText, None);
        assert nodes == Stored(Top());
      case TooLarge =>
        ok := DecodeDouble(token);
      case Whole(value) =>
        if isNegative {
          nodes := Stored(Int(ToInt64(-ToInt64(value))));
        } else if value <= MAX_INT {
          nodes := Stored(Int(value));
        } else {
          nodes := Stored(UInt(value));
        }
        ok := true;
    }

    // The loop of decodeNumber over the digits
    method ScanIntegerToken(start: nat, end: nat, maxIntegerValue: nat) returns (scanned: Scan)
      requires start <= end <= |document|
      ensures scanned == ScanDigits(document[start..end], 0, maxIntegerValue)
    {
      hide ScanDigits, IsDigit, DigitValue, ToUInt64;
      var current' := start;
      var threshold, lastDigitThreshold := maxIntegerValue / 10, maxIntegerValue % 10;
      var value: nat := 0;
      ghost var whole := ScanDigits(document[start..end], 0, maxIntegerValue);
      while current' < end
        invariant start <= current' <= end
        invariant whole == ScanDigits(document[current'..end], value, maxIntegerValue)
      {
        ScanStep(document, current', end, value, maxIntegerValue, threshold, lastDigitThreshold);
        var c := document[current'];
        current' := current' + 1;
        if !IsDigit(c) {
          return NotDigits;
        }
        var digit := DigitValue(c);
        if value >= threshold {
          if current' != end || digit > lastDigitThreshold {
            return TooLarge;
          }
        }
        value := ToUInt64(value * 10 + digit);
      }
      ScanEnd(document, end, value, maxIntegerValue);
      return Whole(value);
    }

    method DecodeDouble(token: Token) returns (ok: bool)
      requires Valid() && nodes != [] && token.start <= token.end <= |document|
      modifies this`nodes, this`errors
      ensures var r := scan(TokenText(document, token));
              && ok == r.Some?
              && nodes == old(Stored(if r.Some? then Real(r.value) else Top()))
              && errors == if ok then old(errors) else old(errors) + [ErrorInfo(token, NotANumberText, None)]
    {
      var r := scan(document[token.start..token.end]);
      if r.None? {
        ok := AddError(token, NotANumberText, None);
        assert nodes == Stored(Top());
        return;
      }
      nodes := Stored(Real(r.value));
      ok := true;
    }

    // decodeUnicodeEscapeSequence
    method DecodeUnicodeEscapeSequence(body: string, current: nat) returns (r: CodePoint)
      requires current <= |body|
      ensures r == HexQuad(body, current)
    {
      if |body| - current < 4 {
        return BadCodePoint(FourDigitsExpected, current);
      }
      var unicode: nat := 0;
      for index := 0 to 4
        invariant index == 0 ==> unicode == 0
        invariant index == 1 ==> unicode < 16
        invariant index == 2 ==> unicode < 256
        invariant index == 3 ==> unicode < 4096
        invariant index == 4 ==> unicode < 0x1_0000
        invariant HexQuad(body, current) == HexDigits(body, current + index, index, unicode)
      {
        var d := HexValue(body[current + index]);
        if d == 16 {
          return BadCodePoint(HexDigitExpected, current + index + 1);
        }
        unicode := unicode * 16 + d;
      }
      r := CodePoint(unicode, current + 4);
    }

    // decodeUnicodeCodePoint
    method DecodeUnicodeCodePoint(body: string, current: nat) returns (r: CodePoint)
      requires current <= |body|
      ensures r == UnicodeCodePoint(body, current)
    {
      r := DecodeUnicodeEscapeSequence(body, current);
      if r.BadCodePoint? || !(0xD800 <= r.cp <= 0xDBFF) {
        return;
      }
      if |body| - r.next < 6 {
        return BadCodePoint(SixCharactersExpected, r.next);
      }
      if body[r.next] != '\\' {
        return BadCodePoint(SecondHalfExpected, r.next + 1);
      }
      if body[r.next + 1] != 'u' {
        return BadCodePoint(SecondHalfExpected, r.next + 2);
      }
      var surrogatePair := DecodeUnicodeEscapeSequence(body, r.next + 2);
      if surrogatePair.BadCodePoint? {
        return surrogatePair;
      }
      r := CodePoint(0x1_0000 + r.cp % 1024 * 1024 + surrogatePair.cp % 1024, surrogatePair.next);
    }

    // The switch of decodeString on the character after a backslash
    method DecodeEscape(body: string, current: nat) returns (r: EscapeText)
      requires current < |body|
      ensures r == EscapeAt(body, current)
    {
      if current + 1 == |body| {
        return BadEscapeText(EmptyEscape, current + 1);
      }
      if body[current + 1] == 'u' {
        var u := DecodeUnicodeCodePoint(body, current + 2);
        return if u.BadCodePoint? then BadEscapeText(u.why, u.extra) else EscapeText(CodePointToUTF8(u.cp), u.next);
      }
      var e := ShortEscape(body[current + 1]);
      r := if e.None? then BadEscapeText(BadEscape, current + 2) else EscapeText([e.value], current + 2);
    }

    method DecodeStringToken(token: Token) returns (ok: bool, decoded: string)
      requires token.start + 2 <= token.end <= |document|
      modifies this`errors
      ensures var d := DecodeString(document, token);
              && ok == d.Decoded?
              && (ok ==> decoded == d.text && errors == old(errors))
              && (!ok ==> errors == old(errors) + [StringErrorInfo(token, d)])
    {
      hide Unescape, EscapeAt;
      ghost var whole := DecodeString(document, token);
      var body := document[token.start + 1..token.end - 1];
      decoded := "";
      var i := 0;
      while i != |body|
        invariant 0 <= i <= |body|
        invariant errors == old(errors)
        invariant whole == Prepend(decoded, Unescape(body, i))
        decreases |body| - i
      {
        var c := body[i];
        if c == '"' {
          break;
        }
        UnescapeUnfold(body, i);
        if c == '\\' {
          var e := DecodeEscape(body, i);
          if e.BadEscapeText? {
            ok := AddError(token, BadString(e.why), Some(token.start + 1 + e.extra));
            return;
          }
          PrependTwice(decoded, e.text, Unescape(body, e.next));
          decoded := decoded + e.text;
          i := e.next;
        } else {
          PrependTwice(decoded, [c], Unescape(body, i + 1));
          decoded := decoded + [c];
          i := i + 1;
        }
      }
      UnescapeEnds(body, i);
      ok := true;
    }

    // ---------- values ----------

    method ParseValue() returns (ok: bool)
      requires Valid() && nodes != []
      modifies this`current, this`nodes, this`errors
      ensures var r := ReadValue(In(), old(current), old(Top()), old(errors));
              ok == r.ok && current == r.pos && nodes == old(nodes)[..|old(nodes)| - 1] + [r.node] && errors == r.errors
      decreases |document| - current, 0
    {
      hide ReadMembers, ReadArray, DecodeNumber, DecodeString, CString, NextToken, ReadToken;
      var token := SkipCommentTokens();
      ok := true;
      match token.kind
      case ObjectBegin =>
        ok := ParseObject();
      case ArrayBegin =>
        ok := ParseArray();
      case NumberToken =>
        ok := DecodeNumberToken(token);
      case StringToken =>
        var decoded;
        ok, decoded := DecodeStringToken(token);
        if ok {
          nodes := Stored(Str(Some(CString(decoded))));
        }
      case TrueToken =>
        nodes := Stored(Bool(true));
      case FalseToken =>
        nodes := Stored(Bool(false));
      case NullToken =>
        nodes := Stored(Null);
      case _ =>
        ok := AddError(token, ValueExpected, None);
    }

    // Reads the value of the entry `key` of the container on top of the stack.
    method ParseMember(key: Key) returns (ok: bool)
      requires Valid() && nodes != [] && (Top().Arr? || Top().Obj?)
      modifies this`current, this`nodes, this`errors
      ensures var was := old(Top());
              var r := ReadValue(In(), old(current), Get(was.items, key), old(errors));
              var items := Put(was.items, key, r.node);
              && ok == r.ok && current == r.pos && errors == r.errors
              && nodes == old(nodes)[..|old(nodes)| - 1] + [if was.Arr? then Arr(items) else Obj(items)]
      decreases |document| - current, 1
    {
      var parent := Top();
      nodes := nodes + [Get(parent.items, key)];
      ok := ParseValue();
      var child := Top();
      nodes := nodes[..|nodes| - 1];
      var items := Put(parent.items, key, child);
      nodes := Stored(if parent.Arr? then Arr(items) else Obj(items));
    }

    // readObject up to the colon after a member name
    method ParseMemberName(name: string) returns (stop: bool, ok: bool, name': string)
      requires Valid() && nodes != [] && Top().Obj?
      modifies this`current, this`errors
      ensures var s := MemberName(In(), old(current), Top().items, name, old(errors));
              && stop == s.Stop?
              && (stop ==> Outcome(ok, current, Top(), errors) == s.result)
              && (!stop ==> current == s.pos && name' == s.name && errors == old(errors))
    {
      hide NextToken, ReadToken, DecodeString, Recover, StringErrorInfo;
      stop, ok, name' := true, true, name;
      var token := GetTokenAfterComments();
      if token.kind == ObjectEnd && name == "" {
        return;
      }
      if token.kind != StringToken {
        ok := AddErrorAndRecover(token, MissingObjectEnd, ObjectEnd);
        return;
      }
      ok, name' := DecodeStringToken(token);
      if !ok {
        ok := RecoverFromError(ObjectEnd);
        return;
      }
      var colon := GetToken();
      if colon.kind != MemberSeparator {
        ok := AddErrorAndRecover(colon, MissingColon, ObjectEnd);
        return;
      }
      stop := false;
    }

    // readObject from the token after a member on
    method ParseMemberEnd(ghost name: string) returns (stop: bool, ok: bool)
      requires Valid() && nodes != [] && Top().Obj?
      modifies this`current, this`errors
      ensures var s := MemberEnd(In(), old(current), Top().items, name, old(errors));
              && stop == s.Stop?
              && (stop ==> Outcome(ok, current, Top(), errors) == s.result)
              && (!stop ==> current == s.pos && errors == old(errors))
    {
      hide ReadToken, Recover;
      stop, ok := true, true;
      var comma := GetToken();
      if comma.kind != ObjectEnd && comma.kind != ArraySeparator && comma.kind != CommentToken {
        ok := AddErrorAndRecover(comma, MissingMemberEnd, ObjectEnd);
        return;
      }
      if comma.kind == CommentToken {
        comma := GetTokenAfterComments();
      }
      stop := comma.kind == ObjectEnd;
    }

    // One turn of the loop of readObject
    method ParseMemberTurn(name: string) returns (stop: bool, ok: bool, name': string)
      requires Valid() && nodes != [] && Top().Obj?
      modifies this`current, this`nodes, this`errors
      ensures var t := MemberTurn(In(), old(current), old(Top()).items, name, old(errors));
              && stop == t.Return?
              && (stop ==> ok == t.result.ok && current == t.result.pos && errors == t.result.errors)
              && (!stop ==> current == t.pos && name' == t.name && errors == old(errors))
              && nodes == old(nodes)[..|old(nodes)| - 1] + [if stop then t.result.node else Obj(t.items)]
      decreases |document| - current, 2
    {
      hide ReadValue, MemberName, MemberEnd, Recover, Put, Get;
      stop, ok, name' := ParseMemberName(name);
      if stop {
        return;
      }
      ok := ParseMember(Name(CString(name')));
      if !ok {
        stop := true;
        ok := RecoverFromError(ObjectEnd);
        return;
      }
      stop, ok := ParseMemberEnd(name');
    }

    method ParseObject() returns (ok: bool)
      requires Valid() && nodes != []
      modifies this`current, this`nodes, this`errors
      ensures var r := ReadMembers(In(), old(current), [], "", old(errors));
              ok == r.ok && current == r.pos && nodes == old(nodes)[..|old(nodes)| - 1] + [r.node] && errors == r.errors
      decreases |document| - current, 3
    {
      hide MemberTurn;
      nodes := Stored(Obj([]));
      var name := "";
      var stop := false;
      ok := true;
      while !stop
        invariant old(current) <= current <= |document|
        invariant |nodes| == |old(nodes)| && nodes[..|nodes| - 1] == old(nodes)[..|nodes| - 1]
        invariant !stop ==> Top().Obj? && errors == old(errors)
        invariant ReadMembers(In(), old(current), [], "", old(errors))
               == if stop then Outcome(ok, current, Top(), errors)
                  else ReadMembers(In(), current, Top().items, name, errors)
        decreases |document| - current, if stop then 0 else 1
      {
        stop, ok, name := ParseMemberTurn(name);
      }
    }

    method ParseArray() returns (ok: bool)
      requires Valid() && nodes != []
      modifies this`current, this`nodes, this`errors
      ensures var r := ReadArray(In(), old(current), old(errors));
              ok == r.ok && current == r.pos && nodes == old(nodes)[..|old(nodes)| - 1] + [r.node] && errors == r.errors
      decreases |document| - current, 3
    {
      hide ReadValue, Put, Get, Recover, NextToken, ReadToken, SkipSpaces, IsSpace;
      nodes := Stored(Arr([]));
      SkipBlanks();
      if CharAt(document, current) == ']' {
        EndBracket(document, current);
        var _ := GetToken();
        return true;
      }
      ghost var begin := current;
      var index := 0;
      while true
        invariant begin <= current <= |document|
        invariant |nodes| == |old(nodes)| && nodes[..|nodes| - 1] == old(nodes)[..|nodes| - 1] && Top().Arr?
        invariant errors == old(errors)
        invariant ReadElements(In(), begin, [], 0, errors) == ReadElements(In(), current, Top().items, index, errors)
        decreases |document| - current
      {
        ok := ParseMember(Index(index));
        index := index + 1;
        if !ok {
          ok := RecoverFromError(ArrayEnd);
          return;
        }
        var token := GetTokenAfterComments();
        if token.kind != ArraySeparator && token.kind != ArrayEnd {
          ok := AddErrorAndRecover(token, MissingElementEnd, ArrayEnd);
          return;
        }
        if token.kind == ArrayEnd {
          break;
        }
      }
      ok := true;
    }

    // Every document is read to an end: the result is that of the grammar, true exactly when
    // no error was recorded, and the cursor stays inside the document.
    method ParseDocument(text: string, root: Value) returns (ok: bool, result: Value)
      modifies this
      ensures document == text && Valid() && |nodes| == 1
      ensures var r := Parse(In(), root);
              ok == r.ok && result == r.node && current == r.pos && errors == r.errors
      ensures ok <==> errors == []
    {
      document := text;
      current := 0;
      errors := [];
      nodes := [];
      nodes := nodes + [root];
      ok := ParseValue();
      var token := SkipCommentTokens();
      result := Top();
      if strictRoot && !result.Arr? && !result.Obj? && !result.Null? {
        ok := AddError(Token(ErrorToken, 0, |document|), RootNotContainer, None);
      }
    }
  }

  lemma ScanStep(doc: string, i: nat, end: nat, value: nat, max: nat, threshold: nat, lastDigit: nat)
    requires i < end <= |doc| && threshold == max / 10 && lastDigit == max % 10
    ensures ScanDigits(doc[i..end], value, max) ==
            if !IsDigit(doc[i]) then NotDigits
            else if value >= threshold && (i + 1 != end || DigitValue(doc[i]) > lastDigit) then TooLarge
            else ScanDigits(doc[i + 1..end], ToUInt64(value * 10 + DigitValue(doc[i])), max)
  {
    hide IsDigit, DigitValue, ToUInt64;
    assert doc[i..end][0] == doc[i] && doc[i..end][1..] == doc[i + 1..end];
  }

  lemma ScanEnd(doc: string, end: nat, value: nat, max: nat)
    requires end <= |doc|
    ensures ScanDigits(doc[end..end], value, max) == Whole(value)
  {
  }

  lemma IntegerText(doc: string, start: nat, end: nat)
    requires start < end <= |doc|
    ensures var negative := doc[start] == '-';
            DecodeInteger(doc[start..end]) ==
            match ScanDigits(doc[if negative then start + 1 else start..end], 0, if negative then TWO_63 else TWO_64 - 1)
            case TooLarge => Floating
            case NotDigits => NotANumber
            case Whole(value) =>
              if negative then Signed(ToInt64(-ToInt64(value)))
              else if value <= MAX_INT then Signed(value)
              else Unsigned(value)
  {
    hide ScanDigits, ToInt64;
    assert doc[start..end][0] == doc[start] && doc[start..end][1..] == doc[start + 1..end];
  }

  lemma EndBracket(doc: string, pos: nat)
    requires pos < |doc| && doc[pos] == ']'
    ensures ReadToken(doc, pos) == Token(ArrayEnd, pos, pos + 1)
  {
  }

  lemma UnescapeUnfold(body: string, i: nat)
    requires i < |body| && body[i] != '"'
    ensures Unescape(body, i) ==
            if body[i] != '\\' then Prepend([body[i]], Unescape(body, i + 1))
            else if EscapeAt(body, i).BadEscapeText? then Bad(EscapeAt(body, i).why, EscapeAt(body, i).extra)
            else Prepend(EscapeAt(body, i).text, Unescape(body, EscapeAt(body, i).next))
  {
    hide EscapeAt;
  }

  lemma UnescapeEnds(body: string, i: nat)
    requires i <= |body| && (i < |body| ==> body[i] == '"')
    ensures Unescape(body, i) == Decoded("")
  {
  }

  lemma PrependTwice(a: string, b: string, d: Decoded)
    ensures Prepend(a, Prepend(b, d)) == Prepend(a + b, d)
  {
    if d.Decoded? {
      assert a + (b + d.text) == (a + b) + d.text;
    }
  }
}
