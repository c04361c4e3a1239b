/** Parsing a request from a buffer: http_request_parse of src/http.c. */
module HttpRequest {
  import opened Wrappers
  import opened Seqs
  import opened ByteBuffer
  import opened Http

  datatype Type = Get | Head | Unknown

  // Any other version leaves its minor number unset.
  datatype Version = V10 | V11 | Other

  datatype InitLine = InitLine(kind: Type, uri: string, version: Version)

  // A null pointer is dereferenced for a line without three words or a header without a colon.
  datatype Parsed =
    | NoLine
    | NullPointer
    | Request(line: InitLine, headers: seq<Header>)

  // ---------- the request line ----------

  function SkipBlanks(s: string): string {
    if s != [] && s[0] == ' ' then SkipBlanks(s[1..]) else s
  }

  // strtok_r ( s, " ", &rest )
  function Token(s: string): Option<(string, string)> {
    var t := SkipBlanks(s);
    if t == [] then None
    else
      var i := IndexOf(t, ' ');
      Some((t[..i], if i < |t| then t[i + 1..] else []))
  }

  function TypeOf(token: string): Type {
    if token == "GET" then Get else if token == "HEAD" then Head else Unknown
  }

  function VersionOf(token: string): Version {
    if token == "HTTP/1.0" then V10 else if token == "HTTP/1.1" then V11 else Other
  }

  function ParseInitLine(line: string): Option<InitLine> {
    match Token(line)
    case None => None
    case Some((first, afterFirst)) =>
      match Token(afterFirst)
      case None => None
      case Some((uri, afterUri)) =>
        match Token(afterUri)
        case None => None
        case Some((version, _)) => Some(InitLine(TypeOf(first), uri, VersionOf(version)))
  }

  // ---------- header lines ----------

  function HeaderLine(line: string): Option<Header> {
    var i := IndexOf(line, ':');
    if i == |line| then None else Some(Header(line[..i], SkipBlanks(line[i + 1..])))
  }

  // The headers up to an empty line or the last complete line, and what is left in the buffer
  datatype Headers = Broken | Headers(headers: seq<Header>, rest: string)

  function FirstLine(data: string): string
    requires FirstEol(data) < |data|
  {
    CString(data[..FirstEol(data)])
  }

  function ParseHeaders(data: string): Headers
    decreases |data|
  {
    if FirstEol(data) == |data| then Headers([], data)
    else
      var line, rest := FirstLine(data), data[LineLength(data)..];
      if line == [] then Headers([], rest)
      else
        match HeaderLine(line)
        case None => Broken
        case Some(h) =>
          match ParseHeaders(rest)
          case Broken => Broken
          case Headers(hs, left) => Headers([h] + hs, left)
  }

  // The request, and the bytes left in the buffer
  function ParseRequest(data: string): (Parsed, string) {
    if FirstEol(data) == |data| then (NoLine, data)
    else
      match ParseInitLine(FirstLine(data))
      case None => (NullPointer, [])
      case Some(line) =>
        match ParseHeaders(data[LineLength(data)..])
        case Broken => (NullPointer, [])
        case Headers(hs, rest) => (Request(line, hs), rest)
  }

  // ---------- the parser ----------

  method StrTok(s: string) returns (token: Option<(string, string)>)
    ensures token == Token(s)
  {
    var t := s;
    while t != [] && t[0] == ' '
      invariant SkipBlanks(t) == SkipBlanks(s)
      decreases |t|
    {
      t := t[1..];
    }
    if t == [] {
      return None;
    }
    var i := IndexOf(t, ' ');
    token := Some((t[..i], if i < |t| then t[i + 1..] else []));
  }

  method InitLineOf(line: string) returns (r: Option<InitLine>)
    ensures r == ParseInitLine(line)
  {
    hide Token;
    var token := StrTok(line);
    var kind := if token == None then Unknown else TypeOf(token.value.0);
    var ptr := if token == None then [] else token.value.1;
    if token == None {
      return None;
    }
    token := StrTok(ptr);
    if token == None {
      return None;
    }
    var uri;
    uri, ptr := token.value.0, token.value.1;
    token := StrTok(ptr);
    if token == None {
      return None;
    }
    r := Some(InitLine(kind, uri, VersionOf(token.value.0)));
  }

  method AddHeaderLine(headers: seq<Header>, line: string) returns (r: Option<seq<Header>>)
    ensures r == match HeaderLine(line) case None => None case Some(h) => Some(headers + [h])
  {
    var name := IndexOf(line, ':');
    if name == |line| {
      return None;
    }
    var value := line[name + 1..];
    while value != [] && value[0] == ' '
      invariant SkipBlanks(value) == SkipBlanks(line[name + 1..])
      decreases |value|
    {
      value := value[1..];
    }
    r := Some(headers + [Header(line[..name], value)]);
  }

  // What the headers read so far and those still in the buffer make
  function Behind(hs: seq<Header>, more: Headers): Headers {
    match more
    case Broken => Broken
    case Headers(ms, rest) => Headers(hs + ms, rest)
  }

  method ReadHeaders(buf: Buffer) returns (r: Option<seq<Header>>)
    requires buf.Valid()
    modifies buf`buffer, buf`misalign, buf`len
    ensures buf.Valid()
    ensures match ParseHeaders(old(buf.Contents()))
            case Broken => r == None
            case Headers(hs, rest) => r == Some(hs) && buf.Contents() == rest
  {
    hide FirstEol, FirstLine, LineLength, HeaderLine, ParseHeaders, CString, Behind;
    ghost var all := buf.Contents();
    var headers: seq<Header> := [];
    BehindNothing(ParseHeaders(all));
    ghost var data := all;
    ParseStep([], data);
    var line := buf.Readline();
    assert line.Some? ==> line.value == FirstLine(data) by { LineIs(data); }
    while line.Some? && line.value != []
      invariant buf.Valid() && ParseHeaders(all) == Behind(headers, ParseHeaders(data))
      invariant FirstEol(data) <= |data| && (line.Some? <==> FirstEol(data) < |data|)
      invariant line.Some? ==> line.value == FirstLine(data) && buf.Contents() == data[LineLength(data)..]
      invariant line == None ==> buf.Contents() == data
      decreases |data|
    {
      ParseStep(headers, data);
      var added := AddHeaderLine(headers, line.value);
      if added == None {
        return None;
      }
      headers := added.value;
      data := buf.Contents();
      line := buf.Readline();
      assert line.Some? ==> line.value == FirstLine(data) by { LineIs(data); }
    }
    ParseStep(headers, data);
    r := Some(headers);
  }

  lemma LineIs(data: string)
    ensures FirstEol(data) < |data| ==> FirstLine(data) == CString(data[..FirstEol(data)])
  {
  }

  lemma BehindNothing(more: Headers)
    ensures Behind([], more) == more
  {
    if more.Headers? {
      assert [] + more.headers == more.headers;
    }
  }

  // One line of the header block
  lemma ParseStep(hs: seq<Header>, data: string)
    ensures Behind(hs, ParseHeaders(data)) ==
            if FirstEol(data) == |data| then Headers(hs, data)
            else if FirstLine(data) == [] then Headers(hs, data[LineLength(data)..])
            else match HeaderLine(FirstLine(data))
              case None => Broken
              case Some(h) => Behind(hs + [h], ParseHeaders(data[LineLength(data)..]))
  {
    hide FirstEol, LineLength, HeaderLine, FirstLine;
    assert hs + [] == hs;
    if FirstEol(data) < |data| && FirstLine(data) != [] && HeaderLine(FirstLine(data)).Some? {
      var h, more := HeaderLine(FirstLine(data)).value, ParseHeaders(data[LineLength(data)..]);
      if more.Headers? {
        Associative(hs, [h], more.headers);
      }
    }
  }

  // http_request_parse
  method HttpRequestParse(buf: Buffer) returns (r: Parsed)
    requires buf.Valid()
    modifies buf`buffer, buf`misalign, buf`len
    ensures buf.Valid() && r == ParseRequest(old(buf.Contents())).0
    ensures r != NullPointer ==> buf.Contents() == ParseRequest(old(buf.Contents())).1
  {
    hide FirstEol, LineLength, ParseInitLine, ParseHeaders;
    ghost var data := buf.Contents();
    var line := buf.Readline();
    if line == None {
      return NoLine;
    }
    var initLine := InitLineOf(line.value);
    if initLine == None {
      return NullPointer;
    }
    var headers := ReadHeaders(buf);
    if headers == None {
      return NullPointer;
    }
    r := Request(initLine.value, headers.value);
  }

  // ---------- parsing inverts printing ----------

  predicate LineFree(s: string) {
    '\r' !in s && '\n' !in s && '\0' !in s
  }

  predicate Printable(h: Header) {
    && LineFree(h.name) && ':' !in h.name
    && LineFree(h.value) && (h.value != [] ==> h.value[0] != ' ')
  }

  predicate PrintableLine(line: InitLine) {
    && line.kind != Unknown && line.version != Other
    && line.uri != [] && ' ' !in line.uri && LineFree(line.uri)
  }

  function TypeText(t: Type): string
    requires t != Unknown
  {
    if t == Get then "GET" else "HEAD"
  }

  function VersionText(v: Version): string
    requires v != Other
  {
    if v == V10 then "HTTP/1.0" else "HTTP/1.1"
  }

  function PutInitLine(line: InitLine): string
    requires PrintableLine(line)
  {
    TypeText(line.kind) + (" " + (line.uri + (" " + VersionText(line.version))))
  }

  function PutHeader(h: Header): string {
    h.name + (": " + h.value)
  }

  function PutLine(line: string, tail: string): string {
    line + ("\r\n" + tail)
  }

  function PutHeaders(hs: seq<Header>, body: string): string {
    if hs == [] then PutLine([], body) else PutLine(PutHeader(hs[0]), PutHeaders(hs[1..], body))
  }

  function PutRequest(line: InitLine, hs: seq<Header>, body: string): string
    requires PrintableLine(line)
  {
    PutLine(PutInitLine(line), PutHeaders(hs, body))
  }

  lemma LineBack(line: string, tail: string)
    requires LineFree(line)
    ensures var data := PutLine(line, tail);
            FirstEol(data) < |data| && FirstLine(data) == line && data[LineLength(data)..] == tail
  {
    var data := PutLine(line, tail);
    var i := |line|;
    assert data[i] == '\r' && data[i + 1] == '\n' && forall k :: 0 <= k < i ==> data[k] == line[k];
    assert FirstEol(data) == i;
    assert data[..i] == line && data[i + 2..] == tail;
  }

  lemma TokenBack(word: string, rest: string)
    requires word != [] && ' ' !in word
    ensures Token(word + (" " + rest)) == Some((word, rest)) && Token(word) == Some((word, []))
  {
    FirstAt(word, ' ', rest);
    Parts(word, ' ', rest);
    assert (word + (" " + rest))[0] == word[0];
    assert IndexOf(word, ' ') == |word| && word[..|word|] == word;
  }

  lemma InitLineBack(line: InitLine)
    requires PrintableLine(line)
    ensures ParseInitLine(PutInitLine(line)) == Some(line)
  {
    hide Token;
    var afterUri := VersionText(line.version);
    TokenBack(TypeText(line.kind), line.uri + (" " + afterUri));
    TokenBack(line.uri, afterUri);
    TokenBack(afterUri, []);
  }

  lemma LineFreeConcat(a: string, b: string)
    ensures LineFree(a + b) <==> LineFree(a) && LineFree(b)
  {
  }

  lemma WordsAreLineFree(line: InitLine)
    requires PrintableLine(line)
    ensures LineFree(TypeText(line.kind)) && LineFree(VersionText(line.version)) && LineFree(line.uri) && LineFree(" ")
  {
  }

  lemma InitLineIsLineFree(line: InitLine)
    requires PrintableLine(line)
    ensures LineFree(PutInitLine(line))
  {
    WordsAreLineFree(line);
    hide LineFree, TypeText, VersionText;
    var v := VersionText(line.version);
    LineFreeConcat(" ", v);
    LineFreeConcat(line.uri, " " + v);
    LineFreeConcat(" ", line.uri + (" " + v));
    LineFreeConcat(TypeText(line.kind), " " + (line.uri + (" " + v)));
  }

  lemma HeaderBack(h: Header)
    requires Printable(h)
    ensures HeaderLine(PutHeader(h)) == Some(h) && PutHeader(h) != [] && LineFree(PutHeader(h))
  {
    hide IndexOf;
    var value := " " + h.value;
    assert PutHeader(h) == h.name + ([':'] + value);
    FirstAt(h.name, ':', value);
    Parts(h.name, ':', value);
    assert value[1..] == h.value;
    assert SkipBlanks(value) == h.value;
  }

  ghost predicate AllPrintable(hs: seq<Header>) {
    forall i :: 0 <= i < |hs| ==> Printable(hs[i])
  }

  lemma {:induction false} HeadersBack(hs: seq<Header>, body: string)
    requires AllPrintable(hs)
    ensures ParseHeaders(PutHeaders(hs, body)) == Headers(hs, body)
    decreases |hs|
  {
    hide Printable, PutHeader, PutLine, HeaderLine, FirstEol, FirstLine, LineLength;
    if hs == [] {
      LineBack([], body);
    } else {
      HeaderBack(hs[0]);
      LineBack(PutHeader(hs[0]), PutHeaders(hs[1..], body));
      HeadersBack(hs[1..], body);
    }
  }

  // Every part of a printed request comes back, and exactly the body is left.
  lemma RequestBack(line: InitLine, hs: seq<Header>, body: string)
    requires PrintableLine(line) && AllPrintable(hs)
    ensures ParseRequest(PutRequest(line, hs, body)) == (Request(line, hs), body)
  {
    hide PrintableLine, PutInitLine, PutLine, PutHeaders, ParseHeaders, FirstEol, FirstLine, LineLength, ParseInitLine;
    InitLineBack(line);
    InitLineIsLineFree(line);
    LineBack(PutInitLine(line), PutHeaders(hs, body));
    HeadersBack(hs, body);
  }

  // ---------- requests as they may arrive ----------

  // A line end, in front of `tail`: one of the two characters, or both in either order
  predicate Ends(eol: string, tail: string) {
    || eol == "\r\n" || eol == "\n\r"
    || (eol == "\n" && (tail != [] ==> tail[0] != '\r'))
    || (eol == "\r" && (tail != [] ==> tail[0] != '\n'))
  }

  lemma RawLineBack(line: string, eol: string, tail: string)
    requires LineFree(line) && Ends(eol, tail)
    ensures var data := line + (eol + tail);
            FirstEol(data) < |data| && FirstLine(data) == line && data[LineLength(data)..] == tail
  {
    var data := line + (eol + tail);
    var i := |line|;
    assert data[i] == eol[0] && forall k :: 0 <= k < i ==> data[k] == line[k];
    assert FirstEol(data) == i;
    hide FirstEol;
    assert data[..i] == line;
    RawLineLength(line, eol, tail);
  }

  lemma RawLineLength(line: string, eol: string, tail: string)
    requires Ends(eol, tail) && FirstEol(line + (eol + tail)) == |line|
    ensures var data := line + (eol + tail);
            LineLength(data) == |line| + |eol| && data[|line| + |eol|..] == tail
  {
    hide FirstEol, Ends;
    var data := line + (eol + tail);
    assert data[|line|..] == eol + tail;
    LineEndLength(data, |line|, eol, tail);
  }

  lemma LineEndLength(data: string, i: nat, eol: string, tail: string)
    requires Ends(eol, tail) && i <= |data| && data[i..] == eol + tail && FirstEol(data) == i
    ensures LineLength(data) == i + |eol| && data[i + |eol|..] == tail
  {
    hide FirstEol;
    assert data[i] == data[i..][0] && (i + 1 < |data| ==> data[i + 1] == data[i..][1]);
    assert data[i + |eol|..] == data[i..][|eol|..];
  }

  predicate Blank(s: string) {
    forall i :: 0 <= i < |s| ==> s[i] == ' '
  }

  lemma {:induction false} BlanksSkipped(blanks: string, s: string)
    requires Blank(blanks) && (s != [] ==> s[0] != ' ')
    ensures SkipBlanks(blanks + s) == s
    decreases |blanks|
  {
    if blanks == [] {
      assert blanks + s == s;
    } else {
      BlanksSkipped(blanks[1..], s);
      assert (blanks + s)[0] == blanks[0] && (blanks + s)[1..] == blanks[1..] + s;
    }
  }

  predicate IsWord(s: string) {
    s != [] && ' ' !in s && LineFree(s)
  }

  // Three words and anything behind them, with blanks in front of each
  datatype RawLine = RawLine(b1: string, verb: string, b2: string, uri: string, b3: string, version: string, more: string) {
    predicate Valid() {
      && IsWord(verb) && IsWord(uri) && IsWord(version)
      && Blank(b1) && Blank(b2) && Blank(b3) && b2 != [] && b3 != []
      && LineFree(more) && (more != [] ==> more[0] == ' ')
    }

    function Text(): string {
      b1 + (verb + (b2 + (uri + (b3 + (version + more)))))
    }

    // Other methods are unknown, and so are other versions.
    function Meant(): InitLine {
      InitLine(if verb == "GET" then Get else if verb == "HEAD" then Head else Unknown, uri,
               if version == "HTTP/1.0" then V10 else if version == "HTTP/1.1" then V11 else Other)
    }
  }

  // A word behind blanks, with blanks or nothing behind it; one blank is taken with it.
  lemma WordBack(blanks: string, word: string, rest: string)
    requires Blank(blanks) && word != [] && ' ' !in word && (rest != [] ==> rest[0] == ' ')
    ensures Token(blanks + (word + rest)) == Some((word, if rest == [] then [] else rest[1..]))
  {
    var t := word + rest;
    assert t[0] == word[0];
    BlanksSkipped(blanks, t);
    hide SkipBlanks;
    if rest == [] {
      assert t == word && IndexOf(word, ' ') == |word| && word[..|word|] == word;
    } else {
      assert rest == " " + rest[1..];
      FirstAt(word, ' ', rest[1..]);
      Parts(word, ' ', rest[1..]);
    }
  }

  lemma RawLineMeant(l: RawLine)
    requires l.Valid()
    ensures ParseInitLine(l.Text()) == Some(l.Meant())
  {
    hide Token, LineFree;
    var afterUri := l.b3 + (l.version + l.more);
    var afterMethod := l.b2 + (l.uri + afterUri);
    assert afterMethod[0] == ' ' && afterUri[0] == ' ';
    WordBack(l.b1, l.verb, afterMethod);
    assert afterMethod[1..] == l.b2[1..] + (l.uri + afterUri);
    WordBack(l.b2[1..], l.uri, afterUri);
    assert afterUri[1..] == l.b3[1..] + (l.version + l.more);
    WordBack(l.b3[1..], l.version, l.more);
  }

  // A line of fewer than three words
  lemma TooFewWords(words: seq<string>, blanks: seq<string>)
    requires |words| <= 2 && |blanks| == |words| + 1
    requires forall i :: 0 <= i < |words| ==> words[i] != [] && ' ' !in words[i]
    requires (forall i :: 0 <= i < |blanks| ==> Blank(blanks[i])) && (|words| == 2 ==> blanks[1] != [])
    ensures ParseInitLine(if |words| == 0 then blanks[0]
                          else if |words| == 1 then blanks[0] + (words[0] + blanks[1])
                          else blanks[0] + (words[0] + (blanks[1] + (words[1] + blanks[2])))) == None
  {
    hide Token;
    if |words| == 0 {
      NoWord(blanks[0]);
    } else if |words| == 1 {
      WordBack(blanks[0], words[0], blanks[1]);
      NoWord(if blanks[1] == [] then [] else blanks[1][1..]);
    } else {
      var rest := blanks[1] + (words[1] + blanks[2]);
      assert rest[0] == ' ' && rest[1..] == blanks[1][1..] + (words[1] + blanks[2]);
      WordBack(blanks[0], words[0], rest);
      WordBack(blanks[1][1..], words[1], blanks[2]);
      NoWord(if blanks[2] == [] then [] else blanks[2][1..]);
    }
  }

  lemma NoWord(blanks: string)
    requires Blank(blanks)
    ensures Token(blanks) == None
  {
    BlanksSkipped(blanks, []);
    assert blanks + [] == blanks;
  }

  lemma RawTextFree(l: RawLine)
    requires l.Valid()
    ensures LineFree(l.Text())
  {
    BlankFree(l.b1);
    BlankFree(l.b2);
    BlankFree(l.b3);
    hide LineFree, Blank;
    LineFreeConcat(l.version, l.more);
    LineFreeConcat(l.b3, l.version + l.more);
    LineFreeConcat(l.uri, l.b3 + (l.version + l.more));
    LineFreeConcat(l.b2, l.uri + (l.b3 + (l.version + l.more)));
    LineFreeConcat(l.verb, l.b2 + (l.uri + (l.b3 + (l.version + l.more))));
    LineFreeConcat(l.b1, l.verb + (l.b2 + (l.uri + (l.b3 + (l.version + l.more)))));
  }

  lemma BlankFree(s: string)
    requires Blank(s)
    ensures LineFree(s)
  {
  }

  // A header with any blanks behind its colon, and its line end
  datatype RawHeader = RawHeader(header: Header, blanks: string, eol: string) {
    predicate Valid() {
      Printable(header) && Blank(blanks)
    }

    function Text(): string {
      header.name + (":" + (blanks + header.value))
    }
  }

  // The headers, then an empty line with its end and the body, or a line that is not complete
  function PutRaw(hs: seq<RawHeader>, final: string): string {
    if hs == [] then final else hs[0].Text() + (hs[0].eol + PutRaw(hs[1..], final))
  }

  ghost predicate ValidHeaders(hs: seq<RawHeader>, final: string) {
    forall i :: 0 <= i < |hs| ==> hs[i].Valid() && Ends(hs[i].eol, PutRaw(hs[i + 1..], final))
  }

  function HeadersOf(hs: seq<RawHeader>): seq<Header> {
    if hs == [] then [] else [hs[0].header] + HeadersOf(hs[1..])
  }

  lemma RawHeaderMeant(h: RawHeader)
    requires h.Valid()
    ensures HeaderLine(h.Text()) == Some(h.header) && h.Text() != [] && LineFree(h.Text())
  {
    var value := h.blanks + h.header.value;
    BlanksSkipped(h.blanks, h.header.value);
    BlankFree(h.blanks);
    ColonFree();
    hide IndexOf, SkipBlanks, LineFree, Blank;
    FirstAt(h.header.name, ':', value);
    Parts(h.header.name, ':', value);
    LineFreeConcat(h.blanks, h.header.value);
    LineFreeConcat(":", value);
    LineFreeConcat(h.header.name, ":" + value);
  }

  lemma ColonFree()
    ensures LineFree(":")
  {
  }

  // What the header block ends with, and what is left then
  predicate Final(final: string, rest: string) {
    || (exists eol :: eol in {"\r\n", "\n\r", "\n", "\r"} && Ends(eol, rest) && final == eol + rest)
    || ('\r' !in final && '\n' !in final && rest == final)
  }

  lemma FinalBack(final: string, rest: string)
    requires Final(final, rest)
    ensures ParseHeaders(final) == Headers([], rest)
  {
    if '\r' !in final && '\n' !in final && rest == final {
      assert FirstEol(final) == |final|;
    } else {
      var eol :| eol in {"\r\n", "\n\r", "\n", "\r"} && Ends(eol, rest) && final == eol + rest;
      RawLineBack([], eol, rest);
      assert [] + (eol + rest) == final;
      hide FirstEol, FirstLine, LineLength;
    }
  }

  lemma {:induction false} RawHeadersBack(hs: seq<RawHeader>, final: string, rest: string)
    requires ValidHeaders(hs, final) && Final(final, rest)
    ensures ParseHeaders(PutRaw(hs, final)) == Headers(HeadersOf(hs), rest)
    decreases |hs|
  {
    hide Final, Ends, RawHeader.Valid, RawHeader.Text, HeaderLine, FirstEol, FirstLine, LineLength;
    if hs == [] {
      FinalBack(final, rest);
    } else {
      assert hs[0].Valid() && Ends(hs[0].eol, PutRaw(hs[1..], final));
      RawHeaderMeant(hs[0]);
      RawLineBack(hs[0].Text(), hs[0].eol, PutRaw(hs[1..], final));
      RestValid(hs, final);
      RawHeadersBack(hs[1..], final, rest);
    }
  }

  lemma RestValid(hs: seq<RawHeader>, final: string)
    requires hs != [] && ValidHeaders(hs, final)
    ensures ValidHeaders(hs[1..], final)
  {
    hide RawHeader.Valid, Ends, PutRaw;
    forall i | 0 <= i < |hs| - 1
      ensures hs[1..][i].Valid() && Ends(hs[1..][i].eol, PutRaw(hs[1..][i + 1..], final))
    {
      assert hs[1..][i] == hs[i + 1] && hs[1..][i + 1..] == hs[i + 2..];
    }
  }

  // Every request is taken apart, with any blanks, line ends, methods and versions; what is
  // behind the empty line, or a last line that is not complete, is left in the buffer.
  lemma RawRequestBack(l: RawLine, eol: string, hs: seq<RawHeader>, final: string, rest: string)
    requires l.Valid() && ValidHeaders(hs, final) && Final(final, rest) && Ends(eol, PutRaw(hs, final))
    ensures ParseRequest(l.Text() + (eol + PutRaw(hs, final))) == (Request(l.Meant(), HeadersOf(hs)), rest)
  {
    hide RawLine.Valid, RawLine.Text, RawLine.Meant, ValidHeaders, Final, Ends, PutRaw, ParseInitLine, ParseHeaders, FirstEol,
      FirstLine, LineLength;
    RawLineMeant(l);
    RawTextFree(l);
    RawLineBack(l.Text(), eol, PutRaw(hs, final));
    RawHeadersBack(hs, final, rest);
  }

  // A header line without a colon breaks the request, wherever it stands.
  lemma {:induction false} NoColonBreaks(hs: seq<RawHeader>, line: string, eol: string, tail: string)
    requires LineFree(line) && line != [] && ':' !in line && Ends(eol, tail)
    requires ValidHeaders(hs, line + (eol + tail))
    ensures ParseHeaders(PutRaw(hs, line + (eol + tail))) == Broken
    decreases |hs|
  {
    var final := line + (eol + tail);
    if hs == [] {
      RawLineBack(line, eol, tail);
      assert IndexOf(line, ':') == |line|;
      hide FirstEol, FirstLine, LineLength;
    } else {
      hide Ends, RawHeader.Valid, RawHeader.Text, HeaderLine, FirstEol, FirstLine, LineLength, LineFree;
      assert hs[0].Valid() && Ends(hs[0].eol, PutRaw(hs[1..], final));
      RawHeaderMeant(hs[0]);
      RawLineBack(hs[0].Text(), hs[0].eol, PutRaw(hs[1..], final));
      RestValid(hs, final);
      NoColonBreaks(hs[1..], line, eol, tail);
    }
  }

  // ---------- from the pairs of a search to its request and back ----------

  // What http_handler makes of the bytes of a request before it searches
  function SearchPairs(data: string): Option<seq<Header>> {
    match ParseRequest(data).0
    case Request(line, _) =>
      var cut := QueryCut(line.uri);
      if cut == None then None else ParseQuery(cut.value)
    case _ => None
  }

  predicate PrintableUriPart(s: string) {
    ' ' !in s && LineFree(s)
  }

  lemma UriIsPrintable(path: string, hs: seq<Header>, plus: bool, fragment: Option<string>)
    requires PrintableUriPart(path) && (fragment.Some? ==> PrintableUriPart(fragment.value))
    ensures PutUri(path, PutQuery(hs, plus), fragment) != [] && PrintableUriPart(PutUri(path, PutQuery(hs, plus), fragment))
  {
    hide PutQuery;
    QueryChars(hs, plus);
  }

  // The pairs of a search come back from the bytes of its request exactly when the encoded query
  // is shorter than 4096 bytes, and every pair is plain.
  lemma SearchRequestBack(kind: Type, version: Version, path: string, hs: seq<Header>, plus: bool,
                          fragment: Option<string>, headers: seq<Header>, body: string)
    requires kind != Unknown && version != Other && ValueBytes(hs) && AllPrintable(headers)
    requires PrintableUriPart(path) && '?' !in path
    requires fragment.Some? ==> PrintableUriPart(fragment.value) && '#' !in fragment.value
    ensures var line := InitLine(kind, PutUri(path, PutQuery(hs, plus), fragment), version);
            && PrintableLine(line)
            && (SearchPairs(PutRequest(line, headers, body)) == Some(hs)
                <==> |PutQuery(hs, plus)| < 4096 && forall i :: 0 <= i < |hs| ==> Plain(hs[i]))
  {
    hide ParseRequest, PutRequest, PutUri, PutQuery, QueryCut, ParseQuery, Plain, ValueBytes, AllPrintable;
    var line := InitLine(kind, PutUri(path, PutQuery(hs, plus), fragment), version);
    UriIsPrintable(path, hs, plus, fragment);
    RequestBack(line, headers, body);
    SearchUriBack(path, hs, plus, fragment);
  }

  // The three calls of http_handler
  method PairsOf(buf: Buffer) returns (pairs: Option<seq<Header>>)
    requires buf.Valid()
    modifies buf`buffer, buf`misalign, buf`len
    ensures buf.Valid() && pairs == SearchPairs(old(buf.Contents()))
  {
    hide ParseRequest, QueryCut, ParseQuery;
    var request := HttpRequestParse(buf);
    if !request.Request? {
      return None;
    }
    var queryStr := QueryCut(request.line.uri);
    if queryStr == None {
      return None;
    }
    var result, httpQuery := ParseQueryStr(queryStr.value);
    pairs := if result == 0 then Some(httpQuery) else None;
  }
}
