/**
 * Configuration files of src/config.cc: a reader that looks one line ahead to see whether a
 * value goes on, and the writer it inverts.
 *
 * The stream gives one line after the other, and once more at its end fails and leaves the last
 * line where it was. A line with a delimiter begins an entry; the lines behind it belong to its
 * value, up to a blank line, the next entry or the end. Comments are cut off first.
 *
 * What a text means is given by its entries, however they are spelled, and by its lines with and
 * without their comments; the laws say that the reader finds these entries, and what becomes of
 * a text whose last line is not ended.
 */
module ConfigFile {
  import opened Wrappers
  import opened Seqs

  // ---------- strings ----------

  predicate IsBlank(c: char) {
    c == ' ' || c == '\n' || c == '\t' || c == 0xb as char || c == '\r' || c == 0xc as char
  }

  function TrimLeft(s: string): string {
    if s != [] && IsBlank(s[0]) then TrimLeft(s[1..]) else s
  }

  function TrimRight(s: string): string {
    if s != [] && IsBlank(s[|s| - 1]) then TrimRight(s[..|s| - 1]) else s
  }

  function Trim(s: string): string {
    TrimRight(TrimLeft(s))
  }

  // string::find
  function Find(s: string, pattern: string): (r: Option<nat>)
    ensures r.Some? ==> r.value + |pattern| <= |s|
  {
    if pattern <= s then Some(0)
    else if s == [] then None
    else
      match Find(s[1..], pattern)
      case None => None
      case Some(i) => Some(i + 1)
  }

  function CutComment(s: string, comment: string): string {
    match Find(s, comment)
    case None => s
    case Some(i) => s[..i]
  }

  // ---------- std::istream ----------

  datatype Stream = Stream(rest: string, eof: bool, fail: bool)

  function FirstNl(s: string): (i: nat)
    ensures i <= |s| && (i < |s| ==> s[i] == '\n') && forall k :: 0 <= k < i ==> s[k] != '\n'
  {
    if s == [] || s[0] == '\n' then 0 else 1 + FirstNl(s[1..])
  }

  // std::getline: at the end of the stream it fails and leaves the string as it was.
  function NextLine(st: Stream, s: string): (Stream, string) {
    if st.eof || st.fail then (st.(fail := true), s)
    else
      var i := FirstNl(st.rest);
      if i < |st.rest| then (st.(rest := st.rest[i + 1..]), st.rest[..i])
      else (Stream([], true, st.rest == []), st.rest)
  }

  function Weight(st: Stream): nat {
    if st.fail then 0 else if st.eof then 1 else 2 + |st.rest|
  }

  class IStream {
    var st: Stream

    constructor (text: string)
      ensures st == Stream(text, false, false)
    {
      st := Stream(text, false, false);
    }

    method Getline(s: string) returns (r: string)
      modifies this
      ensures (st, r) == NextLine(old(st), s)
      ensures !old(st).fail ==> Weight(st) < Weight(old(st))
    {
      if st.eof || st.fail {
        st := st.(fail := true);
        return s;
      }
      var i := FirstNl(st.rest);
      if i < |st.rest| {
        r := st.rest[..i];
        st := st.(rest := st.rest[i + 1..]);
      } else {
        r := st.rest;
        st := Stream([], true, st.rest == []);
      }
    }
  }

  // ---------- the reader as functions ----------

  datatype Continued = Continued(st: Stream, line: string, nextline: string)

  // The rest of a value, and the line that was read ahead
  function Continue(st: Stream, line: string, nextline: string, delim: string, comment: string): (c: Continued)
    ensures Weight(c.st) <= Weight(st) && (!st.fail ==> Weight(c.st) < Weight(st)) && (st.fail ==> c.nextline == nextline)
    decreases Weight(st)
  {
    if st.fail then Continued(st, line, nextline)
    else
      var (st', next) := NextLine(st, nextline);
      if Trim(next) == [] then Continued(st', line, next)
      else
        var n := CutComment(next, comment);
        if Find(n, delim).Some? then Continued(st', line, n)
        else Continue(st', line + (if Trim(n) != [] then "\n" else []) + n, n, delim, comment)
  }

  function Load(st: Stream, nextline: string, contents: map<string, string>, delim: string,
          comment: string): map<string, string>
    decreases Weight(st), |nextline|
  {
    if st.fail && nextline == [] then contents
    else
      var (st1, raw) := if nextline != [] then (st, nextline) else NextLine(st, []);
      var line := CutComment(raw, comment);
      match Find(line, delim)
      case None => Load(st1, [], contents, delim, comment)
      case Some(p) =>
        var c := Continue(st1, line[p + |delim|..], [], delim, comment);
        Load(c.st, c.nextline, contents[Trim(line[..p]) := Trim(c.line)], delim, comment)
  }

  // ---------- the class ----------

  function PutEntry(e: (string, string), delim: string): string {
    e.0 + (" " + delim + " ") + e.1 + "\n"
  }

  function PutEntries(es: seq<(string, string)>, delim: string): string {
    if es == [] then [] else PutEntry(es[0], delim) + PutEntries(es[1..], delim)
  }

  // The entries of a map, each once; std::map gives them in the order of their keys.
  ghost predicate Enumerates(es: seq<(string, string)>, m: map<string, string>) {
    && (forall i :: 0 <= i < |es| ==> es[i].0 in m && m[es[i].0] == es[i].1)
    && (forall k :: k in m ==> exists i :: 0 <= i < |es| && es[i].0 == k)
    && forall i, j :: 0 <= i < j < |es| ==> es[i].0 != es[j].0
  }

  class Config {
    var delimiter: string
    var comment: string
    var contents: map<string, string>

    constructor ()
      ensures delimiter == "=" && comment == "#" && contents == map[]
    {
      delimiter, comment, contents := "=", "#", map[];
    }

    // operator>>
    method Read(stream: IStream)
      modifies this`contents, stream
      ensures contents == Load(old(stream.st), [], old(contents), delimiter, comment)
    {
      hide Find, Trim, NextLine, Load, Continue;
      var nextline := [];
      while !stream.st.fail || |nextline| > 0
        invariant Load(stream.st, nextline, contents, delimiter, comment) == Load(old(stream.st), [], old(contents), delimiter, comment)
        decreases Weight(stream.st), |nextline|
      {
        ghost var st, next := stream.st, nextline;
        LoadStep(st, next, contents, delimiter, comment);
        var line;
        if |nextline| > 0 {
          line := nextline;
          nextline := [];
        } else {
          line := stream.Getline([]);
        }
        line := CutComment(line, comment);
        var delimPos := Find(line, delimiter);
        if delimPos.Some? {
          var key := line[..delimPos.value];
          line := line[delimPos.value + |delimiter|..];
          line, nextline := ReadValue(stream, line);
          contents := contents[Trim(key) := Trim(line)];
        }
      }
      LoadDone(stream.st, contents, delimiter, comment);
    }

    // The loop over the lines of a value
    method ReadValue(stream: IStream, start: string) returns (line: string, nextline: string)
      modifies stream
      ensures Continued(stream.st, line, nextline) == Continue(old(stream.st), start, [], delimiter, comment)
    {
      hide Find, Trim, CutComment;
      line, nextline := start, [];
      var terminate := false;
      while !terminate && !stream.st.fail
        invariant Continue(old(stream.st), start, [], delimiter, comment) ==
          if terminate then Continued(stream.st, line, nextline) else Continue(stream.st, line, nextline, delimiter, comment)
        decreases Weight(stream.st), if terminate then 0 else 1
      {
        nextline := stream.Getline(nextline);
        terminate := true;
        var nlcopy := Trim(nextline);
        if nlcopy == [] {
          continue;
        }
        nextline := CutComment(nextline, comment);
        if Find(nextline, delimiter).Some? {
          continue;
        }
        nlcopy := Trim(nextline);
        if nlcopy != [] {
          line := line + "\n";
        } else {
          assert line + [] == line;
        }
        line := line + nextline;
        terminate := false;
      }
    }

    // operator<<
    method Write(entries: seq<(string, string)>) returns (os: string)
      requires Enumerates(entries, contents)
      ensures os == PutEntries(entries, delimiter)
    {
      os := [];
      assert entries[0..] == entries;
      for i := 0 to |entries|
        invariant os + PutEntries(entries[i..], delimiter) == PutEntries(entries, delimiter)
      {
        hide PutEntries, PutEntry;
        EntriesStep(entries, i, delimiter);
        ghost var was := os;
        os := os + entries[i].0 + (" " + delimiter + " ");
        os := os + (entries[i].1 + "\n");
        EntryPieces(was, entries[i], delimiter);
        Associative(was, PutEntry(entries[i], delimiter), PutEntries(entries[i + 1..], delimiter));
      }
    }
  }

  lemma EntryPieces(before: string, e: (string, string), delim: string)
    ensures before + e.0 + (" " + delim + " ") + (e.1 + "\n") == before + PutEntry(e, delim)
  {
  }

  lemma EntriesStep(es: seq<(string, string)>, i: nat, delim: string)
    requires i < |es|
    ensures PutEntries(es[i..], delim) == PutEntry(es[i], delim) + PutEntries(es[i + 1..], delim)
  {
  }

  // One turn of the outer loop
  lemma LoadStep(st: Stream, nextline: string, contents: map<string, string>, delim: string, comment: string)
    requires !st.fail || nextline != []
    ensures var (st1, raw) := if nextline != [] then (st, nextline) else NextLine(st, []);
            var line := CutComment(raw, comment);
            Load(st, nextline, contents, delim, comment) ==
            match Find(line, delim)
            case None => Load(st1, [], contents, delim, comment)
            case Some(p) =>
              var c := Continue(st1, line[p + |delim|..], [], delim, comment);
              Load(c.st, c.nextline, contents[Trim(line[..p]) := Trim(c.line)], delim, comment)
  {
    hide Continue, Find, Trim, CutComment;
  }

  lemma LoadDone(st: Stream, contents: map<string, string>, delim: string, comment: string)
    requires st.fail
    ensures Load(st, [], contents, delim, comment) == contents
  {
  }

  // ---------- reading inverts writing, for the delimiter = and the comment mark # ----------

  predicate HasInk(s: string) {
    exists i :: 0 <= i < |s| && !IsBlank(s[i])
  }

  predicate Trimmed(s: string) {
    s != [] ==> !IsBlank(s[0]) && !IsBlank(s[|s| - 1])
  }

  // Every line holds something other than white space.
  predicate Solid(w: string)
    decreases |w|
  {
    var i := FirstNl(w);
    HasInk(w[..i]) && (i < |w| ==> Solid(w[i + 1..]))
  }

  predicate PlainKey(k: string) {
    Trimmed(k) && '\n' !in k && '=' !in k && '#' !in k
  }

  predicate PlainValue(v: string) {
    && Trimmed(v) && '=' !in v && '#' !in v
    && (FirstNl(v) < |v| ==> Solid(v[FirstNl(v) + 1..]))
  }

  ghost predicate PlainEntries(es: seq<(string, string)>) {
    forall i :: 0 <= i < |es| ==> PlainKey(es[i].0) && PlainValue(es[i].1)
  }

  function Good(text: string): Stream {
    Stream(text, false, false)
  }

  lemma {:induction false} FindChar(s: string, c: char)
    ensures Find(s, [c]) == None <==> c !in s
  {
    if s != [] {
      FindChar(s[1..], c);
      assert s == [s[0]] + s[1..];
    }
  }

  lemma {:induction false} FindCharAt(a: string, c: char, b: string)
    requires c !in a
    ensures Find(a + [c] + b, [c]) == Some(|a|)
  {
    var s := a + [c] + b;
    if a != [] {
      FindCharAt(a[1..], c, b);
      assert s[1..] == a[1..] + [c] + b && s[0] == a[0];
    }
  }

  lemma NotCut(s: string)
    requires '#' !in s
    ensures CutComment(s, "#") == s
  {
    FindChar(s, '#');
  }

  lemma {:induction false} TrimInk(s: string)
    ensures Trim(s) != [] <==> HasInk(s)
  {
    LeftInk(s);
    RightInk(TrimLeft(s));
    hide TrimLeft, TrimRight;
  }

  lemma {:induction false} LeftInk(s: string)
    ensures HasInk(TrimLeft(s)) == HasInk(s)
  {
    if s != [] && IsBlank(s[0]) {
      LeftInk(s[1..]);
      InkRest(s);
    }
  }

  lemma InkRest(s: string)
    requires s != [] && IsBlank(s[0])
    ensures HasInk(s[1..]) == HasInk(s)
  {
    if HasInk(s) {
      var i :| 0 <= i < |s| && !IsBlank(s[i]);
      assert s[1..][i - 1] == s[i];
    }
  }

  lemma {:induction false} RightInk(s: string)
    ensures TrimRight(s) != [] <==> HasInk(s)
  {
    if s != [] {
      if IsBlank(s[|s| - 1]) {
        RightInk(s[..|s| - 1]);
        if HasInk(s) {
          var i :| 0 <= i < |s| && !IsBlank(s[i]);
          assert s[..|s| - 1][i] == s[i];
        }
      } else {
        assert HasInk(s);
      }
    }
  }

  lemma TrimPadded(s: string)
    requires Trimmed(s)
    ensures Trim(" " + s) == s && Trim(s + " ") == s
  {
    assert (" " + s)[1..] == s && (s + " ")[..|s|] == s;
    assert TrimLeft(" " + s) == TrimLeft(s) == s;
    assert TrimRight(s + " ") == TrimRight(s) == s;
    if s != [] {
      assert TrimLeft(s + " ") == s + " ";
    } else {
      assert s + " " == " " == " " + s;
    }
  }

  lemma NextOfGood(line: string, rest: string)
    requires '\n' !in line
    ensures forall s :: NextLine(Good(line + ("\n" + rest)), s) == (Good(rest), line)
  {
    var t := line + ("\n" + rest);
    assert t[|line|] == '\n' && forall k :: 0 <= k < |line| ==> t[k] == line[k];
    assert FirstNl(t) == |line| && t[..|line|] == line && t[|line| + 1..] == rest;
  }

  // The line read ahead before does not matter while the stream is good.
  lemma ContinueGood(t: string, line: string, next: string)
    ensures Continue(Good(t), line, next, "=", "#") == Continue(Good(t), line, [], "=", "#")
  {
    hide Trim, CutComment, Find;
    assert NextLine(Good(t), next) == NextLine(Good(t), []);
  }

  // A line of a value is added to it.
  lemma ContinueLine(line: string, rest: string, acc: string)
    requires '\n' !in line && '=' !in line && '#' !in line && HasInk(line)
    ensures Continue(Good(line + ("\n" + rest)), acc, [], "=", "#")
            == Continue(Good(rest), acc + "\n" + line, [], "=", "#")
  {
    NextOfGood(line, rest);
    TrimInk(line);
    NotCut(line);
    FindChar(line, '=');
    ContinueGood(rest, acc + "\n" + line, line);
    hide Trim, CutComment, Find, NextLine, HasInk;
  }

  // The first line of the rest of a value
  lemma SplitLine(w: string)
    requires Solid(w) && '=' !in w && '#' !in w
    ensures var i := FirstNl(w);
            var line := w[..i];
            && '\n' !in line && '=' !in line && '#' !in line && HasInk(line)
            && (i == |w| ==> line == w)
            && (i < |w| ==> var more := w[i + 1..];
                            w == line + ("\n" + more) && Solid(more) && '=' !in more && '#' !in more)
  {
    hide HasInk;
  }

  lemma Regrouped(acc: string, line: string, more: string, rest: string)
    ensures var w := line + ("\n" + more);
            && acc + "\n" + line + "\n" + more == acc + "\n" + w
            && w + ("\n" + rest) == line + ("\n" + (more + ("\n" + rest)))
  {
  }

  lemma {:induction false} ContinueLines(w: string, rest: string, acc: string)
    requires Solid(w) && '=' !in w && '#' !in w
    ensures Continue(Good(w + ("\n" + rest)), acc, [], "=", "#")
            == Continue(Good(rest), acc + "\n" + w, [], "=", "#")
    decreases |w|
  {
    hide *;
    var i := FirstNl(w);
    var line := w[..i];
    SplitLine(w);
    if i == |w| {
      ContinueLine(w, rest, acc);
    } else {
      var more := w[i + 1..];
      Regrouped(acc, line, more, rest);
      ContinueLine(line, more + ("\n" + rest), acc);
      ContinueLines(more, rest, acc + "\n" + line);
    }
  }

  // The first line of a value, and what is behind it
  function FirstValueLine(v: string): string {
    v[..FirstNl(v)]
  }

  function BehindFirst(v: string, rest: string): string {
    if FirstNl(v) < |v| then v[FirstNl(v) + 1..] + ("\n" + rest) else rest
  }

  // The whole value of an entry, up to what is behind it
  lemma EntryValue(v: string, before: string, rest: string)
    requires PlainValue(v)
    ensures Continue(Good(BehindFirst(v, rest)), before + FirstValueLine(v), [], "=", "#")
            == Continue(Good(rest), before + v, [], "=", "#")
  {
    hide Continue, Solid, Trimmed;
    var i, v0 := FirstNl(v), FirstValueLine(v);
    if i < |v| {
      var w := v[i + 1..];
      assert v == v0 + "\n" + w;
      ContinueLines(w, rest, before + v0);
      assert before + v0 + "\n" + w == before + v;
    } else {
      assert v0 == v;
    }
  }

  // White space inside a line
  predicate AllBlank(s: string) {
    forall i :: 0 <= i < |s| ==> s[i] == ' ' || s[i] == '\t' || s[i] == '\r' || s[i] == 0xb as char || s[i] == 0xc as char
  }

  // An entry as it may be written: any white space around the delimiter, and behind it lines that
  // belong to no entry, the first of them blank
  datatype Written = Written(key: string, left: string, right: string, value: string, gap: seq<string>)

  predicate LooseLine(line: string) {
    '\n' !in line && '=' !in line && '#' !in line
  }

  ghost predicate ValidGap(gap: seq<string>) {
    && (forall i :: 0 <= i < |gap| ==> LooseLine(gap[i]))
    && (gap != [] ==> AllBlank(gap[0]))
  }

  ghost predicate ValidWritten(w: Written) {
    PlainKey(w.key) && AllBlank(w.left) && AllBlank(w.right) && PlainValue(w.value) && ValidGap(w.gap)
  }

  ghost predicate AllWritten(ws: seq<Written>) {
    forall i :: 0 <= i < |ws| ==> ValidWritten(ws[i])
  }

  function PutLines(lines: seq<string>, tail: string): string {
    if lines == [] then tail else lines[0] + ("\n" + PutLines(lines[1..], tail))
  }

  function PutWritten(w: Written, tail: string): string {
    w.key + w.left + "=" + (w.right + w.value) + ("\n" + PutLines(w.gap, tail))
  }

  function PutAll(ws: seq<Written>, tail: string): string {
    if ws == [] then tail else PutWritten(ws[0], PutAll(ws[1..], tail))
  }

  function FirstLineOf(w: Written): string {
    w.key + w.left + "=" + (w.right + FirstValueLine(w.value))
  }

  lemma BlankFree(s: string)
    requires AllBlank(s)
    ensures '\n' !in s && '=' !in s && '#' !in s && !HasInk(s)
  {
  }

  lemma FirstLineFree(w: Written)
    requires ValidWritten(w)
    ensures '#' !in FirstLineOf(w) && '\n' !in FirstLineOf(w)
    ensures '=' !in w.key + w.left
  {
    BlankFree(w.left);
    BlankFree(w.right);
    hide Trimmed, Solid, AllBlank, ValidGap;
  }

  lemma WrittenText(w: Written, tail: string)
    ensures PutWritten(w, tail) == FirstLineOf(w) + ("\n" + BehindFirst(w.value, PutLines(w.gap, tail)))
  {
    var i, v := FirstNl(w.value), w.value;
    var start, more := w.key + w.left + "=", PutLines(w.gap, tail);
    hide FirstNl, PutLines;
    var v0 := v[..i];
    if i < |v| {
      assert v == v0 + ("\n" + v[i + 1..]);
      assert start + (w.right + (v0 + ("\n" + v[i + 1..]))) + ("\n" + more)
        == start + (w.right + v0) + ("\n" + (v[i + 1..] + ("\n" + more)));
    } else {
      assert v0 == v;
    }
  }

  lemma WrittenLine(w: Written, tail: string)
    requires ValidWritten(w)
    ensures var line := FirstLineOf(w);
            && (forall s :: NextLine(Good(PutWritten(w, tail)), s) == (Good(BehindFirst(w.value, PutLines(w.gap, tail))), line))
            && PutWritten(w, tail) != []
            && CutComment(line, "#") == line && Find(line, "=") == Some(|w.key + w.left|)
            && line[..|w.key + w.left|] == w.key + w.left
            && line[|w.key + w.left| + 1..] == w.right + FirstValueLine(w.value)
  {
    var line := FirstLineOf(w);
    FirstLineFree(w);
    WrittenText(w, tail);
    hide ValidWritten, FirstValueLine, BehindFirst, PutWritten, NextLine;
    NextOfGood(line, BehindFirst(w.value, PutLines(w.gap, tail)));
    NotCut(line);
    FindCharAt(w.key + w.left, '=', w.right + FirstValueLine(w.value));
  }

  lemma {:induction false} TrimLeftBlank(a: string, s: string)
    requires AllBlank(a) && (s != [] ==> !IsBlank(s[0]))
    ensures TrimLeft(a + s) == s
    decreases |a|
  {
    if a == [] {
      assert a + s == s;
    } else {
      TrimLeftBlank(a[1..], s);
      assert (a + s)[0] == a[0] && (a + s)[1..] == a[1..] + s;
    }
  }

  lemma {:induction false} TrimRightBlank(s: string, b: string)
    requires AllBlank(b) && (s != [] ==> !IsBlank(s[|s| - 1]))
    ensures TrimRight(s + b) == s
    decreases |b|
  {
    if b == [] {
      assert s + b == s;
    } else {
      var n := |b| - 1;
      TrimRightBlank(s, b[..n]);
      assert (s + b)[|s| + n] == b[n] && (s + b)[..|s| + n] == s + b[..n];
    }
  }

  // White space on either side is trimmed.
  lemma TrimBlank(a: string, s: string, b: string)
    requires AllBlank(a) && AllBlank(b) && Trimmed(s)
    ensures Trim(a + s) == s && Trim(s + b) == s
  {
    TrimLeftBlank(a, s);
    TrimRightBlank(s, []);
    assert s + [] == s;
    TrimRightBlank(s, b);
    if s != [] {
      assert (s + b)[0] == s[0];
      TrimLeftBlank([], s + b);
      assert [] + (s + b) == s + b;
    } else {
      TrimLeftBlank(b, []);
      assert s + b == b + [];
    }
  }

  // The text is at its end, or its first line is blank or the first of an entry.
  predicate Ahead(t: string) {
    t != [] ==> var line := NextLine(Good(t), []).1; '#' !in line && ('=' in line || AllBlank(line))
  }

  lemma WrittenAhead(w: Written, tail: string)
    requires ValidWritten(w)
    ensures Ahead(PutWritten(w, tail))
  {
    WrittenLine(w, tail);
    FirstLineFree(w);
    hide ValidWritten, PutWritten, BehindFirst, NextLine, CutComment, FirstValueLine, Find;
    assert FirstLineOf(w)[|w.key + w.left|] == '=';
  }

  lemma AllAhead(ws: seq<Written>, tail: string)
    requires AllWritten(ws) && Ahead(tail)
    ensures Ahead(PutAll(ws, tail))
  {
    hide ValidWritten, Ahead, PutWritten;
    if ws != [] {
      WrittenAhead(ws[0], PutAll(ws[1..], tail));
    }
  }

  lemma GapAhead(gap: seq<string>, tail: string)
    requires ValidGap(gap) && Ahead(tail)
    ensures Ahead(PutLines(gap, tail))
  {
    if gap != [] {
      assert LooseLine(gap[0]);
      NextOfGood(gap[0], PutLines(gap[1..], tail));
      hide NextLine, AllBlank;
    }
  }

  // A value ends where a blank line, the next entry or the end of the stream is read, and the
  // reader goes on from there as if it had not looked.
  lemma ValueEnds(t: string, line: string, contents: map<string, string>)
    requires Ahead(t)
    ensures var c := Continue(Good(t), line, [], "=", "#");
            c.line == line && Load(c.st, c.nextline, contents, "=", "#") == Load(Good(t), [], contents, "=", "#")
  {
    if t == [] {
      LoadStep(Good(t), [], contents, "=", "#");
      LoadEmpty(contents);
      hide Load;
      assert NextLine(Good(t), []) == (Stream([], true, true), []);
    } else {
      var (st1, raw) := NextLine(Good(t), []);
      NotCut(raw);
      FindChar(raw, '=');
      TrimInk(raw);
      if '=' in raw {
        ValueEndsAtEntry(t, line, contents);
      } else {
        BlankFree(raw);
        ValueEndsAtBlank(t, line, contents);
      }
    }
  }

  lemma ValueEndsAtEntry(t: string, line: string, contents: map<string, string>)
    requires t != [] && var raw := NextLine(Good(t), []).1; '#' !in raw && '=' in raw
    ensures var c := Continue(Good(t), line, [], "=", "#");
            c.line == line && Load(c.st, c.nextline, contents, "=", "#") == Load(Good(t), [], contents, "=", "#")
  {
    hide Load, Find, CutComment, Trim, NextLine;
    var (st1, raw) := NextLine(Good(t), []);
    NotCut(raw);
    FindChar(raw, '=');
    TrimInk(raw);
    LoadStep(Good(t), [], contents, "=", "#");
    assert Continue(Good(t), line, [], "=", "#") == Continued(st1, line, raw);
    LoadStep(st1, raw, contents, "=", "#");
  }

  lemma ValueEndsAtBlank(t: string, line: string, contents: map<string, string>)
    requires t != [] && var raw := NextLine(Good(t), []).1; '#' !in raw && '=' !in raw && !HasInk(raw)
    ensures var c := Continue(Good(t), line, [], "=", "#");
            c.line == line && Load(c.st, c.nextline, contents, "=", "#") == Load(Good(t), [], contents, "=", "#")
  {
    hide Load, Find, CutComment, Trim, NextLine;
    var (st1, raw) := NextLine(Good(t), []);
    NotCut(raw);
    FindChar(raw, '=');
    TrimInk(raw);
    LoadStep(Good(t), [], contents, "=", "#");
    assert Continue(Good(t), line, [], "=", "#") == Continued(st1, line, raw);
    if raw != [] {
      LoadStep(st1, raw, contents, "=", "#");
    }
  }

  lemma LoadEmpty(contents: map<string, string>)
    ensures Load(Good([]), [], contents, "=", "#") == contents == Load(Stream([], true, true), [], contents, "=", "#")
  {
    assert CutComment([], "#") == [] && Find([], "=") == None;
  }

  // Lines that belong to no entry change nothing.
  lemma {:induction false} GapSkipped(gap: seq<string>, tail: string, contents: map<string, string>)
    requires forall i :: 0 <= i < |gap| ==> LooseLine(gap[i])
    ensures Load(Good(PutLines(gap, tail)), [], contents, "=", "#") == Load(Good(tail), [], contents, "=", "#")
    decreases |gap|
  {
    if gap != [] {
      var rest := PutLines(gap[1..], tail);
      assert LooseLine(gap[0]);
      NextOfGood(gap[0], rest);
      NotCut(gap[0]);
      FindChar(gap[0], '=');
      hide Load, Find, CutComment, NextLine;
      LoadStep(Good(PutLines(gap, tail)), [], contents, "=", "#");
      GapSkipped(gap[1..], tail, contents);
    }
  }

  lemma LoadWritten(w: Written, tail: string, contents: map<string, string>)
    requires ValidWritten(w) && Ahead(tail)
    ensures Load(Good(PutWritten(w, tail)), [], contents, "=", "#")
            == Load(Good(tail), [], contents[w.key := w.value], "=", "#")
  {
    WrittenParts(w);
    hide Load, Continue, Find, CutComment, Trim, ValidWritten, PlainKey, PlainValue, FirstValueLine, BehindFirst, NextLine,
      PutWritten, Ahead, AllBlank, ValidGap, FirstLineOf;
    var rest := PutLines(w.gap, tail);
    WrittenLine(w, tail);
    EntryValue(w.value, w.right, rest);
    TrimBlank([], w.key, w.left);
    TrimBlank(w.right, w.value, []);
    GapAhead(w.gap, tail);
    ValueEnds(rest, w.right + w.value, contents[w.key := w.value]);
    GapSkipped(w.gap, tail, contents[w.key := w.value]);
    LoadStep(Good(PutWritten(w, tail)), [], contents, "=", "#");
  }

  lemma WrittenParts(w: Written)
    requires ValidWritten(w)
    ensures Trimmed(w.key) && Trimmed(w.value) && AllBlank(w.left) && AllBlank(w.right) && AllBlank([])
    ensures PlainValue(w.value) && ValidGap(w.gap) && forall i :: 0 <= i < |w.gap| ==> LooseLine(w.gap[i])
  {
  }

  function Meant(ws: seq<Written>, contents: map<string, string>): map<string, string> {
    if ws == [] then contents else Meant(ws[1..], contents[ws[0].key := ws[0].value])
  }

  // Entries are read one after the other, with any white space around their delimiters, and with
  // blank lines and lines of no entry between them.
  lemma {:induction false} LoadAll(ws: seq<Written>, tail: string, contents: map<string, string>)
    requires AllWritten(ws) && Ahead(tail)
    ensures Load(Good(PutAll(ws, tail)), [], contents, "=", "#") == Load(Good(tail), [], Meant(ws, contents), "=", "#")
    decreases |ws|
  {
    hide Load, ValidWritten, PutWritten, Ahead;
    if ws != [] {
      AllAhead(ws[1..], tail);
      LoadWritten(ws[0], PutAll(ws[1..], tail), contents);
      LoadAll(ws[1..], tail, contents[ws[0].key := ws[0].value]);
    }
  }

  function Inserted(es: seq<(string, string)>, contents: map<string, string>): map<string, string> {
    if es == [] then contents else Inserted(es[1..], contents[es[0].0 := es[0].1])
  }

  function AsWritten(es: seq<(string, string)>): seq<Written> {
    if es == [] then [] else [Written(es[0].0, " ", " ", es[0].1, [])] + AsWritten(es[1..])
  }

  lemma {:induction false} AsWrittenIs(es: seq<(string, string)>, t: string, contents: map<string, string>)
    requires PlainEntries(es)
    ensures PutAll(AsWritten(es), t) == PutEntries(es, "=") + t && Meant(AsWritten(es), contents) == Inserted(es, contents)
    ensures AllWritten(AsWritten(es))
    decreases |es|
  {
    hide PlainKey, PlainValue;
    if es == [] {
      assert PutEntries(es, "=") + t == t;
    } else {
      var e := es[0];
      AsWrittenIs(es[1..], t, contents[e.0 := e.1]);
      var more := PutEntries(es[1..], "=") + t;
      hide PutEntries;
      assert PutWritten(Written(e.0, " ", " ", e.1, []), more) == PutEntry(e, "=") + more;
      Associative(PutEntry(e, "="), PutEntries(es[1..], "="), t);
      EntriesStep(es, 0, "=");
      assert es[0..] == es;
    }
  }

  // What the writer writes
  lemma LoadEntries(es: seq<(string, string)>, t: string, contents: map<string, string>)
    requires PlainEntries(es) && Ahead(t)
    ensures Load(Good(PutEntries(es, "=") + t), [], contents, "=", "#") == Load(Good(t), [], Inserted(es, contents), "=", "#")
  {
    hide Load, PlainEntries, PutEntries, Ahead, AllWritten;
    AsWrittenIs(es, t, contents);
    LoadAll(AsWritten(es), t, contents);
  }

  lemma {:induction false} InsertedIs(es: seq<(string, string)>, contents: map<string, string>, m: map<string, string>)
    requires forall i :: 0 <= i < |es| ==> es[i].0 in m && m[es[i].0] == es[i].1
    requires forall k :: k in m ==> (k in contents && contents[k] == m[k]) || exists i :: 0 <= i < |es| && es[i].0 == k
    requires contents.Keys <= m.Keys
    ensures Inserted(es, contents) == m
    decreases |es|
  {
    if es == [] {
      assert contents == m;
    } else {
      var c := contents[es[0].0 := es[0].1];
      forall k | k in m ensures (k in c && c[k] == m[k]) || exists i :: 0 <= i < |es[1..]| && es[1..][i].0 == k {
        if !(k in contents && contents[k] == m[k]) {
          var i :| 0 <= i < |es| && es[i].0 == k;
          if i > 0 {
            assert es[1..][i - 1].0 == k;
          }
        }
      }
      InsertedIs(es[1..], c, m);
    }
  }

  // A configuration that is written and read back into an empty one is the same, whatever the
  // order in which its entries are written.
  method WriteAndRead(config: Config, entries: seq<(string, string)>) returns (back: Config)
    requires config.delimiter == "=" && config.comment == "#" && Enumerates(entries, config.contents)
    requires PlainEntries(entries)
    ensures back.contents == config.contents
  {
    hide Load, PlainEntries, PutEntries, Inserted;
    var text := config.Write(entries);
    back := new Config();
    var stream := new IStream(text);
    LoadEntries(entries, [], map[]);
    LoadEmpty(Inserted(entries, map[]));
    assert text + [] == text;
    InsertedIs(entries, map[], config.contents);
    back.Read(stream);
  }

  // ---------- comments ----------

  // A line, and the comment behind it
  datatype Line = Line(code: string, comment: Option<string>) {
    predicate Valid() {
      && '\n' !in code && '#' !in code
      && (comment.Some? ==> '\n' !in comment.value && (code == [] || HasInk(code)))
    }

    // What stands in the file
    function Raw(): string {
      code + if comment.Some? then "#" + comment.value else []
    }

    predicate OnlyComment() {
      comment.Some? && code == []
    }
  }

  ghost predicate AllValid(lines: seq<Line>) {
    forall i :: 0 <= i < |lines| ==> lines[i].Valid()
  }

  function Commented(lines: seq<Line>): string {
    if lines == [] then [] else lines[0].Raw() + ("\n" + Commented(lines[1..]))
  }

  // The same text without its comments, and without the lines that hold nothing else
  function Stripped(lines: seq<Line>): string {
    if lines == [] then []
    else if lines[0].OnlyComment() then Stripped(lines[1..])
    else lines[0].code + ("\n" + Stripped(lines[1..]))
  }

  lemma RawLine(l: Line)
    requires l.Valid()
    ensures '\n' !in l.Raw() && CutComment(l.Raw(), "#") == l.code && CutComment(l.code, "#") == l.code
    ensures !l.OnlyComment() ==> (Trim(l.Raw()) == [] <==> Trim(l.code) == [])
    ensures !l.OnlyComment() && Trim(l.code) == [] ==> l.Raw() == l.code
    ensures l.OnlyComment() ==> Trim(l.Raw()) != []
  {
    NotCut(l.code);
    TrimInk(l.code);
    TrimInk(l.Raw());
    if l.comment.Some? {
      var c := l.comment.value;
      FindCharAt(l.code, '#', c);
      assert l.code + ['#'] + c == l.Raw() == l.code + ("#" + c);
      assert l.Raw()[..|l.code|] == l.code && l.Raw()[|l.code|] == '#';
    } else {
      assert l.Raw() == l.code;
    }
  }

  // One line of a value
  lemma ContinueStep(raw: string, rest: string, line: string)
    requires '\n' !in raw
    ensures var n := CutComment(raw, "#");
            Continue(Good(raw + ("\n" + rest)), line, [], "=", "#") ==
            if Trim(raw) == [] then Continued(Good(rest), line, raw)
            else if Find(n, "=").Some? then Continued(Good(rest), line, n)
            else Continue(Good(rest), line + (if Trim(n) != [] then "\n" else []) + n, [], "=", "#")
  {
    NextOfGood(raw, rest);
    var n := CutComment(raw, "#");
    hide Trim, CutComment, Find, NextLine;
    if Trim(raw) != [] && Find(n, "=") == None {
      ContinueGood(rest, line + (if Trim(n) != [] then "\n" else []) + n, n);
    }
  }

  // Where a value ends: at the end of the stream, or in front of the lines `rest`
  ghost predicate EndsAt(c: Continued, text: string, ended: bool, line: string, nextline: string) {
    c == Continued(if ended then Stream([], true, true) else Good(text), line, nextline)
  }

  // A value is read alike with and without the comments.
  lemma {:induction false} SameValue(lines: seq<Line>, line: string)
    returns (rest: seq<Line>, ended: bool, value: string, nextline: string)
    requires AllValid(lines)
    ensures ended || (|rest| < |lines| && AllValid(rest))
    ensures EndsAt(Continue(Good(Commented(lines)), line, [], "=", "#"), Commented(rest), ended, value, nextline)
    ensures EndsAt(Continue(Good(Stripped(lines)), line, [], "=", "#"), Stripped(rest), ended, value, nextline)
    decreases |lines|
  {
    if lines == [] {
      rest, ended, value, nextline := [], true, line, [];
      ContinueEmpty(line);
      hide Continue;
    } else {
      hide Continue, Trim, Find, CutComment, HasInk;
      var l, more := lines[0], lines[1..];
      assert l.Valid();
      RawLine(l);
      ContinueStep(l.Raw(), Commented(more), line);
      if l.OnlyComment() {
        NothingAdded(line);
        rest, ended, value, nextline := SameValue(more, line);
      } else {
        ContinueStep(l.code, Stripped(more), line);
        if Trim(l.code) == [] || Find(l.code, "=").Some? {
          rest, ended, value, nextline := more, false, line, l.code;
        } else {
          rest, ended, value, nextline := SameValue(more, line + "\n" + l.code);
        }
      }
    }
  }

  lemma ContinueEmpty(line: string)
    ensures Continue(Good([]), line, [], "=", "#") == Continued(Stream([], true, true), line, [])
  {
    assert NextLine(Good([]), []) == (Stream([], true, true), []);
    hide Find, CutComment;
  }

  lemma NothingAdded(line: string)
    ensures Trim([]) == [] && Find([], "=") == None && line + [] + [] == line
  {
  }

  lemma FirstRaw(raw: string, rest: string)
    requires '\n' !in raw
    ensures NextLine(Good(raw + ("\n" + rest)), []) == (Good(rest), raw)
  {
    NextOfGood(raw, rest);
    hide NextLine;
  }

  // Comments change nothing: a text is loaded as it is without them.
  lemma {:induction false} CommentsIgnored(lines: seq<Line>, next: string, contents: map<string, string>)
    requires AllValid(lines)
    ensures Load(Good(Commented(lines)), next, contents, "=", "#") == Load(Good(Stripped(lines)), next, contents, "=", "#")
    decreases |lines|, |next|
  {
    hide Load, Continue, Trim, Find, CutComment, HasInk;
    if next != [] {
      SameLoad(lines, next, Good(Commented(lines)), Good(Stripped(lines)), next, lines, contents);
    } else if lines != [] {
      var l, more := lines[0], lines[1..];
      assert l.Valid();
      RawLine(l);
      FirstRaw(l.Raw(), Commented(more));
      if l.OnlyComment() {
        NothingAdded([]);
        LoadStep(Good(Commented(lines)), [], contents, "=", "#");
        CommentsIgnored(more, [], contents);
      } else {
        FirstRaw(l.code, Stripped(more));
        SameLoad(more, l.code, Good(Commented(lines)), Good(Stripped(lines)), [], lines, contents);
      }
    }
  }

  // One turn of the outer loop, once its line is read
  lemma {:induction false} SameLoad(lines: seq<Line>, line: string, st: Stream, st': Stream, next: string, whole: seq<Line>,
          contents: map<string, string>)
    requires AllValid(lines) && (|lines| < |whole| || (lines == whole && next != []))
    requires !st.fail && !st'.fail
    requires var (a, raw) := if next != [] then (st, next) else NextLine(st, []);
             a == Good(Commented(lines)) && CutComment(raw, "#") == CutComment(line, "#")
    requires var (a, raw) := if next != [] then (st', next) else NextLine(st', []);
             a == Good(Stripped(lines)) && CutComment(raw, "#") == CutComment(line, "#")
    ensures Load(st, next, contents, "=", "#") == Load(st', next, contents, "=", "#")
    decreases |whole|, |next|, 0
  {
    hide Load, Continue, Trim, Find, CutComment, NextLine;
    LoadStep(st, next, contents, "=", "#");
    LoadStep(st', next, contents, "=", "#");
    var n := CutComment(line, "#");
    var p := Find(n, "=");
    if p == None {
      CommentsIgnored(lines, [], contents);
    } else {
      var rest, ended, value, nextline := SameValue(lines, n[p.value + 1..]);
      if !ended {
        CommentsIgnored(rest, nextline, contents[Trim(n[..p.value]) := Trim(value)]);
      }
    }
  }

  // From a fresh configuration, entries in any spelling and with any comments are read as these
  // entries.
  method ReadCommented(lines: seq<Line>, ws: seq<Written>) returns (config: Config)
    requires AllValid(lines) && AllWritten(ws) && Stripped(lines) == PutAll(ws, [])
    ensures config.contents == Meant(ws, map[])
  {
    hide Load, AllValid, AllWritten;
    config := new Config();
    var stream := new IStream(Commented(lines));
    CommentsIgnored(lines, [], map[]);
    LoadAll(ws, [], map[]);
    LoadEmpty(Meant(ws, map[]));
    config.Read(stream);
  }

  // ---------- without the newline at the end ----------

  // An entry that ends with the stream
  function PutUnended(e: (string, string)): string {
    e.0 + " " + "=" + " " + e.1
  }

  function LastLine(v: string): string
    decreases |v|
  {
    if FirstNl(v) == |v| then v else LastLine(v[FirstNl(v) + 1..])
  }

  // What the value of such an entry is read as: the failed getline leaves the line that was read
  // ahead in place, and the last line of a value of several lines is added once more.
  function ReadUnended(v: string): string {
    if FirstNl(v) == |v| then v else v + "\n" + LastLine(v)
  }

  // The line read ahead at the end of the stream is added twice.
  lemma LastOfLines(last: string, acc: string)
    requires '\n' !in last && '=' !in last && '#' !in last && HasInk(last)
    ensures Continue(Good(last), acc, [], "=", "#")
            == Continued(Stream([], true, true), acc + "\n" + last + "\n" + last, last)
  {
    var st := Stream([], true, false);
    assert FirstNl(last) == |last|;
    assert NextLine(Good(last), []) == (st, last) && NextLine(st, last) == (Stream([], true, true), last);
    TrimInk(last);
    NotCut(last);
    FindChar(last, '=');
    hide Find, CutComment, Trim, NextLine, HasInk;
    assert Continue(Good(last), acc, [], "=", "#") == Continue(st, acc + "\n" + last, last, "=", "#");
    assert Continue(st, acc + "\n" + last, last, "=", "#")
      == Continue(Stream([], true, true), acc + "\n" + last + "\n" + last, last, "=", "#");
  }

  lemma {:induction false} UnendedLines(w: string, acc: string)
    requires Solid(w) && '=' !in w && '#' !in w
    ensures '=' !in LastLine(w) && '#' !in LastLine(w)
    ensures Continue(Good(w), acc, [], "=", "#")
            == Continued(Stream([], true, true), acc + "\n" + w + "\n" + LastLine(w), LastLine(w))
    decreases |w|
  {
    hide *;
    var i := FirstNl(w);
    var line := w[..i];
    SplitLine(w);
    if i == |w| {
      OneLine(w);
      LastOfLines(w, acc);
    } else {
      var more := w[i + 1..];
      LastLineStep(w);
      Regrouped(acc, line, more, []);
      ContinueLine(line, more, acc);
      UnendedLines(more, acc + "\n" + line);
    }
  }

  lemma UnendedLine(e: (string, string))
    requires PlainKey(e.0) && PlainValue(e.1)
    ensures var i, line := FirstNl(e.1), e.0 + " " + "=" + (" " + FirstValueLine(e.1));
            && NextLine(Good(PutUnended(e)), [])
               == (if i < |e.1| then Good(e.1[i + 1..]) else Stream([], true, false), line)
            && CutComment(line, "#") == line && Find(line, "=") == Some(|e.0| + 1)
            && Ahead(PutUnended(e)) && line[..|e.0| + 1] == e.0 + " " && line[|e.0| + 2..] == " " + FirstValueLine(e.1)
  {
    var line := e.0 + " " + "=" + (" " + FirstValueLine(e.1));
    UnendedNext(e);
    FirstLineFree(Written(e.0, " ", " ", e.1, []));
    hide Trimmed, Solid, FirstNl, NextLine, FirstValueLine, PutUnended;
    NotCut(line);
    FindCharAt(e.0 + " ", '=', " " + FirstValueLine(e.1));
    assert line[|e.0| + 1] == '=';
  }

  lemma UnendedNext(e: (string, string))
    requires PlainKey(e.0)
    ensures var i, line := FirstNl(e.1), e.0 + " " + "=" + (" " + FirstValueLine(e.1));
            && PutUnended(e) != []
            && NextLine(Good(PutUnended(e)), [])
               == (if i < |e.1| then Good(e.1[i + 1..]) else Stream([], true, false), line)
  {
    hide NextLine, PlainKey, PutUnended, FirstValueLine, FirstNl;
    var i, v0 := FirstNl(e.1), FirstValueLine(e.1);
    var line := e.0 + " " + "=" + (" " + v0);
    UnendedText(e);
    if i < |e.1| {
      NextOfGood(line, e.1[i + 1..]);
    } else {
      NextOfLast(line);
    }
  }

  lemma UnendedText(e: (string, string))
    requires PlainKey(e.0)
    ensures var i, line := FirstNl(e.1), e.0 + " " + "=" + (" " + FirstValueLine(e.1));
            && '\n' !in line && line != []
            && PutUnended(e) == if i < |e.1| then line + ("\n" + e.1[i + 1..]) else line
  {
    hide Trimmed, FirstNl;
    var i, v0, start := FirstNl(e.1), FirstValueLine(e.1), e.0 + " " + "=" + " ";
    assert '\n' !in start && '\n' !in v0;
    if i < |e.1| {
      Regroup(start, e.0 + " " + "=", v0, "\n" + e.1[i + 1..]);
      CutAtNl(e.1, i);
    } else {
      Regroup(start, e.0 + " " + "=", v0, []);
      WholeCut(e.1);
    }
  }

  lemma CutAtNl(v: string, i: nat)
    requires i < |v| && v[i] == '\n'
    ensures v == v[..i] + ("\n" + v[i + 1..])
  {
  }

  lemma WholeCut(v: string)
    ensures v[..|v|] == v
  {
  }

  lemma Regroup(start: string, a: string, b: string, c: string)
    requires start == a + " "
    ensures start + (b + c) == (a + (" " + b)) + c
    ensures start + b == a + (" " + b)
  {
  }

  lemma NextOfLast(line: string)
    requires '\n' !in line && line != []
    ensures NextLine(Good(line), []) == (Stream([], true, false), line)
  {
    assert FirstNl(line) == |line|;
  }

  lemma IsTrimmed(e: (string, string))
    requires PlainKey(e.0) && PlainValue(e.1)
    ensures Trimmed(e.0) && Trimmed(e.1)
  {
  }

  lemma LoadUnended(e: (string, string), contents: map<string, string>)
    requires PlainKey(e.0) && PlainValue(e.1)
    ensures Load(Good(PutUnended(e)), [], contents, "=", "#") == contents[e.0 := ReadUnended(e.1)]
  {
    UnendedLine(e);
    IsTrimmed(e);
    TrimPadded(e.0);
    LoadStep(Good(PutUnended(e)), [], contents, "=", "#");
    if FirstNl(e.1) == |e.1| {
      UnendedSingle(e, contents);
    } else {
      UnendedSeveral(e, contents);
    }
    hide Load, Continue, Find, CutComment, Trim, PlainKey, PlainValue, PutUnended, NextLine, Ahead;
  }

  lemma UnendedSingle(e: (string, string), contents: map<string, string>)
    requires PlainValue(e.1) && FirstNl(e.1) == |e.1|
    ensures var c := Continue(Stream([], true, false), " " + FirstValueLine(e.1), [], "=", "#");
            Load(c.st, c.nextline, contents[e.0 := Trim(c.line)], "=", "#") == contents[e.0 := ReadUnended(e.1)]
  {
    var st := Stream([], true, true);
    assert FirstValueLine(e.1) == e.1;
    assert Trim([]) == [];
    assert Continue(Stream([], true, false), " " + e.1, [], "=", "#") == Continued(st, " " + e.1, []);
    TrimPadded(e.1);
    LoadDone(st, contents[e.0 := e.1], "=", "#");
    hide Load, Continue, Trim, PlainValue;
  }

  lemma UnendedSeveral(e: (string, string), contents: map<string, string>)
    requires PlainValue(e.1) && FirstNl(e.1) < |e.1|
    ensures var c := Continue(Good(e.1[FirstNl(e.1) + 1..]), " " + FirstValueLine(e.1), [], "=", "#");
            Load(c.st, c.nextline, contents[e.0 := Trim(c.line)], "=", "#") == contents[e.0 := ReadUnended(e.1)]
  {
    hide Load, Continue, Trim, LastLine, Solid, Trimmed, FirstNl;
    var v0, w := FirstValueLine(e.1), e.1[FirstNl(e.1) + 1..];
    assert e.1 == v0 + "\n" + w;
    UnendedLines(w, " " + v0);
    UnendedTrimmed(e.1);
    LastLineStep(e.1);
    assert " " + v0 + "\n" + w + "\n" + LastLine(w) == " " + ReadUnended(e.1);
    LeftOver(LastLine(w), contents[e.0 := ReadUnended(e.1)]);
  }

  lemma LastLineStep(v: string)
    requires FirstNl(v) < |v|
    ensures LastLine(v) == LastLine(v[FirstNl(v) + 1..])
  {
    hide FirstNl;
    var w := v[FirstNl(v) + 1..];
    assert LastLine(v) == LastLine(w);
  }

  lemma OneLine(v: string)
    requires FirstNl(v) == |v|
    ensures LastLine(v) == v
  {
    hide FirstNl;
  }

  lemma {:induction false} LastLineEnds(v: string)
    requires v != []
    ensures v[|v| - 1] == if LastLine(v) == [] then '\n' else LastLine(v)[|LastLine(v)| - 1]
    decreases |v|
  {
    hide LastLine;
    var i := FirstNl(v);
    if i < |v| {
      var w := v[i + 1..];
      LastLineStep(v);
      if w == [] {
        OneLine(w);
      } else {
        LastLineEnds(w);
        assert v[|v| - 1] == w[|w| - 1];
      }
    } else {
      OneLine(v);
    }
  }

  lemma UnendedTrimmed(v: string)
    requires PlainValue(v) && FirstNl(v) < |v|
    ensures Trim(" " + ReadUnended(v)) == ReadUnended(v)
  {
    hide PlainValue, FirstNl, LastLine, Trim;
    LastInk(v);
    EndsTrimmed(v, LastLine(v));
    TrimPadded(v + "\n" + LastLine(v));
  }

  lemma LastInk(v: string)
    requires PlainValue(v) && FirstNl(v) < |v|
    ensures Trimmed(v) && LastLine(v) != [] && LastLine(v)[|LastLine(v)| - 1] == v[|v| - 1]
  {
    hide LastLine, Solid, FirstNl;
    assert v != [] && Trimmed(v);
    hide PlainValue;
    LastLineEnds(v);
  }

  lemma EndsTrimmed(v: string, last: string)
    requires Trimmed(v) && v != [] && last != [] && last[|last| - 1] == v[|v| - 1]
    ensures Trimmed(v + "\n" + last)
  {
    var r := v + "\n" + last;
    assert r[0] == v[0] && r[|r| - 1] == last[|last| - 1];
  }

  lemma LeftOver(last: string, contents: map<string, string>)
    requires '=' !in last && '#' !in last
    ensures Load(Stream([], true, true), last, contents, "=", "#") == contents
  {
    LoadEmpty(contents);
    if last != [] {
      NotCut(last);
      FindChar(last, '=');
      LoadStep(Stream([], true, true), last, contents, "=", "#");
    }
  }

  // What a configuration whose last line is not ended is read as
  lemma LastLineTwice(es: seq<(string, string)>, e: (string, string))
    requires PlainEntries(es + [e])
    ensures Load(Good(PutEntries(es, "=") + PutUnended(e)), [], map[], "=", "#")
            == Inserted(es, map[])[e.0 := ReadUnended(e.1)]
  {
    PlainParts(es, e);
    UnendedLine(e);
    hide Load, PlainEntries, PlainKey, PlainValue, PutEntries, PutUnended, Ahead;
    LoadEntries(es, PutUnended(e), map[]);
    LoadUnended(e, Inserted(es, map[]));
  }

  lemma PlainParts(es: seq<(string, string)>, e: (string, string))
    requires PlainEntries(es + [e])
    ensures PlainEntries(es) && PlainKey(e.0) && PlainValue(e.1)
  {
    hide PlainKey, PlainValue;
    assert (es + [e])[|es|] == e;
    assert forall i :: 0 <= i < |es| ==> (es + [e])[i] == es[i];
  }

  lemma {:induction false} InsertedLast(es: seq<(string, string)>, e: (string, string), contents: map<string, string>)
    ensures Inserted(es + [e], contents) == Inserted(es, contents)[e.0 := e.1]
    decreases |es|
  {
    if es == [] {
      assert es + [e] == [e] && [e][1..] == [];
    } else {
      assert (es + [e])[0] == es[0] && (es + [e])[1..] == es[1..] + [e];
      InsertedLast(es[1..], e, contents[es[0].0 := es[0].1]);
    }
  }

  // It is read as written if and only if its last value has one line.
  lemma UnendedReadsBack(es: seq<(string, string)>, e: (string, string))
    requires PlainEntries(es + [e])
    ensures Load(Good(PutEntries(es, "=") + PutUnended(e)), [], map[], "=", "#") == Inserted(es + [e], map[])
            <==> '\n' !in e.1
  {
    LastLineTwice(es, e);
    InsertedLast(es, e, map[]);
    hide Load, PlainEntries, PutEntries, PutUnended, LastLine, Inserted;
    var m := Inserted(es, map[]);
    if '\n' in e.1 {
      assert m[e.0 := ReadUnended(e.1)][e.0] == ReadUnended(e.1) != e.1 == m[e.0 := e.1][e.0];
    }
  }
}
