/** The bracket matcher _GetTextInside of cpplint/cpplint.py. */
module Brackets {
  import opened Wrappers

  predicate IsOpening(c: char) {
    c == '(' || c == '{' || c == '['
  }

  predicate IsClosing(c: char) {
    c == ')' || c == '}' || c == ']'
  }

  function Closer(c: char): char
    requires IsOpening(c)
  {
    if c == '(' then ')' else if c == '{' then '}' else ']'
  }

  const OPENINGS := "([{"
  const CLOSINGS := ")]}"

  // The three kinds of brackets, each with its partner at the same place
  lemma BracketKinds(c: char)
    ensures IsOpening(c) <==> c in OPENINGS
    ensures IsClosing(c) <==> c in CLOSINGS
    ensures forall i :: 0 <= i < 3 && c == OPENINGS[i] ==> Closer(c) == CLOSINGS[i]
  {
  }

  // ---------- well nested text ----------

  // Text in which every bracket has its partner, of its own kind
  predicate Nested(t: string)
    decreases |t|
  {
    t == []
    || (!IsOpening(t[0]) && !IsClosing(t[0]) && Nested(t[1..]))
    || (IsOpening(t[0]) && exists k :: 0 < k < |t| && Splits(t, k))
  }

  predicate Splits(t: string, k: int)
    requires 0 < k < |t| && IsOpening(t[0])
    decreases |t|, 0
  {
    t[k] == Closer(t[0]) && Nested(t[1..k]) && Nested(t[k + 1..])
  }

  // ---------- the stack algorithm ----------

  function PlusOne(r: Option<nat>): Option<nat> {
    match r
    case None => None
    case Some(n) => Some(n + 1)
  }

  // How much of the text is read until the stack of expected closers is empty
  function Scan(s: string, stack: seq<char>): Option<nat>
    decreases |s|
  {
    if stack == [] then Some(0)
    else if s == [] then None
    else
      var top := stack[|stack| - 1];
      if s[0] == top then PlusOne(Scan(s[1..], stack[..|stack| - 1]))
      else if IsClosing(s[0]) then None
      else if IsOpening(s[0]) then PlusOne(Scan(s[1..], stack + [Closer(s[0])]))
      else PlusOne(Scan(s[1..], stack))
  }

  function Plus(n: nat, r: Option<nat>): Option<nat> {
    match r
    case None => None
    case Some(m) => Some(n + m)
  }

  predicate EndsWithOpening(text: string, matchEnd: Option<nat>) {
    matchEnd.Some? ==> 0 < matchEnd.value <= |text| && IsOpening(text[matchEnd.value - 1])
  }

  function TextInside(text: string, matchEnd: Option<nat>): (r: Option<string>)
    requires EndsWithOpening(text, matchEnd)
  {
    match matchEnd
    case None => None
    case Some(start) =>
      match Scan(text[start..], [Closer(text[start - 1])])
      case None => None
      case Some(n) => if 0 < n <= |text| - start then Some(text[start..start + n - 1]) else None
  }

  // `matchEnd` is where the match of the start pattern ends, just behind an opening bracket.
  method GetTextInside(text: string, matchEnd: Option<nat>) returns (r: Option<string>)
    requires EndsWithOpening(text, matchEnd)
    ensures r == TextInside(text, matchEnd)
  {
    if matchEnd == None {
      return None;
    }
    hide Scan;
    var start := matchEnd.value;
    ghost var rest, closer := text[start..], Closer(text[start - 1]);
    var stack := [Closer(text[start - 1])];
    var position := start;
    assert Scan(rest, [closer]) == Plus(0, Scan(rest, [closer]));
    while stack != [] && position < |text|
      invariant start <= position <= |text|
      invariant Scan(rest, [closer]) == Plus(position - start, Scan(text[position..], stack))
      invariant position == start ==> stack != []
      decreases |text| - position
    {
      assert text[position..][0] == text[position] && text[position..][1..] == text[position + 1..];
      ScanStep(text[position..], stack);
      if text[position] == stack[|stack| - 1] {
        stack := stack[..|stack| - 1];
      } else if IsClosing(text[position]) {
        return None;
      } else if IsOpening(text[position]) {
        stack := stack + [Closer(text[position])];
      }
      position := position + 1;
    }
    ScanEnd(text[position..], stack);
    if stack != [] {
      return None;
    }
    r := Some(text[start..position - 1]);
  }

  lemma ScanStep(s: string, stack: seq<char>)
    requires s != [] && stack != []
    ensures var top := stack[|stack| - 1];
            Scan(s, stack) ==
            if s[0] == top then PlusOne(Scan(s[1..], stack[..|stack| - 1]))
            else if IsClosing(s[0]) then None
            else if IsOpening(s[0]) then PlusOne(Scan(s[1..], stack + [Closer(s[0])]))
            else PlusOne(Scan(s[1..], stack))
  {
  }

  lemma ScanEnd(s: string, stack: seq<char>)
    requires s == [] || stack == []
    ensures Scan(s, stack) == if stack == [] then Some(0) else None
  {
  }

  lemma ScanEnds(s: string, stack: seq<char>)
    requires Scan(s, stack).Some? && stack != []
    ensures s != []
  {
  }

  // ---------- what it finds ----------

  // The text, then the closer, then anything
  predicate IsInside(t: string, s: string, closer: char) {
    Nested(t) && |t| < |s| && s[..|t|] == t && s[|t|] == closer
  }

  // Well nested text leaves the stack as it was.
  lemma {:induction false} NestedScan(t: string, r: string, stack: seq<char>)
    requires Nested(t) && stack != [] && IsClosing(stack[|stack| - 1])
    ensures Scan(t + r, stack) == Plus(|t|, Scan(r, stack))
    decreases |t|
  {
    hide Scan;
    if t == [] {
      assert t + r == r;
    } else if !IsOpening(t[0]) {
      assert (t + r)[1..] == t[1..] + r;
      PlainStep(t + r, stack);
      NestedScan(t[1..], r, stack);
    } else {
      var k :| 0 < k < |t| && Splits(t, k);
      var u, v, c := t[1..k], t[k + 1..], Closer(t[0]);
      assert (t + r)[1..] == u + ([c] + (v + r));
      OpenStep(t + r, stack);
      NestedScan(u, [c] + (v + r), stack + [c]);
      CloseStep(c, v + r, stack);
      NestedScan(v, r, stack);
    }
  }

  lemma PlainStep(s: string, stack: seq<char>)
    requires s != [] && stack != [] && IsClosing(stack[|stack| - 1]) && !IsOpening(s[0]) && !IsClosing(s[0])
    ensures Scan(s, stack) == PlusOne(Scan(s[1..], stack))
  {
  }

  lemma OpenStep(s: string, stack: seq<char>)
    requires s != [] && stack != [] && IsClosing(stack[|stack| - 1]) && IsOpening(s[0])
    ensures Scan(s, stack) == PlusOne(Scan(s[1..], stack + [Closer(s[0])]))
  {
  }

  lemma CloseStep(c: char, s: string, stack: seq<char>)
    ensures Scan([c] + s, stack + [c]) == PlusOne(Scan(s, stack))
  {
    assert (stack + [c])[..|stack|] == stack && ([c] + s)[1..] == s;
  }

  // When the closer on top of the stack is found, everything before it is well nested.
  lemma {:induction false} ScanNested(s: string, stack: seq<char>, c: char) returns (k: nat)
    requires Scan(s, stack + [c]).Some?
    ensures k < |s| && s[k] == c && Nested(s[..k])
    ensures Scan(s, stack + [c]) == Plus(k + 1, Scan(s[k + 1..], stack))
    decreases |s|
  {
    hide Nested, Scan;
    assert (stack + [c])[..|stack|] == stack;
    ScanEnds(s, stack + [c]);
    ScanStep(s, stack + [c]);
    if s[0] == c {
      k := 0;
      assert Nested([]) by { NestedNothing(); }
    } else if IsOpening(s[0]) {
      var k1 := ScanNested(s[1..], stack + [c], Closer(s[0]));
      assert s[1..][k1 + 1..] == s[k1 + 2..];
      var k2 := ScanNested(s[k1 + 2..], stack, c);
      k := k1 + 2 + k2;
      assert s[k1 + 2..][k2 + 1..] == s[k + 1..];
      Compose(s, k1, k2);
    } else {
      var k1 := ScanNested(s[1..], stack, c);
      k := k1 + 1;
      assert s[1..][k1 + 1..] == s[k + 1..] && s[..k][1..] == s[1..][..k1];
      NestedPlain(s[..k]);
    }
  }

  lemma NestedNothing()
    ensures Nested([])
  {
  }

  lemma NestedPlain(t: string)
    requires t != [] && !IsOpening(t[0]) && !IsClosing(t[0]) && Nested(t[1..])
    ensures Nested(t)
  {
  }

  lemma Compose(s: string, k1: nat, k2: nat)
    requires k1 + 2 + k2 <= |s| && IsOpening(s[0]) && s[1..][k1] == Closer(s[0])
    requires Nested(s[1..][..k1]) && Nested(s[k1 + 2..][..k2])
    ensures Nested(s[..k1 + 2 + k2])
  {
    var t := s[..k1 + 2 + k2];
    assert t[1..k1 + 1] == s[1..][..k1] && t[k1 + 2..] == s[k1 + 2..][..k2];
    assert Splits(t, k1 + 1);
  }

  // The text inside exists exactly when the scan ends, and is what was read before its end.
  lemma InsideIff(s: string, closer: char)
    requires IsClosing(closer)
    ensures forall t :: IsInside(t, s, closer) <==> Scan(s, [closer]) == Some(|t| + 1) && |t| < |s| && t == s[..|t|]
    ensures Scan(s, [closer]).Some? ==> 0 < Scan(s, [closer]).value <= |s|
  {
    forall t | IsInside(t, s, closer) ensures Scan(s, [closer]) == Some(|t| + 1) {
      InsideScans(t, s, closer);
    }
    if Scan(s, [closer]).Some? {
      assert [] + [closer] == [closer];
      var k := ScanNested(s, [], closer);
      assert Scan(s[k + 1..], []) == Some(0);
    }
  }

  lemma InsideScans(t: string, s: string, closer: char)
    requires IsInside(t, s, closer) && IsClosing(closer)
    ensures Scan(s, [closer]) == Some(|t| + 1)
  {
    var rest := s[|t| + 1..];
    assert s == t + ([closer] + rest);
    NestedScan(t, [closer] + rest, [closer]);
    assert [] + [closer] == [closer];
    CloseStep(closer, rest, []);
  }

  // There is at most one such text.
  lemma InsideIsUnique(t: string, u: string, s: string, closer: char)
    requires IsClosing(closer) && IsInside(t, s, closer) && IsInside(u, s, closer)
    ensures t == u
  {
    InsideScans(t, s, closer);
    InsideScans(u, s, closer);
  }

  // The function returns t exactly when the text behind the opening bracket is t, its closer and
  // anything, with t well nested; for every other text it returns None.
  lemma TextInsideIff(text: string, start: nat, t: string)
    requires EndsWithOpening(text, Some(start))
    ensures TextInside(text, Some(start)) == Some(t) <==> IsInside(t, text[start..], Closer(text[start - 1]))
    ensures var s, closer := text[start..], Closer(text[start - 1]);
            TextInside(text, Some(start)) == None <==> forall u :: !IsInside(u, s, closer)
  {
    var s, closer := text[start..], Closer(text[start - 1]);
    InsideIff(s, closer);
    hide IsInside, Scan;
    var n := Scan(s, [closer]);
    if n.Some? {
      assert text[start..start + n.value - 1] == s[..n.value - 1];
      assert IsInside(s[..n.value - 1], s, closer);
    }
  }
}
