/**
 * The token stream of a value, what it means for a text to spell a token stream, and the
 * value a reader rebuilds from it. Both writers and the reader of libjson/jsoncpp.cpp are
 * related through these.
 */
module JsonTokens {
  import opened Wrappers
  import opened JsonValue
  import opened JsonText
  import opened JsonGrammar
  import Seqs

  // printf("%#.16g") with its trailing zeros cut, and sscanf("%lf").
  datatype Floats = Floats(printf: real -> string, scanf: string -> Option<real>)

  // ---------- arrays as the writers see them ----------

  // size(): the highest index + 1
  function ArraySize(items: seq<Entry>): nat {
    if items != [] && items[|items| - 1].key.Index? then items[|items| - 1].key.i + 1 else 0
  }

  // value[index]: a missing element reads as null.
  function Element(items: seq<Entry>, index: nat): Value {
    Get(items, Index(index))
  }

  // A value the writers can be handed: keys of one kind in map order, integers of 64 bits,
  // C strings that are set and free of NUL, and arrays for which `size*3` fits an int.
  predicate Writable(v: Value)
    decreases v
  {
    match v
    case Int(i) => -TWO_63 <= i < TWO_63
    case UInt(u) => u < TWO_64
    case Str(s) => s.Some? && '\0' !in s.value
    case Arr(items) =>
      && KeySorted(items) && AllIndices(items) && ArraySize(items) <= 0x2AAA_AAAA
      && forall k :: 0 <= k < |items| ==> WritableEntry(items[k])
    case Obj(items) =>
      && KeySorted(items) && AllNames(items)
      && forall k :: 0 <= k < |items| ==> WritableEntry(items[k]) && '\0' !in items[k].key.s
    case _ => true
  }

  predicate WritableEntry(e: Entry)
    decreases e
  {
    Writable(e.val)
  }

  lemma {:induction false} ElementWritable(items: seq<Entry>, index: nat)
    requires forall k :: 0 <= k < |items| ==> WritableEntry(items[k])
    ensures Writable(Element(items, index))
  {
    if items != [] {
      assert WritableEntry(items[0]);
      if items[0].key != Index(index) {
        assert forall k | 0 <= k < |items| - 1 :: WritableEntry(items[1..][k]) <== WritableEntry(items[k + 1]);
        ElementWritable(items[1..], index);
      }
    }
  }

  // Looking up the key of an entry of a map finds that entry.
  lemma {:induction false} GetSorted(items: seq<Entry>, k: nat)
    requires KeySorted(items) && k < |items| && (AllIndices(items) || AllNames(items))
    ensures Get(items, items[k].key) == items[k].val
  {
    if k > 0 {
      KeyTrichotomy(items[0].key, items[k].key);
      GetSorted(items[1..], k - 1);
    }
  }

  // ---------- tokens ----------

  // The text of a value that is no array and no object.
  function ScalarText(fl: Floats, v: Value): string
    requires !v.Arr? && !v.Obj?
  {
    match v
    case Null => "null"
    case Int(i) => IntText(i)
    case UInt(u) => Decimal(u)
    case Real(r) => fl.printf(r)
    case Bool(b) => if b then "true" else "false"
    case Str(s) => Quoted(if s.Some? then s.value else "")
  }

  function Separator(index: nat): seq<string> {
    if index > 0 then [","] else []
  }

  function Tokens(fl: Floats, v: Value): (ts: seq<string>)
    decreases Size(v), 0
  {
    match v
    case Arr(items) => ["["] + ElementTokens(fl, items, 0) + ["]"]
    case Obj(items) => ["{"] + MemberTokens(fl, items, 0) + ["}"]
    case _ => [ScalarText(fl, v)]
  }

  function ElementTokens(fl: Floats, items: seq<Entry>, index: nat): seq<string>
    decreases SizeItems(items), ArraySize(items) - index
  {
    if index >= ArraySize(items) then []
    else
      SizeOfGet(items, Index(index));
      Separator(index) + Tokens(fl, Element(items, index)) + ElementTokens(fl, items, index + 1)
  }

  function MemberTokens(fl: Floats, items: seq<Entry>, k: nat): seq<string>
    decreases SizeItems(items), |items| - k
  {
    if k >= |items| then []
    else
      SizeOfItem(items, k);
      Separator(k) + [Quoted(KeyName(items[k])), ":"] + Tokens(fl, items[k].val) + MemberTokens(fl, items, k + 1)
  }

  function KeyName(e: Entry): string {
    if e.key.Name? then e.key.s else ""
  }

  // ---------- spelling ----------

  predicate StartsNumber(t: string) {
    t != "" && (IsDigit(t[0]) || t[0] == '-')
  }

  predicate AllNumberChars(t: string) {
    forall k :: 0 <= k < |t| ==> IsNumberChar(t[k])
  }

  predicate IsTokenText(t: string) {
    t != "" && !IsSpace(t[0]) && (StartsNumber(t) ==> AllNumberChars(t))
  }

  // From `pos` on, `text` is white space around the tokens `ts`, and no numeral runs into
  // what follows it.
  predicate Spells(text: string, pos: nat, ts: seq<string>)
    requires pos <= |text|
    decreases |ts|
  {
    var p := SkipSpaces(text, pos);
    if ts == [] then p == |text|
    else
      var end := p + |ts[0]|;
      && IsTokenText(ts[0]) && At(text, p, ts[0])
      && (StartsNumber(ts[0]) ==> end == |text| || !IsNumberChar(text[end]))
      && Spells(text, end, ts[1..])
  }

  lemma {:induction false} SpacesShift(a: string, b: string, pos: nat)
    requires pos <= |b|
    ensures SkipSpaces(a + b, |a| + pos) == |a| + SkipSpaces(b, pos)
    decreases |b| - pos
  {
    if pos < |b| {
      assert (a + b)[|a| + pos] == b[pos];
      if IsSpace(b[pos]) {
        SpacesShift(a, b, pos + 1);
      }
    }
  }

  lemma {:induction false} SpacesExtend(a: string, b: string, pos: nat)
    requires pos <= |a|
    ensures SkipSpaces(a, pos) < |a| ==> SkipSpaces(a + b, pos) == SkipSpaces(a, pos)
    ensures SkipSpaces(a, pos) == |a| ==> SkipSpaces(a + b, pos) == SkipSpaces(a + b, |a|)
    decreases |a| - pos
  {
    if pos < |a| {
      assert (a + b)[pos] == a[pos];
      if IsSpace(a[pos]) {
        SpacesExtend(a, b, pos + 1);
      }
    }
  }

  lemma {:induction false} SpellsShift(a: string, b: string, pos: nat, ts: seq<string>)
    requires pos <= |b| && Spells(b, pos, ts)
    ensures Spells(a + b, |a| + pos, ts)
    decreases |ts|
  {
    hide SkipSpaces, At, IsTokenText, IsNumberChar, StartsNumber;
    SpacesShift(a, b, pos);
    if ts != [] {
      var p := SkipSpaces(b, pos);
      AtShift(a, b, p, ts[0]);
      SpellsShift(a, b, p + |ts[0]|, ts[1..]);
    }
  }

  lemma AtShift(a: string, b: string, pos: nat, t: string)
    requires At(b, pos, t)
    ensures At(a + b, |a| + pos, t)
    ensures pos + |t| <= |b| && (pos + |t| < |b| ==> (a + b)[|a| + pos + |t|] == b[pos + |t|])
  {
    assert (a + b)[|a| + pos..|a| + pos + |t|] == b[pos..pos + |t|];
  }

  predicate EndsInNumber(ts: seq<string>) {
    ts != [] && StartsNumber(ts[|ts| - 1])
  }

  lemma SpellsCons(text: string, pos: nat, t: string, rest: seq<string>)
    requires pos <= |text|
    requires var p := SkipSpaces(text, pos);
             && IsTokenText(t) && At(text, p, t)
             && (StartsNumber(t) ==> p + |t| == |text| || !IsNumberChar(text[p + |t|]))
             && Spells(text, p + |t|, rest)
    ensures Spells(text, pos, [t] + rest)
  {
    assert ([t] + rest)[1..] == rest;
  }

  lemma AtExtend(a: string, b: string, pos: nat, t: string)
    requires At(a, pos, t)
    ensures At(a + b, pos, t)
    ensures pos + |t| < |a| ==> (a + b)[pos + |t|] == a[pos + |t|]
    ensures pos + |t| == |a| && b != "" ==> (a + b)[pos + |t|] == b[0]
  {
    assert (a + b)[pos..pos + |t|] == a[pos..pos + |t|];
  }

  // A token follows, so the text does not end here.
  lemma MoreText(a: string, pos: nat, ts: seq<string>)
    requires pos <= |a| && ts != [] && Spells(a, pos, ts)
    ensures pos < |a|
  {
  }

  lemma SpellsHead(a: string, pos: nat, ts: seq<string>)
    requires pos <= |a| && ts != [] && Spells(a, pos, ts)
    ensures var p := SkipSpaces(a, pos);
            var end := p + |ts[0]|;
            && IsTokenText(ts[0]) && At(a, p, ts[0]) && end <= |a| && p < |a|
            && (StartsNumber(ts[0]) ==> end == |a| || !IsNumberChar(a[end]))
            && Spells(a, end, ts[1..])
  {
    hide SkipSpaces, IsNumberChar, StartsNumber;
  }

  lemma ConcatStep(a: string, pos: nat, ts: seq<string>, b: string, more: seq<string>)
    requires pos <= |a| && ts != [] && Spells(a, pos, ts)
    requires EndsInNumber(ts) && b != "" ==> !IsNumberChar(b[0])
    requires Spells(a + b, SkipSpaces(a, pos) + |ts[0]|, more)
    ensures Spells(a + b, pos, [ts[0]] + more)
  {
    hide SkipSpaces, IsNumberChar, Spells, At, IsTokenText, StartsNumber;
    SpellsHead(a, pos, ts);
    var p := SkipSpaces(a, pos);
    var end := p + |ts[0]|;
    if ts[1..] != [] {
      MoreText(a, end, ts[1..]);
    }
    AtExtend(a, b, p, ts[0]);
    SpacesExtend(a, b, pos);
    SpellsCons(a + b, pos, ts[0], more);
  }

  lemma ConcatEnd(a: string, pos: nat, b: string, us: seq<string>)
    requires pos <= |a| && Spells(a, pos, []) && Spells(b, 0, us)
    ensures Spells(a + b, pos, us)
  {
    OnlySpaces(a, pos);
    hide Spells, SkipSpaces;
    SpacesExtend(a, b, pos);
    SpellsShift(a, b, 0, us);
    SameStart(a + b, pos, |a|, us);
  }

  lemma OnlySpaces(a: string, pos: nat)
    requires pos <= |a| && Spells(a, pos, [])
    ensures SkipSpaces(a, pos) == |a|
  {
    hide SkipSpaces;
  }

  lemma SameStart(text: string, p: nat, q: nat, ts: seq<string>)
    requires p <= |text| && q <= |text| && SkipSpaces(text, p) == SkipSpaces(text, q) && Spells(text, q, ts)
    ensures Spells(text, p, ts)
  {
    hide SkipSpaces, At, IsTokenText, IsNumberChar, StartsNumber;
  }

  // Two texts in a row spell their tokens in a row, if a numeral is not lengthened.
  lemma {:induction false} SpellsConcat(a: string, pos: nat, ts: seq<string>, b: string, us: seq<string>)
    requires pos <= |a| && Spells(a, pos, ts) && Spells(b, 0, us)
    requires EndsInNumber(ts) && b != "" ==> !IsNumberChar(b[0])
    ensures Spells(a + b, pos, ts + us)
    decreases |ts|
  {
    hide At, IsTokenText, IsNumberChar, StartsNumber, SkipSpaces;
    if ts == [] {
      assert ts + us == us;
      ConcatEnd(a, pos, b, us);
    } else {
      var rest := ts[1..];
      Seqs.HeadTailConcat(ts, us);
      SpellsConcat(a, SkipSpaces(a, pos) + |ts[0]|, rest, b, us);
      ConcatStep(a, pos, ts, b, rest + us);
    }
  }

  // Appending one token, and appending white space.
  lemma AppendToken(doc: string, ts: seq<string>, t: string)
    requires Spells(doc, 0, ts) && IsTokenText(t)
    requires EndsInNumber(ts) ==> !IsNumberChar(t[0])
    ensures Spells(doc + t, 0, ts + [t])
  {
    assert SkipSpaces(t, 0) == 0;
    assert t[0..|t|] == t;
    SpellsConcat(doc, 0, ts, t, [t]);
  }

  lemma {:induction false} AllSpaces(ws: string, pos: nat)
    requires pos <= |ws| && forall k :: 0 <= k < |ws| ==> IsSpace(ws[k])
    ensures SkipSpaces(ws, pos) == |ws|
    decreases |ws| - pos
  {
    if pos < |ws| {
      AllSpaces(ws, pos + 1);
    }
  }

  lemma AppendSpaces(doc: string, ts: seq<string>, ws: string)
    requires Spells(doc, 0, ts)
    requires forall k :: 0 <= k < |ws| ==> IsSpace(ws[k])
    ensures Spells(doc + ws, 0, ts)
  {
    AllSpaces(ws, 0);
    SpellsConcat(doc, 0, ts, ws, []);
    assert ts + [] == ts;
  }

  // ---------- the texts of scalars are tokens ----------

  // The text printf gives for a double can be read again: a numeral with a fraction or an
  // exponent that sscanf accepts. It is not for infinities and NaN.
  predicate ReadableReal(fl: Floats, r: real) {
    var t := fl.printf(r);
    StartsNumber(t) && AllNumberChars(t) && LooksFloating(t) && fl.scanf(t).Some?
  }

  predicate Readable(fl: Floats, v: Value)
    decreases v
  {
    match v
    case Real(r) => ReadableReal(fl, r)
    case Arr(items) => forall k :: 0 <= k < |items| ==> ReadableEntry(fl, items[k])
    case Obj(items) => forall k :: 0 <= k < |items| ==> ReadableEntry(fl, items[k])
    case _ => true
  }

  predicate ReadableEntry(fl: Floats, e: Entry)
    decreases e
  {
    Readable(fl, e.val)
  }

  lemma {:induction false} ElementReadable(fl: Floats, items: seq<Entry>, index: nat)
    requires forall k :: 0 <= k < |items| ==> ReadableEntry(fl, items[k])
    ensures Readable(fl, Element(items, index))
  {
    if items != [] {
      assert ReadableEntry(fl, items[0]);
      if items[0].key != Index(index) {
        assert forall k | 0 <= k < |items| - 1 :: ReadableEntry(fl, items[1..][k]) <== ReadableEntry(fl, items[k + 1]);
        ElementReadable(fl, items[1..], index);
      }
    }
  }

  lemma IntTextIsToken(i: int)
    ensures StartsNumber(IntText(i)) && AllNumberChars(IntText(i)) && !LooksFloating(IntText(i))
    ensures IsTokenText(IntText(i))
    ensures AllDigits(if i < 0 then IntText(i)[1..] else IntText(i))
  {
    var digits := Decimal(if i < 0 then -i else i);
    if i < 0 {
      assert IntText(i)[1..] == digits;
    }
    assert forall k :: 0 <= k < |digits| ==> IsDigit(digits[k]);
  }

  lemma ScalarIsToken(fl: Floats, v: Value)
    requires !v.Arr? && !v.Obj? && Readable(fl, v)
    ensures IsTokenText(ScalarText(fl, v))
    ensures ScalarText(fl, v)[0] != ']' && ScalarText(fl, v)[0] != '/'
  {
    match v
    case Int(i) => IntTextIsToken(i);
    case UInt(u) => IntTextIsToken(u);
    case Real(r) => assert IsNumberChar(fl.printf(r)[0]);
    case _ =>
  }

  // ---------- the rebuilt value ----------

  // What reading the text of a value gives: integers are typed by their size, reals are those
  // sscanf returns, and arrays are dense.
  function Canon(fl: Floats, v: Value): Value
    requires Readable(fl, v)
    decreases Size(v), 0
  {
    match v
    case Int(i) => if i <= MAX_INT then Int(i) else UInt(i)
    case UInt(u) => if u <= MAX_INT then Int(u) else UInt(u)
    case Real(r) => Real(fl.scanf(fl.printf(r)).value)
    case Str(s) => Str(Some(if s.Some? then s.value else ""))
    case Arr(items) => Arr(CanonElements(fl, items, ArraySize(items)))
    case Obj(items) => Obj(CanonMembers(fl, items, |items|))
    case _ => v
  }

  function CanonElements(fl: Floats, items: seq<Entry>, n: nat): (r: seq<Entry>)
    requires n <= ArraySize(items) && Readable(fl, Arr(items))
    ensures |r| == n
    ensures forall k :: 0 <= k < n ==> r[k].key == Index(k)
    decreases SizeItems(items), n
  {
    if n == 0 then []
    else
      SizeOfGet(items, Index(n - 1));
      ElementReadable(fl, items, n - 1);
      CanonElements(fl, items, n - 1) + [Entry(Index(n - 1), Canon(fl, Element(items, n - 1)))]
  }

  function CanonMembers(fl: Floats, items: seq<Entry>, n: nat): (r: seq<Entry>)
    requires n <= |items| && Readable(fl, Obj(items))
    ensures |r| == n
    ensures forall k :: 0 <= k < n ==> r[k].key == items[k].key
    decreases SizeItems(items), n
  {
    if n == 0 then []
    else
      SizeOfItem(items, n - 1);
      assert ReadableEntry(fl, items[n - 1]);
      CanonMembers(fl, items, n - 1) + [Entry(items[n - 1].key, Canon(fl, items[n - 1].val))]
  }

  // The values that survive a round trip unchanged.
  predicate Canonical(fl: Floats, v: Value)
    decreases v
  {
    match v
    case Int(i) => i <= MAX_INT
    case UInt(u) => u > MAX_INT
    case Real(r) => fl.scanf(fl.printf(r)) == Some(r)
    case Arr(items) =>
      forall k :: 0 <= k < |items| ==> items[k].key == Index(k) && CanonicalEntry(fl, items[k])
    case Obj(items) => forall k :: 0 <= k < |items| ==> CanonicalEntry(fl, items[k])
    case _ => true
  }

  predicate CanonicalEntry(fl: Floats, e: Entry)
    decreases e
  {
    Canonical(fl, e.val)
  }

  lemma {:induction false} CanonIdentity(fl: Floats, v: Value)
    requires Writable(v) && Readable(fl, v)
    ensures Canon(fl, v) == v <==> Canonical(fl, v)
    decreases Size(v), 0
  {
    match v
    case Arr(items) => ArrayIdentity(fl, items);
    case Obj(items) => ObjectIdentity(fl, items);
    case _ =>
  }

  lemma {:induction false} ArrayIdentity(fl: Floats, items: seq<Entry>)
    requires Writable(Arr(items)) && Readable(fl, Arr(items))
    ensures Canon(fl, Arr(items)) == Arr(items) <==> Canonical(fl, Arr(items))
    decreases SizeItems(items), |items| + 1
  {
    if forall k :: 0 <= k < |items| ==> items[k].key == Index(k) {
      CanonElementsIdentity(fl, items, |items|);
      hide Writable, Readable, CanonElements, CanonicalEntry;
      assert items[..|items|] == items;
    } else if ArraySize(items) == |items| {
      hide Writable, Readable, CanonElements, CanonicalEntry;
      var k :| 0 <= k < |items| && items[k].key != Index(k);
      assert CanonElements(fl, items, |items|)[k].key == Index(k);
    }
  }

  lemma {:induction false} ObjectIdentity(fl: Floats, items: seq<Entry>)
    requires Writable(Obj(items)) && Readable(fl, Obj(items))
    ensures Canon(fl, Obj(items)) == Obj(items) <==> Canonical(fl, Obj(items))
    decreases SizeItems(items), |items| + 1
  {
    hide Writable, Readable, CanonMembers, CanonicalEntry;
    CanonMembersIdentity(fl, items, |items|);
    assert items[..|items|] == items;
  }

  predicate AllCanonical(fl: Floats, items: seq<Entry>, n: nat)
    requires n <= |items|
  {
    forall k :: 0 <= k < n ==> CanonicalEntry(fl, items[k])
  }

  lemma CanonicalStep(fl: Floats, items: seq<Entry>, n: nat)
    requires 0 < n <= |items|
    ensures AllCanonical(fl, items, n) <==> AllCanonical(fl, items, n - 1) && Canonical(fl, items[n - 1].val)
  {
    hide Canonical;
    assert CanonicalEntry(fl, items[n - 1]) == Canonical(fl, items[n - 1].val);
  }

  lemma {:induction false} CanonElementsIdentity(fl: Floats, items: seq<Entry>, n: nat)
    requires Writable(Arr(items)) && Readable(fl, Arr(items)) && n <= |items|
    requires forall k :: 0 <= k < |items| ==> items[k].key == Index(k)
    ensures CanonElements(fl, items, n) == items[..n] <==> AllCanonical(fl, items, n)
    decreases SizeItems(items), n
  {
    if n > 0 {
      hide *;
      SizeOfItem(items, n - 1);
      CanonElementsIdentity(fl, items, n - 1);
      ElementStep(fl, items, n);
      CanonIdentity(fl, items[n - 1].val);
      CanonicalStep(fl, items, n);
      LastAndFront(CanonElements(fl, items, n - 1), Canon(fl, items[n - 1].val), items, n);
    }
  }

  lemma ElementStep(fl: Floats, items: seq<Entry>, n: nat)
    requires Writable(Arr(items)) && Readable(fl, Arr(items)) && 0 < n <= |items|
    requires forall k :: 0 <= k < |items| ==> items[k].key == Index(k)
    ensures Writable(items[n - 1].val) && Readable(fl, items[n - 1].val)
    ensures CanonElements(fl, items, n)
            == CanonElements(fl, items, n - 1) + [Entry(Index(n - 1), Canon(fl, items[n - 1].val))]
  {
    assert WritableEntry(items[n - 1]) && ReadableEntry(fl, items[n - 1]);
    hide Canon;
    GetSorted(items, n - 1);
  }

  lemma {:induction false} CanonMembersIdentity(fl: Floats, items: seq<Entry>, n: nat)
    requires Writable(Obj(items)) && Readable(fl, Obj(items)) && n <= |items|
    ensures CanonMembers(fl, items, n) == items[..n] <==> AllCanonical(fl, items, n)
    decreases SizeItems(items), n
  {
    if n > 0 {
      hide *;
      SizeOfItem(items, n - 1);
      CanonMembersIdentity(fl, items, n - 1);
      MemberStep(fl, items, n);
      CanonIdentity(fl, items[n - 1].val);
      CanonicalStep(fl, items, n);
      LastAndFront(CanonMembers(fl, items, n - 1), Canon(fl, items[n - 1].val), items, n);
    }
  }

  lemma MemberStep(fl: Floats, items: seq<Entry>, n: nat)
    requires Writable(Obj(items)) && Readable(fl, Obj(items)) && 0 < n <= |items|
    ensures Writable(items[n - 1].val) && Readable(fl, items[n - 1].val)
    ensures CanonMembers(fl, items, n)
            == CanonMembers(fl, items, n - 1) + [Entry(items[n - 1].key, Canon(fl, items[n - 1].val))]
  {
    assert WritableEntry(items[n - 1]) && ReadableEntry(fl, items[n - 1]);
    hide Canon;
  }

  lemma LastAndFront(front: seq<Entry>, val: Value, items: seq<Entry>, n: nat)
    requires 0 < n <= |items| && |front| == n - 1
    ensures front + [Entry(items[n - 1].key, val)] == items[..n]
            <==> front == items[..n - 1] && val == items[n - 1].val
  {
    var r := front + [Entry(items[n - 1].key, val)];
    assert items[..n] == items[..n - 1] + [items[n - 1]];
    assert r[..n - 1] == front && items[..n][..n - 1] == items[..n - 1];
  }
}
