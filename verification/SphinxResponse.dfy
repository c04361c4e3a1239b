/**
 * Decoding of a searchd response by libsphinxclient/sphinxclient.c, which returns pointers into
 * its own buffer and rewrites it: strings shift one byte left for their NUL, words change order.
 */
module SphinxResponse {
  import opened Wire
  import opened Wrappers

  const SEARCHD_OK: Word := 0
  const SEARCHD_WARNING: Word := 3
  const SPH_ATTR_FLOAT: Word := 5
  const SPH_ATTR_MULTI_INTEGER: Word := 0x4000_0001
  const MAX_PACKET_LEN := 8 * 1024 * 1024

  // ---------- what the server says ----------

  // A float is its 32-bit pattern.
  datatype Attr = Scalar(n: Word) | Float(bits: Word) | Multi(values: List<Word>)

  datatype Match = Match(id: Qword, weight: Word, attrs: List<Attr>)

  datatype Column = Column(name: Text, kind: Word)

  datatype WordStat = WordStat(word: Text, docs: Word, hits: Word)

  datatype Totals = Totals(total: Word, totalFound: Word, timeMsec: Word)

  datatype Answer =
    | Failed(status: Word, error: Text)
    | Found(warning: Option<Text>, fields: List<Text>, columns: List<Column>, id64: Word, matches: List<Match>,
            totals: Totals, words: List<WordStat>)

  // The type of a column says how its values are sent.
  predicate HasKind(a: Attr, kind: Word) {
    (a.Multi? <==> kind == SPH_ATTR_MULTI_INTEGER) && (a.Float? <==> kind == SPH_ATTR_FLOAT)
  }

  predicate MatchFits(m: Match, columns: seq<Column>, id64: Word) {
    && (id64 == 0 ==> m.id < 0x1_0000_0000)
    && |m.attrs| == |columns|
    && forall k :: 0 <= k < |columns| ==> HasKind(m.attrs[k], columns[k].kind)
  }

  predicate MatchesFit(ms: seq<Match>, columns: seq<Column>, id64: Word) {
    forall i :: 0 <= i < |ms| ==> MatchFits(ms[i], columns, id64)
  }

  predicate WellFormed(a: Answer) {
    match a
    case Failed(status, _) => status != SEARCHD_OK && status != SEARCHD_WARNING
    case Found(_, _, columns, id64, matches, _, _) =>
      MatchesFit(matches, columns, id64)
  }

  // ---------- the bytes it sends, each followed by `tail` ----------

  function PutStrs(ss: seq<Text>, tail: seq<Byte>): seq<Byte> {
    if ss == [] then tail else PutStr(ss[0], PutStrs(ss[1..], tail))
  }

  function PutColumns(cs: seq<Column>, tail: seq<Byte>): seq<Byte> {
    if cs == [] then tail else PutStr(cs[0].name, PutInt(cs[0].kind, PutColumns(cs[1..], tail)))
  }

  function PutAttr(a: Attr, tail: seq<Byte>): seq<Byte> {
    match a
    case Scalar(n) => PutInt(n, tail)
    case Float(bits) => PutInt(bits, tail)
    case Multi(values) => PutInt(|values|, PutInts(values, tail))
  }

  function PutAttrs(attrs: seq<Attr>, tail: seq<Byte>): seq<Byte> {
    if attrs == [] then tail else PutAttr(attrs[0], PutAttrs(attrs[1..], tail))
  }

  function PutId(id: Qword, id64: Word, tail: seq<Byte>): seq<Byte>
    requires id64 == 0 ==> id < 0x1_0000_0000
  {
    if id64 == 0 then PutInt(id, tail) else PutInt(High(id), PutInt(Low(id), tail))
  }

  function PutMatch(m: Match, id64: Word, tail: seq<Byte>): seq<Byte>
    requires id64 == 0 ==> m.id < 0x1_0000_0000
  {
    PutId(m.id, id64, PutInt(m.weight, PutAttrs(m.attrs, tail)))
  }

  function PutMatches(ms: seq<Match>, columns: seq<Column>, id64: Word, tail: seq<Byte>): seq<Byte>
    requires MatchesFit(ms, columns, id64)
  {
    if ms == [] then tail
    else
      assert MatchFits(ms[0], columns, id64);
      PutMatch(ms[0], id64, PutMatches(ms[1..], columns, id64, tail))
  }

  function PutTotals(t: Totals, tail: seq<Byte>): seq<Byte> {
    PutInt(t.total, PutInt(t.totalFound, PutInt(t.timeMsec, tail)))
  }

  function PutWords(ws: seq<WordStat>, tail: seq<Byte>): seq<Byte> {
    if ws == [] then tail
    else PutStr(ws[0].word, PutInt(ws[0].docs, PutInt(ws[0].hits, PutWords(ws[1..], tail))))
  }

  function PutTable(a: Answer, tail: seq<Byte>): seq<Byte>
    requires a.Found? && WellFormed(a)
  {
    PutInt(|a.fields|, PutStrs(a.fields,
    PutInt(|a.columns|, PutColumns(a.columns,
    PutInt(|a.matches|, PutInt(a.id64, PutMatches(a.matches, a.columns, a.id64,
    PutTotals(a.totals,
    PutInt(|a.words|, PutWords(a.words, tail))))))))))
  }

  function PutAnswer(a: Answer, tail: seq<Byte>): seq<Byte>
    requires WellFormed(a)
  {
    match a
    case Failed(status, error) => PutInt(status, PutStr(error, tail))
    case Found(None, _, _, _, _, _, _) => PutInt(SEARCHD_OK, PutTable(a, tail))
    case Found(Some(warning), _, _, _, _, _, _) => PutInt(SEARCHD_WARNING, PutStr(warning, PutTable(a, tail)))
  }

  predicate AllWellFormed(answers: seq<Answer>) {
    forall i :: 0 <= i < |answers| ==> WellFormed(answers[i])
  }

  function PutAnswers(answers: seq<Answer>): seq<Byte>
    requires AllWellFormed(answers)
  {
    if answers == [] then []
    else
      assert WellFormed(answers[0]);
      PutAnswer(answers[0], PutAnswers(answers[1..]))
  }

  function PutMessage(message: Option<Text>, tail: seq<Byte>): seq<Byte> {
    match message
    case None => tail
    case Some(s) => PutStr(s, tail)
  }

  // ---------- the result structures: pointers are positions in the buffer ----------

  // union un_attr_value
  datatype Slot = IntValue(int_value: int) | FloatValue(float_value: Word) | MvaValue(mva_value: nat)

  datatype WordInfo = WordInfo(word: nat, docs: Int, hits: Int)

  datatype Result = Result(
    status: Word,
    error: Option<nat>,
    warning: Option<nat>,
    fields: seq<nat>,
    attrNames: seq<nat>,
    attrTypes: seq<Word>,
    numMatches: nat,
    valuesPool: seq<Slot>,
    total: Int,
    totalFound: Int,
    timeMsec: Int,
    words: seq<WordInfo>)

  // ---------- what a pointer reads back as ----------

  predicate TextAt(m: seq<Byte>, p: nat, s: seq<Byte>) {
    p + |s| < |m| && m[p..p + |s|] == s && m[p + |s|] == 0
  }

  // The unsigned int at a position
  predicate WordAt(m: seq<Byte>, bigEndian: bool, p: nat, n: Word) {
    p + 4 <= |m| && FromNative(m[p..p + 4], bigEndian) == n
  }

  predicate WordsFrom(m: seq<Byte>, bigEndian: bool, p: nat, ns: seq<Word>) {
    forall i :: 0 <= i < |ns| ==> WordAt(m, bigEndian, p + 4 * i, ns[i])
  }

  predicate TextsAt(m: seq<Byte>, ps: seq<nat>, ss: seq<Text>) {
    |ps| == |ss| && forall i :: 0 <= i < |ss| ==> TextAt(m, ps[i], ss[i])
  }

  predicate ColumnsAt(m: seq<Byte>, names: seq<nat>, types: seq<Word>, cs: seq<Column>) {
    && |names| == |types| == |cs|
    && forall i :: 0 <= i < |cs| ==> TextAt(m, names[i], cs[i].name) && types[i] == cs[i].kind
  }

  // A multi-value attribute is its count followed by its values.
  predicate AttrAt(m: seq<Byte>, bigEndian: bool, slot: Slot, a: Attr) {
    match a
    case Scalar(n) => slot == IntValue(n)
    case Float(bits) => slot == FloatValue(bits)
    case Multi(values) => slot.MvaValue? && WordsFrom(m, bigEndian, slot.mva_value, [|values|] + values)
  }

  predicate MatchAt(m: seq<Byte>, bigEndian: bool, slots: seq<Slot>, x: Match) {
    && |slots| == 2 + |x.attrs|
    && slots[0] == IntValue(ToInt64(x.id))
    && slots[1] == IntValue(x.weight)
    && forall k :: 0 <= k < |x.attrs| ==> AttrAt(m, bigEndian, slots[2 + k], x.attrs[k])
  }

  // The pool is the slots of the matches, one match after another.
  predicate PoolAt(m: seq<Byte>, bigEndian: bool, pool: seq<Slot>, ms: seq<Match>, width: nat) {
    if ms == [] then pool == []
    else
      |pool| >= width &&
      MatchAt(m, bigEndian, pool[|pool| - width..], ms[|ms| - 1]) &&
      PoolAt(m, bigEndian, pool[..|pool| - width], ms[..|ms| - 1], width)
  }

  predicate StatsAt(m: seq<Byte>, infos: seq<WordInfo>, ws: seq<WordStat>) {
    && |infos| == |ws|
    && forall i :: 0 <= i < |ws| ==> StatAt(m, infos[i], ws[i])
  }

  predicate StatAt(m: seq<Byte>, info: WordInfo, w: WordStat) {
    TextAt(m, info.word, w.word) && info.docs == ToInt32(w.docs) && info.hits == ToInt32(w.hits)
  }

  predicate TableAt(m: seq<Byte>, bigEndian: bool, r: Result, a: Answer)
    requires a.Found?
  {
    && TextsAt(m, r.fields, a.fields)
    && ColumnsAt(m, r.attrNames, r.attrTypes, a.columns)
    && r.numMatches == |a.matches|
    && PoolAt(m, bigEndian, r.valuesPool, a.matches, 2 + |a.columns|)
    && r.total == ToInt32(a.totals.total) && r.totalFound == ToInt32(a.totals.totalFound)
    && r.timeMsec == ToInt32(a.totals.timeMsec)
    && StatsAt(m, r.words, a.words)
  }

  predicate AnswerAt(m: seq<Byte>, bigEndian: bool, r: Result, a: Answer) {
    match a
    case Failed(status, error) => r.status == status && r.error.Some? && TextAt(m, r.error.value, error)
    case Found(warning, _, _, _, _, _, _) =>
      && r.error == None
      && (match warning
          case None => r.status == SEARCHD_OK && r.warning == None
          case Some(s) => r.status == SEARCHD_WARNING && r.warning.Some? && TextAt(m, r.warning.value, s))
      && TableAt(m, bigEndian, r, a)
  }

  predicate AnswersAt(m: seq<Byte>, bigEndian: bool, rs: seq<Result>, answers: seq<Answer>) {
    |rs| == |answers| && forall i :: 0 <= i < |answers| ==> AnswerAt(m, bigEndian, rs[i], answers[i])
  }

  // ---------- what is read back stays when the buffer is decoded further ----------

  lemma TextStays(m: seq<Byte>, m': seq<Byte>, p: nat, s: seq<Byte>)
    requires m <= m' && TextAt(m, p, s)
    ensures TextAt(m', p, s)
  {
    assert m'[p..p + |s|] == m[p..p + |s|];
  }

  lemma WordStays(m: seq<Byte>, m': seq<Byte>, bigEndian: bool, p: nat, n: Word)
    requires m <= m' && WordAt(m, bigEndian, p, n)
    ensures WordAt(m', bigEndian, p, n)
  {
    assert m'[p..p + 4] == m[p..p + 4];
  }

  lemma WordsStay(m: seq<Byte>, m': seq<Byte>, bigEndian: bool, p: nat, ns: seq<Word>)
    requires m <= m' && WordsFrom(m, bigEndian, p, ns)
    ensures WordsFrom(m', bigEndian, p, ns)
  {
    hide WordAt;
    forall i | 0 <= i < |ns| ensures WordAt(m', bigEndian, p + 4 * i, ns[i]) {
      WordStays(m, m', bigEndian, p + 4 * i, ns[i]);
    }
  }

  lemma TextsStay(m: seq<Byte>, m': seq<Byte>, ps: seq<nat>, ss: seq<Text>)
    requires m <= m' && TextsAt(m, ps, ss)
    ensures TextsAt(m', ps, ss)
  {
    hide TextAt;
    forall i | 0 <= i < |ss| ensures TextAt(m', ps[i], ss[i]) {
      TextStays(m, m', ps[i], ss[i]);
    }
  }

  lemma ColumnsStay(m: seq<Byte>, m': seq<Byte>, names: seq<nat>, types: seq<Word>, cs: seq<Column>)
    requires m <= m' && ColumnsAt(m, names, types, cs)
    ensures ColumnsAt(m', names, types, cs)
  {
    hide TextAt;
    forall i | 0 <= i < |cs| ensures TextAt(m', names[i], cs[i].name) {
      TextStays(m, m', names[i], cs[i].name);
    }
  }

  lemma AttrStays(m: seq<Byte>, m': seq<Byte>, bigEndian: bool, slot: Slot, a: Attr)
    requires m <= m' && AttrAt(m, bigEndian, slot, a)
    ensures AttrAt(m', bigEndian, slot, a)
  {
    hide WordsFrom;
    if a.Multi? {
      WordsStay(m, m', bigEndian, slot.mva_value, [|a.values|] + a.values);
    }
  }

  lemma MatchStays(m: seq<Byte>, m': seq<Byte>, bigEndian: bool, slots: seq<Slot>, x: Match)
    requires m <= m' && MatchAt(m, bigEndian, slots, x)
    ensures MatchAt(m', bigEndian, slots, x)
  {
    hide AttrAt;
    forall k | 0 <= k < |x.attrs| ensures AttrAt(m', bigEndian, slots[2 + k], x.attrs[k]) {
      AttrStays(m, m', bigEndian, slots[2 + k], x.attrs[k]);
    }
  }

  lemma {:induction false} PoolStays(m: seq<Byte>, m': seq<Byte>, bigEndian: bool, pool: seq<Slot>, ms: seq<Match>,
          width: nat)
    requires m <= m' && PoolAt(m, bigEndian, pool, ms, width)
    ensures PoolAt(m', bigEndian, pool, ms, width)
    decreases |ms|
  {
    hide MatchAt;
    if ms != [] {
      MatchStays(m, m', bigEndian, pool[|pool| - width..], ms[|ms| - 1]);
      PoolStays(m, m', bigEndian, pool[..|pool| - width], ms[..|ms| - 1], width);
    }
  }

  lemma StatsStay(m: seq<Byte>, m': seq<Byte>, infos: seq<WordInfo>, ws: seq<WordStat>)
    requires m <= m' && StatsAt(m, infos, ws)
    ensures StatsAt(m', infos, ws)
  {
    hide TextAt;
    forall i | 0 <= i < |ws| ensures TextAt(m', infos[i].word, ws[i].word) {
      TextStays(m, m', infos[i].word, ws[i].word);
    }
  }

  lemma AnswerStays(m: seq<Byte>, m': seq<Byte>, bigEndian: bool, r: Result, a: Answer)
    requires m <= m' && AnswerAt(m, bigEndian, r, a)
    ensures AnswerAt(m', bigEndian, r, a)
  {
    hide TextAt, TextsAt, ColumnsAt, PoolAt, StatsAt;
    match a
    case Failed(_, error) => TextStays(m, m', r.error.value, error);
    case Found(warning, _, _, _, _, _, _) =>
      if warning.Some? {
        TextStays(m, m', r.warning.value, warning.value);
      }
      TextsStay(m, m', r.fields, a.fields);
      ColumnsStay(m, m', r.attrNames, r.attrTypes, a.columns);
      PoolStays(m, m', bigEndian, r.valuesPool, a.matches, 2 + |a.columns|);
      StatsStay(m, m', r.words, a.words);
  }

  lemma AnswersStay(m: seq<Byte>, m': seq<Byte>, bigEndian: bool, rs: seq<Result>, answers: seq<Answer>)
    requires m <= m' && AnswersAt(m, bigEndian, rs, answers)
    ensures AnswersAt(m', bigEndian, rs, answers)
  {
    hide AnswerAt;
    forall i | 0 <= i < |answers| ensures AnswerAt(m', bigEndian, rs[i], answers[i]) {
      AnswerStays(m, m', bigEndian, rs[i], answers[i]);
    }
  }

  // ---------- sphinx_malloc ----------

  predicate Fits(count: int, size: nat) {
    0 <= count * size <= MAX_PACKET_LEN
  }

  // The arrays of a result are allocated only up to a bound.
  predicate Allocates(a: Answer) {
    a.Found? ==>
      && Fits(|a.fields|, 8)
      && Fits(|a.columns|, 8) && Fits(|a.columns|, 4)
      && Fits((2 + |a.columns|) * |a.matches|, 8)
      && Fits(|a.words|, 16)
  }

  // The bound in numbers of elements
  lemma AllocatesIff(a: Answer)
    requires a.Found?
    ensures Allocates(a) <==>
            && |a.fields| <= 0x10_0000 && |a.columns| <= 0x10_0000 && |a.words| <= 0x8_0000
            && (2 + |a.columns|) * |a.matches| <= 0x10_0000
  {
  }

  // ---------- the decoder ----------

  class SphinxClient {
    const bigEndian: bool      // the byte order of the machine
    const response: array<Byte>
    var start: nat             // response_start: the first byte after a leading warning
    var p: nat

    constructor (response: array<Byte>, bigEndian: bool)
      ensures this.response == response && this.bigEndian == bigEndian && start == p == 0
    {
      this.response, this.bigEndian, start, p := response, bigEndian, 0, 0;
    }

    // The decoded part of the buffer, and the part still to decode
    ghost function Done(): seq<Byte>
      reads this, response
      requires p <= response.Length
    {
      response[..p]
    }

    ghost predicate Todo(bytes: seq<Byte>)
      reads this, response
    {
      p <= response.Length && response[p..] == bytes
    }

    method UnpackInt(ghost n: Word, ghost tail: seq<Byte>) returns (v: Word)
      requires Todo(PutInt(n, tail))
      modifies this`p
      ensures v == n && p == old(p) + 4 && Todo(tail) && old(Done()) <= Done()
    {
      LoadedFromWire(n, bigEndian);
      PutIntParts(n, tail);
      assert response[p..p + 4] == response[p..][..4] == Big32(n);
      v := NetToHost(FromNative(response[p..p + 4], bigEndian), bigEndian);
      assert response[p + 4..] == response[p..][4..];
      p := p + 4;
    }

    method UnpackQword(ghost n: Qword, ghost tail: seq<Byte>) returns (v: Qword)
      requires Todo(PutInt(High(n), PutInt(Low(n), tail)))
      modifies this`p
      ensures v == n && Todo(tail) && old(Done()) <= Done()
    {
      hide Big32, High, Low;
      var hi: int := UnpackInt(High(n), PutInt(Low(n), tail));
      var lo: int := UnpackInt(Low(n), tail);
      QwordHalves(n);
      v := hi * 0x1_0000_0000 + lo;
    }

    // unpack_str: the string moves one byte to the left, into the last byte of its length,
    // and its old last byte becomes the terminator.
    method UnpackStr(ghost s: Text, ghost tail: seq<Byte>) returns (ptr: nat)
      requires Todo(PutStr(s, tail))
      modifies this`p, response
      ensures Todo(tail) && old(Done()) <= Done() && TextAt(Done(), ptr, s)
    {
      var len := UnpackInt(|s|, s + tail);
      MoveLeft(len, s, tail);
      p := p + len;
      response[p - 1] := 0;
      ptr := p - len - 1;
    }

    // memmove ( p - 1, p, len )
    method MoveLeft(len: nat, ghost s: seq<Byte>, ghost tail: seq<Byte>)
      requires Todo(s + tail) && len == |s| && p >= 4
      modifies response
      ensures p + len <= response.Length && response[p + len..] == tail
      ensures response[p - 1..p - 1 + len] == s && response[..p - 1] == old(response[..p - 1])
    {
      ghost var was := response[..];
      assert was[p..][..len] == s && was[p..][len..] == tail;
      forall i | 0 <= i < len {
        response[p - 1 + i] := response[p + i];
      }
      assert forall i :: 0 <= i < len ==> response[p - 1 + i] == was[p..][i];
    }

    // The loop over a multi-value attribute: word after word to the byte order of the machine
    method SwapWords(ptr: nat, count: nat, ghost ns: seq<Word>, ghost tail: seq<Byte>)
      requires ptr <= response.Length && response[ptr..] == PutInts(ns, tail) && count == |ns|
      modifies response
      ensures ptr + 4 * count <= response.Length && response[ptr + 4 * count..] == tail
      ensures response[..ptr] == old(response[..ptr])
      ensures WordsFrom(response[..ptr + 4 * count], bigEndian, ptr, ns)
    {
      hide WordAt, PutInt;
      var l := 0;
      assert ns[..0] == [] && ns[0..] == ns;
      assert WordsFrom(response[..ptr], bigEndian, ptr, []);
      hide WordsFrom;
      while l < count
        invariant 0 <= l <= count && ptr + 4 * l <= response.Length
        invariant response[ptr + 4 * l..] == PutInts(ns[l..], tail)
        invariant response[..ptr] == old(response[..ptr])
        invariant WordsFrom(response[..ptr + 4 * l], bigEndian, ptr, ns[..l])
      {
        ghost var m := response[..ptr + 4 * l];
        assert ns[l..][0] == ns[l] && ns[l..][1..] == ns[l + 1..];
        SwapWord(ptr + 4 * l, ns[l], PutInts(ns[l + 1..], tail));
        ghost var m' := response[..ptr + 4 * (l + 1)];
        assert m <= m' by {
          assert m'[..|m|] == response[..ptr + 4 * l];
        }
        WordsStay(m, m', bigEndian, ptr, ns[..l]);
        OneMoreWord(m', bigEndian, ptr, ns, l);
        assert response[..ptr] == m[..ptr] by {
          assert m'[..ptr] == m[..ptr];
        }
        l := l + 1;
      }
      assert ns[..count] == ns && ns[count..] == [];
    }

    // mva_value[l] = ntohl ( mva_value[l] )
    method SwapWord(q: nat, ghost n: Word, ghost tail: seq<Byte>)
      requires q <= response.Length && response[q..] == PutInt(n, tail)
      modifies response
      ensures q + 4 <= response.Length && response[q + 4..] == tail && response[..q] == old(response[..q])
      ensures WordAt(response[..q + 4], bigEndian, q, n)
    {
      LoadedFromWire(n, bigEndian);
      NativeRoundTrip(n, bigEndian);
      PutIntParts(n, tail);
      ghost var word := response[q..];
      assert word[..4] == Big32(n) && word[4..] == tail;
      assert response[q..q + 4] == word[..4];
      assert response[q + 4..] == word[4..];
      var bytes := Native(NetToHost(FromNative(response[q..q + 4], bigEndian), bigEndian), bigEndian);
      response[q], response[q + 1], response[q + 2], response[q + 3] := bytes[0], bytes[1], bytes[2], bytes[3];
      assert response[..q + 4][q..q + 4] == bytes;
    }

    method UnpackAttr(kind: Word, ghost a: Attr, ghost tail: seq<Byte>) returns (slot: Slot)
      requires HasKind(a, kind) && Todo(PutAttr(a, tail))
      modifies this`p, response
      ensures Todo(tail) && old(Done()) <= Done() && AttrAt(Done(), bigEndian, slot, a)
    {
      if kind == SPH_ATTR_MULTI_INTEGER {
        slot := MvaValue(p);
        UnpackMva(a.values, tail);
      } else if kind == SPH_ATTR_FLOAT {
        var bits := UnpackInt(a.bits, tail);
        slot := FloatValue(bits);
      } else {
        var n := UnpackInt(a.n, tail);
        slot := IntValue(n);
      }
    }

    // The count is read, and then swapped in place together with the values.
    method UnpackMva(ghost values: List<Word>, ghost tail: seq<Byte>)
      requires Todo(PutInt(|values|, PutInts(values, tail)))
      modifies this`p, response
      ensures Todo(tail) && old(Done()) <= Done()
      ensures WordsFrom(Done(), bigEndian, old(p), [|values|] + values)
    {
      hide PutInt, PutInts, WordsFrom;
      ghost var ns: seq<Word> := [|values|] + values;
      CountFirst(values, tail);
      var ptr := p;
      var len: nat := UnpackInt(|values|, PutInts(values, tail));
      SwapWords(ptr, 1 + len, ns, tail);
      p := p + len * 4;
    }

    method UnpackId(id64: Word, ghost id: Qword, ghost tail: seq<Byte>) returns (v: Qword)
      requires (id64 == 0 ==> id < 0x1_0000_0000) && Todo(PutId(id, id64, tail))
      modifies this`p
      ensures v == id && Todo(tail) && old(Done()) <= Done()
    {
      hide PutInt;
      if id64 != 0 {
        v := UnpackQword(id, tail);
      } else {
        v := UnpackInt(id, tail);
      }
    }

    // One match: its identifier, its weight and its attributes
    method UnpackMatch(kinds: seq<Word>, id64: Word, ghost x: Match, ghost columns: seq<Column>, ghost tail: seq<Byte>)
      returns (slots: seq<Slot>)
      requires |kinds| == |columns| && forall k :: 0 <= k < |columns| ==> kinds[k] == columns[k].kind
      requires MatchFits(x, columns, id64) && Todo(PutMatch(x, id64, tail))
      modifies this`p, response
      ensures Todo(tail) && old(Done()) <= Done() && MatchAt(Done(), bigEndian, slots, x) && |slots| == 2 + |columns|
    {
      hide PutInt, PutId, AttrAt, PutAttr, HasKind;
      var id := UnpackId(id64, x.id, PutInt(x.weight, PutAttrs(x.attrs, tail)));
      var weight := UnpackInt(x.weight, PutAttrs(x.attrs, tail));
      slots := [IntValue(ToInt64(id)), IntValue(weight)];
      var k := 0;
      while k < |kinds|
        invariant 0 <= k <= |kinds| && |slots| == 2 + k
        invariant Todo(PutAttrs(x.attrs[k..], tail)) && old(Done()) <= Done()
        invariant slots[0] == IntValue(ToInt64(x.id)) && slots[1] == IntValue(x.weight)
        invariant forall i :: 0 <= i < k ==> AttrAt(Done(), bigEndian, slots[2 + i], x.attrs[i])
      {
        assert x.attrs[k..][0] == x.attrs[k] && x.attrs[k..][1..] == x.attrs[k + 1..];
        ghost var m := Done();
        ghost var was := slots;
        var slot := UnpackAttr(kinds[k], x.attrs[k], PutAttrs(x.attrs[k + 1..], tail));
        slots := slots + [slot];
        forall i | 0 <= i < k + 1 ensures AttrAt(Done(), bigEndian, slots[2 + i], x.attrs[i]) {
          if i < k {
            AttrStays(m, Done(), bigEndian, was[2 + i], x.attrs[i]);
          }
        }
        k := k + 1;
      }
    }

    method UnpackMatches(num: nat, kinds: seq<Word>, id64: Word, ghost ms: seq<Match>, ghost columns: seq<Column>,
                         ghost tail: seq<Byte>)
      returns (pool: seq<Slot>)
      requires num == |ms| && |kinds| == |columns| && forall k :: 0 <= k < |columns| ==> kinds[k] == columns[k].kind
      requires MatchesFit(ms, columns, id64) && Todo(PutMatches(ms, columns, id64, tail))
      modifies this`p, response
      ensures Todo(tail) && old(Done()) <= Done() && PoolAt(Done(), bigEndian, pool, ms, 2 + |columns|)
    {
      hide PutMatch, MatchAt, MatchFits;
      pool := [];
      assert ms[0..] == ms && ms[..0] == [];
      var j := 0;
      while j < num
        invariant 0 <= j <= num
        invariant Todo(PutMatches(ms[j..], columns, id64, tail)) && old(Done()) <= Done()
        invariant PoolAt(Done(), bigEndian, pool, ms[..j], 2 + |columns|)
      {
        ghost var m := Done();
        assert ms[j..][0] == ms[j] && ms[j..][1..] == ms[j + 1..];
        var slots := UnpackMatch(kinds, id64, ms[j], columns, PutMatches(ms[j + 1..], columns, id64, tail));
        PoolStays(m, Done(), bigEndian, pool, ms[..j], 2 + |columns|);
        PoolGrows(Done(), bigEndian, pool, slots, ms, j, 2 + |columns|);
        pool := pool + slots;
        j := j + 1;
      }
      assert ms[..num] == ms;
    }

    method UnpackFields(ghost fields: List<Text>, ghost tail: seq<Byte>) returns (ok: bool, ptrs: seq<nat>)
      requires Todo(PutInt(|fields|, PutStrs(fields, tail)))
      modifies this`p, response
      ensures ok == Fits(|fields|, 8)
      ensures ok ==> Todo(tail) && old(Done()) <= Done() && TextsAt(Done(), ptrs, fields)
    {
      hide PutInt, PutStr, TextAt;
      ptrs := [];
      var num := UnpackInt(|fields|, PutStrs(fields, tail));
      ok := Fits(num, 8);
      if !ok {
        return;
      }
      for j := 0 to num
        invariant Todo(PutStrs(fields[j..], tail)) && old(Done()) <= Done() && TextsAt(Done(), ptrs, fields[..j])
      {
        ghost var m := Done();
        assert fields[j..][0] == fields[j] && fields[j..][1..] == fields[j + 1..];
        var ptr := UnpackStr(fields[j], PutStrs(fields[j + 1..], tail));
        TextsStay(m, Done(), ptrs, fields[..j]);
        ptrs := ptrs + [ptr];
      }
      assert fields[..num] == fields;
    }

    method UnpackColumns(ghost cs: List<Column>, ghost tail: seq<Byte>)
      returns (ok: bool, names: seq<nat>, types: seq<Word>)
      requires Todo(PutInt(|cs|, PutColumns(cs, tail)))
      modifies this`p, response
      ensures ok == (Fits(|cs|, 8) && Fits(|cs|, 4))
      ensures ok ==> Todo(tail) && old(Done()) <= Done() && ColumnsAt(Done(), names, types, cs)
    {
      hide PutInt, PutStr, TextAt;
      names, types := [], [];
      var num := UnpackInt(|cs|, PutColumns(cs, tail));
      ok := Fits(num, 8) && Fits(num, 4);
      if !ok {
        return;
      }
      assert ColumnsAt(Done(), names, types, []);
      hide ColumnsAt;
      for j := 0 to num
        invariant Todo(PutColumns(cs[j..], tail)) && old(Done()) <= Done() && ColumnsAt(Done(), names, types, cs[..j])
      {
        ghost var m := Done();
        assert cs[j..][0] == cs[j] && cs[j..][1..] == cs[j + 1..];
        var name, kind := UnpackColumn(cs[j], PutColumns(cs[j + 1..], tail));
        ColumnsStay(m, Done(), names, types, cs[..j]);
        OneMoreColumn(Done(), names, types, cs, j, name);
        names, types := names + [name], types + [kind];
      }
      assert cs[..num] == cs;
    }

    method UnpackColumn(ghost c: Column, ghost tail: seq<Byte>) returns (name: nat, kind: Word)
      requires Todo(PutStr(c.name, PutInt(c.kind, tail)))
      modifies this`p, response
      ensures Todo(tail) && old(Done()) <= Done() && TextAt(Done(), name, c.name) && kind == c.kind
    {
      hide PutInt, PutStr, TextAt;
      name := UnpackStr(c.name, PutInt(c.kind, tail));
      ghost var m := Done();
      kind := UnpackInt(c.kind, tail);
      TextStays(m, Done(), name, c.name);
    }

    method UnpackWords(ghost ws: List<WordStat>, ghost tail: seq<Byte>) returns (ok: bool, infos: seq<WordInfo>)
      requires Todo(PutInt(|ws|, PutWords(ws, tail)))
      modifies this`p, response
      ensures ok == Fits(|ws|, 16)
      ensures ok ==> Todo(tail) && old(Done()) <= Done() && StatsAt(Done(), infos, ws)
    {
      hide PutInt, PutStr, StatAt;
      infos := [];
      var num := UnpackInt(|ws|, PutWords(ws, tail));
      ok := Fits(num, 16);
      if !ok {
        return;
      }
      for j := 0 to num
        invariant Todo(PutWords(ws[j..], tail)) && old(Done()) <= Done() && StatsAt(Done(), infos, ws[..j])
      {
        ghost var m := Done();
        assert ws[j..][0] == ws[j] && ws[j..][1..] == ws[j + 1..];
        var info := UnpackWord(ws[j], PutWords(ws[j + 1..], tail));
        StatsStay(m, Done(), infos, ws[..j]);
        infos := infos + [info];
      }
      assert ws[..num] == ws;
    }

    method UnpackWord(ghost w: WordStat, ghost tail: seq<Byte>) returns (info: WordInfo)
      requires Todo(PutStr(w.word, PutInt(w.docs, PutInt(w.hits, tail))))
      modifies this`p, response
      ensures Todo(tail) && old(Done()) <= Done() && StatAt(Done(), info, w)
    {
      hide PutInt, PutStr, TextAt;
      var word := UnpackStr(w.word, PutInt(w.docs, PutInt(w.hits, tail)));
      ghost var m := Done();
      var docs := UnpackInt(w.docs, PutInt(w.hits, tail));
      var hits := UnpackInt(w.hits, tail);
      TextStays(m, Done(), word, w.word);
      info := WordInfo(word, ToInt32(docs), ToInt32(hits));
    }

    // Everything after the status: fields, attributes, matches, totals and words
    method UnpackTable(status: Word, warning: Option<nat>, ghost a: Answer, ghost tail: seq<Byte>)
      returns (ok: bool, r: Result)
      requires a.Found? && WellFormed(a) && Todo(PutTable(a, tail))
      modifies this`p, response
      ensures ok == Allocates(a)
      ensures ok ==> Todo(tail) && old(Done()) <= Done() && TableAt(Done(), bigEndian, r, a)
      ensures ok ==> r.status == status && r.warning == warning && r.error == None
    {
      hide PutInt, PutStrs, PutColumns, PutMatches, PutTotals, PutWords, TextsAt, ColumnsAt, PoolAt, StatsAt, MatchesFit;
      ghost var onWords := PutInt(|a.words|, PutWords(a.words, tail));
      ghost var onTotals := PutTotals(a.totals, onWords);
      ghost var onMatches := PutInt(|a.matches|, PutInt(a.id64, PutMatches(a.matches, a.columns, a.id64, onTotals)));
      r := Result(status, None, warning, [], [], [], 0, [], 0, 0, 0, []);
      var fields, names, types, num, pool, words;
      ok, fields := UnpackFields(a.fields, PutInt(|a.columns|, PutColumns(a.columns, onMatches)));
      if !ok {
        return;
      }
      ghost var m0 := Done();
      ok, names, types := UnpackColumns(a.columns, onMatches);
      if !ok {
        return;
      }
      ghost var m1 := Done();
      ColumnKinds(m1, names, types, a.columns);
      ok, num, pool := UnpackPool(types, a, onTotals);
      if !ok {
        return;
      }
      ghost var m2 := Done();
      var totals := UnpackTotals(a.totals, onWords);
      ok, words := UnpackWords(a.words, tail);
      if !ok {
        return;
      }
      TextsStay(m0, Done(), fields, a.fields);
      ColumnsStay(m1, Done(), names, types, a.columns);
      PoolStays(m2, Done(), bigEndian, pool, a.matches, 2 + |a.columns|);
      r := Result(status, None, warning, fields, names, types, num, pool, ToInt32(totals.total),
                  ToInt32(totals.totalFound), ToInt32(totals.timeMsec), words);
    }

    method UnpackPool(types: seq<Word>, ghost a: Answer, ghost tail: seq<Byte>)
      returns (ok: bool, num: nat, pool: seq<Slot>)
      requires a.Found? && WellFormed(a)
      requires |types| == |a.columns| && forall k :: 0 <= k < |a.columns| ==> types[k] == a.columns[k].kind
      requires Todo(PutInt(|a.matches|, PutInt(a.id64, PutMatches(a.matches, a.columns, a.id64, tail))))
      modifies this`p, response
      ensures ok == Fits((2 + |a.columns|) * |a.matches|, 8)
      ensures ok ==> num == |a.matches| && Todo(tail) && old(Done()) <= Done()
      ensures ok ==> PoolAt(Done(), bigEndian, pool, a.matches, 2 + |a.columns|)
    {
      hide PutInt, PutMatches, PoolAt, MatchesFit;
      pool := [];
      num := UnpackInt(|a.matches|, PutInt(a.id64, PutMatches(a.matches, a.columns, a.id64, tail)));
      var id64 := UnpackInt(a.id64, PutMatches(a.matches, a.columns, a.id64, tail));
      ok := Fits((2 + |types|) * num, 8);
      if ok {
        pool := UnpackMatches(num, types, id64, a.matches, a.columns, tail);
      }
    }

    method UnpackTotals(ghost t: Totals, ghost tail: seq<Byte>) returns (r: Totals)
      requires Todo(PutTotals(t, tail))
      modifies this`p
      ensures r == t && Todo(tail) && old(Done()) <= Done()
    {
      hide PutInt;
      var total := UnpackInt(t.total, PutInt(t.totalFound, PutInt(t.timeMsec, tail)));
      var totalFound := UnpackInt(t.totalFound, PutInt(t.timeMsec, tail));
      var timeMsec := UnpackInt(t.timeMsec, tail);
      r := Totals(total, totalFound, timeMsec);
    }

    // One turn of the loop over the results
    method UnpackResult(ghost a: Answer, ghost tail: seq<Byte>) returns (ok: bool, r: Result)
      requires WellFormed(a) && Todo(PutAnswer(a, tail))
      modifies this`p, response
      ensures ok == Allocates(a)
      ensures ok ==> Todo(tail) && old(Done()) <= Done() && AnswerAt(Done(), bigEndian, r, a)
    {
      hide PutInt, PutStr, PutTable, TextAt, TableAt, Fits, MatchesFit;
      var status := UnpackInt(StatusOf(a), AfterStatus(a, tail));
      var warning: Option<nat> := None;
      ghost var m := Done();
      if status != SEARCHD_OK {
        var text := UnpackStr(if a.Failed? then a.error else a.warning.value, if a.Failed? then tail else PutTable(a, tail));
        m := Done();
        if status == SEARCHD_WARNING {
          warning := Some(text);
        } else {
          r := Result(status, Some(text), None, [], [], [], 0, [], 0, 0, 0, []);
          return true, r;
        }
      }
      ok, r := UnpackTable(status, warning, a, tail);
      if ok && warning.Some? {
        TextStays(m, Done(), warning.value, a.warning.value);
      }
    }

    // The block ends at pmax only where the results start at its first byte. Behind a warning and
    // with fewer answers than requests, the loop goes on behind the block.
    method RunQueries(nreqs: nat, ghost answers: seq<Answer>) returns (ending: Ending, results: seq<Result>)
      requires AllWellFormed(answers) && Todo(PutAnswers(answers)) && p == start
      modifies this`p, response
      ensures ending == NoMemory <==> !AllAllocate(Taken(nreqs, answers))
      ensures ending == PastTheBlock <==> AllAllocate(Taken(nreqs, answers)) && |answers| < nreqs && start > 0
      ensures ending != NoMemory ==>
                AnswersAt(response[..], bigEndian, results, Taken(nreqs, answers)) && old(Done()) <= response[..]
    {
      hide PutAnswer, PutAnswers, AnswerAt, AnswersAt, WellFormed, Allocates;
      results := [];
      var i := 0;
      var pmax := start + response.Length;
      assert answers[0..] == answers && answers[..0] == [];
      NoAnswers(Done(), bigEndian);
      while i < nreqs && p < pmax
        invariant 0 <= i <= |Taken(nreqs, answers)|
        invariant Todo(PutAnswers(answers[i..]))
        invariant AnswersAt(Done(), bigEndian, results, answers[..i]) && old(Done()) <= Done()
        invariant forall k :: 0 <= k < i ==> Allocates(Taken(nreqs, answers)[k])
        decreases nreqs - i
      {
        ghost var m := Done();
        AnswerTakesBytes(answers, i);
        if p == response.Length {
          assert answers[..i] == Taken(nreqs, answers);
          AnswersStay(Done(), response[..], bigEndian, results, answers[..i]);
          return PastTheBlock, results;
        }
        AnswersStep(answers, i);
        var ok, res := UnpackResult(answers[i], PutAnswers(answers[i + 1..]));
        if !ok {
          return NoMemory, results;
        }
        AnswersStay(m, Done(), bigEndian, results, answers[..i]);
        OneMoreAnswer(Done(), bigEndian, results, answers, i, res);
        results := results + [res];
        i := i + 1;
      }
      AnswerTakesBytes(answers, i);
      ending := Complete;
      assert answers[..i] == Taken(nreqs, answers);
      AnswersStay(Done(), response[..], bigEndian, results, answers[..i]);
    }

    // net_get_response once the bytes have been read, for the two statuses that keep them, and
    // then the loop over the results: everything that is returned reads back as what was sent,
    // and nothing behind the block is read unless there is a warning and an answer is missing.
    method Decode(status: Word, nreqs: nat, ghost message: Option<Text>, ghost answers: seq<Answer>)
      returns (ending: Ending, warning: Option<nat>, results: seq<Result>)
      requires AllWellFormed(answers) && p == 0
      requires status == if message == None then SEARCHD_OK else SEARCHD_WARNING
      requires response[..] == PutMessage(message, PutAnswers(answers))
      modifies this, response
      ensures ending == NoMemory <==> !AllAllocate(Taken(nreqs, answers))
      ensures ending == PastTheBlock <==> AllAllocate(Taken(nreqs, answers)) && |answers| < nreqs && message.Some?
      ensures ending != NoMemory ==> AnswersAt(response[..], bigEndian, results, Taken(nreqs, answers))
      ensures warning.Some? == message.Some?
      ensures ending != NoMemory && message.Some? ==> TextAt(response[..], warning.value, message.value)
    {
      hide PutAnswers, AnswersAt, AllWellFormed, AllAllocate, PutStr, TextAt;
      assert response[0..] == response[..];
      warning := None;
      if status == SEARCHD_WARNING {
        var text := UnpackStr(message.value, PutAnswers(answers));
        warning := Some(text);
      }
      start := p;
      ghost var m := Done();
      ending, results := RunQueries(nreqs, answers);
      if ending != NoMemory && message.Some? {
        TextStays(m, response[..], warning.value, message.value);
      }
    }
  }

  // How the loop over the results ends: an array cannot be allocated, or it goes on behind the
  // last byte of the response, which is where the model stops.
  datatype Ending = Complete | NoMemory | PastTheBlock

  // One answer is read for each request, while there are any.
  function Taken(nreqs: nat, answers: seq<Answer>): seq<Answer> {
    answers[..if nreqs < |answers| then nreqs else |answers|]
  }

  predicate AllAllocate(answers: seq<Answer>)
    requires AllWellFormed(answers)
  {
    forall i :: 0 <= i < |answers| ==> Allocates(answers[i])
  }

  lemma CountFirst(values: List<Word>, tail: seq<Byte>)
    ensures PutInts([|values|] + values, tail) == PutInt(|values|, PutInts(values, tail))
  {
    hide PutInt;
    var ns: seq<Word> := [|values|] + values;
    assert ns[0] == |values| && ns[1..] == values;
  }

  function StatusOf(a: Answer): Word {
    match a
    case Failed(status, _) => status
    case Found(warning, _, _, _, _, _, _) => if warning == None then SEARCHD_OK else SEARCHD_WARNING
  }

  function AfterStatus(a: Answer, tail: seq<Byte>): seq<Byte>
    requires WellFormed(a)
  {
    match a
    case Failed(_, error) => PutStr(error, tail)
    case Found(None, _, _, _, _, _, _) => PutTable(a, tail)
    case Found(Some(warning), _, _, _, _, _, _) => PutStr(warning, PutTable(a, tail))
  }

  lemma AnswersStep(answers: seq<Answer>, i: nat)
    requires i < |answers| && AllWellFormed(answers)
    ensures WellFormed(answers[i]) && PutAnswers(answers[i..]) == PutAnswer(answers[i], PutAnswers(answers[i + 1..]))
  {
    hide PutAnswer, WellFormed;
    assert answers[i..][0] == answers[i] && answers[i..][1..] == answers[i + 1..];
  }

  lemma NoAnswers(m: seq<Byte>, bigEndian: bool)
    ensures AnswersAt(m, bigEndian, [], [])
  {
  }

  lemma OneMoreAnswer(m: seq<Byte>, bigEndian: bool, rs: seq<Result>, answers: seq<Answer>, i: nat, r: Result)
    requires i < |answers| && AllWellFormed(answers)
    requires AnswersAt(m, bigEndian, rs, answers[..i]) && AnswerAt(m, bigEndian, r, answers[i])
    ensures AnswersAt(m, bigEndian, rs + [r], answers[..i + 1])
  {
    hide AnswerAt, WellFormed;
    assert forall k :: 0 <= k < i ==> answers[..i][k] == answers[k];
  }

  lemma AnswerTakesBytes(answers: seq<Answer>, i: nat)
    requires i <= |answers| && AllWellFormed(answers)
    ensures i < |answers| <==> PutAnswers(answers[i..]) != []
  {
  }

  lemma ColumnKinds(m: seq<Byte>, names: seq<nat>, types: seq<Word>, cs: seq<Column>)
    requires ColumnsAt(m, names, types, cs)
    ensures |types| == |cs| && forall k :: 0 <= k < |cs| ==> types[k] == cs[k].kind
  {
  }

  lemma PoolGrows(m: seq<Byte>, bigEndian: bool, pool: seq<Slot>, slots: seq<Slot>, ms: seq<Match>, j: nat, width: nat)
    requires j < |ms| && PoolAt(m, bigEndian, pool, ms[..j], width)
    requires MatchAt(m, bigEndian, slots, ms[j]) && |slots| == width
    ensures PoolAt(m, bigEndian, pool + slots, ms[..j + 1], width)
  {
    hide MatchAt;
    assert (pool + slots)[|pool + slots| - width..] == slots && (pool + slots)[..|pool + slots| - width] == pool;
    assert ms[..j + 1][..j] == ms[..j] && ms[..j + 1][j] == ms[j];
  }

  lemma OneMoreColumn(m: seq<Byte>, names: seq<nat>, types: seq<Word>, cs: seq<Column>, j: nat, name: nat)
    requires j < |cs| && ColumnsAt(m, names, types, cs[..j]) && TextAt(m, name, cs[j].name)
    ensures ColumnsAt(m, names + [name], types + [cs[j].kind], cs[..j + 1])
  {
    hide TextAt;
    assert forall i :: 0 <= i < j ==> cs[..j][i] == cs[i];
  }

  lemma OneMoreWord(m: seq<Byte>, bigEndian: bool, p: nat, ns: seq<Word>, l: nat)
    requires l < |ns| && WordsFrom(m, bigEndian, p, ns[..l]) && WordAt(m, bigEndian, p + 4 * l, ns[l])
    ensures WordsFrom(m, bigEndian, p, ns[..l + 1])
  {
    hide WordAt;
    forall i | 0 <= i < l + 1 ensures WordAt(m, bigEndian, p + 4 * i, ns[..l + 1][i]) {
      if i < l {
        assert ns[..l][i] == ns[i];
      }
    }
  }

  // ---------- the accessors ----------

  // What strlen and strcpy see
  function CString(m: seq<Byte>, p: nat): seq<Byte>
    decreases |m| - p
  {
    if p >= |m| || m[p] == 0 then [] else [m[p]] + CString(m, p + 1)
  }

  function ValueIndex(r: Result, index: nat, attr: int): int {
    (2 + |r.attrNames|) * index + 2 + attr
  }

  predicate HasValue(r: Result, index: nat, attr: int) {
    0 <= ValueIndex(r, index, attr) < |r.valuesPool|
  }

  // Reading the union by another member than the one written is up to the caller.
  function GetInt(r: Result, index: nat, attr: int): int
    requires HasValue(r, index, attr) && r.valuesPool[ValueIndex(r, index, attr)].IntValue?
  {
    r.valuesPool[ValueIndex(r, index, attr)].int_value
  }

  function GetId(r: Result, index: nat): Qword
    requires HasValue(r, index, -2) && r.valuesPool[ValueIndex(r, index, -2)].IntValue?
  {
    ToQword(GetInt(r, index, -2))
  }

  function GetWeight(r: Result, index: nat): Int
    requires HasValue(r, index, -1) && r.valuesPool[ValueIndex(r, index, -1)].IntValue?
  {
    ToInt32(ToWord(GetInt(r, index, -1)))
  }

  function GetFloat(r: Result, index: nat, attr: int): Word
    requires HasValue(r, index, attr) && r.valuesPool[ValueIndex(r, index, attr)].FloatValue?
  {
    r.valuesPool[ValueIndex(r, index, attr)].float_value
  }

  function GetMva(r: Result, index: nat, attr: int): nat
    requires HasValue(r, index, attr) && r.valuesPool[ValueIndex(r, index, attr)].MvaValue?
  {
    r.valuesPool[ValueIndex(r, index, attr)].mva_value
  }

  // A returned string, read up to its NUL, is the sent one up to its first NUL.
  lemma {:induction false} TextReads(m: seq<Byte>, p: nat, s: seq<Byte>)
    requires TextAt(m, p, s)
    ensures CString(m, p) == CString(s, 0)
    ensures (forall i :: 0 <= i < |s| ==> s[i] != 0) ==> CString(m, p) == s
  {
    CStringFrom(m, p, s, 0);
  }

  lemma {:induction false} CStringFrom(m: seq<Byte>, p: nat, s: seq<Byte>, i: nat)
    requires TextAt(m, p, s) && i <= |s|
    ensures CString(m, p + i) == CString(s, i)
    ensures (forall k :: i <= k < |s| ==> s[k] != 0) ==> CString(s, i) == s[i..]
    decreases |s| - i
  {
    if i < |s| {
      assert m[p + i] == m[p..p + |s|][i];
      CStringFrom(m, p, s, i + 1);
    }
  }

  lemma {:induction false} PoolSlots(m: seq<Byte>, bigEndian: bool, pool: seq<Slot>, ms: seq<Match>, width: nat, j: nat)
    requires PoolAt(m, bigEndian, pool, ms, width) && j < |ms|
    ensures 0 <= width * j <= width * j + width <= |pool|
    ensures MatchAt(m, bigEndian, pool[width * j..width * j + width], ms[j])
    decreases |ms|
  {
    hide MatchAt;
    var n, first := |pool| - width, width * j;
    if j == |ms| - 1 {
      PoolLength(m, bigEndian, pool, ms, width);
      Widths(width, j, |ms|);
      assert pool[first..first + width] == pool[n..];
    } else {
      PoolSlots(m, bigEndian, pool[..n], ms[..|ms| - 1], width, j);
      assert pool[..n][first..first + width] == pool[first..first + width];
    }
  }

  lemma Widths(width: nat, j: nat, n: nat)
    requires n == j + 1
    ensures width * n == width * j + width
  {
  }

  lemma {:induction false} PoolLength(m: seq<Byte>, bigEndian: bool, pool: seq<Slot>, ms: seq<Match>, width: nat)
    requires PoolAt(m, bigEndian, pool, ms, width)
    ensures |pool| == width * |ms|
    decreases |ms|
  {
    hide MatchAt;
    if ms != [] {
      PoolLength(m, bigEndian, pool[..|pool| - width], ms[..|ms| - 1], width);
      Widths(width, |ms| - 1, |ms|);
    }
  }

  // The identifier and the weight of every match
  lemma MatchReads(m: seq<Byte>, bigEndian: bool, r: Result, a: Answer, j: nat)
    requires a.Found? && AnswerAt(m, bigEndian, r, a) && j < |a.matches|
    ensures HasValue(r, j, -2) && r.valuesPool[ValueIndex(r, j, -2)].IntValue? && GetId(r, j) == a.matches[j].id
    ensures HasValue(r, j, -1) && r.valuesPool[ValueIndex(r, j, -1)].IntValue?
    ensures GetWeight(r, j) == ToInt32(a.matches[j].weight)
  {
    hide PoolAt, TextsAt, StatsAt, TextAt;
    var width := 2 + |a.columns|;
    PoolSlots(m, bigEndian, r.valuesPool, a.matches, width, j);
    assert ValueIndex(r, j, -2) == width * j && ValueIndex(r, j, -1) == width * j + 1;
  }

  // Every attribute of every match, by its column
  lemma AttrReads(m: seq<Byte>, bigEndian: bool, r: Result, a: Answer, j: nat, k: nat)
    requires a.Found? && AnswerAt(m, bigEndian, r, a) && WellFormed(a) && j < |a.matches| && k < |a.columns|
    ensures |a.matches[j].attrs| == |a.columns| && HasValue(r, j, k)
    ensures var slot := r.valuesPool[ValueIndex(r, j, k)];
            match a.matches[j].attrs[k]
            case Scalar(n) => slot.IntValue? && GetInt(r, j, k) == n
            case Float(bits) => slot.FloatValue? && GetFloat(r, j, k) == bits
            case Multi(values) => slot.MvaValue? && WordsFrom(m, bigEndian, GetMva(r, j, k), [|values|] + values)
  {
    hide PoolAt, TextsAt, StatsAt, TextAt, WordsFrom, HasKind;
    var width := 2 + |a.columns|;
    PoolSlots(m, bigEndian, r.valuesPool, a.matches, width, j);
    assert MatchFits(a.matches[j], a.columns, a.id64);
    assert ValueIndex(r, j, k) == width * j + 2 + k;
    var slots := r.valuesPool[width * j..width * j + width];
    assert slots[2 + k] == r.valuesPool[ValueIndex(r, j, k)];
    assert AttrAt(m, bigEndian, slots[2 + k], a.matches[j].attrs[k]);
  }
}
