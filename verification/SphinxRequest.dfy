/**
 * Building a search request in libsphinxclient/sphinxclient.c: one function computes the length
 * of the request, another writes it without looking at the end of the buffer.
 *
 * The layout is given by functions that put a part in front of a tail. The writer is proved to
 * follow the layout byte by byte, and the computed length to be that of the layout.
 */
module SphinxRequest {
  import opened Wire
  import opened Wrappers

  const SPH_FILTER_VALUES: Int := 0
  const SPH_FILTER_RANGE: Int := 1
  const SPH_FILTER_FLOATRANGE: Int := 2
  const SPH_ATTR_INTEGER: Word := 1
  const SEARCHD_COMMAND_SEARCH: Short := 0
  const MAX_REQS := 32

  type Int64 = n: int | -0x8000_0000_0000_0000 <= n < 0x8000_0000_0000_0000

  // A C string that may be NULL
  type CStr = Option<Text>

  // ---------- the settings of a client ----------

  // A float is its 32-bit pattern.
  datatype Filter = Filter(attr: CStr, filterType: Int, values: List<Int64>, umin: Int64, umax: Int64,
                           fmin: Word, fmax: Word, exclude: Int)

  datatype Matching = Matching(offset: Int, limit: Int, mode: Int, ranker: Int, sort: Int, sortby: CStr,
                               weights: List<Int>, minid: Qword, maxid: Qword)

  datatype Grouping = Grouping(groupFunc: Int, groupBy: CStr, maxMatches: Int, groupSort: CStr, cutoff: Int, retryCount: Int,
                               retryDelay: Int, groupDistinct: CStr)

  datatype Geo = Geo(attrLat: CStr, attrLong: CStr, lat: Word, long: Word)

  datatype Named = Named(name: CStr, weight: Int)

  datatype Override = Override(attr: CStr, values: List<(Qword, Word)>)

  datatype Settings = Settings(matching: Matching, filters: List<Filter>, grouping: Grouping, geo: Geo,
                               indexWeights: List<Named>, maxQueryTime: Int, fieldWeights: List<Named>,
                               overrides: List<Override>, selectList: CStr)

  datatype Query = Query(settings: Settings, query: CStr, index: CStr, comment: CStr)

  function Chars(s: CStr): Text {
    if s.Some? then s.value else []
  }

  // ---------- the request, followed by `tail` ----------

  function PutI(n: Int, tail: seq<Byte>): seq<Byte> {
    PutInt(ToWord(n), tail)
  }

  function PutIs(ns: seq<Int>, tail: seq<Byte>): seq<Byte> {
    if ns == [] then tail else PutI(ns[0], PutIs(ns[1..], tail))
  }

  function PutQ(n: Qword, tail: seq<Byte>): seq<Byte> {
    PutInt(High(n), PutInt(Low(n), tail))
  }

  function PutS(s: CStr, tail: seq<Byte>): seq<Byte> {
    PutStr(Chars(s), tail)
  }

  function PutMatching(m: Matching, query: CStr, index: CStr, tail: seq<Byte>): seq<Byte> {
    PutI(m.offset, PutI(m.limit, PutI(m.mode, PutI(m.ranker, PutI(m.sort, PutS(m.sortby, PutS(query,
    PutInt(|m.weights|, PutIs(m.weights, PutS(index, PutInt(1, PutQ(m.minid, PutQ(m.maxid, tail)))))))))))))
  }

  // The values of a filter are 64 bits wide from version 0x114 on.
  function PutValue(n: Int64, version: Short, tail: seq<Byte>): seq<Byte> {
    if version >= 0x114 then PutQ(ToQword(n), tail) else PutInt(ToWord(n), tail)
  }

  function PutValues(ns: seq<Int64>, version: Short, tail: seq<Byte>): seq<Byte> {
    if ns == [] then tail else PutValue(ns[0], version, PutValues(ns[1..], version, tail))
  }

  function PutFilterBody(f: Filter, version: Short, tail: seq<Byte>): seq<Byte> {
    if f.filterType == SPH_FILTER_VALUES then PutInt(|f.values|, PutValues(f.values, version, tail))
    else if f.filterType == SPH_FILTER_RANGE then PutValue(f.umin, version, PutValue(f.umax, version, tail))
    else if f.filterType == SPH_FILTER_FLOATRANGE then PutInt(f.fmin, PutInt(f.fmax, tail))
    else tail
  }

  function PutFilter(f: Filter, version: Short, tail: seq<Byte>): seq<Byte> {
    PutS(f.attr, PutI(f.filterType, PutFilterBody(f, version, PutI(f.exclude, tail))))
  }

  function PutFilters(fs: seq<Filter>, version: Short, tail: seq<Byte>): seq<Byte> {
    if fs == [] then tail else PutFilter(fs[0], version, PutFilters(fs[1..], version, tail))
  }

  function PutGrouping(g: Grouping, tail: seq<Byte>): seq<Byte> {
    PutI(g.groupFunc, PutS(g.groupBy, PutI(g.maxMatches, PutS(g.groupSort, PutI(g.cutoff, PutI(g.retryCount, PutI(g.retryDelay,
    PutS(g.groupDistinct, tail))))))))
  }

  function PutGeo(g: Geo, tail: seq<Byte>): seq<Byte> {
    if g.attrLat.Some? && g.attrLong.Some? then
      PutInt(1, PutS(g.attrLat, PutS(g.attrLong, PutInt(g.lat, PutInt(g.long, tail)))))
    else PutInt(0, tail)
  }

  function PutNameds(ns: seq<Named>, tail: seq<Byte>): seq<Byte> {
    if ns == [] then tail else PutS(ns[0].name, PutI(ns[0].weight, PutNameds(ns[1..], tail)))
  }

  function PutPairs(ps: seq<(Qword, Word)>, tail: seq<Byte>): seq<Byte> {
    if ps == [] then tail else PutQ(ps[0].0, PutInt(ps[0].1, PutPairs(ps[1..], tail)))
  }

  function PutOverride(o: Override, tail: seq<Byte>): seq<Byte> {
    PutS(o.attr, PutInt(SPH_ATTR_INTEGER, PutInt(|o.values|, PutPairs(o.values, tail))))
  }

  function PutOverrides(os: seq<Override>, tail: seq<Byte>): seq<Byte> {
    if os == [] then tail else PutOverride(os[0], PutOverrides(os[1..], tail))
  }

  function PutWeights(s: Settings, comment: CStr, tail: seq<Byte>): seq<Byte> {
    PutInt(|s.indexWeights|, PutNameds(s.indexWeights, PutI(s.maxQueryTime,
    PutInt(|s.fieldWeights|, PutNameds(s.fieldWeights, PutS(comment, tail))))))
  }

  function PutExtras(s: Settings, version: Short, tail: seq<Byte>): seq<Byte> {
    var select := if version >= 0x116 then PutS(s.selectList, tail) else tail;
    if version >= 0x115 then PutInt(|s.overrides|, PutOverrides(s.overrides, select)) else select
  }

  function PutRequest(q: Query, version: Short, tail: seq<Byte>): seq<Byte> {
    var s := q.settings;
    PutMatching(s.matching, q.query, q.index,
    PutInt(|s.filters|, PutFilters(s.filters, version,
    PutGrouping(s.grouping, PutGeo(s.geo, PutWeights(s, q.comment, PutExtras(s, version, tail)))))))
  }

  // ---------- the lengths that calc_req_len adds up ----------

  function ValueSize(version: Short): nat {
    if version >= 0x114 then 8 else 4
  }

  lemma {:induction false} IsLength(ns: seq<Int>, tail: seq<Byte>)
    ensures |PutIs(ns, tail)| == 4 * |ns| + |tail|
  {
    if ns != [] {
      IsLength(ns[1..], tail);
    }
  }

  lemma {:induction false} ValuesLength(ns: seq<Int64>, version: Short, tail: seq<Byte>)
    ensures |PutValues(ns, version, tail)| == ValueSize(version) * |ns| + |tail|
  {
    if ns != [] {
      ValuesLength(ns[1..], version, tail);
    }
  }

  lemma {:induction false} PairsLength(ps: seq<(Qword, Word)>, tail: seq<Byte>)
    ensures |PutPairs(ps, tail)| == 12 * |ps| + |tail|
  {
    if ps != [] {
      PairsLength(ps[1..], tail);
    }
  }

  function FilterLength(f: Filter, version: Short): nat {
    12 + |Chars(f.attr)| +
    if f.filterType == SPH_FILTER_VALUES then 4 + ValueSize(version) * |f.values|
    else if f.filterType == SPH_FILTER_RANGE then 2 * ValueSize(version)
    else if f.filterType == SPH_FILTER_FLOATRANGE then 8
    else 0
  }

  lemma FilterHasLength(f: Filter, version: Short, tail: seq<Byte>)
    ensures |PutFilter(f, version, tail)| == FilterLength(f, version) + |tail|
  {
    ValuesLength(f.values, version, PutI(f.exclude, tail));
    hide PutValues, Big32;
  }

  lemma MatchingHasLength(m: Matching, query: CStr, index: CStr, tail: seq<Byte>)
    ensures |PutMatching(m, query, index, tail)|
            == 56 + 4 * |m.weights| + |Chars(m.sortby)| + |Chars(query)| + |Chars(index)| + |tail|
  {
    IsLength(m.weights, PutS(index, PutInt(1, PutQ(m.minid, PutQ(m.maxid, tail)))));
    hide Big32, PutIs, Chars;
  }

  lemma GroupingHasLength(g: Grouping, tail: seq<Byte>)
    ensures |PutGrouping(g, tail)| == 32 + |Chars(g.groupBy)| + |Chars(g.groupSort)| + |Chars(g.groupDistinct)| + |tail|
  {
    hide Big32, Chars;
  }

  lemma OverrideHasLength(o: Override, tail: seq<Byte>)
    ensures |PutOverride(o, tail)| == 12 + |Chars(o.attr)| + 12 * |o.values| + |tail|
  {
    PairsLength(o.values, tail);
    hide Big32, Chars, PutPairs;
  }

  function FiltersLength(fs: seq<Filter>, version: Short): nat {
    if fs == [] then 0 else FilterLength(fs[0], version) + FiltersLength(fs[1..], version)
  }

  lemma FiltersStep(fs: seq<Filter>, i: nat, version: Short)
    requires i < |fs|
    ensures FiltersLength(fs[i..], version) == FilterLength(fs[i], version) + FiltersLength(fs[i + 1..], version)
  {
    hide FilterLength;
    assert fs[i..][0] == fs[i] && fs[i..][1..] == fs[i + 1..];
  }

  function NamedsLength(ns: seq<Named>): nat {
    if ns == [] then 0 else 8 + |Chars(ns[0].name)| + NamedsLength(ns[1..])
  }

  function OverridesLength(os: seq<Override>): nat {
    if os == [] then 0 else 12 + |Chars(os[0].attr)| + 12 * |os[0].values| + OverridesLength(os[1..])
  }

  function GeoLength(g: Geo): nat {
    if g.attrLat.Some? && g.attrLong.Some? then 16 + |Chars(g.attrLat)| + |Chars(g.attrLong)| else 0
  }

  lemma {:induction false} FiltersHaveLength(fs: seq<Filter>, version: Short, tail: seq<Byte>)
    ensures |PutFilters(fs, version, tail)| == FiltersLength(fs, version) + |tail|
  {
    if fs != [] {
      FilterHasLength(fs[0], version, PutFilters(fs[1..], version, tail));
      FiltersHaveLength(fs[1..], version, tail);
      hide PutFilter, FilterLength;
    }
  }

  lemma {:induction false} NamedsHaveLength(ns: seq<Named>, tail: seq<Byte>)
    ensures |PutNameds(ns, tail)| == NamedsLength(ns) + |tail|
  {
    if ns != [] {
      NamedsHaveLength(ns[1..], tail);
    }
  }

  lemma {:induction false} OverridesHaveLength(os: seq<Override>, tail: seq<Byte>)
    ensures |PutOverrides(os, tail)| == OverridesLength(os) + |tail|
  {
    if os != [] {
      OverrideHasLength(os[0], PutOverrides(os[1..], tail));
      OverridesHaveLength(os[1..], tail);
      hide PutOverride;
    }
  }

  lemma GeoHasLength(g: Geo, tail: seq<Byte>)
    ensures |PutGeo(g, tail)| == 4 + GeoLength(g) + |tail|
  {
    hide Big32, Chars;
  }

  lemma WeightsHaveLength(s: Settings, comment: CStr, tail: seq<Byte>)
    ensures |PutWeights(s, comment, tail)|
            == 16 + NamedsLength(s.indexWeights) + NamedsLength(s.fieldWeights) + |Chars(comment)| + |tail|
  {
    hide Big32, Chars, PutNameds, NamedsLength;
    var onComment := PutS(comment, tail);
    NamedsHaveLength(s.fieldWeights, onComment);
    NamedsHaveLength(s.indexWeights, PutI(s.maxQueryTime, PutInt(|s.fieldWeights|, PutNameds(s.fieldWeights, onComment))));
  }

  function ExtrasLength(s: Settings, version: Short): nat {
    (if version >= 0x115 then 4 + OverridesLength(s.overrides) else 0) +
    (if version >= 0x116 then 4 + |Chars(s.selectList)| else 0)
  }

  lemma ExtrasHaveLength(s: Settings, version: Short, tail: seq<Byte>)
    ensures |PutExtras(s, version, tail)| == ExtrasLength(s, version) + |tail|
  {
    hide Big32, Chars, PutOverrides, OverridesLength;
    OverridesHaveLength(s.overrides, if version >= 0x116 then PutS(s.selectList, tail) else tail);
  }

  function StringsLength(q: Query): nat {
    var s := q.settings;
    |Chars(s.matching.sortby)| + |Chars(q.query)| + |Chars(q.index)| + |Chars(s.grouping.groupBy)|
    + |Chars(s.grouping.groupSort)| + |Chars(s.grouping.groupDistinct)| + |Chars(q.comment)|
  }

  function RequestLength(q: Query, version: Short): nat {
    var s := q.settings;
    112 + 4 * |s.matching.weights| + StringsLength(q) + FiltersLength(s.filters, version) + GeoLength(s.geo)
    + NamedsLength(s.indexWeights) + NamedsLength(s.fieldWeights) + ExtrasLength(s, version)
  }

  lemma RequestHasLength(q: Query, version: Short, tail: seq<Byte>)
    ensures |PutRequest(q, version, tail)| == RequestLength(q, version) + |tail|
  {
    hide Big32, Chars, PutMatching, PutFilters, PutGrouping, PutGeo, PutWeights, PutExtras,
      FiltersLength, NamedsLength, ExtrasLength, GeoLength;
    var s := q.settings;
    var onExtras := PutExtras(s, version, tail);
    var onWeights := PutWeights(s, q.comment, onExtras);
    var onGeo := PutGeo(s.geo, onWeights);
    var onGrouping := PutGrouping(s.grouping, onGeo);
    var onFilters := PutFilters(s.filters, version, onGrouping);
    ExtrasHaveLength(s, version, tail);
    WeightsHaveLength(s, q.comment, onExtras);
    GeoHasLength(s.geo, onWeights);
    GroupingHasLength(s.grouping, onGeo);
    FiltersHaveLength(s.filters, version, onGrouping);
    MatchingHasLength(s.matching, q.query, q.index, PutInt(|s.filters|, onFilters));
  }

  method FilterSize(f: Filter, version: Short) returns (res: nat)
    ensures res == |PutFilter(f, version, [])| == FilterLength(f, version)
  {
    FilterHasLength(f, version, []);
    hide PutFilter, Chars;
    var filterValSize := if version >= 0x114 then 8 else 4;
    res := 12 + |Chars(f.attr)|;
    if f.filterType == SPH_FILTER_VALUES {
      res := res + 4 + filterValSize * |f.values|;
    } else if f.filterType == SPH_FILTER_RANGE {
      res := res + 2 * filterValSize;
    } else if f.filterType == SPH_FILTER_FLOATRANGE {
      res := res + 8;
    }
  }

  method NamesSize(ns: seq<Named>) returns (res: nat)
    ensures res == |PutNameds(ns, [])| == NamedsLength(ns)
  {
    hide Chars;
    res := 0;
    for i := 0 to |ns|
      invariant res + NamedsLength(ns[i..]) == NamedsLength(ns)
    {
      assert ns[i..][0] == ns[i] && ns[i..][1..] == ns[i + 1..];
      res := res + 8 + |Chars(ns[i].name)|;
    }
    NamedsHaveLength(ns, []);
  }

  method OverridesSize(os: seq<Override>) returns (res: nat)
    ensures res == |PutOverrides(os, [])| == OverridesLength(os)
  {
    hide Chars;
    res := 0;
    for i := 0 to |os|
      invariant res + OverridesLength(os[i..]) == OverridesLength(os)
    {
      assert os[i..][0] == os[i] && os[i..][1..] == os[i + 1..];
      res := res + 8 + |Chars(os[i].attr)|;
      res := res + 4 + 12 * |os[i].values|;
    }
    OverridesHaveLength(os, []);
  }

  method CalcReqLen(q: Query, version: Short) returns (res: nat)
    ensures res == |PutRequest(q, version, [])|
  {
    hide Chars, FilterLength, NamedsLength, OverridesLength, PutRequest, PutFilter, PutNameds, PutOverrides;
    var s := q.settings;
    res := 96 + 2 * 8 + 4 * |s.matching.weights|
      + |Chars(s.matching.sortby)| + |Chars(q.query)| + |Chars(q.index)| + |Chars(s.grouping.groupBy)|
      + |Chars(s.grouping.groupSort)| + |Chars(s.grouping.groupDistinct)| + |Chars(q.comment)|;
    ghost var base := res;
    for i := 0 to |s.filters|
      invariant res + FiltersLength(s.filters[i..], version) == base + FiltersLength(s.filters, version)
    {
      FiltersStep(s.filters, i, version);
      var size := FilterSize(s.filters[i], version);
      res := res + size;
    }
    if s.geo.attrLat.Some? && s.geo.attrLong.Some? {
      res := res + 16 + |Chars(s.geo.attrLat)| + |Chars(s.geo.attrLong)|;
    }
    var indexWeights := NamesSize(s.indexWeights);
    var fieldWeights := NamesSize(s.fieldWeights);
    res := res + indexWeights + fieldWeights;
    if version >= 0x115 {
      var overrides := OverridesSize(s.overrides);
      res := res + 4 + overrides;
    }
    if version >= 0x116 {
      res := res + 4 + |Chars(s.selectList)|;
    }
    RequestHasLength(q, version, []);
  }

  // ---------- writing the request ----------

  // The buffer of a request and the pointer that moves through it. No write looks at the end of
  // the buffer: that each one stays inside is what has to be proved.
  class Request {
    const bigEndian: bool
    const req: array<Byte>
    var pos: nat
    ghost const whole: seq<Byte>

    constructor (length: nat, bigEndian: bool, ghost whole: seq<Byte>)
      requires length >= |whole|
      ensures this.bigEndian == bigEndian && fresh(req) && req.Length == length && this.whole == whole && Left(whole)
    {
      this.bigEndian, this.whole, pos := bigEndian, whole, 0;
      req := new Byte[length];
    }

    // What is written is the beginning of the whole request, and `rest` is what is left of it.
    ghost predicate Left(rest: seq<Byte>)
      reads this, req
    {
      pos <= |whole| <= req.Length && req[..pos] == whole[..pos] && whole[pos..] == rest
    }

    method SendBytes(bytes: seq<Byte>, ghost tail: seq<Byte>)
      requires Left(bytes + tail)
      modifies this`pos, req
      ensures Left(tail)
    {
      ghost var start := pos;
      assert whole[start..][|bytes|..] == tail;
      for i := 0 to |bytes|
        invariant pos == start + i && Left((bytes + tail)[i..])
      {
        assert whole[pos] == (bytes + tail)[i..][0] == bytes[i];
        assert whole[pos + 1..] == whole[pos..][1..] == (bytes + tail)[i + 1..];
        req[pos] := bytes[i];
        pos := pos + 1;
      }
    }

    method SendInt(value: Word, ghost tail: seq<Byte>)
      requires Left(PutInt(value, tail))
      modifies this`pos, req
      ensures Left(tail)
    {
      StoredForWire(value, bigEndian);
      SendBytes(Native(NetToHost(value, bigEndian), bigEndian), tail);
    }

    method SendStr(s: CStr, ghost tail: seq<Byte>)
      requires Left(PutS(s, tail))
      modifies this`pos, req
      ensures Left(tail)
    {
      var len := if s.Some? then |s.value| else 0;
      SendInt(len, Chars(s) + tail);
      if s.Some? {
        SendBytes(s.value, tail);
      } else {
        assert Chars(s) + tail == tail;
      }
    }

    method SendQword(value: Qword, ghost tail: seq<Byte>)
      requires Left(PutQ(value, tail))
      modifies this`pos, req
      ensures Left(tail)
    {
      SendInt(High(value), PutInt(Low(value), tail));
      SendInt(Low(value), tail);
    }

    method SendMatching(m: Matching, query: CStr, index: CStr, ghost tail: seq<Byte>)
      requires Left(PutMatching(m, query, index, tail))
      modifies this`pos, req
      ensures Left(tail)
    {
      hide PutInt, PutS, Left, High, Low, PutQ, ToWord;
      ghost var t1 := PutInt(1, PutQ(m.minid, PutQ(m.maxid, tail)));
      ghost var t2 := PutInt(|m.weights|, PutIs(m.weights, PutS(index, t1)));
      ghost var t3 := PutS(m.sortby, PutS(query, t2));
      SendInt(ToWord(m.offset), PutI(m.limit, PutI(m.mode, PutI(m.ranker, PutI(m.sort, t3)))));
      SendInt(ToWord(m.limit), PutI(m.mode, PutI(m.ranker, PutI(m.sort, t3))));
      SendInt(ToWord(m.mode), PutI(m.ranker, PutI(m.sort, t3)));
      SendInt(ToWord(m.ranker), PutI(m.sort, t3));
      SendInt(ToWord(m.sort), t3);
      SendStr(m.sortby, PutS(query, t2));
      SendStr(query, t2);
      SendInt(|m.weights|, PutIs(m.weights, PutS(index, t1)));
      for i := 0 to |m.weights|
        invariant Left(PutIs(m.weights[i..], PutS(index, t1)))
      {
        assert m.weights[i..][0] == m.weights[i] && m.weights[i..][1..] == m.weights[i + 1..];
        SendInt(ToWord(m.weights[i]), PutIs(m.weights[i + 1..], PutS(index, t1)));
      }
      SendStr(index, t1);
      SendInt(1, PutQ(m.minid, PutQ(m.maxid, tail)));
      SendQword(m.minid, PutQ(m.maxid, tail));
      SendQword(m.maxid, tail);
    }

    method SendFilter(f: Filter, version: Short, ghost tail: seq<Byte>)
      requires Left(PutFilter(f, version, tail))
      modifies this`pos, req
      ensures Left(tail)
    {
      hide PutInt, PutS, Left, PutQ, ToWord;
      ghost var t := PutI(f.exclude, tail);
      SendStr(f.attr, PutI(f.filterType, PutFilterBody(f, version, t)));
      SendInt(ToWord(f.filterType), PutFilterBody(f, version, t));
      if f.filterType == SPH_FILTER_VALUES {
        SendInt(|f.values|, PutValues(f.values, version, t));
        for j := 0 to |f.values|
          invariant Left(PutValues(f.values[j..], version, t))
        {
          assert f.values[j..][0] == f.values[j] && f.values[j..][1..] == f.values[j + 1..];
          SendValue(f.values[j], version, PutValues(f.values[j + 1..], version, t));
        }
      } else if f.filterType == SPH_FILTER_RANGE {
        SendValue(f.umin, version, PutValue(f.umax, version, t));
        SendValue(f.umax, version, t);
      } else if f.filterType == SPH_FILTER_FLOATRANGE {
        SendInt(f.fmin, PutInt(f.fmax, t));
        SendInt(f.fmax, t);
      }
      SendInt(ToWord(f.exclude), tail);
    }

    // 64 bits from version 0x114 on, else the low 32 bits
    method SendValue(n: Int64, version: Short, ghost tail: seq<Byte>)
      requires Left(PutValue(n, version, tail))
      modifies this`pos, req
      ensures Left(tail)
    {
      if version >= 0x114 {
        SendQword(ToQword(n), tail);
      } else {
        SendInt(ToWord(n), tail);
      }
    }

    method SendGrouping(g: Grouping, ghost tail: seq<Byte>)
      requires Left(PutGrouping(g, tail))
      modifies this`pos, req
      ensures Left(tail)
    {
      hide PutInt, PutS, Left, ToWord;
      ghost var t1 := PutI(g.cutoff, PutI(g.retryCount, PutI(g.retryDelay, PutS(g.groupDistinct, tail))));
      SendInt(ToWord(g.groupFunc), PutS(g.groupBy, PutI(g.maxMatches, PutS(g.groupSort, t1))));
      SendStr(g.groupBy, PutI(g.maxMatches, PutS(g.groupSort, t1)));
      SendInt(ToWord(g.maxMatches), PutS(g.groupSort, t1));
      SendStr(g.groupSort, t1);
      SendInt(ToWord(g.cutoff), PutI(g.retryCount, PutI(g.retryDelay, PutS(g.groupDistinct, tail))));
      SendInt(ToWord(g.retryCount), PutI(g.retryDelay, PutS(g.groupDistinct, tail)));
      SendInt(ToWord(g.retryDelay), PutS(g.groupDistinct, tail));
      SendStr(g.groupDistinct, tail);
    }

    method SendGeo(g: Geo, ghost tail: seq<Byte>)
      requires Left(PutGeo(g, tail))
      modifies this`pos, req
      ensures Left(tail)
    {
      hide PutInt, PutS, Left;
      if g.attrLat.Some? && g.attrLong.Some? {
        SendInt(1, PutS(g.attrLat, PutS(g.attrLong, PutInt(g.lat, PutInt(g.long, tail)))));
        SendStr(g.attrLat, PutS(g.attrLong, PutInt(g.lat, PutInt(g.long, tail))));
        SendStr(g.attrLong, PutInt(g.lat, PutInt(g.long, tail)));
        SendInt(g.lat, PutInt(g.long, tail));
        SendInt(g.long, tail);
      } else {
        SendInt(0, tail);
      }
    }

    method SendNamed(ns: List<Named>, ghost tail: seq<Byte>)
      requires Left(PutInt(|ns|, PutNameds(ns, tail)))
      modifies this`pos, req
      ensures Left(tail)
    {
      hide PutInt, PutS, Left, ToWord;
      SendInt(|ns|, PutNameds(ns, tail));
      for i := 0 to |ns|
        invariant Left(PutNameds(ns[i..], tail))
      {
        assert ns[i..][0] == ns[i] && ns[i..][1..] == ns[i + 1..];
        SendStr(ns[i].name, PutI(ns[i].weight, PutNameds(ns[i + 1..], tail)));
        SendInt(ToWord(ns[i].weight), PutNameds(ns[i + 1..], tail));
      }
    }

    method SendOverride(o: Override, ghost tail: seq<Byte>)
      requires Left(PutOverride(o, tail))
      modifies this`pos, req
      ensures Left(tail)
    {
      hide PutInt, PutS, Left, PutQ;
      SendStr(o.attr, PutInt(SPH_ATTR_INTEGER, PutInt(|o.values|, PutPairs(o.values, tail))));
      SendInt(SPH_ATTR_INTEGER, PutInt(|o.values|, PutPairs(o.values, tail)));
      SendInt(|o.values|, PutPairs(o.values, tail));
      for j := 0 to |o.values|
        invariant Left(PutPairs(o.values[j..], tail))
      {
        assert o.values[j..][0] == o.values[j] && o.values[j..][1..] == o.values[j + 1..];
        SendQword(o.values[j].0, PutInt(o.values[j].1, PutPairs(o.values[j + 1..], tail)));
        SendInt(o.values[j].1, PutPairs(o.values[j + 1..], tail));
      }
    }

    method SendExtras(s: Settings, version: Short, ghost tail: seq<Byte>)
      requires Left(PutExtras(s, version, tail))
      modifies this`pos, req
      ensures Left(tail)
    {
      hide PutInt, PutS, Left, PutOverride;
      ghost var onSelect := if version >= 0x116 then PutS(s.selectList, tail) else tail;
      if version >= 0x115 {
        SendInt(|s.overrides|, PutOverrides(s.overrides, onSelect));
        for i := 0 to |s.overrides|
          invariant Left(PutOverrides(s.overrides[i..], onSelect))
        {
          assert s.overrides[i..][0] == s.overrides[i] && s.overrides[i..][1..] == s.overrides[i + 1..];
          SendOverride(s.overrides[i], PutOverrides(s.overrides[i + 1..], onSelect));
        }
      }
      if version >= 0x116 {
        SendStr(s.selectList, tail);
      }
    }

    method SendRequest(q: Query, version: Short)
      requires whole == PutRequest(q, version, []) && Left(whole)
      modifies this`pos, req
      ensures pos == |whole| && req[..pos] == whole
    {
      hide PutInt, PutS, Left, PutMatching, PutFilter, PutGrouping, PutGeo, PutNameds, PutExtras, ToWord;
      var s := q.settings;
      ghost var onExtras := PutExtras(s, version, []);
      ghost var onWeights := PutWeights(s, q.comment, onExtras);
      ghost var onGeo := PutGeo(s.geo, onWeights);
      ghost var onGrouping := PutGrouping(s.grouping, onGeo);
      SendMatching(s.matching, q.query, q.index, PutInt(|s.filters|, PutFilters(s.filters, version, onGrouping)));
      SendInt(|s.filters|, PutFilters(s.filters, version, onGrouping));
      for i := 0 to |s.filters|
        invariant Left(PutFilters(s.filters[i..], version, onGrouping))
      {
        assert s.filters[i..][0] == s.filters[i] && s.filters[i..][1..] == s.filters[i + 1..];
        SendFilter(s.filters[i], version, PutFilters(s.filters[i + 1..], version, onGrouping));
      }
      SendGrouping(s.grouping, onGeo);
      SendGeo(s.geo, onWeights);
      SendWeights(s, q.comment, onExtras);
      SendExtras(s, version, []);
      Complete();
    }

    method SendWeights(s: Settings, comment: CStr, ghost tail: seq<Byte>)
      requires Left(PutWeights(s, comment, tail))
      modifies this`pos, req
      ensures Left(tail)
    {
      hide PutInt, PutS, Left, PutNameds, ToWord;
      ghost var t := PutInt(|s.fieldWeights|, PutNameds(s.fieldWeights, PutS(comment, tail)));
      SendNamed(s.indexWeights, PutI(s.maxQueryTime, t));
      SendInt(ToWord(s.maxQueryTime), t);
      SendNamed(s.fieldWeights, PutS(comment, tail));
      SendStr(comment, tail);
    }

    lemma Complete()
      requires Left([])
      ensures pos == |whole| && req[..pos] == whole
    {
    }

    method SendWord(value: Short, ghost tail: seq<Byte>)
      requires Left(Big16(value) + tail)
      modifies this`pos, req
      ensures Left(tail)
    {
      SendBytes(Big16(value), tail);
    }
  }

  // ---------- a request and what follows it ----------

  lemma IntThen(n: Word, a: seq<Byte>, b: seq<Byte>)
    ensures PutInt(n, a) + b == PutInt(n, a + b)
  {
  }

  lemma SThen(s: CStr, a: seq<Byte>, b: seq<Byte>)
    ensures PutS(s, a) + b == PutS(s, a + b)
  {
    assert (Chars(s) + a) + b == Chars(s) + (a + b);
    IntThen(|Chars(s)|, Chars(s) + a, b);
  }

  lemma QThen(n: Qword, a: seq<Byte>, b: seq<Byte>)
    ensures PutQ(n, a) + b == PutQ(n, a + b)
  {
    hide PutInt;
    IntThen(Low(n), a, b);
    IntThen(High(n), PutInt(Low(n), a), b);
  }

  lemma {:induction false} IsThen(ns: seq<Int>, a: seq<Byte>, b: seq<Byte>)
    ensures PutIs(ns, a) + b == PutIs(ns, a + b)
  {
    hide PutInt;
    if ns != [] {
      IntThen(ToWord(ns[0]), PutIs(ns[1..], a), b);
      IsThen(ns[1..], a, b);
    }
  }

  lemma MatchingThen(m: Matching, query: CStr, index: CStr, a: seq<Byte>, b: seq<Byte>)
    ensures PutMatching(m, query, index, a) + b == PutMatching(m, query, index, a + b)
  {
    hide PutInt, PutS, PutQ, PutIs, ToWord;
    var t1 := PutInt(1, PutQ(m.minid, PutQ(m.maxid, a)));
    var t2 := PutInt(|m.weights|, PutIs(m.weights, PutS(index, t1)));
    var t3 := PutS(m.sortby, PutS(query, t2));
    QThen(m.maxid, a, b);
    QThen(m.minid, PutQ(m.maxid, a), b);
    IntThen(1, PutQ(m.minid, PutQ(m.maxid, a)), b);
    SThen(index, t1, b);
    IsThen(m.weights, PutS(index, t1), b);
    IntThen(|m.weights|, PutIs(m.weights, PutS(index, t1)), b);
    SThen(query, t2, b);
    SThen(m.sortby, PutS(query, t2), b);
    IntThen(ToWord(m.sort), t3, b);
    IntThen(ToWord(m.ranker), PutI(m.sort, t3), b);
    IntThen(ToWord(m.mode), PutI(m.ranker, PutI(m.sort, t3)), b);
    IntThen(ToWord(m.limit), PutI(m.mode, PutI(m.ranker, PutI(m.sort, t3))), b);
    IntThen(ToWord(m.offset), PutI(m.limit, PutI(m.mode, PutI(m.ranker, PutI(m.sort, t3)))), b);
  }

  lemma ValueThen(n: Int64, version: Short, a: seq<Byte>, b: seq<Byte>)
    ensures PutValue(n, version, a) + b == PutValue(n, version, a + b)
  {
    hide PutInt, PutQ;
    QThen(ToQword(n), a, b);
    IntThen(ToWord(n), a, b);
  }

  lemma {:induction false} ValuesThen(ns: seq<Int64>, version: Short, a: seq<Byte>, b: seq<Byte>)
    ensures PutValues(ns, version, a) + b == PutValues(ns, version, a + b)
  {
    hide PutValue;
    if ns != [] {
      ValueThen(ns[0], version, PutValues(ns[1..], version, a), b);
      ValuesThen(ns[1..], version, a, b);
    }
  }

  lemma FilterThen(f: Filter, version: Short, a: seq<Byte>, b: seq<Byte>)
    ensures PutFilter(f, version, a) + b == PutFilter(f, version, a + b)
  {
    hide PutInt, PutS, PutValue, PutValues, ToWord;
    var t := PutI(f.exclude, a);
    IntThen(ToWord(f.exclude), a, b);
    if f.filterType == SPH_FILTER_VALUES {
      ValuesThen(f.values, version, t, b);
      IntThen(|f.values|, PutValues(f.values, version, t), b);
    } else if f.filterType == SPH_FILTER_RANGE {
      ValueThen(f.umax, version, t, b);
      ValueThen(f.umin, version, PutValue(f.umax, version, t), b);
    } else if f.filterType == SPH_FILTER_FLOATRANGE {
      IntThen(f.fmax, t, b);
      IntThen(f.fmin, PutInt(f.fmax, t), b);
    }
    IntThen(ToWord(f.filterType), PutFilterBody(f, version, t), b);
    SThen(f.attr, PutI(f.filterType, PutFilterBody(f, version, t)), b);
  }

  lemma {:induction false} FiltersThen(fs: seq<Filter>, version: Short, a: seq<Byte>, b: seq<Byte>)
    ensures PutFilters(fs, version, a) + b == PutFilters(fs, version, a + b)
  {
    hide PutFilter;
    if fs != [] {
      FilterThen(fs[0], version, PutFilters(fs[1..], version, a), b);
      FiltersThen(fs[1..], version, a, b);
    }
  }

  lemma GroupingThen(g: Grouping, a: seq<Byte>, b: seq<Byte>)
    ensures PutGrouping(g, a) + b == PutGrouping(g, a + b)
  {
    hide PutInt, PutS, ToWord;
    var t1 := PutI(g.cutoff, PutI(g.retryCount, PutI(g.retryDelay, PutS(g.groupDistinct, a))));
    SThen(g.groupDistinct, a, b);
    IntThen(ToWord(g.retryDelay), PutS(g.groupDistinct, a), b);
    IntThen(ToWord(g.retryCount), PutI(g.retryDelay, PutS(g.groupDistinct, a)), b);
    IntThen(ToWord(g.cutoff), PutI(g.retryCount, PutI(g.retryDelay, PutS(g.groupDistinct, a))), b);
    SThen(g.groupSort, t1, b);
    IntThen(ToWord(g.maxMatches), PutS(g.groupSort, t1), b);
    SThen(g.groupBy, PutI(g.maxMatches, PutS(g.groupSort, t1)), b);
    IntThen(ToWord(g.groupFunc), PutS(g.groupBy, PutI(g.maxMatches, PutS(g.groupSort, t1))), b);
  }

  lemma GeoThen(g: Geo, a: seq<Byte>, b: seq<Byte>)
    ensures PutGeo(g, a) + b == PutGeo(g, a + b)
  {
    hide PutInt, PutS;
    IntThen(g.long, a, b);
    IntThen(g.lat, PutInt(g.long, a), b);
    SThen(g.attrLong, PutInt(g.lat, PutInt(g.long, a)), b);
    SThen(g.attrLat, PutS(g.attrLong, PutInt(g.lat, PutInt(g.long, a))), b);
    IntThen(1, PutS(g.attrLat, PutS(g.attrLong, PutInt(g.lat, PutInt(g.long, a)))), b);
    IntThen(0, a, b);
  }

  lemma {:induction false} NamedsThen(ns: seq<Named>, a: seq<Byte>, b: seq<Byte>)
    ensures PutNameds(ns, a) + b == PutNameds(ns, a + b)
  {
    hide PutInt, PutS, ToWord;
    if ns != [] {
      NamedsThen(ns[1..], a, b);
      IntThen(ToWord(ns[0].weight), PutNameds(ns[1..], a), b);
      SThen(ns[0].name, PutI(ns[0].weight, PutNameds(ns[1..], a)), b);
    }
  }

  lemma {:induction false} PairsThen(ps: seq<(Qword, Word)>, a: seq<Byte>, b: seq<Byte>)
    ensures PutPairs(ps, a) + b == PutPairs(ps, a + b)
  {
    hide PutInt, PutQ;
    if ps != [] {
      PairsThen(ps[1..], a, b);
      IntThen(ps[0].1, PutPairs(ps[1..], a), b);
      QThen(ps[0].0, PutInt(ps[0].1, PutPairs(ps[1..], a)), b);
    }
  }

  lemma {:induction false} OverridesThen(os: seq<Override>, a: seq<Byte>, b: seq<Byte>)
    ensures PutOverrides(os, a) + b == PutOverrides(os, a + b)
  {
    hide PutInt, PutS, PutPairs;
    if os != [] {
      var o, rest := os[0], PutOverrides(os[1..], a);
      OverridesThen(os[1..], a, b);
      PairsThen(o.values, rest, b);
      IntThen(|o.values|, PutPairs(o.values, rest), b);
      IntThen(SPH_ATTR_INTEGER, PutInt(|o.values|, PutPairs(o.values, rest)), b);
      SThen(o.attr, PutInt(SPH_ATTR_INTEGER, PutInt(|o.values|, PutPairs(o.values, rest))), b);
    }
  }

  lemma WeightsThen(s: Settings, comment: CStr, a: seq<Byte>, b: seq<Byte>)
    ensures PutWeights(s, comment, a) + b == PutWeights(s, comment, a + b)
  {
    hide PutInt, PutS, PutNameds, ToWord;
    var fields := PutNameds(s.fieldWeights, PutS(comment, a));
    var t := PutInt(|s.fieldWeights|, fields);
    SThen(comment, a, b);
    NamedsThen(s.fieldWeights, PutS(comment, a), b);
    IntThen(|s.fieldWeights|, fields, b);
    IntThen(ToWord(s.maxQueryTime), t, b);
    NamedsThen(s.indexWeights, PutI(s.maxQueryTime, t), b);
    IntThen(|s.indexWeights|, PutNameds(s.indexWeights, PutI(s.maxQueryTime, t)), b);
  }

  lemma ExtrasThen(s: Settings, version: Short, a: seq<Byte>, b: seq<Byte>)
    ensures PutExtras(s, version, a) + b == PutExtras(s, version, a + b)
  {
    hide PutInt, PutS, PutOverrides;
    SThen(s.selectList, a, b);
    var onSelect := if version >= 0x116 then PutS(s.selectList, a) else a;
    OverridesThen(s.overrides, onSelect, b);
    IntThen(|s.overrides|, PutOverrides(s.overrides, onSelect), b);
  }

  lemma RequestThen(q: Query, version: Short, a: seq<Byte>, b: seq<Byte>)
    ensures PutRequest(q, version, a) + b == PutRequest(q, version, a + b)
  {
    hide PutInt, PutMatching, PutFilters, PutGrouping, PutGeo, PutWeights, PutExtras;
    var s := q.settings;
    var onExtras := PutExtras(s, version, a);
    var onWeights := PutWeights(s, q.comment, onExtras);
    var onGeo := PutGeo(s.geo, onWeights);
    var onGrouping := PutGrouping(s.grouping, onGeo);
    var onFilters := PutFilters(s.filters, version, onGrouping);
    ExtrasThen(s, version, a, b);
    WeightsThen(s, q.comment, onExtras, b);
    GeoThen(s.geo, onWeights, b);
    GroupingThen(s.grouping, onGeo, b);
    FiltersThen(s.filters, version, onGrouping, b);
    IntThen(|s.filters|, onFilters, b);
    MatchingThen(s.matching, q.query, q.index, PutInt(|s.filters|, onFilters), b);
  }

  // The buffer has exactly the computed length, and the request fills it.
  method BuildRequest(q: Query, version: Short, bigEndian: bool) returns (reqLen: nat, req: array<Byte>)
    ensures fresh(req) && req.Length == reqLen && req[..] == PutRequest(q, version, [])
  {
    hide PutRequest;
    reqLen := CalcReqLen(q, version);
    var request := new Request(reqLen, bigEndian, PutRequest(q, version, []));
    request.SendRequest(q, version);
    req := request.req;
    assert req[..] == req[..request.pos];
  }

  // ---------- the batch of a client ----------

  class SphinxClient {
    const bigEndian: bool
    var verSearch: Short
    var settings: Settings
    var numReqs: int
    var reqLens: seq<nat>
    var reqs: seq<array<Byte>>

    constructor (settings: Settings, verSearch: Short, bigEndian: bool)
      ensures Valid() && numReqs == 0 && this.settings == settings && this.verSearch == verSearch
    {
      this.settings, this.verSearch, this.bigEndian := settings, verSearch, bigEndian;
      numReqs, reqLens, reqs := 0, [], [];
    }

    ghost predicate Valid()
      reads this
    {
      && 0 <= numReqs == |reqLens| == |reqs| <= MAX_REQS
      && forall i :: 0 <= i < |reqs| ==> reqs[i].Length == reqLens[i]
    }

    // sphinx_add_query: the request is exactly as long as computed, and written to its end.
    method AddQuery(query: CStr, index: CStr, comment: CStr) returns (r: int)
      requires Valid()
      modifies this`numReqs, this`reqLens, this`reqs
      ensures Valid()
      ensures r == if old(numReqs) < MAX_REQS then old(numReqs) else -1
      ensures r == -1 ==> unchanged(this)
      ensures r >= 0 ==> numReqs == r + 1 && reqs[..r] == old(reqs) && reqLens[..r] == old(reqLens)
      ensures r >= 0 ==> reqs[r][..] == PutRequest(Query(settings, query, index, comment), verSearch, [])
    {
      hide PutRequest;
      if numReqs < 0 || numReqs >= MAX_REQS {
        return -1;
      }
      var reqLen, req := BuildRequest(Query(settings, query, index, comment), verSearch, bigEndian);
      ghost var was := reqs;
      reqs := reqs + [req];
      reqLens := reqLens + [reqLen];
      numReqs := numReqs + 1;
      r := numReqs - 1;
      assert reqs[r] == req && reqs[..r] == was;
    }

    // The part of sphinx_run_queries that sends the batch. Nothing is sent for no request.
    method SendBatch() returns (ok: bool, stream: seq<Byte>)
      requires Valid() && 4 + Sum(reqLens) < 0x1_0000_0000
      ensures ok == (numReqs > 0)
      ensures ok ==> stream == Header(verSearch, 4 + Sum(reqLens), numReqs, []) + Joined(Contents(reqs))
      ensures ok ==> |stream| == 8 + (4 + Sum(reqLens))
    {
      if numReqs <= 0 || numReqs > MAX_REQS {
        return false, [];
      }
      ok := true;
      hide Header, PutInt, Big16;
      var len := 4;
      for i := 0 to numReqs
        invariant len + Sum(reqLens[i..]) == 4 + Sum(reqLens)
      {
        assert reqLens[i..][0] == reqLens[i] && reqLens[i..][1..] == reqLens[i + 1..];
        len := len + reqLens[i];
      }
      ghost var rest := Joined(Contents(reqs));
      stream := SendHeader(len);
      ghost var header := stream;
      for i := 0 to numReqs
        invariant stream + Joined(Contents(reqs)[i..]) == header + rest
      {
        ghost var c := Contents(reqs);
        assert c[i..][0] == c[i] == reqs[i][..reqLens[i]] && c[i..][1..] == c[i + 1..];
        stream := stream + reqs[i][..reqLens[i]];
      }
      JoinedLength(reqs, reqLens);
      HeaderLength(verSearch, len, numReqs);
    }

    method SendHeader(len: Word) returns (sent: seq<Byte>)
      requires 0 <= numReqs <= MAX_REQS
      ensures sent == Header(verSearch, len, numReqs, [])
    {
      hide Big16, PutInt;
      var n := numReqs;
      HeaderLength(verSearch, len, n);
      var header := new Request(32, bigEndian, Header(verSearch, len, n, []));
      header.SendWord(SEARCHD_COMMAND_SEARCH, Big16(verSearch) + PutInt(len, PutInt(n, [])));
      header.SendWord(verSearch, PutInt(len, PutInt(n, [])));
      header.SendInt(len, PutInt(n, []));
      header.SendInt(n, []);
      header.Complete();
      sent := header.req[..header.pos];
    }
  }

  function Sum(ns: seq<nat>): nat {
    if ns == [] then 0 else ns[0] + Sum(ns[1..])
  }

  function Joined(bs: seq<seq<Byte>>): seq<Byte> {
    if bs == [] then [] else bs[0] + Joined(bs[1..])
  }

  ghost function Contents(reqs: seq<array<Byte>>): (r: seq<seq<Byte>>)
    reads reqs
    ensures |r| == |reqs| && forall i :: 0 <= i < |reqs| ==> r[i] == reqs[i][..]
  {
    seq(|reqs|, i requires 0 <= i < |reqs| reads reqs => reqs[i][..])
  }

  function Header(version: Short, len: Word, count: Word, tail: seq<Byte>): seq<Byte> {
    Big16(SEARCHD_COMMAND_SEARCH) + (Big16(version) + PutInt(len, PutInt(count, tail)))
  }

  lemma HeaderLength(version: Short, len: Word, count: Word)
    ensures |Header(version, len, count, [])| == 12
  {
  }

  lemma {:induction false} JoinedLength(reqs: seq<array<Byte>>, lens: seq<nat>)
    requires |reqs| == |lens| && forall i :: 0 <= i < |reqs| ==> reqs[i].Length == lens[i]
    ensures |Joined(Contents(reqs))| == Sum(lens)
    decreases |reqs|
  {
    if reqs != [] {
      JoinedLength(reqs[1..], lens[1..]);
      assert Contents(reqs)[1..] == Contents(reqs[1..]);
    }
  }
}
