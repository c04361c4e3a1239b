/**
 * Reading a search request back: the decoder takes the integers and strings in the order in
 * which searchd expects them, and recovers every setting from what the client wrote.
 */
module SphinxReplay {
  import opened Wire
  import opened Wrappers
  import opened SphinxRequest

  // ---------- the decoder ----------

  // A value and the bytes after it, or nothing if the bytes end too early
  datatype Got<+T> = Nothing | Got(value: T, rest: seq<Byte>) {
    predicate IsFailure() {
      Nothing?
    }

    function PropagateFailure<U>(): Got<U>
      requires IsFailure()
    {
      Got<U>.Nothing
    }

    function Extract(): (T, seq<Byte>)
      requires !IsFailure()
    {
      (value, rest)
    }
  }

  function GetInt(b: seq<Byte>): Got<Word> {
    if |b| < 4 then Nothing else Got(FromBig32(b[..4]), b[4..])
  }

  function GetI(b: seq<Byte>): Got<Int> {
    var (n, b) :- GetInt(b);
    Got(ToInt32(n), b)
  }

  function GetQ(b: seq<Byte>): Got<Qword> {
    var (high, b) :- GetInt(b);
    var (low, b) :- GetInt(b);
    var h: int, l: int := high, low;
    Got(h * 0x1_0000_0000 + l, b)
  }

  function GetCount(b: seq<Byte>): (r: Got<nat>)
    ensures r.Got? ==> r.value < 0x8000_0000
  {
    var (n, b) :- GetInt(b);
    if n < 0x8000_0000 then Got(n, b) else Nothing
  }

  function GetS(b: seq<Byte>): Got<CStr> {
    var (n, b) :- GetCount(b);
    if |b| < n then Nothing
    else
      var s: Text := b[..n];
      Got(Some(s), b[n..])
  }

  function GetIs(k: nat, b: seq<Byte>): (r: Got<seq<Int>>)
    ensures r.Got? ==> |r.value| == k
  {
    if k == 0 then Got([], b)
    else
      var (n, b) :- GetI(b);
      var (ns, b) :- GetIs(k - 1, b);
      Got([n] + ns, b)
  }

  // What searchd is asked about, with the query and the index list
  datatype Asked = Asked(matching: Matching, query: CStr, index: CStr)

  function GetMatching(b: seq<Byte>): Got<Asked> {
    var (offset, b) :- GetI(b);
    var (limit, b) :- GetI(b);
    var (mode, b) :- GetI(b);
    var (ranker, b) :- GetI(b);
    var (sort, b) :- GetI(b);
    var (sortby, b) :- GetS(b);
    var (query, b) :- GetS(b);
    GetMatchingRest(Matching(offset, limit, mode, ranker, sort, sortby, [], 0, 0), query, b)
  }

  function GetMatchingRest(m: Matching, query: CStr, b: seq<Byte>): Got<Asked> {
    var (count, b) :- GetCount(b);
    var (weights, b) :- GetIs(count, b);
    var (index, b) :- GetS(b);
    var (idBits, b) :- GetInt(b);
    var (minid, b) :- GetQ(b);
    var (maxid, b) :- GetQ(b);
    if idBits != 1 then Nothing
    else Got(Asked(m.(weights := weights, minid := minid, maxid := maxid), query, index), b)
  }

  function GetValue(version: Short, b: seq<Byte>): Got<Int64> {
    if version >= 0x114 then
      var (n, b) :- GetQ(b);
      Got(ToInt64(n), b)
    else
      var (n, b) :- GetInt(b);
      Got(n, b)
  }

  function GetValues(k: nat, version: Short, b: seq<Byte>): (r: Got<seq<Int64>>)
    ensures r.Got? ==> |r.value| == k
  {
    if k == 0 then Got([], b)
    else
      var (n, b) :- GetValue(version, b);
      var (ns, b) :- GetValues(k - 1, version, b);
      Got([n] + ns, b)
  }

  function GetFilterBody(f: Filter, version: Short, b: seq<Byte>): Got<Filter> {
    if f.filterType == SPH_FILTER_VALUES then
      var (count, b) :- GetCount(b);
      var (values, b) :- GetValues(count, version, b);
      Got(f.(values := values), b)
    else if f.filterType == SPH_FILTER_RANGE then
      var (umin, b) :- GetValue(version, b);
      var (umax, b) :- GetValue(version, b);
      Got(f.(umin := umin, umax := umax), b)
    else if f.filterType == SPH_FILTER_FLOATRANGE then
      var (fmin, b) :- GetInt(b);
      var (fmax, b) :- GetInt(b);
      Got(f.(fmin := fmin, fmax := fmax), b)
    else Got(f, b)
  }

  function GetFilter(version: Short, b: seq<Byte>): Got<Filter> {
    var (attr, b) :- GetS(b);
    var (filterType, b) :- GetI(b);
    var (f, b) :- GetFilterBody(Filter(attr, filterType, [], 0, 0, 0, 0, 0), version, b);
    var (exclude, b) :- GetI(b);
    Got(f.(exclude := exclude), b)
  }

  function GetFilters(k: nat, version: Short, b: seq<Byte>): (r: Got<seq<Filter>>)
    ensures r.Got? ==> |r.value| == k
  {
    if k == 0 then Got([], b)
    else
      var (f, b) :- GetFilter(version, b);
      var (fs, b) :- GetFilters(k - 1, version, b);
      Got([f] + fs, b)
  }

  function GetGrouping(b: seq<Byte>): Got<Grouping> {
    var (groupFunc, b) :- GetI(b);
    var (groupBy, b) :- GetS(b);
    var (maxMatches, b) :- GetI(b);
    var (groupSort, b) :- GetS(b);
    var (cutoff, b) :- GetI(b);
    var (retryCount, b) :- GetI(b);
    var (retryDelay, b) :- GetI(b);
    var (groupDistinct, b) :- GetS(b);
    Got(Grouping(groupFunc, groupBy, maxMatches, groupSort, cutoff, retryCount, retryDelay, groupDistinct), b)
  }

  function GetGeo(b: seq<Byte>): Got<Geo> {
    var (anchored, b) :- GetInt(b);
    if anchored == 0 then Got(Geo(None, None, 0, 0), b)
    else
      var (attrLat, b) :- GetS(b);
      var (attrLong, b) :- GetS(b);
      var (lat, b) :- GetInt(b);
      var (long, b) :- GetInt(b);
      Got(Geo(attrLat, attrLong, lat, long), b)
  }

  function GetNameds(k: nat, b: seq<Byte>): (r: Got<seq<Named>>)
    ensures r.Got? ==> |r.value| == k
  {
    if k == 0 then Got([], b)
    else
      var (name, b) :- GetS(b);
      var (weight, b) :- GetI(b);
      var (ns, b) :- GetNameds(k - 1, b);
      Got([Named(name, weight)] + ns, b)
  }

  function GetPairs(k: nat, b: seq<Byte>): (r: Got<seq<(Qword, Word)>>)
    ensures r.Got? ==> |r.value| == k
  {
    if k == 0 then Got([], b)
    else
      var (docid, b) :- GetQ(b);
      var (value, b) :- GetInt(b);
      var (ps, b) :- GetPairs(k - 1, b);
      Got([(docid, value)] + ps, b)
  }

  function GetOverride(b: seq<Byte>): Got<Override> {
    var (attr, b) :- GetS(b);
    var (kind, b) :- GetInt(b);
    var (count, b) :- GetCount(b);
    var (values, b) :- GetPairs(count, b);
    if kind != SPH_ATTR_INTEGER then Nothing else Got(Override(attr, values), b)
  }

  function GetOverrides(k: nat, b: seq<Byte>): (r: Got<seq<Override>>)
    ensures r.Got? ==> |r.value| == k
  {
    if k == 0 then Got([], b)
    else
      var (o, b) :- GetOverride(b);
      var (os, b) :- GetOverrides(k - 1, b);
      Got([o] + os, b)
  }

  datatype Weights = Weights(indexWeights: List<Named>, maxQueryTime: Int, fieldWeights: List<Named>, comment: CStr)

  function GetWeights(b: seq<Byte>): Got<Weights> {
    var (count, b) :- GetCount(b);
    var (indexWeights, b) :- GetNameds(count, b);
    var (maxQueryTime, b) :- GetI(b);
    var (count, b) :- GetCount(b);
    var (fieldWeights, b) :- GetNameds(count, b);
    var (comment, b) :- GetS(b);
    Got(Weights(indexWeights, maxQueryTime, fieldWeights, comment), b)
  }

  datatype Extras = Extras(overrides: List<Override>, selectList: CStr)

  function GetSelect(version: Short, b: seq<Byte>): Got<CStr> {
    if version >= 0x116 then GetS(b) else Got(None, b)
  }

  function GetExtras(version: Short, b: seq<Byte>): Got<Extras> {
    if version >= 0x115 then
      var (count, b) :- GetCount(b);
      var (overrides, b) :- GetOverrides(count, b);
      var (selectList, b) :- GetSelect(version, b);
      Got(Extras(overrides, selectList), b)
    else
      Got(Extras([], None), b)
  }

  function GetRequest(version: Short, b: seq<Byte>): Got<Query> {
    var (a, b) :- GetMatching(b);
    var (count, b) :- GetCount(b);
    var (filters, b) :- GetFilters(count, version, b);
    var (grouping, b) :- GetGrouping(b);
    var (geo, b) :- GetGeo(b);
    var (w, b) :- GetWeights(b);
    var (x, b) :- GetExtras(version, b);
    Got(Query(Settings(a.matching, filters, grouping, geo, w.indexWeights, w.maxQueryTime, w.fieldWeights,
                       x.overrides, x.selectList),
              a.query, a.index, w.comment), b)
  }

  // ---------- what the server sees of a query ----------

  // A NULL string arrives as the empty one.
  function Seen(s: CStr): CStr {
    Some(Chars(s))
  }

  // Before version 0x114 only the low 32 bits of a filter value are sent.
  function SeenValue(n: Int64, version: Short): Int64 {
    if version >= 0x114 then n else ToWord(n)
  }

  function SeenValues(ns: seq<Int64>, version: Short): (r: seq<Int64>)
    ensures |r| == |ns|
  {
    seq(|ns|, i requires 0 <= i < |ns| => SeenValue(ns[i], version))
  }

  // The parts of a filter that its type does not use stay behind.
  function SeenFilter(f: Filter, version: Short): Filter {
    var g := Filter(Seen(f.attr), f.filterType, [], 0, 0, 0, 0, f.exclude);
    if f.filterType == SPH_FILTER_VALUES then g.(values := SeenValues(f.values, version))
    else if f.filterType == SPH_FILTER_RANGE then
      g.(umin := SeenValue(f.umin, version), umax := SeenValue(f.umax, version))
    else if f.filterType == SPH_FILTER_FLOATRANGE then g.(fmin := f.fmin, fmax := f.fmax)
    else g
  }

  function SeenFilters(fs: seq<Filter>, version: Short): (r: seq<Filter>)
    ensures |r| == |fs|
  {
    seq(|fs|, i requires 0 <= i < |fs| => SeenFilter(fs[i], version))
  }

  function SeenGeo(g: Geo): Geo {
    if g.attrLat.Some? && g.attrLong.Some? then g else Geo(None, None, 0, 0)
  }

  function SeenNamed(n: Named): Named {
    Named(Seen(n.name), n.weight)
  }

  function SeenNameds(ns: seq<Named>): (r: seq<Named>)
    ensures |r| == |ns|
  {
    seq(|ns|, i requires 0 <= i < |ns| => SeenNamed(ns[i]))
  }

  function SeenOverrides(os: seq<Override>): (r: seq<Override>)
    ensures |r| == |os|
  {
    seq(|os|, i requires 0 <= i < |os| => Override(Seen(os[i].attr), os[i].values))
  }

  function SeenGrouping(g: Grouping): Grouping {
    g.(groupBy := Seen(g.groupBy), groupSort := Seen(g.groupSort), groupDistinct := Seen(g.groupDistinct))
  }

  function SeenQuery(q: Query, version: Short): Query {
    var s := q.settings;
    Query(Settings(s.matching.(sortby := Seen(s.matching.sortby)), SeenFilters(s.filters, version),
                   SeenGrouping(s.grouping), SeenGeo(s.geo), SeenNameds(s.indexWeights), s.maxQueryTime,
                   SeenNameds(s.fieldWeights),
                   if version >= 0x115 then SeenOverrides(s.overrides) else [],
                   if version >= 0x116 then Seen(s.selectList) else None),
          Seen(q.query), Seen(q.index), Seen(q.comment))
  }

  // ---------- reading inverts writing ----------

  lemma IntBack(n: Word, t: seq<Byte>)
    ensures GetInt(PutInt(n, t)) == Got(n, t)
  {
    PutIntParts(n, t);
    Big32RoundTrip(n);
  }

  lemma IBack(n: Int, t: seq<Byte>)
    ensures GetI(PutI(n, t)) == Got(n, t)
  {
    IntBack(ToWord(n), t);
    WordOfInt(n);
  }

  lemma QBack(n: Qword, t: seq<Byte>)
    ensures GetQ(PutQ(n, t)) == Got(n, t)
  {
    IntBack(High(n), PutInt(Low(n), t));
    IntBack(Low(n), t);
    QwordHalves(n);
    hide GetInt, PutInt, High, Low;
  }

  lemma CountBack(n: nat, t: seq<Byte>)
    requires n < 0x8000_0000
    ensures GetCount(PutInt(n, t)) == Got(n, t)
  {
    IntBack(n, t);
  }

  lemma SBack(s: CStr, t: seq<Byte>)
    ensures GetS(PutS(s, t)) == Got(Seen(s), t)
  {
    CountBack(|Chars(s)|, Chars(s) + t);
    PutStrParts(Chars(s), t);
    hide GetCount, PutInt;
  }

  lemma {:induction false} IsBack(ns: seq<Int>, t: seq<Byte>)
    ensures GetIs(|ns|, PutIs(ns, t)) == Got(ns, t)
  {
    hide GetI, PutI;
    if ns != [] {
      IBack(ns[0], PutIs(ns[1..], t));
      IsBack(ns[1..], t);
      assert [ns[0]] + ns[1..] == ns;
    }
  }

  lemma MatchingBack(m: Matching, query: CStr, index: CStr, t: seq<Byte>)
    ensures GetMatching(PutMatching(m, query, index, t))
            == Got(Asked(m.(sortby := Seen(m.sortby)), Seen(query), Seen(index)), t)
  {
    hide GetInt, PutInt, GetI, GetS, PutS, GetQ, PutQ, GetCount, GetIs, PutIs, Seen, PutI;
    var t1 := PutInt(1, PutQ(m.minid, PutQ(m.maxid, t)));
    var t2 := PutIs(m.weights, PutS(index, t1));
    var t3 := PutS(m.sortby, PutS(query, PutInt(|m.weights|, t2)));
    IBack(m.offset, PutI(m.limit, PutI(m.mode, PutI(m.ranker, PutI(m.sort, t3)))));
    IBack(m.limit, PutI(m.mode, PutI(m.ranker, PutI(m.sort, t3))));
    IBack(m.mode, PutI(m.ranker, PutI(m.sort, t3)));
    IBack(m.ranker, PutI(m.sort, t3));
    IBack(m.sort, t3);
    SBack(m.sortby, PutS(query, PutInt(|m.weights|, t2)));
    SBack(query, PutInt(|m.weights|, t2));
    CountBack(|m.weights|, t2);
    IsBack(m.weights, PutS(index, t1));
    SBack(index, t1);
    IntBack(1, PutQ(m.minid, PutQ(m.maxid, t)));
    QBack(m.minid, PutQ(m.maxid, t));
    QBack(m.maxid, t);
  }

  lemma ValueBack(n: Int64, version: Short, t: seq<Byte>)
    ensures GetValue(version, PutValue(n, version, t)) == Got(SeenValue(n, version), t)
  {
    hide GetInt, PutInt, GetQ, PutQ;
    QBack(ToQword(n), t);
    IntBack(ToWord(n), t);
  }

  lemma {:induction false} ValuesBack(ns: seq<Int64>, version: Short, t: seq<Byte>)
    ensures GetValues(|ns|, version, PutValues(ns, version, t)) == Got(SeenValues(ns, version), t)
    decreases |ns|
  {
    hide GetValue, PutValue, SeenValue;
    if ns != [] {
      ValueBack(ns[0], version, PutValues(ns[1..], version, t));
      ValuesBack(ns[1..], version, t);
      assert SeenValues(ns, version) == [SeenValue(ns[0], version)] + SeenValues(ns[1..], version);
    }
  }

  lemma FilterBodyBack(f: Filter, version: Short, t: seq<Byte>)
    ensures GetFilterBody(Filter(Seen(f.attr), f.filterType, [], 0, 0, 0, 0, 0), version, PutFilterBody(f, version, t))
            == Got(SeenFilter(f, version).(exclude := 0), t)
  {
    hide GetInt, PutInt, GetCount, GetValue, PutValue, GetValues, PutValues, SeenValues, SeenValue, Seen;
    if f.filterType == SPH_FILTER_VALUES {
      CountBack(|f.values|, PutValues(f.values, version, t));
      ValuesBack(f.values, version, t);
    } else if f.filterType == SPH_FILTER_RANGE {
      ValueBack(f.umin, version, PutValue(f.umax, version, t));
      ValueBack(f.umax, version, t);
    } else if f.filterType == SPH_FILTER_FLOATRANGE {
      IntBack(f.fmin, PutInt(f.fmax, t));
      IntBack(f.fmax, t);
    }
  }

  lemma FilterBack(f: Filter, version: Short, t: seq<Byte>)
    ensures GetFilter(version, PutFilter(f, version, t)) == Got(SeenFilter(f, version), t)
  {
    hide GetI, PutI, GetS, PutS, GetFilterBody, PutFilterBody, Seen, SeenValues, SeenValue;
    var onExclude := PutI(f.exclude, t);
    SBack(f.attr, PutI(f.filterType, PutFilterBody(f, version, onExclude)));
    IBack(f.filterType, PutFilterBody(f, version, onExclude));
    FilterBodyBack(f, version, onExclude);
    IBack(f.exclude, t);
  }

  lemma {:induction false} FiltersBack(fs: seq<Filter>, version: Short, t: seq<Byte>)
    ensures GetFilters(|fs|, version, PutFilters(fs, version, t)) == Got(SeenFilters(fs, version), t)
    decreases |fs|
  {
    hide GetFilter, PutFilter, SeenFilter;
    if fs != [] {
      FilterBack(fs[0], version, PutFilters(fs[1..], version, t));
      FiltersBack(fs[1..], version, t);
      assert SeenFilters(fs, version) == [SeenFilter(fs[0], version)] + SeenFilters(fs[1..], version);
    }
  }

  lemma GroupingBack(g: Grouping, t: seq<Byte>)
    ensures GetGrouping(PutGrouping(g, t)) == Got(SeenGrouping(g), t)
  {
    hide GetI, PutI, GetS, PutS, Seen;
    var t1 := PutI(g.cutoff, PutI(g.retryCount, PutI(g.retryDelay, PutS(g.groupDistinct, t))));
    IBack(g.groupFunc, PutS(g.groupBy, PutI(g.maxMatches, PutS(g.groupSort, t1))));
    SBack(g.groupBy, PutI(g.maxMatches, PutS(g.groupSort, t1)));
    IBack(g.maxMatches, PutS(g.groupSort, t1));
    SBack(g.groupSort, t1);
    IBack(g.cutoff, PutI(g.retryCount, PutI(g.retryDelay, PutS(g.groupDistinct, t))));
    IBack(g.retryCount, PutI(g.retryDelay, PutS(g.groupDistinct, t)));
    IBack(g.retryDelay, PutS(g.groupDistinct, t));
    SBack(g.groupDistinct, t);
  }

  lemma GeoBack(g: Geo, t: seq<Byte>)
    ensures GetGeo(PutGeo(g, t)) == Got(SeenGeo(g), t)
  {
    hide GetInt, PutInt, GetS, PutS;
    if g.attrLat.Some? && g.attrLong.Some? {
      IntBack(1, PutS(g.attrLat, PutS(g.attrLong, PutInt(g.lat, PutInt(g.long, t)))));
      SBack(g.attrLat, PutS(g.attrLong, PutInt(g.lat, PutInt(g.long, t))));
      SBack(g.attrLong, PutInt(g.lat, PutInt(g.long, t)));
      IntBack(g.lat, PutInt(g.long, t));
      IntBack(g.long, t);
    } else {
      IntBack(0, t);
    }
  }

  lemma {:induction false} NamedsBack(ns: seq<Named>, t: seq<Byte>)
    ensures GetNameds(|ns|, PutNameds(ns, t)) == Got(SeenNameds(ns), t)
    decreases |ns|
  {
    hide GetS, PutS, GetI, PutI, Seen;
    if ns != [] {
      SBack(ns[0].name, PutI(ns[0].weight, PutNameds(ns[1..], t)));
      IBack(ns[0].weight, PutNameds(ns[1..], t));
      NamedsBack(ns[1..], t);
      assert SeenNameds(ns) == [SeenNamed(ns[0])] + SeenNameds(ns[1..]);
    }
  }

  lemma {:induction false} PairsBack(ps: seq<(Qword, Word)>, t: seq<Byte>)
    ensures GetPairs(|ps|, PutPairs(ps, t)) == Got(ps, t)
  {
    hide GetQ, PutQ, GetInt, PutInt;
    if ps != [] {
      QBack(ps[0].0, PutInt(ps[0].1, PutPairs(ps[1..], t)));
      IntBack(ps[0].1, PutPairs(ps[1..], t));
      PairsBack(ps[1..], t);
      assert [ps[0]] + ps[1..] == ps;
    }
  }

  lemma OverrideBack(o: Override, t: seq<Byte>)
    ensures GetOverride(PutOverride(o, t)) == Got(Override(Seen(o.attr), o.values), t)
  {
    hide GetS, PutS, GetInt, PutInt, GetCount, GetPairs, PutPairs, Seen;
    SBack(o.attr, PutInt(SPH_ATTR_INTEGER, PutInt(|o.values|, PutPairs(o.values, t))));
    IntBack(SPH_ATTR_INTEGER, PutInt(|o.values|, PutPairs(o.values, t)));
    CountBack(|o.values|, PutPairs(o.values, t));
    PairsBack(o.values, t);
  }

  lemma {:induction false} OverridesBack(os: seq<Override>, t: seq<Byte>)
    ensures GetOverrides(|os|, PutOverrides(os, t)) == Got(SeenOverrides(os), t)
    decreases |os|
  {
    hide GetOverride, PutOverride, Seen;
    if os != [] {
      OverrideBack(os[0], PutOverrides(os[1..], t));
      OverridesBack(os[1..], t);
      assert SeenOverrides(os) == [Override(Seen(os[0].attr), os[0].values)] + SeenOverrides(os[1..]);
    }
  }

  lemma WeightsBack(s: Settings, comment: CStr, t: seq<Byte>)
    ensures GetWeights(PutWeights(s, comment, t))
            == Got(Weights(SeenNameds(s.indexWeights), s.maxQueryTime, SeenNameds(s.fieldWeights), Seen(comment)), t)
  {
    hide GetS, PutS, GetI, PutI, PutInt, GetCount, GetNameds, PutNameds, SeenNameds, Seen;
    var onComment := PutS(comment, t);
    var onFields := PutInt(|s.fieldWeights|, PutNameds(s.fieldWeights, onComment));
    CountBack(|s.indexWeights|, PutNameds(s.indexWeights, PutI(s.maxQueryTime, onFields)));
    NamedsBack(s.indexWeights, PutI(s.maxQueryTime, onFields));
    IBack(s.maxQueryTime, onFields);
    CountBack(|s.fieldWeights|, PutNameds(s.fieldWeights, onComment));
    NamedsBack(s.fieldWeights, onComment);
    SBack(comment, t);
  }

  lemma ExtrasBack(s: Settings, version: Short, t: seq<Byte>)
    ensures GetExtras(version, PutExtras(s, version, t))
            == Got(Extras(if version >= 0x115 then SeenOverrides(s.overrides) else [],
                          if version >= 0x116 then Seen(s.selectList) else None), t)
  {
    hide GetS, PutS, PutInt, GetCount, GetOverrides, PutOverrides, SeenOverrides, Seen;
    var onSelect := if version >= 0x116 then PutS(s.selectList, t) else t;
    CountBack(|s.overrides|, PutOverrides(s.overrides, onSelect));
    OverridesBack(s.overrides, onSelect);
    SBack(s.selectList, t);
  }

  // The request of every query in every protocol version is read back as the query, and the
  // bytes after it are left.
  lemma RequestBack(q: Query, version: Short, t: seq<Byte>)
    ensures GetRequest(version, PutRequest(q, version, t)) == Got(SeenQuery(q, version), t)
  {
    hide GetMatching, PutMatching, PutInt, GetCount, GetFilters, PutFilters, GetGrouping, PutGrouping, GetGeo, PutGeo,
      GetWeights, PutWeights, GetExtras, PutExtras, SeenFilters, SeenGrouping, SeenGeo, SeenNameds, SeenOverrides, Seen;
    var s := q.settings;
    var onExtras := PutExtras(s, version, t);
    var onWeights := PutWeights(s, q.comment, onExtras);
    var onGeo := PutGeo(s.geo, onWeights);
    var onGrouping := PutGrouping(s.grouping, onGeo);
    var onFilters := PutFilters(s.filters, version, onGrouping);
    MatchingBack(s.matching, q.query, q.index, PutInt(|s.filters|, onFilters));
    CountBack(|s.filters|, onFilters);
    FiltersBack(s.filters, version, onGrouping);
    GroupingBack(s.grouping, onGeo);
    GeoBack(s.geo, onWeights);
    WeightsBack(s, q.comment, onExtras);
    ExtrasBack(s, version, t);
  }

  // ---------- a batch ----------

  function GetShort(b: seq<Byte>): Got<Short> {
    if |b| < 2 then Nothing
    else
      Powers();
      Got(FromBig(b[..2]), b[2..])
  }

  function GetRequests(k: nat, version: Short, b: seq<Byte>): Got<seq<Query>> {
    if k == 0 then Got([], b)
    else
      var (q, b) :- GetRequest(version, b);
      var (qs, b) :- GetRequests(k - 1, version, b);
      Got([q] + qs, b)
  }

  datatype Batch = Batch(version: Short, queries: seq<Query>)

  // A batch is refused unless its header gives the length of what follows.
  function GetBatch(b: seq<Byte>): Got<Batch> {
    var (command, b) :- GetShort(b);
    var (version, b) :- GetShort(b);
    var (len, b) :- GetInt(b);
    if command != SEARCHD_COMMAND_SEARCH || len != |b| then Nothing
    else
      var (count, b) :- GetInt(b);
      var (queries, b) :- GetRequests(count, version, b);
      Got(Batch(version, queries), b)
  }

  function SeenQueries(qs: seq<Query>, version: Short): seq<Query> {
    seq(|qs|, i requires 0 <= i < |qs| => SeenQuery(qs[i], version))
  }

  ghost predicate AreRequests(reqs: seq<seq<Byte>>, qs: seq<Query>, version: Short) {
    |reqs| == |qs| && forall i :: 0 <= i < |qs| ==> reqs[i] == PutRequest(qs[i], version, [])
  }

  lemma ShortBack(n: Short, t: seq<Byte>)
    ensures GetShort(Big16(n) + t) == Got(n, t)
  {
    Powers();
    BigBack(n, 2);
    assert (Big16(n) + t)[2..] == t && (Big16(n) + t)[..2] == Big16(n);
  }

  lemma {:induction false} RequestsBack(reqs: seq<seq<Byte>>, qs: seq<Query>, version: Short)
    requires AreRequests(reqs, qs, version)
    ensures GetRequests(|qs|, version, Joined(reqs)) == Got(SeenQueries(qs, version), [])
    decreases |qs|
  {
    hide GetRequest, PutRequest, SeenQuery;
    if qs == [] {
      assert reqs == [] && SeenQueries(qs, version) == [];
    } else {
      assert reqs[0] == PutRequest(qs[0], version, []);
      RequestThen(qs[0], version, [], Joined(reqs[1..]));
      assert [] + Joined(reqs[1..]) == Joined(reqs[1..]);
      RequestBack(qs[0], version, Joined(reqs[1..]));
      RequestsBack(reqs[1..], qs[1..], version);
      assert SeenQueries(qs, version) == [SeenQuery(qs[0], version)] + SeenQueries(qs[1..], version);
    }
  }

  // What SendBatch writes for the requests that AddQuery built is read back as those queries.
  lemma BatchBack(reqs: seq<seq<Byte>>, qs: seq<Query>, version: Short, len: Word)
    requires AreRequests(reqs, qs, version) && |qs| <= MAX_REQS && len == 4 + |Joined(reqs)|
    ensures GetBatch(Header(version, len, |qs|, []) + Joined(reqs)) == Got(Batch(version, SeenQueries(qs, version)), [])
  {
    hide GetShort, GetInt, GetRequests, PutInt, Big16, Joined, SeenQueries, AreRequests, Header;
    var onCount := PutInt(|qs|, Joined(reqs));
    HeaderThen(version, len, |qs|, Joined(reqs));
    HeaderParts(version, len, |qs|, Joined(reqs));
    ShortBack(SEARCHD_COMMAND_SEARCH, Big16(version) + PutInt(len, onCount));
    ShortBack(version, PutInt(len, onCount));
    IntBack(len, onCount);
    PutIntParts(|qs|, Joined(reqs));
    IntBack(|qs|, Joined(reqs));
    RequestsBack(reqs, qs, version);
  }

  lemma HeaderParts(version: Short, len: Word, count: Word, t: seq<Byte>)
    ensures Header(version, len, count, t)
            == Big16(SEARCHD_COMMAND_SEARCH) + (Big16(version) + PutInt(len, PutInt(count, t)))
  {
    hide PutInt, Big16;
  }

  lemma HeaderThen(version: Short, len: Word, count: Word, t: seq<Byte>)
    ensures Header(version, len, count, []) + t == Header(version, len, count, t)
  {
    hide PutInt, Big16;
    IntThen(count, [], t);
    assert [] + t == t;
    IntThen(len, PutInt(count, []), t);
    var a, b, c := Big16(SEARCHD_COMMAND_SEARCH), Big16(version), PutInt(len, PutInt(count, []));
    assert (a + (b + c)) + t == a + (b + (c + t));
  }
}
