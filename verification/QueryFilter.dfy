/** The filters of a query: the constructor SphinxQueryData of src/sphinx_query_data.h. */
module QueryFilter {
  import opened Wrappers
  import opened HexTable

  const LONG_MAX := 0x7fff_ffff_ffff_ffff

  // ---------- strings ----------

  predicate IsDigit(c: char) {
    '0' <= c <= '9'
  }

  predicate AllDigits(s: string) {
    forall i :: 0 <= i < |s| ==> IsDigit(s[i])
  }

  function DecimalValue(s: string): nat
    requires AllDigits(s)
  {
    if s == [] then 0 else 10 * DecimalValue(s[..|s| - 1]) + (s[|s| - 1] as int - '0' as int)
  }

  function Wrapped(n: int): int {
    var m := n % 0x1_0000_0000;
    if m < 0x8000_0000 then m else m - 0x1_0000_0000
  }

  // atoi on digits: strtol, which saturates, cut to an int
  function Atoi(s: string): int
    requires AllDigits(s)
  {
    var v := DecimalValue(s);
    Wrapped(if v > LONG_MAX then LONG_MAX else v)
  }

  // find ( c, i ), with the length for npos
  function IndexFrom(s: string, c: char, i: nat): (r: nat)
    ensures r <= |s| && (r < |s| ==> i <= r && s[r] == c)
    ensures forall k :: i <= k < |s| && k < r ==> s[k] != c
    decreases |s| - i
  {
    if i >= |s| then |s| else if s[i] == c then i else IndexFrom(s, c, i + 1)
  }

  // find_first_not_of ( " ", i )
  function NotSpaceFrom(s: string, i: nat): (r: nat)
    ensures r <= |s| && (i < |s| ==> i <= r) && (r < |s| ==> s[r] != ' ')
    ensures forall k :: i <= k < r ==> s[k] == ' '
    decreases |s| - i
  {
    if i >= |s| then |s| else if s[i] != ' ' then i else NotSpaceFrom(s, i + 1)
  }

  predicate ToAt(s: string, i: nat) {
    i + 4 <= |s| && s[i..i + 4] == " TO "
  }

  // find ( " TO ", i )
  function ToFrom(s: string, i: nat): (r: nat)
    ensures r <= |s| && (r < |s| ==> i <= r && ToAt(s, r))
    ensures forall k :: i <= k < r ==> !ToAt(s, k)
    decreases |s| - i
  {
    if i >= |s| then |s| else if ToAt(s, i) then i else ToFrom(s, i + 1)
  }

  predicate IsCloser(c: char) {
    c == ']' || c == ')'
  }

  // find_first_of ( "])", i )
  function CloserFrom(s: string, i: nat): (r: nat)
    ensures r <= |s| && (r < |s| ==> i <= r && IsCloser(s[r]))
    ensures forall k :: i <= k < |s| && k < r ==> !IsCloser(s[k])
    decreases |s| - i
  {
    if i >= |s| then |s| else if IsCloser(s[i]) then i else CloserFrom(s, i + 1)
  }

  function TrimRight(s: string): string {
    if s != [] && (s[|s| - 1] == ' ' || s[|s| - 1] == '\t') then TrimRight(s[..|s| - 1]) else s
  }

  function TrimLeft(s: string): string {
    if s != [] && s[0] == ' ' then TrimLeft(s[1..]) else s
  }

  function Trim(s: string): string {
    TrimLeft(TrimRight(s))
  }

  // ---------- a filter ----------

  // The bounds of a float range are kept as text.
  datatype Condition =
    | Values(values: seq<int>)
    | IntRange(intMin: int, intMax: int)
    | FloatRange(from: string, to: string, fromIsInner: bool, toIsInner: bool)

  datatype Filter = Filter(attrName: string, exclude: bool, condition: Condition)

  // The comparison of the bounds of a float range, which are computed by atof
  type FloatTest = (string, string, bool, bool) -> bool

  // A string without characters makes it->at(0) throw; every other error is a format error.
  datatype Result<+T> = OutOfRange | FormatError | Ok(value: T)

  // One number of a list: at most nine digits between blanks, or nothing, which counts as 0
  function ListValue(s: string): Option<int> {
    var t := Trim(s);
    if !AllDigits(t) || |t| > 9 then None else Some(Atoi(t))
  }

  function ParseValues(it: string, s: nat): Option<seq<int>>
    requires s <= |it|
    decreases |it| - s
  {
    var p := IndexFrom(it, ',', s);
    if p == |it| then
      match ListValue(it[s..])
      case None => None
      case Some(v) => Some([v])
    else if p == s then None
    else
      match ListValue(it[s..p])
      case None => None
      case Some(v) =>
        match ParseValues(it, p + 1)
        case None => None
        case Some(vs) => Some([v] + vs)
  }

  predicate IsNumber(s: string) {
    forall i :: 0 <= i < |s| ==> IsDigit(s[i]) || s[i] == '.'
  }

  function MakeRange(from: string, to: string, fromIsInner: bool, toIsInner: bool, accepts: FloatTest): Option<Condition>
    requires IsNumber(from) && IsNumber(to)
  {
    if '.' in from || '.' in to then
      if accepts(from, to, fromIsInner, toIsInner) then Some(FloatRange(from, to, fromIsInner, toIsInner)) else None
    else
      var intMin := Wrapped(Atoi(from) + if fromIsInner then 0 else 1);
      var intMax := Wrapped(Atoi(to) - if toIsInner then 0 else 1);
      if intMin > intMax then None else Some(IntRange(intMin, intMax))
  }

  // A range from its bracket at p on
  function ParseRange(it: string, p: nat, accepts: FloatTest): Option<Condition>
    requires p < |it|
  {
    var s := NotSpaceFrom(it, p + 1);
    if s == |it| then None
    else
      var t := ToFrom(it, s);
      if t == |it| then None
      else
        var from := TrimRight(it[s..t]);
        if !IsNumber(from) then None else ParseTo(it, t + 4, from, it[p] == '[', accepts)
  }

  function ParseTo(it: string, s: nat, from: string, fromIsInner: bool, accepts: FloatTest): Option<Condition>
    requires s <= |it| && IsNumber(from)
  {
    var p := CloserFrom(it, s);
    if p == |it| || p == s || p + 1 != |it| then None
    else
      var to := Trim(it[s..p]);
      if !IsNumber(to) then None else MakeRange(from, to, fromIsInner, it[p] == ']', accepts)
  }

  function ParseFilter(it: string, accepts: FloatTest): Result<Filter> {
    if it == [] then OutOfRange
    else
      var exclude := it[0] == '!';
      var s := if exclude then 1 else 0;
      var p := IndexFrom(it, ':', s + 1);
      if p == |it| then FormatError
      else
        var attrName := it[s..p];
        var q := NotSpaceFrom(it, p + 1);
        if q == |it| then FormatError
        else
          var condition := if it[q] == '[' || it[q] == '(' then ParseRange(it, q, accepts)
                           else if ParseValues(it, q).Some? then Some(Values(ParseValues(it, q).value)) else None;
          if condition == None then FormatError else Ok(Filter(attrName, exclude, condition.value))
  }

  function ParseFilters(its: seq<string>, accepts: FloatTest): Result<seq<Filter>> {
    if its == [] then Ok([])
    else
      match ParseFilter(its[0], accepts)
      case OutOfRange => OutOfRange
      case FormatError => FormatError
      case Ok(f) =>
        match ParseFilters(its[1..], accepts)
        case OutOfRange => OutOfRange
        case FormatError => FormatError
        case Ok(fs) => Ok([f] + fs)
  }

  // ---------- the constructor ----------

  method ReadValues(it: string, start: nat) returns (r: Option<seq<int>>)
    requires start <= |it|
    ensures r == ParseValues(it, start)
  {
    hide ListValue, IndexFrom;
    var values: seq<int> := [];
    var s := start;
    BehindNothing(ParseValues(it, start));
    while true
      invariant start <= s <= |it|
      invariant ParseValues(it, start) == Behind(values, ParseValues(it, s))
      decreases |it| - s
    {
      var p := IndexFrom(it, ',', s);
      ValuesStep(it, s, values);
      if p != |it| {
        if p <= s {
          return None;
        }
      }
      var v := ListValue(it[s..p]);
      assert p == |it| ==> it[s..p] == it[s..];
      if v == None {
        return None;
      }
      values := values + [v.value];
      if p == |it| {
        return Some(values);
      }
      s := p + 1;
    }
  }

  function Behind(vs: seq<int>, more: Option<seq<int>>): Option<seq<int>> {
    if more.Some? then Some(vs + more.value) else None
  }

  lemma BehindNothing(more: Option<seq<int>>)
    ensures Behind([], more) == more
  {
    if more.Some? {
      assert [] + more.value == more.value;
    }
  }

  lemma ValuesStep(it: string, s: nat, vs: seq<int>)
    requires s <= |it|
    ensures var p := IndexFrom(it, ',', s);
            Behind(vs, ParseValues(it, s)) ==
            if p == |it| then
              (match ListValue(it[s..]) case None => None case Some(v) => Some(vs + [v]))
            else if p == s then None
            else match ListValue(it[s..p]) case None => None case Some(v) => Behind(vs + [v], ParseValues(it, p + 1))
  {
    hide ListValue;
    var p := IndexFrom(it, ',', s);
    if s < p < |it| && ListValue(it[s..p]).Some? && ParseValues(it, p + 1).Some? {
      assert vs + ([ListValue(it[s..p]).value] + ParseValues(it, p + 1).value)
        == vs + [ListValue(it[s..p]).value] + ParseValues(it, p + 1).value;
    }
  }

  method ReadFilter(it: string, accepts: FloatTest) returns (r: Result<Filter>)
    ensures r == ParseFilter(it, accepts)
  {
    hide ParseValues, ParseRange, IndexFrom, NotSpaceFrom;
    if it == [] {
      return OutOfRange;
    }
    var exclude := it[0] == '!';
    var s := if exclude then 1 else 0;
    var p := IndexFrom(it, ':', s + 1);
    if p == |it| {
      return FormatError;
    }
    var attrName := it[s..p];
    p := NotSpaceFrom(it, p + 1);
    if p == |it| {
      return FormatError;
    }
    var condition: Option<Condition>;
    if it[p] == '[' || it[p] == '(' {
      condition := ReadRange(it, p, accepts);
    } else {
      var values := ReadValues(it, p);
      condition := if values.Some? then Some(Values(values.value)) else None;
    }
    r := if condition == None then FormatError else Ok(Filter(attrName, exclude, condition.value));
  }

  method ReadRange(it: string, start: nat, accepts: FloatTest) returns (r: Option<Condition>)
    requires start < |it|
    ensures r == ParseRange(it, start, accepts)
  {
    hide ToFrom, CloserFrom, NotSpaceFrom, Trim, TrimRight;
    var p := start;
    var fromIsInner, toIsInner := true, true;
    if it[p] != '[' {
      fromIsInner := false;
    }
    p := NotSpaceFrom(it, p + 1);
    if p == |it| {
      return None;
    }
    var s := p;
    p := ToFrom(it, s);
    if p == |it| {
      return None;
    }
    var numFrom := TrimRight(it[s..p]);
    if !IsNumber(numFrom) {
      return None;
    }
    s := p + 4;
    p := CloserFrom(it, s);
    if p == |it| || p == s {
      return None;
    }
    if p + 1 != |it| {
      return None;
    }
    if it[p] != ']' {
      toIsInner := false;
    }
    var numTo := Trim(it[s..p]);
    if !IsNumber(numTo) {
      return None;
    }
    r := MakeRange(numFrom, numTo, fromIsInner, toIsInner, accepts);
  }

  class SphinxQueryData {
    var filters: seq<Filter>

    constructor ()
      ensures filters == []
    {
      filters := [];
    }

    // The loop over the filters of a query; the first error is thrown.
    method ReadFilters(its: seq<string>, accepts: FloatTest) returns (r: Result<()>)
      modifies this
      ensures match ParseFilters(its, accepts)
              case Ok(fs) => r == Ok(()) && filters == old(filters) + fs
              case OutOfRange => r == OutOfRange
              case FormatError => r == FormatError
    {
      hide ParseFilter;
      for i := 0 to |its|
        invariant match ParseFilters(its[i..], accepts)
                  case Ok(fs) => ParseFilters(its, accepts).Ok? && old(filters) + ParseFilters(its, accepts).value == filters + fs
                  case OutOfRange => ParseFilters(its, accepts) == OutOfRange
                  case FormatError => ParseFilters(its, accepts) == FormatError
      {
        assert its[i..][0] == its[i] && its[i..][1..] == its[i + 1..];
        var f := ReadFilter(its[i], accepts);
        if f.OutOfRange? {
          return OutOfRange;
        }
        if f.FormatError? {
          return FormatError;
        }
        filters := filters + [f.value];
      }
      r := Ok(());
    }
  }

  // ---------- what the text of a filter means ----------

  // The decimal numeral of n without leading zeros, its digits by their places
  function Decimal(n: nat): (s: string)
    ensures s != []
  {
    if n < 10 then [LOWER_DIGITS[n]] else Decimal(n / 10) + [LOWER_DIGITS[n % 10]]
  }

  function Zeros(k: nat): (s: string)
    ensures |s| == k && forall i :: 0 <= i < k ==> s[i] == '0'
  {
    seq(k, _ => '0')
  }

  lemma {:induction false} ZerosValue(k: nat)
    ensures AllDigits(Zeros(k)) && DecimalValue(Zeros(k)) == 0
  {
    if k > 0 {
      assert Zeros(k)[..k - 1] == Zeros(k - 1);
      ZerosValue(k - 1);
    }
  }

  lemma DigitIs(d: nat)
    requires d < 10
    ensures IsDigit(LOWER_DIGITS[d]) && LOWER_DIGITS[d] as int - '0' as int == d
  {
  }

  // The value of a digit string is that of its numeral, with any zeros in front.
  lemma {:induction false} DecimalBack(zeros: nat, n: nat)
    ensures AllDigits(Zeros(zeros) + Decimal(n)) && DecimalValue(Zeros(zeros) + Decimal(n)) == n
  {
    hide Decimal, Zeros, DecimalValue, AllDigits;
    DigitIs(n % 10);
    DecimalUnfold(n);
    if n >= 10 {
      DecimalBack(zeros, n / 10);
      DigitsAppended(Zeros(zeros) + Decimal(n / 10), LOWER_DIGITS[n % 10]);
      assert Zeros(zeros) + Decimal(n) == (Zeros(zeros) + Decimal(n / 10)) + [LOWER_DIGITS[n % 10]];
    } else {
      ZerosValue(zeros);
      DigitsAppended(Zeros(zeros), LOWER_DIGITS[n]);
    }
  }

  lemma DigitsAppended(s: string, c: char)
    requires AllDigits(s) && IsDigit(c)
    ensures AllDigits(s + [c]) && DecimalValue(s + [c]) == 10 * DecimalValue(s) + (c as int - '0' as int)
  {
    assert (s + [c])[..|s|] == s;
  }

  // And every digit string is written in this way.
  lemma {:induction false} DigitsAre(s: string) returns (zeros: nat)
    requires AllDigits(s) && s != []
    ensures s == Zeros(zeros) + Decimal(DecimalValue(s))
    decreases |s|
  {
    hide Decimal, Zeros, DecimalValue;
    var front, c := s[..|s| - 1], s[|s| - 1];
    var d := c as int - '0' as int;
    assert s == front + [c];
    DigitPlace(c);
    DigitsAppended(front, c);
    if front == [] {
      NoDigits();
      OneMoreDigit(0, d);
      zeros := 0;
      assert Zeros(0) == [];
    } else {
      var v := DecimalValue(front);
      var z := DigitsAre(front);
      OneMoreDigit(v, d);
      if v == 0 {
        zeros := z + 1;
        ZeroMore(z, [c]);
      } else {
        zeros := z;
        assert (Zeros(z) + Decimal(v)) + [c] == Zeros(z) + (Decimal(v) + [c]);
      }
    }
  }

  lemma NoDigits()
    ensures DecimalValue([]) == 0
  {
  }

  lemma DigitPlace(c: char)
    requires IsDigit(c)
    ensures LOWER_DIGITS[c as int - '0' as int] == c
  {
  }

  lemma OneMoreDigit(v: nat, d: nat)
    requires d < 10
    ensures Decimal(10 * v + d) == if v == 0 then [LOWER_DIGITS[d]] else Decimal(v) + [LOWER_DIGITS[d]]
  {
    var n := 10 * v + d;
    assert n / 10 == v && n % 10 == d;
    DecimalUnfold(n);
    hide Decimal;
  }

  lemma DecimalUnfold(n: nat)
    ensures Decimal(n) == if n < 10 then [LOWER_DIGITS[n]] else Decimal(n / 10) + [LOWER_DIGITS[n % 10]]
  {
  }

  lemma ZeroMore(z: nat, s: string)
    ensures (Zeros(z) + Decimal(0)) + s == Zeros(z + 1) + s
  {
    assert Zeros(z) + ['0'] == Zeros(z + 1);
  }

  function Pow10(k: nat): nat {
    if k == 0 then 1 else 10 * Pow10(k - 1)
  }

  lemma NineDigits()
    ensures Pow10(9) == 1_000_000_000
  {
    assert Pow10(3) == 1000;
    assert Pow10(6) == 1_000_000;
  }

  // A part of a text, at its place
  lemma PartAt(u: string, x: string, rest: string)
    ensures var it := u + (x + rest);
            it == (u + x) + rest && |it| == |u| + |x| + |rest| && it[|u|..|u| + |x|] == x && it[|u| + |x|..] == rest
    ensures forall k :: |u| <= k < |u| + |x| ==> (u + (x + rest))[k] == x[k - |u|]
  {
  }

  // A name that the parser takes as it is, and the blanks behind its colon
  predicate PlainName(name: string, exclude: bool, blanks: string) {
    && name != [] && ':' !in name[1..]
    && (exclude || name[0] != '!')
    && AllBlank(blanks, false)
  }

  function PutName(name: string, exclude: bool, blanks: string): string {
    (if exclude then "!" else "") + name + ":" + blanks
  }

  lemma NameBack(name: string, exclude: bool, blanks: string, rest: string)
    requires PlainName(name, exclude, blanks) && rest != [] && rest[0] != ' '
    ensures var it := PutName(name, exclude, blanks) + rest;
            var s := if exclude then 1 else 0;
            var p := s + |name|;
            var q := |PutName(name, exclude, blanks)|;
            && it != [] && (it[0] == '!' <==> exclude)
            && IndexFrom(it, ':', s + 1) == p && p < |it| && it[s..p] == name
            && NotSpaceFrom(it, p + 1) == q < |it| && it[q] == rest[0]
  {
    var it, s := PutName(name, exclude, blanks) + rest, if exclude then 1 else 0;
    var p, q := s + |name|, |PutName(name, exclude, blanks)|;
    NameAt(name, exclude, blanks, rest);
    assert IndexFrom(it, ':', s + 1) == p;
    hide PutName;
    assert q == p + 1 + |blanks|;
    assert forall k :: p + 1 <= k < q ==> it[k] == ' ';
    assert NotSpaceFrom(it, p + 1) == q;
  }

  // The places of the name, the colon and the blanks
  lemma NameAt(name: string, exclude: bool, blanks: string, rest: string)
    requires PlainName(name, exclude, blanks) && rest != []
    ensures var it := PutName(name, exclude, blanks) + rest;
            var s := if exclude then 1 else 0;
            var p := s + |name|;
            && |PutName(name, exclude, blanks)| == p + 1 + |blanks|
            && (it[0] == '!' <==> exclude) && it[s..p] == name && it[p] == ':' && it[p + 1 + |blanks|] == rest[0]
            && (forall k :: s < k < p ==> it[k] != ':') && (forall k :: p + 1 <= k < p + 1 + |blanks| ==> it[k] == ' ')
  {
    var it, s := PutName(name, exclude, blanks) + rest, if exclude then 1 else 0;
    var p := s + |name|;
    assert it[s..p] == name && it[p] == ':';
    assert forall k :: s < k < p ==> it[k] == name[k - s] && name[k - s] == name[1..][k - s - 1];
    assert it[p + 1..p + 1 + |blanks|] == blanks;
    assert forall k :: p + 1 <= k < p + 1 + |blanks| ==> it[k] == blanks[k - p - 1];
  }

  // ---------- lists of values ----------

  function JoinItems(items: seq<string>): string
    requires items != []
  {
    if |items| == 1 then items[0] else items[0] + ("," + JoinItems(items[1..]))
  }

  // The values of the items; only the last one may be empty.
  function ItemValues(items: seq<string>): Option<seq<int>> {
    if items == [] then Some([])
    else
      var more := ItemValues(items[1..]);
      if ListValue(items[0]) == None || more == None || (|items| > 1 && items[0] == []) then None
      else Some([ListValue(items[0]).value] + more.value)
  }

  lemma {:induction false} ItemValuesAre(items: seq<string>)
    ensures var r := ItemValues(items);
            && (r.Some? <==> forall i :: 0 <= i < |items| ==> ListValue(items[i]).Some? && (i < |items| - 1 ==> items[i] != []))
            && (r.Some? ==> |r.value| == |items| && forall i :: 0 <= i < |items| ==> Some(r.value[i]) == ListValue(items[i]))
  {
    hide ListValue;
    if items != [] {
      ItemValuesAre(items[1..]);
      assert forall i :: 0 <= i < |items| - 1 ==> items[1..][i] == items[i + 1];
      assert forall i :: 1 <= i < |items| ==> items[i] == items[1..][i - 1];
    }
  }

  lemma CommaAt(before: string, d: string, more: string)
    requires ',' !in d
    ensures var it := before + (d + ("," + more));
            var p := |before| + |d|;
            IndexFrom(it, ',', |before|) == p < |it| && it[|before|..p] == d && it == (before + d + ",") + more
  {
    var it := before + (d + ("," + more));
    PartAt(before, d, "," + more);
    PartAt(before + d, ",", more);
    assert it[|before| + |d|] == ',';
    assert forall k :: |before| <= k < |before| + |d| ==> it[k] == d[k - |before|];
  }

  lemma NoCommaAt(before: string, d: string)
    requires ',' !in d
    ensures var it := before + d;
            IndexFrom(it, ',', |before|) == |it| && it[|before|..] == d
  {
    var it := before + d;
    assert forall k :: |before| <= k < |it| ==> it[k] == d[k - |before|];
  }

  lemma FirstItem(it: string, s: nat)
    requires s <= |it|
    ensures var p := IndexFrom(it, ',', s);
            ParseValues(it, s) ==
            if p == |it| then
              (match ListValue(it[s..]) case None => None case Some(v) => Some([v]))
            else if p == s then None
            else match ListValue(it[s..p]) case None => None case Some(v) => Behind([v], ParseValues(it, p + 1))
  {
    hide ListValue, IndexFrom;
  }

  // A list is taken item by item.
  lemma {:induction false} ListExact(before: string, items: seq<string>)
    requires items != [] && forall i :: 0 <= i < |items| ==> ',' !in items[i]
    ensures ParseValues(before + JoinItems(items), |before|) == ItemValues(items)
    decreases |items|
  {
    hide *;
    var d, it := items[0], before + JoinItems(items);
    ValuesOf(items);
    if |items| == 1 {
      OnlyItem(items);
      NoCommaAt(before, d);
      FirstItem(it, |before|);
      BehindNone(ListValue(d));
    } else {
      var more := JoinItems(items[1..]);
      MoreItems(items);
      CommaAt(before, d, more);
      ListExact(before + d + ",", items[1..]);
      FirstItem(it, |before|);
    }
  }

  lemma OnlyItem(items: seq<string>)
    requires |items| == 1
    ensures JoinItems(items) == items[0] && ItemValues(items[1..]) == Some([])
  {
  }

  lemma MoreItems(items: seq<string>)
    requires |items| > 1
    ensures JoinItems(items) == items[0] + ("," + JoinItems(items[1..]))
  {
  }

  lemma BehindNone(v: Option<int>)
    ensures v.Some? ==> Behind([v.value], Some([])) == Some([v.value])
  {
    if v.Some? {
      assert [v.value] + [] == [v.value];
    }
  }

  lemma ValuesOf(items: seq<string>)
    requires items != []
    ensures ItemValues(items) ==
            match ListValue(items[0])
            case None => None
            case Some(v) => if |items| > 1 && items[0] == [] then None else Behind([v], ItemValues(items[1..]))
  {
    hide ListValue;
  }

  // A number as it may be written in a list: at most nine digits, between blanks; none at all
  // count as 0.
  datatype Item = Item(before: string, digits: string, after: string) {
    predicate Valid() {
      AllBlank(before, false) && AllDigits(digits) && AllBlank(after, true)
    }

    function Text(): string {
      (before + digits) + after
    }
  }

  lemma {:induction false} DecimalBound(s: string)
    requires AllDigits(s)
    ensures DecimalValue(s) < Pow10(|s|)
  {
    if s != [] {
      DecimalBound(s[..|s| - 1]);
    }
  }

  lemma {:induction false} PowGrows(a: nat, b: nat)
    requires a <= b
    ensures Pow10(a) <= Pow10(b)
  {
    if a < b {
      PowGrows(a, b - 1);
    }
  }

  lemma AtMostNine(s: string)
    requires AllDigits(s) && |s| <= 9
    ensures Atoi(s) == DecimalValue(s)
  {
    hide Pow10, DecimalValue;
    NineDigits();
    DecimalBound(s);
    PowGrows(|s|, 9);
  }

  lemma {:induction false} AllTrimmed(s: string)
    requires AllBlank(s, true)
    ensures TrimRight(s) == []
  {
    if s != [] {
      AllTrimmed(s[..|s| - 1]);
    }
  }

  lemma ItemTrimmed(i: Item)
    requires i.Valid()
    ensures Trim(i.Text()) == i.digits
  {
    if i.digits == [] {
      AllTrimmed(i.Text());
    } else {
      hide TrimRight, TrimLeft;
      var t := i.before + i.digits;
      assert t[|t| - 1] == i.digits[|i.digits| - 1];
      assert IsDigit(i.digits[|i.digits| - 1]) && IsDigit(i.digits[0]);
      TrimBehind(t, i.after);
      TrimBefore(i.before, i.digits);
    }
  }

  // What an item is worth, and which items are refused
  lemma ItemBack(i: Item)
    requires i.Valid()
    ensures ListValue(i.Text()) == if |i.digits| > 9 then None else Some(DecimalValue(i.digits))
  {
    ItemTrimmed(i);
    hide Trim, Atoi, DecimalValue;
    if |i.digits| <= 9 {
      AtMostNine(i.digits);
    }
  }

  lemma {:induction false} TrimRightParts(s: string) returns (after: string)
    ensures AllBlank(after, true) && s == TrimRight(s) + after
  {
    if s != [] && (s[|s| - 1] == ' ' || s[|s| - 1] == '\t') {
      var a := TrimRightParts(s[..|s| - 1]);
      after := a + [s[|s| - 1]];
      assert s == s[..|s| - 1] + [s[|s| - 1]];
    } else {
      after := [];
    }
  }

  lemma {:induction false} TrimLeftParts(s: string) returns (before: string)
    ensures AllBlank(before, false) && s == before + TrimLeft(s)
  {
    if s != [] && s[0] == ' ' {
      var b := TrimLeftParts(s[1..]);
      before := [' '] + b;
      assert s == [' '] + s[1..];
    } else {
      before := [];
    }
  }

  // Every item that is taken is written in this way.
  lemma TakenItem(s: string) returns (i: Item)
    requires ListValue(s).Some?
    ensures i.Valid() && i.Text() == s && |i.digits| <= 9
  {
    var t := TrimRight(s);
    var after := TrimRightParts(s);
    var before := TrimLeftParts(t);
    i := Item(before, TrimLeft(t), after);
  }

  // The whole filter: its values, or a format error
  lemma ListFilterExact(name: string, exclude: bool, blanks: string, items: seq<string>, accepts: FloatTest)
    requires PlainName(name, exclude, blanks) && items != [] && forall i :: 0 <= i < |items| ==> ',' !in items[i]
    requires items[0] != [] && items[0][0] != ' ' && items[0][0] != '[' && items[0][0] != '('
    ensures ParseFilter(PutName(name, exclude, blanks) + JoinItems(items), accepts)
            == if ItemValues(items) == None then FormatError else Ok(Filter(name, exclude, Values(ItemValues(items).value)))
  {
    JoinHead(items);
    hide *;
    var before, it := PutName(name, exclude, blanks), PutName(name, exclude, blanks) + JoinItems(items);
    NameBack(name, exclude, blanks, JoinItems(items));
    FilterStep(it, exclude, (if exclude then 1 else 0) + |name|, |before|, accepts);
    ListExact(before, items);
  }

  lemma JoinHead(items: seq<string>)
    requires items != [] && items[0] != []
    ensures JoinItems(items) != [] && JoinItems(items)[0] == items[0][0]
  {
  }

  // What is behind the colon decides.
  lemma FilterStep(it: string, exclude: bool, p: nat, q: nat, accepts: FloatTest)
    requires it != [] && (it[0] == '!' <==> exclude)
    requires var s := if exclude then 1 else 0; s <= p < |it| && IndexFrom(it, ':', s + 1) == p
    requires NotSpaceFrom(it, p + 1) == q < |it|
    ensures var condition := if it[q] == '[' || it[q] == '(' then ParseRange(it, q, accepts)
                             else if ParseValues(it, q).Some? then Some(Values(ParseValues(it, q).value)) else None;
            ParseFilter(it, accepts)
            == if condition == None then FormatError
               else Ok(Filter(it[if exclude then 1 else 0..p], exclude, condition.value))
  {
    hide ParseValues, ParseRange, IndexFrom, NotSpaceFrom;
  }

  function Texts(items: seq<Item>): seq<string> {
    seq(|items|, i requires 0 <= i < |items| => items[i].Text())
  }

  // attr:v1,...,vn and !attr:v1,...,vn, with blanks and leading zeros as they come
  lemma ValueFilterBack(name: string, exclude: bool, blanks: string, items: seq<Item>, values: seq<nat>, accepts: FloatTest)
    requires PlainName(name, exclude, blanks) && items != [] && |values| == |items|
    requires forall i :: 0 <= i < |items| ==>
               items[i].Valid() && |items[i].digits| <= 9 && DecimalValue(items[i].digits) == values[i]
    requires items[0].before == [] && items[0].digits != []
    requires forall i :: 0 <= i < |items| - 1 ==> items[i].Text() != []
    ensures ParseFilter(PutName(name, exclude, blanks) + JoinItems(Texts(items)), accepts)
            == Ok(Filter(name, exclude, Values(values)))
  {
    hide ParseFilter, JoinItems, PutName, PlainName, ListValue, DecimalValue, ItemValues;
    var texts := Texts(items);
    forall i | 0 <= i < |items| ensures ',' !in texts[i] && ListValue(texts[i]) == Some(values[i]) {
      ItemBack(items[i]);
      NoCommaIn(items[i]);
    }
    FirstChar(items[0]);
    ItemValuesAre(texts);
    ListFilterExact(name, exclude, blanks, texts, accepts);
    assert ItemValues(texts).value == values;
  }

  lemma NoCommaIn(i: Item)
    requires i.Valid()
    ensures ',' !in i.Text()
  {
  }

  lemma FirstChar(i: Item)
    requires i.Valid() && i.before == [] && i.digits != []
    ensures i.Text() != [] && IsDigit(i.Text()[0])
  {
    assert i.Text()[0] == i.digits[0];
  }

  // ---------- ranges ----------

  datatype Range = Range(from: nat, to: nat, fromIsInner: bool, toIsInner: bool)

  function Open(r: Range): string {
    if r.fromIsInner then "[" else "("
  }

  function Close(r: Range): string {
    if r.toIsInner then "]" else ")"
  }

  // How a range is written: the digits of its bounds, and the blanks around them
  datatype Spelling = Spelling(
    from: string, to: string, beforeFrom: string, behindFrom: string, beforeTo: string, behindTo: string)

  predicate AllBlank(s: string, tabs: bool) {
    forall i :: 0 <= i < |s| ==> s[i] == ' ' || (tabs && s[i] == '\t')
  }

  // Leading zeros are taken.
  predicate Numeral(s: string, n: nat) {
    s != [] && AllDigits(s) && DecimalValue(s) == n
  }

  // A bound, which may be anything that the parser finds the end of
  predicate PlainBound(s: string) {
    && s != [] && s[0] != ' ' && s[|s| - 1] != ' ' && s[|s| - 1] != '\t'
    && 'T' !in s && ']' !in s && ')' !in s
  }

  // Tabs are trimmed only behind a bound.
  predicate Shaped(w: Spelling) {
    && PlainBound(w.from) && AllBlank(w.beforeFrom, false) && AllBlank(w.behindFrom, true)
    && PlainBound(w.to) && AllBlank(w.beforeTo, false) && AllBlank(w.behindTo, true)
  }

  predicate Spells(w: Spelling, r: Range) {
    && Numeral(w.from, r.from) && AllBlank(w.beforeFrom, false) && AllBlank(w.behindFrom, true)
    && Numeral(w.to, r.to) && AllBlank(w.beforeTo, false) && AllBlank(w.behindTo, true)
  }

  lemma NumeralIsPlain(s: string, n: nat)
    requires Numeral(s, n)
    ensures PlainBound(s)
  {
    hide DecimalValue;
    assert IsDigit(s[0]) && IsDigit(s[|s| - 1]);
  }

  lemma SpellsIsShaped(w: Spelling, r: Range)
    requires Spells(w, r)
    ensures Shaped(w)
  {
    NumeralIsPlain(w.from, r.from);
    NumeralIsPlain(w.to, r.to);
    hide Numeral, PlainBound;
  }

  function FromText(w: Spelling): string {
    w.from + w.behindFrom
  }

  function ToText(w: Spelling): string {
    (w.beforeTo + w.to) + w.behindTo
  }

  // A range, with `extra` behind it
  function PutRange(r: Range, w: Spelling, extra: string): string {
    Open(r) + (w.beforeFrom + (FromText(w) + (" TO " + (ToText(w) + (Close(r) + extra)))))
  }

  predicate Contains(r: Range, x: int) {
    (if r.fromIsInner then r.from <= x else r.from < x) && (if r.toIsInner then x <= r.to else x < r.to)
  }

  lemma {:induction false} TrimBehind(s: string, blanks: string)
    requires s != [] && s[|s| - 1] != ' ' && s[|s| - 1] != '\t' && AllBlank(blanks, true)
    ensures TrimRight(s + blanks) == s
    decreases |blanks|
  {
    if blanks == [] {
      assert s + blanks == s;
    } else {
      var n := |blanks| - 1;
      TrimBehind(s, blanks[..n]);
      assert (s + blanks)[|s| + n] == blanks[n] && (s + blanks)[..|s| + n] == s + blanks[..n];
    }
  }

  lemma {:induction false} TrimBefore(blanks: string, s: string)
    requires s != [] && s[0] != ' ' && AllBlank(blanks, false)
    ensures TrimLeft(blanks + s) == s
    decreases |blanks|
  {
    if blanks == [] {
      assert blanks + s == s;
    } else {
      TrimBefore(blanks[1..], s);
      assert (blanks + s)[0] == blanks[0] && (blanks + s)[1..] == blanks[1..] + s;
    }
  }

  // Nothing that looks like the end of a bound
  predicate BoundText(s: string) {
    'T' !in s && ']' !in s && ')' !in s
  }

  lemma BoundTexts(w: Spelling)
    requires Shaped(w)
    ensures BoundText(FromText(w)) && BoundText(ToText(w)) && ToText(w) != []
    ensures FromText(w) != [] && FromText(w)[0] != ' ' && AllBlank(w.beforeFrom, false)
  {
  }

  lemma Trimmed(w: Spelling)
    requires Shaped(w)
    ensures TrimRight(FromText(w)) == w.from && Trim(ToText(w)) == w.to
  {
    hide TrimRight, TrimLeft;
    var t := w.beforeTo + w.to;
    assert t[|t| - 1] == w.to[|w.to| - 1];
    TrimBehind(w.from, w.behindFrom);
    TrimBehind(t, w.behindTo);
    TrimBefore(w.beforeTo, w.to);
  }

  // The signed 32-bit integer that agrees with v in the low 32 bits
  predicate IsInt32Of(i: int, v: int) {
    -0x8000_0000 <= i < 0x8000_0000 && (v - i) % 0x1_0000_0000 == 0
  }

  lemma WrappedIs(v: int, i: int)
    ensures IsInt32Of(Wrapped(v), v) && (IsInt32Of(i, v) ==> i == Wrapped(v))
  {
  }

  // What strtol makes of a value
  function Saturated(n: nat): nat {
    if n < 0x8000_0000_0000_0000 then n else 0x7fff_ffff_ffff_ffff
  }

  lemma NumeralValue(s: string, n: nat)
    requires Numeral(s, n)
    ensures AllDigits(s) && IsInt32Of(Atoi(s), Saturated(n)) && IsNumber(s) && '.' !in s
  {
    hide DecimalValue, Wrapped;
    WrappedIs(Saturated(n), 0);
    assert forall i :: 0 <= i < |s| ==> IsDigit(s[i]);
  }

  // Adding to the low bits, or to the value
  lemma LowBits(v: int, i: int, d: int)
    requires IsInt32Of(i, v)
    ensures Wrapped(i + d) == Wrapped(v + d)
  {
    WrappedIs(i + d, 0);
    WrappedIs(v + d, Wrapped(i + d));
    hide Wrapped;
    assert (v + d) - (i + d) == v - i;
    Congruent(v + d, i + d, Wrapped(i + d));
  }

  lemma Congruent(a: int, b: int, c: int)
    requires (a - b) % 0x1_0000_0000 == 0 && (b - c) % 0x1_0000_0000 == 0
    ensures (a - c) % 0x1_0000_0000 == 0
  {
  }

  // Where the parts of a range are found
  lemma BlanksAt(u: string, blanks: string, rest: string)
    requires AllBlank(blanks, false) && rest != [] && rest[0] != ' '
    ensures NotSpaceFrom(u + (blanks + rest), |u|) == |u| + |blanks|
  {
    var it := u + (blanks + rest);
    PartAt(u, blanks, rest);
    assert forall k :: |u| <= k < |u| + |blanks| ==> it[k] == ' ';
    assert it[|u| + |blanks|] == rest[0];
  }

  lemma NotTo(it: string, k: nat)
    requires k + 1 < |it| && it[k + 1] != 'T'
    ensures !ToAt(it, k)
  {
    assert k + 4 <= |it| ==> it[k..k + 4][1] == it[k + 1];
  }

  lemma ToIsAt(u: string, a: string, rest: string)
    requires BoundText(a)
    ensures var it := u + (a + (" TO " + rest));
            ToFrom(it, |u|) == |u| + |a| < |it| && it[|u|..|u| + |a|] == a
  {
    var it, t := u + (a + (" TO " + rest)), |u| + |a|;
    PartAt(u, a, " TO " + rest);
    PartAt(u + a, " TO ", rest);
    hide ToAt;
    assert it[t] == ' ';
    forall k | |u| <= k < t ensures !ToAt(it, k) {
      assert k + 1 < t ==> it[k + 1] == a[k + 1 - |u|] && it[k + 1] in a;
      NotTo(it, k);
    }
    assert ToAt(it, t) by { IsTo(it, t); }
  }

  lemma IsTo(it: string, t: nat)
    requires t + 4 <= |it| && it[t..t + 4] == " TO "
    ensures ToAt(it, t)
  {
  }

  lemma CloseAt(u: string, b: string, close: string, extra: string)
    requires BoundText(b) && (close == "]" || close == ")")
    ensures var it := u + (b + (close + extra));
            CloserFrom(it, |u|) == |u| + |b| == |it| - 1 - |extra| && it[|u|..|u| + |b|] == b && it[|u| + |b|] == close[0]
  {
    var it := u + (b + (close + extra));
    PartAt(u, b, close + extra);
    PartAt(u + b, close, extra);
    assert it[|u| + |b|] == close[0];
    assert forall k :: |u| <= k < |u| + |b| ==> it[k] == b[k - |u|] && it[k] in b;
  }

  function IntMin(r: Range): int {
    r.from + if r.fromIsInner then 0 else 1
  }

  function IntMax(r: Range): int {
    r.to - if r.toIsInner then 0 else 1
  }

  // The bounds as the code computes them, with the wrap-around of int
  function LowEnd(r: Range): int {
    Wrapped(Saturated(r.from) + if r.fromIsInner then 0 else 1)
  }

  function HighEnd(r: Range): int {
    Wrapped(Saturated(r.to) - if r.toIsInner then 0 else 1)
  }

  function ParsedRange(r: Range): Option<Condition> {
    if LowEnd(r) > HighEnd(r) then None else Some(IntRange(LowEnd(r), HighEnd(r)))
  }

  lemma RangeOf(r: Range, w: Spelling, accepts: FloatTest)
    requires Spells(w, r)
    ensures IsNumber(w.from) && IsNumber(w.to)
    ensures MakeRange(w.from, w.to, r.fromIsInner, r.toIsInner, accepts) == ParsedRange(r)
  {
    hide Atoi, IsNumber, AllDigits, Numeral, Wrapped, Saturated;
    NumeralValue(w.from, r.from);
    NumeralValue(w.to, r.to);
    LowBits(Saturated(r.from), Atoi(w.from), if r.fromIsInner then 0 else 1);
    LowBits(Saturated(r.to), Atoi(w.to), if r.toIsInner then 0 else -1);
    hide IsInt32Of;
  }

  // What the two bounds make
  function Made(r: Range, w: Spelling, accepts: FloatTest): Option<Condition> {
    if IsNumber(w.from) && IsNumber(w.to) then MakeRange(w.from, w.to, r.fromIsInner, r.toIsInner, accepts) else None
  }

  // The part behind " TO "
  lemma ToBack(u: string, r: Range, w: Spelling, extra: string, accepts: FloatTest)
    requires Shaped(w) && IsNumber(w.from)
    ensures ParseTo(u + (ToText(w) + (Close(r) + extra)), |u|, w.from, r.fromIsInner, accepts)
            == if extra == [] then Made(r, w, accepts) else None
  {
    hide Shaped, CloserFrom, Trim, TrimRight, IsNumber, MakeRange, ToText, BoundText;
    BoundTexts(w);
    Trimmed(w);
    CloseAt(u, ToText(w), Close(r), extra);
  }

  // The part before it
  function FromPart(u: string, blanks: string, a: string, rest: string): string {
    u + (blanks + (a + (" TO " + rest)))
  }

  lemma FromBack(u: string, w: Spelling, rest: string, p: nat, accepts: FloatTest)
    requires Shaped(w) && |u| == p + 1
    ensures var it := FromPart(u, w.beforeFrom, FromText(w), rest);
            var s := |u| + |w.beforeFrom| + |FromText(w)| + 4;
            && s <= |it|
            && ParseRange(it, p, accepts) == if !IsNumber(w.from) then None else ParseTo(it, s, w.from, it[p] == '[', accepts)
  {
    hide *;
    BoundTexts(w);
    Trimmed(w);
    var a := FromText(w);
    FromIsAt(u, w.beforeFrom, a, rest);
    RangeStep(FromPart(u, w.beforeFrom, a, rest), p, |u| + |w.beforeFrom|, |u| + |w.beforeFrom| + |a|, w.from, accepts);
  }

  lemma FromIsAt(u: string, blanks: string, a: string, rest: string)
    requires AllBlank(blanks, false) && BoundText(a) && a != [] && a[0] != ' '
    ensures var it := FromPart(u, blanks, a, rest);
            var s := |u| + |blanks|;
            && NotSpaceFrom(it, |u|) == s && ToFrom(it, s) == s + |a| && s + |a| + 4 <= |it|
            && it[s..s + |a|] == a
  {
    hide NotSpaceFrom, ToFrom, AllBlank, BoundText;
    var more := a + (" TO " + rest);
    assert more[0] == a[0];
    BlanksAt(u, blanks, more);
    PartAt(u, blanks, more);
    ToIsAt(u + blanks, a, rest);
  }

  lemma RangeStep(it: string, p: nat, s: nat, t: nat, from: string, accepts: FloatTest)
    requires p < |it| && NotSpaceFrom(it, p + 1) == s < |it| && ToFrom(it, s) == t < |it|
    requires TrimRight(it[s..t]) == from
    ensures ParseRange(it, p, accepts) == if !IsNumber(from) then None else ParseTo(it, t + 4, from, it[p] == '[', accepts)
  {
    hide NotSpaceFrom, TrimRight, IsNumber, ParseTo;
  }

  // The text of a range, taken apart before its first bound and before its second
  lemma Regroup(before: string, r: Range, w: Spelling, extra: string)
    ensures var rest := ToText(w) + (Close(r) + extra);
            var it := before + PutRange(r, w, extra);
            var u := before + Open(r);
            var v := ((u + w.beforeFrom) + FromText(w)) + " TO ";
            && it == FromPart(u, w.beforeFrom, FromText(w), rest) == v + rest
            && |u| == |before| + 1 && |v| == |u| + |w.beforeFrom| + |FromText(w)| + 4
            && it[|before|] == Open(r)[0]
  {
    hide ToText, FromText;
    var rest := ToText(w) + (Close(r) + extra);
    var u, a := before + Open(r), FromText(w);
    PartAt(before, Open(r), w.beforeFrom + (a + (" TO " + rest)));
    PartAt(u, w.beforeFrom, a + (" TO " + rest));
    PartAt(u + w.beforeFrom, a, " TO " + rest);
    PartAt((u + w.beforeFrom) + a, " TO ", rest);
  }

  lemma RangeBack(before: string, r: Range, w: Spelling, extra: string, accepts: FloatTest)
    requires Shaped(w)
    ensures ParseRange(before + PutRange(r, w, extra), |before|, accepts) == if extra == [] then Made(r, w, accepts) else None
  {
    hide Shaped, IsNumber, ParseTo, ParseRange, PutRange, ToText, FromText, FromPart, MakeRange;
    var rest := ToText(w) + (Close(r) + extra);
    var u := before + Open(r);
    Regroup(before, r, w, extra);
    FromBack(u, w, rest, |before|, accepts);
    if IsNumber(w.from) {
      ToBack(((u + w.beforeFrom) + FromText(w)) + " TO ", r, w, extra, accepts);
    }
  }

  lemma RangeHead(r: Range, w: Spelling, extra: string)
    ensures PutRange(r, w, extra) != [] && PutRange(r, w, extra)[0] == if r.fromIsInner then '[' else '('
  {
    hide FromText, ToText;
  }

  // The filter of a range, or a format error: for text behind the bracket, for bounds that are
  // no numbers, and for bounds that leave nothing between them
  lemma RangeFilterIs(name: string, exclude: bool, blanks: string, r: Range, w: Spelling, extra: string, accepts: FloatTest)
    requires PlainName(name, exclude, blanks) && Shaped(w)
    ensures ParseFilter(PutName(name, exclude, blanks) + PutRange(r, w, extra), accepts)
            == if extra != [] || Made(r, w, accepts) == None then FormatError
               else Ok(Filter(name, exclude, Made(r, w, accepts).value))
  {
    hide *;
    var before, it := PutName(name, exclude, blanks), PutName(name, exclude, blanks) + PutRange(r, w, extra);
    RangeHead(r, w, extra);
    NameBack(name, exclude, blanks, PutRange(r, w, extra));
    FilterStep(it, exclude, (if exclude then 1 else 0) + |name|, |before|, accepts);
    RangeBack(before, r, w, extra, accepts);
  }

  lemma IntRangeIs(name: string, exclude: bool, blanks: string, r: Range, w: Spelling, accepts: FloatTest)
    requires PlainName(name, exclude, blanks) && Spells(w, r)
    ensures ParseFilter(PutName(name, exclude, blanks) + PutRange(r, w, []), accepts)
            == if ParsedRange(r) == None then FormatError else Ok(Filter(name, exclude, ParsedRange(r).value))
  {
    SpellsIsShaped(w, r);
    RangeOf(r, w, accepts);
    hide PlainName, Spells, ParseFilter, PutRange, PutName, ParsedRange, MakeRange, IsNumber;
    RangeFilterIs(name, exclude, blanks, r, w, [], accepts);
  }

  lemma NumberChars(s: string)
    ensures IsNumber(s) <==> forall c :: c in s ==> c in ".0123456789"
  {
    forall i | 0 <= i < |s| ensures IsDigit(s[i]) || s[i] == '.' <==> s[i] in ".0123456789" {
      NumberChar(s[i]);
    }
    assert forall i :: 0 <= i < |s| ==> s[i] in s;
  }

  lemma NumberChar(c: char)
    ensures IsDigit(c) || c == '.' <==> c in ".0123456789"
  {
    if IsDigit(c) {
      assert ".0123456789"[c as int - '0' as int + 1] == c;
    }
  }

  // A range with a decimal point in one of its bounds is a float range, which is accepted if its
  // bounds compare; a bound with any other character is a format error.
  lemma OtherRangeBack(name: string, exclude: bool, blanks: string, r: Range, w: Spelling, accepts: FloatTest)
    requires PlainName(name, exclude, blanks) && Shaped(w) && (forall c :: c in w.from + w.to ==> c in "0123456789") == false
    ensures ParseFilter(PutName(name, exclude, blanks) + PutRange(r, w, []), accepts) ==
            if (forall c :: c in w.from + w.to ==> c in ".0123456789") && accepts(w.from, w.to, r.fromIsInner, r.toIsInner)
            then Ok(Filter(name, exclude, FloatRange(w.from, w.to, r.fromIsInner, r.toIsInner))) else FormatError
  {
    hide PlainName, Shaped, ParseFilter, PutRange, PutName, IsNumber;
    RangeFilterIs(name, exclude, blanks, r, w, [], accepts);
    NumberChars(w.from);
    NumberChars(w.to);
    HasPoint(w.from, w.to);
  }

  lemma HasPoint(a: string, b: string)
    ensures (forall c :: c in a + b ==> c in ".0123456789") <==>
            (forall c :: c in a ==> c in ".0123456789") && (forall c :: c in b ==> c in ".0123456789")
    ensures (forall c :: c in a + b ==> c in ".0123456789") && !(forall c :: c in a + b ==> c in "0123456789") ==> '.' in a || '.' in b
  {
    if (forall c :: c in a + b ==> c in ".0123456789") && '.' !in a && '.' !in b {
      forall c | c in a + b ensures c in "0123456789" {
        NumberChar(c);
        if IsDigit(c) {
          assert "0123456789"[c as int - '0' as int] == c;
        }
      }
    }
  }

  // What becomes of every integer range, however it is written: the bounds are those of atoi, a
  // long that saturates and is cut to an int, moved by one for a round bracket.
  lemma RangeFilterExact(name: string, exclude: bool, blanks: string, r: Range, w: Spelling, accepts: FloatTest, lo: int, hi: int)
    requires PlainName(name, exclude, blanks) && Spells(w, r)
    requires IsInt32Of(lo, Saturated(r.from) + if r.fromIsInner then 0 else 1)
    requires IsInt32Of(hi, Saturated(r.to) - if r.toIsInner then 0 else 1)
    ensures ParseFilter(PutName(name, exclude, blanks) + PutRange(r, w, []), accepts)
            == if lo > hi then FormatError else Ok(Filter(name, exclude, IntRange(lo, hi)))
  {
    hide PlainName, Spells, ParseFilter, PutRange, PutName, Wrapped, Saturated;
    IntRangeIs(name, exclude, blanks, r, w, accepts);
    WrappedIs(Saturated(r.from) + (if r.fromIsInner then 0 else 1), lo);
    WrappedIs(Saturated(r.to) - (if r.toIsInner then 0 else 1), hi);
    hide IsInt32Of;
  }

  const INT_MAX := 0x7fff_ffff

  lemma EndsFit(r: Range)
    requires IntMin(r) <= INT_MAX && IntMax(r) <= INT_MAX
    ensures IsInt32Of(IntMin(r), Saturated(r.from) + if r.fromIsInner then 0 else 1)
    ensures IsInt32Of(IntMax(r), Saturated(r.to) - if r.toIsInner then 0 else 1)
  {
  }

  // A range whose bounds fit an int is accepted exactly when some integer lies in it, and then
  // the bounds are those of exactly these integers.
  lemma RangeFilterBack(name: string, exclude: bool, blanks: string, r: Range, w: Spelling, accepts: FloatTest)
    requires PlainName(name, exclude, blanks) && Spells(w, r) && IntMin(r) <= INT_MAX && IntMax(r) <= INT_MAX
    ensures var f := ParseFilter(PutName(name, exclude, blanks) + PutRange(r, w, []), accepts);
            && (f.Ok? <==> exists x :: Contains(r, x))
            && (!f.Ok? ==> f == FormatError)
            && (f.Ok? ==> f.value.attrName == name && f.value.exclude == exclude && IsMeant(f.value.condition, r))
  {
    hide PlainName, Spells, ParseFilter, PutRange, PutName, IsInt32Of;
    EndsFit(r);
    RangeFilterExact(name, exclude, blanks, r, w, accepts, IntMin(r), IntMax(r));
    assert forall x :: IntMin(r) <= x <= IntMax(r) <==> Contains(r, x);
    if IntMin(r) <= IntMax(r) {
      assert Contains(r, IntMin(r));
    }
  }

  // The condition is the range of exactly the integers that lie in it.
  ghost predicate IsMeant(c: Condition, r: Range) {
    c.IntRange? && forall x :: c.intMin <= x <= c.intMax <==> Contains(r, x)
  }

  // A range with an integer in it becomes the range that is meant if and only if the largest of
  // them fits an int.
  lemma RangeMeantIff(name: string, exclude: bool, blanks: string, r: Range, w: Spelling, accepts: FloatTest)
    requires PlainName(name, exclude, blanks) && Spells(w, r) && exists x :: Contains(r, x)
    ensures var f := ParseFilter(PutName(name, exclude, blanks) + PutRange(r, w, []), accepts);
            f.Ok? && IsMeant(f.value.condition, r) <==> IntMax(r) <= INT_MAX
  {
    hide PlainName, Spells, ParseFilter, PutRange, PutName;
    var x :| Contains(r, x);
    assert IntMin(r) <= x <= IntMax(r);
    if IntMax(r) <= INT_MAX {
      RangeFilterBack(name, exclude, blanks, r, w, accepts);
    } else {
      IntRangeIs(name, exclude, blanks, r, w, accepts);
      WrappedIs(Saturated(r.to) - (if r.toIsInner then 0 else 1), 0);
      hide Wrapped;
      assert Contains(r, IntMax(r));
    }
  }

  // Text behind the closing bracket of a range makes the filter malformed.
  lemma TrailingTextRefused(name: string, exclude: bool, blanks: string, r: Range, w: Spelling, extra: string, accepts: FloatTest)
    requires PlainName(name, exclude, blanks) && Shaped(w) && extra != []
    ensures ParseFilter(PutName(name, exclude, blanks) + PutRange(r, w, extra), accepts) == FormatError
  {
    hide PlainName, Shaped, ParseFilter, PutRange, PutName;
    RangeFilterIs(name, exclude, blanks, r, w, extra, accepts);
  }

  // ---------- which filters are malformed ----------

  // Without a colon behind the name
  lemma NoColon(rest: string, exclude: bool, accepts: FloatTest)
    requires exclude || (rest != [] && rest[0] != '!')
    requires rest == [] || ':' !in rest[1..]
    ensures ParseFilter((if exclude then "!" else "") + rest, accepts) == FormatError
  {
    var it, s := (if exclude then "!" else "") + rest, if exclude then 1 else 0;
    assert it[0] == '!' <==> exclude;
    assert forall k :: s < k < |it| ==> it[k] == rest[1..][k - s - 1];
    assert IndexFrom(it, ':', s + 1) == |it|;
    hide IndexFrom, ParseValues, ParseRange;
  }

  // With nothing but blanks behind the colon
  lemma NothingBehindColon(name: string, exclude: bool, blanks: string, accepts: FloatTest)
    requires PlainName(name, exclude, blanks)
    ensures ParseFilter(PutName(name, exclude, blanks), accepts) == FormatError
  {
    var it, s := PutName(name, exclude, blanks), if exclude then 1 else 0;
    var p := s + |name|;
    NameAt(name, exclude, blanks, " ");
    assert (it + " ")[..|it|] == it;
    hide PutName, PlainName, ParseValues, ParseRange;
    assert forall k :: 0 <= k < |it| ==> it[k] == (it + " ")[k];
    assert IndexFrom(it, ':', s + 1) == p;
    assert NotSpaceFrom(it, p + 1) == |it|;
    hide IndexFrom, NotSpaceFrom;
  }

  // Either every filter is taken, in order, or the first one that is not gives the error.
  lemma {:induction false} FiltersExact(its: seq<string>, accepts: FloatTest)
    ensures match ParseFilters(its, accepts)
            case Ok(fs) =>
              |fs| == |its| && forall i :: 0 <= i < |its| ==> ParseFilter(its[i], accepts) == Ok(fs[i])
            case OutOfRange =>
              exists i :: 0 <= i < |its| && FirstBad(its, i, accepts) && its[i] == []
            case FormatError =>
              exists i :: 0 <= i < |its| && FirstBad(its, i, accepts) && its[i] != []
    decreases |its|
  {
    hide ParseFilter;
    if its != [] {
      EmptyFilter(its[0], accepts);
      if !ParseFilter(its[0], accepts).Ok? {
        assert FirstBad(its, 0, accepts);
      } else {
        FiltersExact(its[1..], accepts);
        if !ParseFilters(its[1..], accepts).Ok? {
          var i :| 0 <= i < |its| - 1 && FirstBad(its[1..], i, accepts)
            && (its[1..][i] == [] <==> ParseFilters(its[1..], accepts) == OutOfRange);
          NextBad(its, i, accepts);
        }
      }
    }
  }

  // Only the empty filter leaves the range of the string, at(0).
  lemma EmptyFilter(it: string, accepts: FloatTest)
    ensures ParseFilter(it, accepts) == OutOfRange <==> it == []
  {
    hide ParseValues, ParseRange;
  }

  ghost predicate FirstBad(its: seq<string>, i: nat, accepts: FloatTest) {
    i < |its| && !ParseFilter(its[i], accepts).Ok? && forall k :: 0 <= k < i ==> ParseFilter(its[k], accepts).Ok?
  }

  lemma NextBad(its: seq<string>, i: nat, accepts: FloatTest)
    requires its != [] && ParseFilter(its[0], accepts).Ok? && FirstBad(its[1..], i, accepts)
    ensures FirstBad(its, i + 1, accepts) && its[i + 1] == its[1..][i]
  {
    hide ParseFilter;
    assert forall k :: 1 <= k < |its| ==> its[k] == its[1..][k - 1];
  }
}
