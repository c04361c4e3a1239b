/**
 * `Json::Value` (libjson/jsoncpp.cpp): the tree of values, its members kept as
 * `std::map<CZString, Value>`, and the comparison operators of the class.
 */
module JsonValue {
  import opened Wrappers
  import StringOrder

  // A CZString: an array index (cstr_ == 0) or a member name.
  datatype Key = Index(i: nat) | Name(s: string)

  datatype Entry = Entry(key: Key, val: Value)

  // The constructors are listed in the order of `enum ValueType`. Arrays and objects
  // hold the entries of their std::map in key order; an array need not be dense.
  datatype Value =
    | Null
    | Int(i: int)
    | UInt(u: nat)
    | Real(r: real)
    | Str(cstr: Option<string>)
    | Bool(b: bool)
    | Arr(items: seq<Entry>)
    | Obj(items: seq<Entry>)

  function TypeTag(v: Value): nat {
    match v
    case Null => 0
    case Int(_) => 1
    case UInt(_) => 2
    case Real(_) => 3
    case Str(_) => 4
    case Bool(_) => 5
    case Arr(_) => 6
    case Obj(_) => 7
  }

  // ---------- CZString and std::map ----------

  // The keys of one map are all indices or all names; the mixed cases do not arise.
  predicate KeyLess(a: Key, b: Key) {
    match (a, b)
    case (Index(i), Index(j)) => i < j
    case (Name(s), Name(t)) => StringOrder.Less(s, t)
    case _ => false
  }

  predicate KeySorted(items: seq<Entry>) {
    forall i, j :: 0 <= i < j < |items| ==> KeyLess(items[i].key, items[j].key)
  }

  predicate AllIndices(items: seq<Entry>) {
    forall e <- items :: e.key.Index?
  }

  predicate AllNames(items: seq<Entry>) {
    forall e <- items :: e.key.Name?
  }

  // `find`: the mapped value, or the shared null value when the key is absent.
  function Get(items: seq<Entry>, key: Key): Value {
    if items == [] then Null
    else if items[0].key == key then items[0].val
    else Get(items[1..], key)
  }

  // `lower_bound` + `insert`, or assignment through the reference to an existing value.
  function Put(items: seq<Entry>, key: Key, val: Value): seq<Entry> {
    if items == [] then [Entry(key, val)]
    else if items[0].key == key then [Entry(key, val)] + items[1..]
    else if KeyLess(items[0].key, key) then [items[0]] + Put(items[1..], key, val)
    else [Entry(key, val)] + items
  }

  lemma {:induction false} KeyTrichotomy(a: Key, b: Key)
    requires a.Index? <==> b.Index?
    ensures KeyLess(a, b) || a == b || KeyLess(b, a)
    ensures !(KeyLess(a, b) && KeyLess(b, a)) && !KeyLess(a, a)
  {
    if a.Name? {
      StringOrder.Trichotomy(a.s, b.s);
      StringOrder.Irreflexive(a.s);
    }
  }

  lemma KeyTransitive(a: Key, b: Key, c: Key)
    requires KeyLess(a, b) && KeyLess(b, c)
    ensures KeyLess(a, c)
  {
    if a.Name? {
      StringOrder.Transitive(a.s, b.s, c.s);
    }
  }

  // Inserting past the last key appends; the reader meets the members in this order.
  lemma {:induction false} PutAppends(items: seq<Entry>, key: Key, val: Value)
    requires forall e <- items :: KeyLess(e.key, key)
    ensures Put(items, key, val) == items + [Entry(key, val)]
    ensures Get(items, key) == Null
  {
    if items != [] {
      KeyTrichotomy(items[0].key, key);
      PutAppends(items[1..], key, val);
      assert items == [items[0]] + items[1..];
    }
  }

  lemma {:induction false} PutKeys(items: seq<Entry>, key: Key, val: Value)
    ensures forall e <- Put(items, key, val) :: e == Entry(key, val) || e in items
  {
    if items != [] {
      PutKeys(items[1..], key, val);
    }
  }

  ghost predicate FirstIn(key: Key, items: seq<Entry>) {
    forall e <- items :: KeyLess(key, e.key)
  }

  lemma ConsSorted(e: Entry, tail: seq<Entry>)
    ensures KeySorted([e] + tail) <==> KeySorted(tail) && FirstIn(e.key, tail)
  {
    hide KeyLess;
    if KeySorted([e] + tail) {
      TailSorted(e, tail);
    }
    if KeySorted(tail) && FirstIn(e.key, tail) {
      HeadSorted(e, tail);
    }
  }

  lemma TailSorted(e: Entry, tail: seq<Entry>)
    requires KeySorted([e] + tail)
    ensures KeySorted(tail) && FirstIn(e.key, tail)
  {
    hide KeyLess;
    var r := [e] + tail;
    assert forall j :: 0 <= j < |tail| ==> r[j + 1] == tail[j];
    assert r[0] == e;
  }

  lemma HeadSorted(e: Entry, tail: seq<Entry>)
    requires KeySorted(tail) && FirstIn(e.key, tail)
    ensures KeySorted([e] + tail)
  {
    hide KeyLess;
    var r := [e] + tail;
    assert r[0] == e && forall j :: 0 < j < |r| ==> r[j] == tail[j - 1];
  }

  lemma {:induction false} PutFirst(items: seq<Entry>, key: Key, val: Value, first: Key)
    requires FirstIn(first, items) && KeyLess(first, key)
    ensures FirstIn(first, Put(items, key, val))
  {
    PutKeys(items, key, val);
    hide KeyLess, Put;
  }

  lemma FirstBefore(key: Key, e: Entry, tail: seq<Entry>)
    requires KeyLess(key, e.key) && FirstIn(e.key, tail)
    ensures FirstIn(key, [e] + tail)
  {
    hide KeyLess;
    forall x | x in tail ensures KeyLess(key, x.key) {
      KeyTransitive(key, e.key, x.key);
    }
  }

  lemma {:induction false} PutIsSorted(items: seq<Entry>, key: Key, val: Value)
    requires KeySorted(items)
    requires forall e <- items :: e.key.Index? <==> key.Index?
    ensures KeySorted(Put(items, key, val))
  {
    hide KeySorted, FirstIn, KeyLess;
    if items == [] {
      OneSorted(Entry(key, val));
    } else {
      var head, tail := items[0], items[1..];
      assert items == [head] + tail;
      ConsSorted(head, tail);
      KeyTrichotomy(head.key, key);
      if head.key == key {
        ConsSorted(Entry(key, val), tail);
      } else if KeyLess(head.key, key) {
        PutIsSorted(tail, key, val);
        PutFirst(tail, key, val, head.key);
        ConsSorted(head, Put(tail, key, val));
      } else {
        FirstBefore(key, head, tail);
        ConsSorted(Entry(key, val), items);
      }
    }
  }

  lemma OneSorted(e: Entry)
    ensures KeySorted([e])
  {
  }

  lemma {:induction false} PutGets(items: seq<Entry>, key: Key, val: Value)
    ensures Get(Put(items, key, val), key) == val
    ensures forall other :: other != key ==> Get(Put(items, key, val), other) == Get(items, other)
  {
    hide KeyLess;
    if items != [] {
      PutGets(items[1..], key, val);
    }
  }

  // The map stays sorted and holds exactly the new binding and the other old ones.
  lemma PutSorted(items: seq<Entry>, key: Key, val: Value)
    requires KeySorted(items)
    requires forall e <- items :: e.key.Index? <==> key.Index?
    ensures KeySorted(Put(items, key, val))
    ensures Get(Put(items, key, val), key) == val
    ensures forall other :: other != key ==> Get(Put(items, key, val), other) == Get(items, other)
    ensures forall e :: e in Put(items, key, val) <==> e == Entry(key, val) || (e in items && e.key != key)
  {
    PutIsSorted(items, key, val);
    PutGets(items, key, val);
    PutEntries(items, key, val);
  }

  lemma {:induction false} PutEntries(items: seq<Entry>, key: Key, val: Value)
    requires KeySorted(items)
    requires forall e <- items :: e.key.Index? <==> key.Index?
    ensures forall e :: e in Put(items, key, val) <==> e == Entry(key, val) || (e in items && e.key != key)
  {
    hide KeySorted, FirstIn, KeyLess;
    if items != [] {
      var head, tail := items[0], items[1..];
      assert items == [head] + tail;
      ConsSorted(head, tail);
      KeyTrichotomy(head.key, key);
      if head.key == key {
        NotAmong(key, tail);
      } else if KeyLess(head.key, key) {
        PutEntries(tail, key, val);
      } else {
        FirstBefore(key, head, tail);
        NotAmong(key, items);
      }
    }
  }

  lemma NotAmong(key: Key, items: seq<Entry>)
    requires FirstIn(key, items)
    ensures forall e <- items :: e.key != key
  {
    KeyTrichotomy(key, key);
    hide KeyLess;
  }

  // ---------- sizes ----------

  function Size(v: Value): (n: nat)
    ensures n >= 1
    decreases v
  {
    if v.Arr? || v.Obj? then 1 + SizeItems(v.items) else 1
  }

  function SizeItems(items: seq<Entry>): nat
    decreases items
  {
    if items == [] then 0
    else SizeEntry(items[0]) + SizeItems(items[1..])
  }

  function SizeEntry(e: Entry): (n: nat)
    ensures n == Size(e.val)
    decreases e
  {
    Size(e.val)
  }

  lemma {:induction false} SizeOfItem(items: seq<Entry>, i: nat)
    requires i < |items|
    ensures 1 <= Size(items[i].val) <= SizeItems(items)
  {
    if i > 0 {
      SizeOfItem(items[1..], i - 1);
    }
  }

  lemma {:induction false} SizeOfGet(items: seq<Entry>, key: Key)
    requires items != []
    ensures Size(Get(items, key)) <= SizeItems(items)
  {
    SizeOfItem(items, 0);
    if items[0].key != key && |items| > 1 {
      SizeOfGet(items[1..], key);
    }
  }

  // ---------- operator<, operator==, compare ----------

  // `int( size_t - size_t )`: the difference wraps to 32 bits.
  function Int32(x: int): int {
    var m := x % 0x1_0000_0000;
    if m < 0x8000_0000 then m else m - 0x1_0000_0000
  }

  predicate Less(a: Value, b: Value)
    decreases Size(a) + Size(b), 0
  {
    if TypeTag(a) != TypeTag(b) then TypeTag(a) < TypeTag(b)
    else match a
      case Null => false
      case Int(i) => i < b.i
      case UInt(u) => u < b.u
      case Real(r) => r < b.r
      case Bool(v) => !v && b.b
      case Str(s) =>
        || (s.None? && b.cstr.Some?)
        || (s.Some? && b.cstr.Some? && StringOrder.Less(s.value, b.cstr.value))
      case _ =>
        var delta := Int32(|a.items| - |b.items|);
        if delta != 0 then delta < 0 else LessItems(a.items, b.items)
  }

  // std::lexicographical_compare over the entries
  predicate LessItems(xs: seq<Entry>, ys: seq<Entry>)
    decreases SizeItems(xs) + SizeItems(ys), 2
  {
    if xs == [] || ys == [] then xs == [] && ys != []
    else if LessEntry(xs[0], ys[0]) then true
    else if LessEntry(ys[0], xs[0]) then false
    else LessItems(xs[1..], ys[1..])
  }

  // operator< of std::pair
  predicate LessEntry(x: Entry, y: Entry)
    decreases Size(x.val) + Size(y.val), 1
  {
    KeyLess(x.key, y.key) || (!KeyLess(y.key, x.key) && Less(x.val, y.val))
  }

  predicate Equal(a: Value, b: Value)
    decreases a
  {
    TypeTag(a) == TypeTag(b) &&
    match a
    case Null => true
    case Int(i) => i == b.i
    case UInt(u) => u == b.u
    case Real(r) => r == b.r
    case Bool(v) => v == b.b
    case Str(s) =>
      // the pointers agree, or both are set and strcmp finds no difference
      (s.None? && b.cstr.None?) || (s.Some? && b.cstr.Some? && s.value == b.cstr.value)
    case _ =>
      |a.items| == |b.items| &&
      forall k :: 0 <= k < |a.items| ==> EqualEntry(a.items[k], b.items[k])
  }

  predicate EqualEntry(x: Entry, y: Entry)
    decreases x
  {
    x.key == y.key && Equal(x.val, y.val)
  }

  function Compare(a: Value, b: Value): int {
    if Less(a, b) then -1 else if Less(b, a) then 1 else 0
  }

  // Keys of the right kind, and fewer than 2^31 members in every map, so that the
  // 32-bit difference of two sizes has the sign of the difference.
  predicate Regular(v: Value)
  {
    v.Arr? || v.Obj? ==>
      && |v.items| < 0x8000_0000
      && forall e <- v.items :: (e.key.Index? <==> v.Arr?) && Regular(e.val)
  }

  predicate RegularItems(items: seq<Entry>, indices: bool) {
    forall e <- items :: (e.key.Index? <==> indices) && Regular(e.val)
  }

  // operator== is equality of trees.
  lemma {:induction false} EqualIsIdentity(a: Value, b: Value)
    ensures Equal(a, b) <==> a == b
    decreases a
  {
    if (a.Arr? && b.Arr?) || (a.Obj? && b.Obj?) {
      if |a.items| == |b.items| {
        forall k | 0 <= k < |a.items|
          ensures EqualEntry(a.items[k], b.items[k]) <==> a.items[k] == b.items[k]
        {
          EqualIsIdentity(a.items[k].val, b.items[k].val);
        }
        if forall k :: 0 <= k < |a.items| ==> a.items[k] == b.items[k] {
          assert a.items == b.items;
        }
      }
    }
  }

  // Exactly one of a < b, a == b, b < a.
  lemma {:induction false} Trichotomy(a: Value, b: Value)
    requires Regular(a) && Regular(b)
    ensures Less(a, b) || a == b || Less(b, a)
    ensures !(Less(a, b) && Less(b, a))
    ensures a == b ==> !Less(a, b)
    decreases Size(a) + Size(b), 0
  {
    if SameContainer(a, b) {
      hide Regular, Less, LessItems, RegularItems, SizeItems;
      RegularParts(a);
      RegularParts(b);
      LessContainer(a, b);
      LessContainer(b, a);
      TrichotomyItems(a.items, b.items, a.Arr?);
    } else {
      TrichotomyScalar(a, b);
    }
  }

  predicate SameContainer(a: Value, b: Value) {
    (a.Arr? && b.Arr?) || (a.Obj? && b.Obj?)
  }

  lemma RegularParts(v: Value)
    requires Regular(v) && (v.Arr? || v.Obj?)
    ensures RegularItems(v.items, v.Arr?) && |v.items| < 0x8000_0000
  {
  }

  // Shorter containers are smaller.
  lemma LessContainer(a: Value, b: Value)
    requires SameContainer(a, b) && |a.items| < 0x8000_0000 && |b.items| < 0x8000_0000
    ensures Less(a, b) <==> |a.items| < |b.items| || (|a.items| == |b.items| && LessItems(a.items, b.items))
  {
    hide LessItems;
  }

  lemma TrichotomyScalar(a: Value, b: Value)
    requires !SameContainer(a, b)
    ensures Less(a, b) || a == b || Less(b, a)
    ensures !(Less(a, b) && Less(b, a))
    ensures a == b ==> !Less(a, b)
  {
    hide StringOrder.Less, LessItems;
    if a.Str? && b.Str? && a.cstr.Some? && b.cstr.Some? {
      StringOrder.Trichotomy(a.cstr.value, b.cstr.value);
      StringOrder.Irreflexive(a.cstr.value);
    }
  }

  lemma {:induction false} TrichotomyItems(xs: seq<Entry>, ys: seq<Entry>, indices: bool)
    requires RegularItems(xs, indices) && RegularItems(ys, indices)
    ensures LessItems(xs, ys) || xs == ys || LessItems(ys, xs)
    ensures !(LessItems(xs, ys) && LessItems(ys, xs))
    ensures xs == ys ==> !LessItems(xs, ys)
    decreases SizeItems(xs) + SizeItems(ys), 2
  {
    if xs != [] && ys != [] {
      TrichotomyEntry(xs[0], ys[0]);
      TrichotomyItems(xs[1..], ys[1..], indices);
      assert xs == [xs[0]] + xs[1..] && ys == [ys[0]] + ys[1..];
    }
  }

  lemma {:induction false} TrichotomyEntry(x: Entry, y: Entry)
    requires x.key.Index? <==> y.key.Index?
    requires Regular(x.val) && Regular(y.val)
    ensures LessEntry(x, y) || x == y || LessEntry(y, x)
    ensures !(LessEntry(x, y) && LessEntry(y, x))
    ensures x == y ==> !LessEntry(x, y)
    decreases Size(x.val) + Size(y.val), 1
  {
    KeyTrichotomy(x.key, y.key);
    Trichotomy(x.val, y.val);
  }

  lemma {:induction false} Transitive(a: Value, b: Value, c: Value)
    requires Regular(a) && Regular(b) && Regular(c)
    requires Less(a, b) && Less(b, c)
    ensures Less(a, c)
    decreases Size(a) + Size(b) + Size(c), 0
  {
    if SameContainer(a, b) && SameContainer(b, c) {
      hide Regular, Less, LessItems, RegularItems, SizeItems;
      RegularParts(a);
      RegularParts(b);
      RegularParts(c);
      LessContainer(a, b);
      LessContainer(b, c);
      LessContainer(a, c);
      if |a.items| == |b.items| == |c.items| {
        TransitiveItems(a.items, b.items, c.items, a.Arr?);
      }
    } else {
      TransitiveScalar(a, b, c);
    }
  }

  lemma TransitiveScalar(a: Value, b: Value, c: Value)
    requires Less(a, b) && Less(b, c) && !(SameContainer(a, b) && SameContainer(b, c))
    ensures Less(a, c)
  {
    hide StringOrder.Less, LessItems;
    if a.Str? && b.Str? && c.Str? && a.cstr.Some? {
      StringOrder.Transitive(a.cstr.value, b.cstr.value, c.cstr.value);
    }
  }

  lemma {:induction false} TransitiveItems(xs: seq<Entry>, ys: seq<Entry>, zs: seq<Entry>, indices: bool)
    requires RegularItems(xs, indices) && RegularItems(ys, indices) && RegularItems(zs, indices)
    requires LessItems(xs, ys) && LessItems(ys, zs)
    ensures LessItems(xs, zs)
    decreases SizeItems(xs) + SizeItems(ys) + SizeItems(zs), 2
  {
    if xs != [] {
      TrichotomyEntry(xs[0], ys[0]);
      TrichotomyEntry(ys[0], zs[0]);
      TrichotomyEntry(xs[0], zs[0]);
      if LessEntry(xs[0], ys[0]) && LessEntry(ys[0], zs[0]) {
        TransitiveEntry(xs[0], ys[0], zs[0]);
      } else if xs[0] == ys[0] == zs[0] {
        TransitiveItems(xs[1..], ys[1..], zs[1..], indices);
      }
    }
  }

  lemma {:induction false} TransitiveEntry(x: Entry, y: Entry, z: Entry)
    requires x.key.Index? == y.key.Index? == z.key.Index?
    requires Regular(x.val) && Regular(y.val) && Regular(z.val)
    requires LessEntry(x, y) && LessEntry(y, z)
    ensures LessEntry(x, z)
    decreases Size(x.val) + Size(y.val) + Size(z.val), 1
  {
    KeyTrichotomy(x.key, y.key);
    KeyTrichotomy(y.key, z.key);
    KeyTrichotomy(x.key, z.key);
    if KeyLess(x.key, y.key) && KeyLess(y.key, z.key) {
      KeyTransitive(x.key, y.key, z.key);
    } else if x.key == y.key == z.key {
      Transitive(x.val, y.val, z.val);
    }
  }

  // The entries agree up to k, where the first key is smaller, or the first value under the
  // same key.
  predicate DiffersAt(xs: seq<Entry>, ys: seq<Entry>, k: nat) {
    && k < |xs| && k < |ys| && xs[..k] == ys[..k]
    && (KeyLess(xs[k].key, ys[k].key) || (xs[k].key == ys[k].key && Less(xs[k].val, ys[k].val)))
  }

  lemma {:induction false} LessItemsExact(xs: seq<Entry>, ys: seq<Entry>, indices: bool)
    requires |xs| == |ys| && RegularItems(xs, indices) && RegularItems(ys, indices)
    ensures LessItems(xs, ys) <==> exists k :: DiffersAt(xs, ys, k)
    decreases |xs|
  {
    if xs != [] {
      hide Less, KeyLess;
      KeyTrichotomy(xs[0].key, ys[0].key);
      TrichotomyEntry(xs[0], ys[0]);
      DiffersAtHead(xs, ys);
      if xs[0] == ys[0] {
        LessItemsExact(xs[1..], ys[1..], indices);
        DiffersBehind(xs, ys);
      } else {
        NoMoreDiffers(xs, ys);
      }
    }
  }

  lemma DiffersAtHead(xs: seq<Entry>, ys: seq<Entry>)
    requires xs != [] && ys != []
    ensures DiffersAt(xs, ys, 0) <==>
            KeyLess(xs[0].key, ys[0].key) || (xs[0].key == ys[0].key && Less(xs[0].val, ys[0].val))
  {
    hide Less, KeyLess;
  }

  lemma NoMoreDiffers(xs: seq<Entry>, ys: seq<Entry>)
    requires xs != [] && ys != [] && xs[0] != ys[0]
    ensures (exists k :: DiffersAt(xs, ys, k)) <==> DiffersAt(xs, ys, 0)
  {
    hide Less, KeyLess;
    forall k: nat ensures DiffersAt(xs, ys, k) ==> k == 0 {
      SameHead(xs, ys, k);
    }
  }

  lemma SameHead(xs: seq<Entry>, ys: seq<Entry>, k: nat)
    requires xs != [] && ys != []
    ensures DiffersAt(xs, ys, k) && k > 0 ==> xs[0] == ys[0]
  {
    hide Less, KeyLess;
    if DiffersAt(xs, ys, k) && k > 0 {
      assert xs[0] == xs[..k][0] && ys[0] == ys[..k][0];
    }
  }

  lemma DiffersBehind(xs: seq<Entry>, ys: seq<Entry>)
    requires xs != [] && ys != [] && xs[0] == ys[0] && !DiffersAt(xs, ys, 0)
    ensures (exists k :: DiffersAt(xs, ys, k)) <==> exists k :: DiffersAt(xs[1..], ys[1..], k)
  {
    hide Less, KeyLess;
    forall k: nat | k > 0 && DiffersAt(xs, ys, k) ensures DiffersAt(xs[1..], ys[1..], k - 1) {
      assert xs[1..][..k - 1] == xs[..k][1..] && ys[1..][..k - 1] == ys[..k][1..];
    }
    forall k: nat | DiffersAt(xs[1..], ys[1..], k) ensures DiffersAt(xs, ys, k + 1) {
      assert xs[..k + 1] == [xs[0]] + xs[1..][..k] && ys[..k + 1] == [ys[0]] + ys[1..][..k];
    }
  }

  // Arrays and objects are ordered by their sizes, and then by the first entry that differs.
  lemma LessExact(a: Value, b: Value)
    requires Regular(a) && Regular(b) && SameContainer(a, b)
    ensures Less(a, b) <==>
            |a.items| < |b.items| || (|a.items| == |b.items| && exists k :: DiffersAt(a.items, b.items, k))
  {
    hide Regular, Less, LessItems, RegularItems, DiffersAt;
    RegularParts(a);
    RegularParts(b);
    LessContainer(a, b);
    if |a.items| == |b.items| {
      LessItemsExact(a.items, b.items, a.Arr?);
    }
  }

  // Values of different kinds are ordered by their kinds, numbers by size, false before true, and
  // strings as strcmp does, behind the null pointer.
  lemma LessScalarExact(a: Value, b: Value)
    requires !SameContainer(a, b)
    ensures Less(a, b) <==>
            match (a, b)
            case (Int(i), Int(j)) => i < j
            case (UInt(i), UInt(j)) => i < j
            case (Real(i), Real(j)) => i < j
            case (Bool(i), Bool(j)) => j && !i
            case (Str(None), Str(t)) => t != None
            case (Str(Some(s)), Str(Some(t))) => exists k :: StringOrder.DiffersAt(s, t, k)
            case (Str(_), Str(_)) => false
            case _ =>
              || (a.Null? && !b.Null?)
              || (a.Int? && (b.UInt? || b.Real? || b.Str? || b.Bool? || b.Arr? || b.Obj?))
              || (a.UInt? && (b.Real? || b.Str? || b.Bool? || b.Arr? || b.Obj?))
              || (a.Real? && (b.Str? || b.Bool? || b.Arr? || b.Obj?))
              || (a.Str? && (b.Bool? || b.Arr? || b.Obj?))
              || (a.Bool? && (b.Arr? || b.Obj?))
              || (a.Arr? && b.Obj?)
  {
    hide LessItems, StringOrder.Less, StringOrder.DiffersAt;
    if a.Str? && b.Str? && a.cstr.Some? && b.cstr.Some? {
      StringOrder.LessExact(a.cstr.value, b.cstr.value);
    }
  }

  // compare is 0 exactly on equal values, antisymmetric, and -1 exactly on smaller ones.
  lemma CompareIsThreeWay(a: Value, b: Value)
    requires Regular(a) && Regular(b)
    ensures Compare(a, b) == 0 <==> a == b
    ensures Compare(a, b) == 0 <==> Equal(a, b)
    ensures Compare(b, a) == -Compare(a, b)
  {
    Trichotomy(a, b);
    Trichotomy(b, a);
    EqualIsIdentity(a, b);
  }
}
