/**
 * The batch allocator of libjson/jsoncpp.cpp: blocks are cut from batches one after another,
 * and released blocks are kept in a list whose links lie in the released memory.
 */
module BatchAllocator {
  import opened Wrappers

  // The address of a block: the batch it lies in, by order of allocation, and its first object
  datatype Block = Block(batch: nat, offset: nat)

  datatype BatchInfo = BatchInfo(next: Option<nat>, used: nat, end: nat)

  // The dummy page is batch 0. `size` is objectPerAllocation, `perPage` objectsPerPage.
  datatype Pool = Pool(size: nat, perPage: nat, free: seq<Block>, batches: seq<BatchInfo>, head: nat, current: nat)

  // allocateBatch gives room for size * perPage objects, but ends the batch after perPage.
  function Memory(s: Pool, batch: nat): nat {
    if batch == 0 then 0 else s.size * s.perPage
  }

  predicate IsFull(b: BatchInfo) {
    b.used == b.end
  }

  // New batches are put before the older ones.
  predicate Linked(batches: seq<BatchInfo>) {
    && batches != []
    && forall k :: 0 <= k < |batches| ==> batches[k].next == if k == 0 then None else Some(k - 1)
  }

  predicate Sound(s: Pool) {
    Linked(s.batches) && s.head == |s.batches| - 1 && s.current < |s.batches| && s.size > 0
  }

  // The first batch with space from `cur` on
  function Search(batches: seq<BatchInfo>, cur: Option<nat>): (r: Option<nat>)
    requires Linked(batches) && (cur.Some? ==> cur.value < |batches|)
    ensures r.Some? ==> r.value < |batches| && cur.Some? && r.value <= cur.value && !IsFull(batches[r.value])
    ensures r == None ==> cur == None || forall k :: 0 <= k <= cur.value ==> IsFull(batches[k])
    decreases if cur.Some? then 1 + cur.value else 0
  {
    if cur.Some? && IsFull(batches[cur.value]) then Search(batches, batches[cur.value].next) else cur
  }

  function WithBatch(s: Pool): Pool {
    s.(batches := s.batches + [BatchInfo(Some(s.head), 0, s.perPage)], head := |s.batches|, current := |s.batches|)
  }

  // The pool once the current batch is one to cut from
  function Ready(s: Pool): (r: Pool)
    requires Sound(s)
    ensures Sound(r)
  {
    if !IsFull(s.batches[s.current]) then s
    else
      match Search(s.batches, s.batches[s.current].next)
      case Some(k) => s.(current := k)
      case None => WithBatch(s)
  }

  function Bump(s: Pool): Pool
    requires Sound(s)
  {
    var b := s.batches[s.current];
    s.(batches := s.batches[s.current := b.(used := b.used + s.size)])
  }

  function Allocate(s: Pool): (Pool, Block)
    requires Sound(s)
  {
    if s.free != [] then (s.(free := s.free[1..]), s.free[0])
    else
      var r := Ready(s);
      (Bump(r), Block(r.current, r.batches[r.current].used))
  }

  function Release(s: Pool, block: Block): Pool {
    s.(free := [block] + s.free)
  }

  function Fresh(size: nat, perPage: nat): Pool {
    Pool(size, perPage, [], [BatchInfo(None, 0, 0)], 0, 0)
  }

  // ---------- the class ----------

  class Allocator {
    const objectPerAllocation: nat
    const objectsPerPage: nat
    var batches: seq<BatchInfo>
    var head: nat
    var currentBatch: nat
    var freeHead: Option<Block>
    var links: map<Block, Option<Block>>   // what lies in the memory of released blocks
    ghost var free: seq<Block>

    constructor (objectPerAllocation: nat, objectsPerPage: nat)
      requires objectPerAllocation > 0 && objectsPerPage >= 16
      ensures Valid() && View() == Fresh(objectPerAllocation, objectsPerPage)
    {
      this.objectPerAllocation, this.objectsPerPage := objectPerAllocation, objectsPerPage;
      batches, head, currentBatch := [BatchInfo(None, 0, 0)], 0, 0;
      freeHead, links, free := None, map[], [];
    }

    ghost predicate Valid()
      reads this
    {
      Sound(View()) && IsChain(freeHead, free, links)
    }

    ghost function View(): Pool
      reads this
    {
      Pool(objectPerAllocation, objectsPerPage, free, batches, head, currentBatch)
    }

    method AllocateBlock() returns (block: Block)
      requires Valid()
      modifies this
      ensures Valid() && (View(), block) == Allocate(old(View()))
    {
      hide Search;
      if freeHead.Some? {
        block := freeHead.value;
        freeHead := links[block];
        free := free[1..];
        return;
      }
      if batches[currentBatch].used == batches[currentBatch].end {
        var cur := NextBatch();
        if cur == None {
          batches := batches + [BatchInfo(Some(head), 0, objectsPerPage)];
          head := |batches| - 1;
          cur := Some(head);
        }
        currentBatch := cur.value;
      }
      assert View() == Ready(old(View()));
      var b := batches[currentBatch];
      block := Block(currentBatch, b.used);
      batches := batches[currentBatch := b.(used := b.used + objectPerAllocation)];
    }

    // The search from the batch after the current one
    method NextBatch() returns (cur: Option<nat>)
      requires Valid()
      ensures cur == Search(batches, batches[currentBatch].next)
    {
      cur := batches[currentBatch].next;
      while cur.Some? && batches[cur.value].used == batches[cur.value].end
        invariant cur.Some? ==> cur.value < |batches|
        invariant Search(batches, cur) == Search(batches, batches[currentBatch].next)
        decreases if cur.Some? then 1 + cur.value else 0
      {
        assert Linked(batches);
        cur := batches[cur.value].next;
      }
    }

    // The block is live: it is not in the list of released blocks.
    method ReleaseBlock(block: Block)
      requires Valid() && block !in free
      modifies this
      ensures Valid() && View() == Release(old(View()), block)
    {
      ghost var was := links;
      ChainKeeps(freeHead, free, links, block, freeHead);
      links := links[block := freeHead];
      freeHead := Some(block);
      free := [block] + free;
      assert free[1..] == old(free);
    }
  }

  // The links lead through the released blocks in this order.
  predicate IsChain(at: Option<Block>, free: seq<Block>, links: map<Block, Option<Block>>)
    decreases |free|
  {
    if free == [] then at == None
    else at == Some(free[0]) && free[0] in links && IsChain(links[free[0]], free[1..], links)
  }

  lemma {:induction false} ChainKeeps(at: Option<Block>, free: seq<Block>, links: map<Block, Option<Block>>,
          block: Block, to: Option<Block>)
    requires IsChain(at, free, links) && block !in free
    ensures IsChain(at, free, links[block := to])
    decreases |free|
  {
    if free != [] {
      ChainKeeps(links[free[0]], free[1..], links, block, to);
    }
  }

  // ---------- the invariant ----------

  // Cut off a batch, now or earlier
  predicate IsCut(s: Pool, b: Block)
    requires s.size > 0
  {
    b.batch < |s.batches| && b.offset % s.size == 0 && b.offset < s.batches[b.batch].used
  }

  function CutIn(batches: seq<BatchInfo>, size: nat): nat
    requires size > 0
  {
    if batches == [] then 0 else CutIn(batches[..|batches| - 1], size) + batches[|batches| - 1].used / size
  }

  // The blocks that the batches can still give
  function UncutIn(batches: seq<BatchInfo>, size: nat): int
    requires size > 0
  {
    if batches == [] then 0
    else UncutIn(batches[..|batches| - 1], size) + (batches[|batches| - 1].end - batches[|batches| - 1].used) / size
  }

  predicate BatchOk(s: Pool, k: nat)
    requires k < |s.batches| && s.size > 0
  {
    var b := s.batches[k];
    b.used % s.size == 0 && b.used <= b.end && b.end == (if k == 0 then 0 else s.perPage) && (k < s.current ==> IsFull(b))
  }

  ghost predicate Inv(s: Pool, live: set<Block>) {
    && Sound(s) && s.perPage % s.size == 0 && s.perPage > 0 && s.current == s.head
    && (forall k :: 0 <= k < |s.batches| ==> BatchOk(s, k))
    && (forall b :: b in live || b in s.free <==> IsCut(s, b))
    && (forall b :: b in live ==> b !in s.free)
    && (forall i, j :: 0 <= i < j < |s.free| ==> s.free[i] != s.free[j])
    && |live| + |s.free| == CutIn(s.batches, s.size)
  }

  lemma FreshInv(size: nat, perPage: nat)
    requires size > 0 && perPage > 0 && perPage % size == 0
    ensures Inv(Fresh(size, perPage), {})
  {
    var s := Fresh(size, perPage);
    assert s.batches[..0] == [];
    assert CutIn(s.batches, size) == 0;
  }

  lemma WithBatchInv(s: Pool, live: set<Block>)
    requires Inv(s, live) && IsFull(s.batches[s.current])
    ensures Inv(WithBatch(s), live) && CutIn(WithBatch(s).batches, s.size) == CutIn(s.batches, s.size)
  {
    var r := WithBatch(s);
    assert r.batches[..|r.batches| - 1] == s.batches;
    assert 0 / s.size == 0;
    forall k | 0 <= k < |r.batches| ensures BatchOk(r, k) {
      if k < |s.batches| {
        assert BatchOk(s, k);
      }
    }
    forall b ensures b in live || b in r.free <==> IsCut(r, b) {
      assert b.batch == |s.batches| ==> r.batches[b.batch].used == 0;
      assert b in live || b in s.free <==> IsCut(s, b);
    }
  }

  lemma ReadyInv(s: Pool, live: set<Block>)
    requires Inv(s, live)
    ensures Inv(Ready(s), live) && !IsFull(Ready(s).batches[Ready(s).current])
    ensures Ready(s) == if IsFull(s.batches[s.current]) then WithBatch(s) else s
  {
    if IsFull(s.batches[s.current]) {
      WithBatchInv(s, live);
      hide Inv, CutIn;
      OlderAreFull(s, live);
    }
  }

  lemma OlderAreFull(s: Pool, live: set<Block>)
    requires Inv(s, live)
    ensures Search(s.batches, s.batches[s.current].next) == None
  {
    hide CutIn;
    forall k | 0 <= k < s.current ensures IsFull(s.batches[k]) {
      assert BatchOk(s, k);
    }
  }

  // ---------- steps ----------

  lemma BumpBatches(s: Pool, live: set<Block>)
    requires Inv(s, live) && !IsFull(s.batches[s.current])
    ensures var r := Bump(s);
            (forall k :: 0 <= k < |r.batches| ==> BatchOk(r, k)) && CutIn(r.batches, s.size) == CutIn(s.batches, s.size) + 1
  {
    var r, b := Bump(s), s.batches[s.current];
    assert BatchOk(s, s.current);
    NextMultiple(b.used, b.end, s.size);
    assert r.batches[..|r.batches| - 1] == s.batches[..|s.batches| - 1];
    forall k | 0 <= k < |r.batches| ensures BatchOk(r, k) {
      assert BatchOk(s, k);
    }
  }

  lemma Order(a: nat, b: nat, size: nat)
    requires size > 0
    ensures a < b <==> a * size < b * size
    ensures (a + 1) * size == a * size + size
    ensures a < b ==> (a + 1) * size <= b * size
  {
    if a < b {
      Monotone(a + 1, b, size);
    } else {
      Monotone(b, a, size);
    }
  }

  lemma Monotone(a: nat, b: nat, size: nat)
    requires a <= b
    ensures a * size <= b * size
  {
  }

  lemma Quotient(q: nat, size: nat)
    requires size > 0
    ensures q * size / size == q && q * size % size == 0
  {
    var n := q * size;
    var k := n / size;
    assert n == k * size + n % size;
    Order(q, k + 1, size);
    Order(k, q + 1, size);
    Order(k, q, size);
  }

  // Between multiples of the block size there is room for a block.
  lemma NextMultiple(used: nat, end: nat, size: nat)
    requires size > 0 && used % size == 0 && end % size == 0 && used < end
    ensures used + size <= end && (used + size) % size == 0 && (used + size) / size == used / size + 1
  {
    var a, b := used / size, end / size;
    assert used == a * size && end == b * size;
    Order(a, b, size);
    Quotient(a + 1, size);
  }

  // A block that is cut is new.
  lemma BumpInv(s: Pool, live: set<Block>)
    requires Inv(s, live) && !IsFull(s.batches[s.current])
    ensures var b := Block(s.current, s.batches[s.current].used);
            Inv(Bump(s), live + {b}) && b !in live && b !in s.free
  {
    BumpBatches(s, live);
    var r := Bump(s);
    var b := Block(s.current, s.batches[s.current].used);
    assert !IsCut(s, b);
    BatchIsOk(s, live, s.current);
    hide CutIn, BatchOk, Linked;
    forall c ensures c in live + {b} || c in r.free <==> IsCut(r, c) {
      assert c in live || c in s.free <==> IsCut(s, c);
      OneMoreCut(s, b, c);
    }
  }

  lemma OneMoreCut(s: Pool, b: Block, c: Block)
    requires Sound(s) && b == Block(s.current, s.batches[s.current].used) && b.offset % s.size == 0
    ensures IsCut(Bump(s), c) <==> IsCut(s, c) || c == b
  {
    hide Linked;
    if c.batch == s.current {
      OnlyOneMore(c.offset, b.offset, s.size);
    }
  }

  lemma OnlyOneMore(x: nat, used: nat, size: nat)
    requires size > 0 && used % size == 0
    ensures x % size == 0 && x < used + size <==> (x % size == 0 && x < used) || x == used
  {
    if x % size == 0 && used < x < used + size {
      NextMultiple(used, x, size);
    }
  }

  lemma AllocateInv(s: Pool, live: set<Block>)
    requires Inv(s, live)
    ensures var (r, b) := Allocate(s);
            Inv(r, live + {b}) && b !in live
  {
    if s.free != [] {
      PopInv(s, live);
    } else {
      ReadyInv(s, live);
      BumpInv(Ready(s), live);
    }
  }

  lemma PopInv(s: Pool, live: set<Block>)
    requires Inv(s, live) && s.free != []
    ensures Inv(s.(free := s.free[1..]), live + {s.free[0]}) && s.free[0] !in live
  {
    var r, b := s.(free := s.free[1..]), s.free[0];
    hide CutIn;
    forall k | 0 <= k < |r.batches| ensures BatchOk(r, k) {
      assert BatchOk(s, k);
    }
    forall c ensures c in live + {b} || c in r.free <==> IsCut(r, c) {
      assert c in live || c in s.free <==> IsCut(s, c);
    }
  }

  lemma ReleaseInv(s: Pool, live: set<Block>, b: Block)
    requires Inv(s, live) && b in live
    ensures Inv(Release(s, b), live - {b})
  {
    var r := Release(s, b);
    hide CutIn;
    forall k | 0 <= k < |r.batches| ensures BatchOk(r, k) {
      assert BatchOk(s, k);
    }
    forall c ensures c in live - {b} || c in r.free <==> IsCut(r, c) {
      assert c in live || c in s.free <==> IsCut(s, c);
    }
  }

  // ---------- runs ----------

  datatype Op = Alloc | Free(block: Block)

  // What a program may do: release only what it holds.
  ghost predicate IsRun(s: Pool, live: set<Block>, ops: seq<Op>, s': Pool, live': set<Block>)
    requires Sound(s)
    decreases |ops|
  {
    if ops == [] then s' == s && live' == live
    else
      match ops[0]
      case Alloc => var (r, b) := Allocate(s); IsRun(r, live + {b}, ops[1..], s', live')
      case Free(b) => b in live && IsRun(Release(s, b), live - {b}, ops[1..], s', live')
  }

  lemma {:induction false} RunInv(s: Pool, live: set<Block>, ops: seq<Op>, s': Pool, live': set<Block>)
    requires Inv(s, live) && IsRun(s, live, ops, s', live')
    ensures Inv(s', live') && s'.size == s.size && s'.perPage == s.perPage
    decreases |ops|
  {
    if ops != [] {
      match ops[0]
      case Alloc =>
        var (r, b) := Allocate(s);
        AllocateInv(s, live);
        hide Inv;
        RunInv(r, live + {b}, ops[1..], s', live');
      case Free(b) =>
        ReleaseInv(s, live, b);
        hide Inv;
        RunInv(Release(s, b), live - {b}, ops[1..], s', live');
    }
  }

  // A block lies inside the memory of its batch.
  predicate Inside(s: Pool, b: Block) {
    b.batch < |s.batches| && b.offset + s.size <= Memory(s, b.batch)
  }

  predicate Overlap(s: Pool, a: Block, b: Block) {
    a.batch == b.batch && a.offset < b.offset + s.size && b.offset < a.offset + s.size
  }

  // On every run: live blocks lie inside their batches and do not overlap, a block that is
  // handed out is none of them, and every place in a batch is live, released or not yet cut.
  lemma Safety(size: nat, perPage: nat, ops: seq<Op>, s: Pool, live: set<Block>)
    requires size > 0 && perPage > 0 && perPage % size == 0
    requires IsRun(Fresh(size, perPage), {}, ops, s, live)
    ensures forall b :: b in live ==> Inside(s, b)
    ensures forall a, b :: a in live && b in live && a != b ==> !Overlap(s, a, b)
    ensures Sound(s) && Allocate(s).1 !in live
    ensures |live| + |s.free| + UncutIn(s.batches, size) == (|s.batches| - 1) * (perPage / size)
  {
    FreshInv(size, perPage);
    RunInv(Fresh(size, perPage), {}, ops, s, live);
    AllocateInv(s, live);
    Capacity(s, live);
    hide CutIn, UncutIn, Allocate, IsRun;
    forall b | b in live ensures Inside(s, b) {
      assert IsCut(s, b);
      CutIsInside(s, live, b);
    }
    forall a, b | a in live && b in live && a != b ensures !Overlap(s, a, b) {
      assert IsCut(s, a) && IsCut(s, b);
      if a.batch == b.batch {
        Apart(a.offset, b.offset, s.size);
      }
    }
  }

  lemma CutIsInside(s: Pool, live: set<Block>, b: Block)
    requires Inv(s, live) && IsCut(s, b)
    ensures Inside(s, b)
  {
    hide Inv;
    BatchIsOk(s, live, b.batch);
    NextMultiple(b.offset, s.perPage, s.size);
    PageFits(s.perPage, s.size);
  }

  lemma BatchIsOk(s: Pool, live: set<Block>, k: nat)
    requires Inv(s, live) && k < |s.batches|
    ensures s.size > 0 && BatchOk(s, k) && s.perPage % s.size == 0
  {
    hide BatchOk, CutIn, IsCut;
  }

  lemma PageFits(perPage: nat, size: nat)
    requires size > 0
    ensures perPage <= size * perPage
  {
    Monotone(1, size, perPage);
  }

  lemma Apart(x: nat, y: nat, size: nat)
    requires size > 0 && x % size == 0 && y % size == 0 && x != y
    ensures x + size <= y || y + size <= x
  {
    if x < y {
      NextMultiple(x, y, size);
    } else {
      NextMultiple(y, x, size);
    }
  }

  lemma Capacity(s: Pool, live: set<Block>)
    requires Inv(s, live)
    ensures CutIn(s.batches, s.size) + UncutIn(s.batches, s.size) == (|s.batches| - 1) * (s.perPage / s.size)
  {
    CapacityOf(s, |s.batches|);
    assert s.batches[..|s.batches|] == s.batches;
  }

  lemma {:induction false} CapacityOf(s: Pool, n: nat)
    requires s.size > 0 && s.perPage % s.size == 0 && 0 < n <= |s.batches|
    requires forall k :: 0 <= k < |s.batches| ==> BatchOk(s, k)
    ensures CutIn(s.batches[..n], s.size) + UncutIn(s.batches[..n], s.size) == (n - 1) * (s.perPage / s.size)
    decreases n
  {
    var b := s.batches[n - 1];
    assert s.batches[..n][..n - 1] == s.batches[..n - 1] && s.batches[..n][n - 1] == b;
    assert BatchOk(s, n - 1);
    if n > 1 {
      CapacityOf(s, n - 1);
      Rest(b.used, b.end, s.size);
      assert (n - 1) * (s.perPage / s.size) == (n - 2) * (s.perPage / s.size) + s.perPage / s.size;
    } else {
      assert s.batches[..0] == [];
      assert 0 / s.size == 0;
    }
  }

  lemma Rest(used: nat, end: nat, size: nat)
    requires size > 0 && used % size == 0 && end % size == 0 && used <= end
    ensures used / size + (end - used) / size == end / size
  {
    var a, b := used / size, end / size;
    assert used == a * size && end == b * size;
    Order(b, a, size);
    Quotient(b - a, size);
    assert (b - a) * size == end - used;
  }

  // A new batch is asked for only when every block of every batch is live.
  lemma NewBatchOnlyWhenAllLive(s: Pool, live: set<Block>)
    requires Inv(s, live) && |Allocate(s).0.batches| != |s.batches|
    ensures |live| == (|s.batches| - 1) * (s.perPage / s.size)
    ensures forall b :: IsCut(s, b) ==> b in live
  {
    ReadyInv(s, live);
    Capacity(s, live);
    AllFull(s, live);
    hide CutIn, UncutIn;
    forall b | IsCut(s, b) ensures b in live {
      assert b in live || b in s.free;
    }
  }

  lemma AllFull(s: Pool, live: set<Block>)
    requires Inv(s, live) && IsFull(s.batches[s.current])
    ensures UncutIn(s.batches, s.size) == 0
  {
    forall k | 0 <= k < |s.batches| ensures IsFull(s.batches[k]) {
      assert BatchOk(s, k);
    }
    NothingUncut(s.batches, s.size);
  }

  lemma {:induction false} NothingUncut(batches: seq<BatchInfo>, size: nat)
    requires size > 0 && forall k :: 0 <= k < |batches| ==> IsFull(batches[k])
    ensures UncutIn(batches, size) == 0
  {
    if batches != [] {
      NothingUncut(batches[..|batches| - 1], size);
      assert IsFull(batches[|batches| - 1]);
      assert 0 / size == 0;
    }
  }

  // ---------- when the block size does not divide the page ----------

  // The first batch after n blocks
  function Cutting(size: nat, perPage: nat, n: nat): Pool {
    Pool(size, perPage, [], [BatchInfo(None, 0, 0), BatchInfo(Some(0), n * size, perPage)], 1, 1)
  }

  // Then a batch is never full: allocation after allocation cuts on, out of its memory.
  lemma CutsOn(size: nat, perPage: nat, n: nat)
    requires size > 0 && perPage % size != 0
    ensures Sound(Cutting(size, perPage, n))
    ensures Allocate(Cutting(size, perPage, n)) == (Cutting(size, perPage, n + 1), Block(1, n * size))
  {
    var s := Cutting(size, perPage, n);
    Quotient(n, size);
    Order(n, n, size);
    assert !IsFull(s.batches[1]);
    assert Bump(s).batches == Cutting(size, perPage, n + 1).batches;
  }

  lemma {:induction false} CutsOnRun(size: nat, perPage: nat, n: nat, m: nat, live: set<Block>) returns (s: Pool,
          live': set<Block>)
    requires size > 0 && perPage % size != 0
    ensures IsRun(Cutting(size, perPage, n), live, Allocs(m), s, live')
    ensures s == Cutting(size, perPage, n + m) && (m > 0 ==> Block(1, (n + m - 1) * size) in live') && live <= live'
    decreases m
  {
    CutsOn(size, perPage, n);
    hide Cutting, Allocate;
    if m == 0 {
      s, live' := Cutting(size, perPage, n), live;
    } else {
      s, live' := CutsOnRun(size, perPage, n + 1, m - 1, live + {Block(1, n * size)});
    }
  }

  function Allocs(n: nat): (ops: seq<Op>)
    ensures |ops| == n
  {
    if n == 0 then [] else [Alloc] + Allocs(n - 1)
  }

  lemma FirstCut(size: nat, perPage: nat)
    requires size > 0 && perPage > 0 && perPage % size != 0
    ensures Allocate(Fresh(size, perPage)) == (Cutting(size, perPage, 1), Block(1, 0))
  {
    var s := Fresh(size, perPage);
    assert Search(s.batches, None) == None;
    assert WithBatch(s).batches == [BatchInfo(None, 0, 0), BatchInfo(Some(0), 0, perPage)];
    assert Bump(WithBatch(s)).batches == Cutting(size, perPage, 1).batches;
  }

  // Every run stays inside the batches exactly when the block size divides the page.
  lemma StaysInside(size: nat, perPage: nat)
    requires size > 0 && perPage > 0
    ensures perPage % size == 0 <==>
            forall ops, s, live, b :: IsRun(Fresh(size, perPage), {}, ops, s, live) && b in live ==> Inside(s, b)
  {
    if perPage % size == 0 {
      forall ops, s, live, b | IsRun(Fresh(size, perPage), {}, ops, s, live) && b in live ensures Inside(s, b) {
        Safety(size, perPage, ops, s, live);
      }
    } else {
      FirstCut(size, perPage);
      var s, live := CutsOnRun(size, perPage, 1, perPage, {Block(1, 0)});
      hide Allocate;
      assert {} + {Block(1, 0)} == {Block(1, 0)};
      assert Allocs(perPage + 1)[1..] == Allocs(perPage);
      assert IsRun(Fresh(size, perPage), {}, Allocs(perPage + 1), s, live);
      var b := Block(1, perPage * size);
      assert b in live && !Inside(s, b);
    }
  }
}
