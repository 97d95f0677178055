/** The expanding buffer pool of cpp/src/buffer_pool.cpp. Its mutex makes acquire and release
    atomic. A pool may start with more buffers than max_count. */
module BufferPool {
  import opened Wrappers

  /** A buffer's view of memory: bytes [offset, offset + capacity) of one allocated block. */
  datatype Slice = Slice(block: nat, offset: nat, capacity: nat, poolIndex: nat)

  datatype Stats = Stats(
    allocations: int,
    deallocations: int,
    currentUsage: int,
    peakUsage: int,
    failedAllocations: int,
    expansions: int)

  datatype Pool = Pool(
    bufferSize: nat,
    maxCount: nat,
    storage: seq<Slice>,
    blocks: seq<nat>,
    freeList: seq<nat>,
    stats: Stats)

  /** `Undefined` is back() on an empty free list; `TooLarge` an allocation of almost 2^64 buffers,
      asked for because max_count - total wraps. */
  datatype Acquired = Null | Undefined | TooLarge | Handle(slice: Slice)

  datatype Expansion = Full | Impossible | Grown(pool: Pool)

  const EXPANSION: nat := 256

  function Empty(bufferSize: nat, maxCount: nat): Pool {
    Pool(bufferSize, maxCount, [], [], [], Stats(0, 0, 0, 0, 0, 0))
  }

  function Create(bufferSize: nat, initialCount: nat, maxCount: nat): Pool {
    Allocate(Empty(bufferSize, maxCount), initialCount)
  }

  function Allocate(p: Pool, count: nat): (q: Pool)
    ensures |q.storage| == |p.storage| + count
  {
    var current := |p.storage|;
    p.(storage := p.storage + seq(count, i requires i >= 0 => Slice(|p.blocks|, i * p.bufferSize, p.bufferSize, current + i)),
       freeList := p.freeList + seq(count, i requires i >= 0 => current + i),
       blocks := p.blocks + [count * p.bufferSize])
  }

  /** What acquire asks expand_pool for. */
  function Wanted(p: Pool): nat {
    if |p.storage| <= p.maxCount then Min(EXPANSION, p.maxCount - |p.storage|) else EXPANSION
  }

  /** expand_pool: `Full` is false. */
  function Expand(p: Pool, count: nat): Expansion {
    if |p.storage| + count > p.maxCount && |p.storage| == p.maxCount then Full
    else if |p.storage| + count > p.maxCount && |p.storage| > p.maxCount then Impossible
    else
      var count := Min(count, p.maxCount - |p.storage|);
      Grown(Allocate(p, count).(stats := p.stats.(expansions := p.stats.expansions + 1)))
  }

  function CountAcquire(s: Stats): Stats {
    var usage := s.currentUsage + 1;
    s.(allocations := s.allocations + 1, currentUsage := usage,
       peakUsage := if usage > s.peakUsage then usage else s.peakUsage)
  }

  /** What the methods need of the pool. */
  ghost predicate Sane(p: Pool) {
    forall i :: i in p.freeList ==> i < |p.storage|
  }

  /** Hand out the buffer at the back of the free list. */
  function TakeBack(p: Pool): (Pool, Acquired)
    requires Sane(p)
  {
    if p.freeList == [] then (p, Undefined)
    else
      var index := p.freeList[|p.freeList| - 1];
      assert index in p.freeList;
      (p.(freeList := p.freeList[..|p.freeList| - 1], stats := CountAcquire(p.stats)), Handle(p.storage[index]))
  }

  ghost function Acquire(p: Pool): (Pool, Acquired)
    requires Sane(p)
  {
    if p.freeList != [] then TakeBack(p)
    else
      match Expand(p, Wanted(p))
      case Full => (p.(stats := p.stats.(failedAllocations := p.stats.failedAllocations + 1)), Null)
      case Impossible => (p, TooLarge)
      case Grown(q) => TakeBack(q)
  }

  /** A null pointer and an index of no buffer are ignored; nothing else is checked. */
  ghost function Release(p: Pool, index: Option<nat>): Pool {
    if index.None? || index.value >= |p.storage| then p
    else p.(freeList := p.freeList + [index.value],
            stats := p.stats.(deallocations := p.stats.deallocations + 1, currentUsage := p.stats.currentUsage - 1))
  }

  class BufferPool {
    const bufferSize: nat
    const maxCount: nat
    var storage: seq<Slice>
    var blocks: seq<nat>
    var freeList: seq<nat>
    var stats: Stats

    ghost function State(): Pool
      reads this
    {
      Pool(bufferSize, maxCount, storage, blocks, freeList, stats)
    }

    constructor (bufferSize: nat, initialCount: nat, maxCount: nat)
      ensures Sane(State()) && State() == Create(bufferSize, initialCount, maxCount)
    {
      this.bufferSize, this.maxCount := bufferSize, maxCount;
      storage, blocks, freeList, stats := [], [], [], Stats(0, 0, 0, 0, 0, 0);
      new;
      AllocateBuffers(initialCount);
    }

    method AllocateBuffers(count: nat)
      modifies this
      ensures State() == Allocate(old(State()), count)
    {
      var current := |storage|;
      var block := |blocks|;
      for i := 0 to count
        modifies this
        invariant State() == old(State()).(storage := storage, freeList := freeList)
        invariant storage == old(storage) + seq(i, j requires j >= 0 => Slice(block, j * bufferSize, bufferSize, current + j))
        invariant freeList == old(freeList) + seq(i, j requires j >= 0 => current + j)
      {
        storage := storage + [Slice(block, i * bufferSize, bufferSize, current + i)];
        freeList := freeList + [current + i];
      }
      blocks := blocks + [count * bufferSize];
    }

    /** `possible` is false when the allocation throws. */
    method ExpandPool(count: nat) returns (ok: bool, possible: bool)
      modifies this
      ensures ok <==> Expand(old(State()), count).Grown?
      ensures possible <==> !Expand(old(State()), count).Impossible?
      ensures State() == if ok then Expand(old(State()), count).pool else old(State())
    {
      var n := count;
      if |storage| + n > maxCount {
        if |storage| > maxCount {
          return false, false;
        }
        n := maxCount - |storage|;
        if n == 0 {
          return false, true;
        }
      }
      AllocateBuffers(n);
      stats := stats.(expansions := stats.expansions + 1);
      return true, true;
    }

    method AcquireBuffer() returns (r: Acquired)
      requires Sane(State())
      modifies this
      ensures (State(), r) == Acquire(old(State()))
    {
      if freeList == [] {
        var wanted := if |storage| <= maxCount then Min(EXPANSION, maxCount - |storage|) else EXPANSION;
        var ok, possible := ExpandPool(wanted);
        if !possible {
          return TooLarge;
        }
        // The source's null branch: expand_pool cannot fail when asked for max_count - total.
        if !ok {
          assert false;
        }
      }
      if freeList == [] {
        return Undefined;
      }
      var index := freeList[|freeList| - 1];
      assert index in freeList;
      freeList := freeList[..|freeList| - 1];
      stats := CountAcquire(stats);
      return Handle(storage[index]);
    }

    method ReleaseBuffer(index: Option<nat>)
      modifies this
      ensures State() == Release(old(State()), index)
    {
      if index.None? || index.value >= |storage| {
        return;
      }
      freeList := freeList + [index.value];
      stats := stats.(deallocations := stats.deallocations + 1, currentUsage := stats.currentUsage - 1);
    }
  }

  // ---- Ownership ----

  ghost predicate Disjoint(a: Slice, b: Slice) {
    a.block != b.block || a.offset + a.capacity <= b.offset || b.offset + b.capacity <= a.offset
  }

  /** Every buffer is a slice of its block, and no two buffers overlap. */
  ghost predicate MemoryValid(p: Pool) {
    && (forall i :: 0 <= i < |p.storage| ==>
          var s := p.storage[i];
          && s.poolIndex == i && s.capacity == p.bufferSize
          && s.block < |p.blocks| && s.offset + s.capacity <= p.blocks[s.block])
    && (forall i, j :: 0 <= i < j < |p.storage| ==> Disjoint(p.storage[i], p.storage[j]))
  }

  /** `out` are the indices held by callers: the free list is exactly the others, once each. */
  ghost predicate OwnershipValid(p: Pool, out: set<nat>) {
    && Distinct(p.freeList)
    && (forall i :: i in p.freeList ==> i < |p.storage| && i !in out)
    && (forall i :: i in out ==> i < |p.storage|)
    && (forall i :: 0 <= i < |p.storage| ==> i in out || i in p.freeList)
    && |p.freeList| + |out| == |p.storage|
  }

  ghost predicate StatsValid(p: Pool, out: set<nat>) {
    && p.stats.currentUsage == |out|
    && p.stats.allocations - p.stats.deallocations == |out|
    && p.stats.peakUsage >= |out|
    && p.stats.failedAllocations == 0
    && |p.blocks| == 1 + p.stats.expansions
  }

  ghost predicate Valid(p: Pool, out: set<nat>) {
    MemoryValid(p) && OwnershipValid(p, out) && StatsValid(p, out)
  }

  lemma AllocateKeepsMemory(p: Pool, count: nat)
    requires MemoryValid(p)
    ensures MemoryValid(Allocate(p, count))
  {
    var q := Allocate(p, count);
    forall i | 0 <= i < count
      ensures i * p.bufferSize + p.bufferSize <= count * p.bufferSize
    {
      MulMono(i + 1, count, p.bufferSize);
    }
    forall i, j | 0 <= i < j < |q.storage|
      ensures Disjoint(q.storage[i], q.storage[j])
    {
      AllocateKeepsApart(p, count, i, j);
    }
  }

  lemma AllocateKeepsApart(p: Pool, count: nat, i: nat, j: nat)
    requires MemoryValid(p) && i < j < |p.storage| + count
    ensures Disjoint(Allocate(p, count).storage[i], Allocate(p, count).storage[j])
  {
    if i >= |p.storage| {
      MulMono(i - |p.storage| + 1, j - |p.storage|, p.bufferSize);
    } else if j < |p.storage| {
      assert Disjoint(p.storage[i], p.storage[j]);
    }
  }

  lemma MulMono(a: nat, b: nat, k: nat)
    requires a <= b
    ensures a * k <= b * k
  {
  }

  lemma AllocateKeepsOwnership(p: Pool, count: nat, out: set<nat>)
    requires OwnershipValid(p, out)
    ensures OwnershipValid(Allocate(p, count), out)
  {
    var q := Allocate(p, count);
    forall i, j | 0 <= i < j < |q.freeList|
      ensures q.freeList[i] != q.freeList[j]
    {
      assert i < |p.freeList| ==> q.freeList[i] in p.freeList;
    }
    forall i | |p.storage| <= i < |q.storage|
      ensures i in q.freeList
    {
      assert q.freeList[|p.freeList| + i - |p.storage|] == i;
    }
    forall i | 0 <= i < |p.storage|
      ensures i in out || i in q.freeList
    {
    }
  }

  lemma CreateValid(bufferSize: nat, initialCount: nat, maxCount: nat)
    ensures Valid(Create(bufferSize, initialCount, maxCount), {})
  {
    AllocateKeepsMemory(Empty(bufferSize, maxCount), initialCount);
    AllocateKeepsOwnership(Empty(bufferSize, maxCount), initialCount, {});
  }

  /** The documented contract, a buffer or null when the pool is exhausted, is met exactly when
      the free list is not empty or the pool can still grow; acquire never returns null. A pool
      that has grown to max_count reads the back of an empty list, one that started above it asks
      for an impossible allocation. */
  lemma AcquireExact(p: Pool, out: set<nat>)
    requires Valid(p, out)
    ensures Acquire(p).1 != Null
    ensures Acquire(p).1.Handle? <==> |out| < |p.storage| || |out| < p.maxCount
    ensures Acquire(p).1 == Undefined <==> p.freeList == [] && |p.storage| == p.maxCount
    ensures Acquire(p).1 == TooLarge <==> p.freeList == [] && |p.storage| > p.maxCount
  {
  }

  /** The buffer released last is acquired next; a pool without free buffers first adds 256 or as many as
      max_count still allows, and hands out the last of them. */
  lemma AcquireTakesLast(p: Pool, out: set<nat>)
    requires Valid(p, out) && Acquire(p).1.Handle?
    ensures var (q, r) := Acquire(p);
      var added := if p.maxCount - |p.storage| < 256 then p.maxCount - |p.storage| else 256;
      if p.freeList != [] then
        && p.freeList[|p.freeList| - 1] < |p.storage| && r.slice == p.storage[p.freeList[|p.freeList| - 1]]
        && q.freeList == p.freeList[..|p.freeList| - 1]
        && q.storage == p.storage && q.blocks == p.blocks && q.stats.expansions == p.stats.expansions
      else
        && |q.storage| == |p.storage| + added && |q.freeList| == added - 1
        && r.slice == q.storage[|q.storage| - 1]
        && q.blocks == p.blocks + [added * p.bufferSize] && q.stats.expansions == p.stats.expansions + 1
  {
    assert p.freeList != [] ==> p.freeList[|p.freeList| - 1] in p.freeList;
  }

  /** A release is undone by the next acquire, but for the counters. */
  lemma ReleaseThenAcquire(p: Pool, i: nat)
    requires Sane(p) && i < |p.storage|
    ensures var (q, r) := Acquire(Release(p, Some(i)));
      && r == Handle(p.storage[i])
      && q == p.(stats := q.stats)
      && q.stats.allocations == p.stats.allocations + 1 && q.stats.deallocations == p.stats.deallocations + 1
      && q.stats.currentUsage == p.stats.currentUsage && q.stats.expansions == p.stats.expansions
  {
    var s := Release(p, Some(i));
    assert s.freeList[|p.freeList|] == i && s.freeList[..|p.freeList|] == p.freeList;
  }

  /** Null and unknown indices are ignored. */
  lemma ReleaseIgnores(p: Pool, index: Option<nat>)
    requires index.None? || index.value >= |p.storage|
    ensures Release(p, index) == p
  {
  }

  /** A successful acquire hands out a buffer nobody holds and keeps the whole invariant. */
  lemma AcquireKeepsValid(p: Pool, out: set<nat>)
    requires Valid(p, out) && Acquire(p).1.Handle?
    ensures var (q, r) := Acquire(p);
      var i := r.slice.poolIndex;
      && i !in out && i < |q.storage| && r.slice == q.storage[i]
      && Valid(q, out + {i})
      && |p.storage| <= |q.storage| && q.storage[..|p.storage|] == p.storage
      && (|q.storage| <= |p.storage| || |q.storage| <= p.maxCount)
      && q.maxCount == p.maxCount
      && q.stats.allocations == p.stats.allocations + 1 && q.stats.deallocations == p.stats.deallocations
      && (forall j :: j in out ==> Disjoint(r.slice, q.storage[j]))
      && q.stats.peakUsage == if |out| + 1 > p.stats.peakUsage then |out| + 1 else p.stats.peakUsage
  {
    GrowKeepsValid(p, out);
    hide MemoryValid, OwnershipValid, Disjoint, Allocate;
    TakeBackKeepsValid(Enlarged(p), out);
  }

  /** The pool whose free list acquire takes from. */
  ghost function Enlarged(p: Pool): (q: Pool)
    ensures q.stats == p.stats.(expansions := q.stats.expansions)
    ensures q.maxCount == p.maxCount && |p.storage| <= |q.storage| && q.storage[..|p.storage|] == p.storage
    ensures |q.storage| <= |p.storage| || |q.storage| <= p.maxCount
  {
    if p.freeList != [] || |p.storage| > p.maxCount then p
    else Allocate(p, Wanted(p)).(stats := p.stats.(expansions := p.stats.expansions + 1))
  }

  lemma GrowKeepsValid(p: Pool, out: set<nat>)
    requires Valid(p, out) && Acquire(p).1.Handle?
    ensures Valid(Enlarged(p), out) && Acquire(p) == TakeBack(Enlarged(p))
    ensures Enlarged(p).freeList != []
  {
    hide MemoryValid, OwnershipValid;
    if p.freeList == [] {
      AllocateKeepsMemory(p, Wanted(p));
      AllocateKeepsOwnership(p, Wanted(p), out);
      StatsDoNotMatter(Allocate(p, Wanted(p)), out, Enlarged(p).stats);
    }
  }

  lemma StatsDoNotMatter(p: Pool, out: set<nat>, stats: Stats)
    requires MemoryValid(p) && OwnershipValid(p, out)
    ensures MemoryValid(p.(stats := stats)) && OwnershipValid(p.(stats := stats), out)
  {
  }

  lemma TakeBackKeepsValid(p: Pool, out: set<nat>)
    requires Valid(p, out) && p.freeList != []
    ensures var (q, r) := TakeBack(p);
      && r.Handle? && r.slice.poolIndex !in out
      && q.stats.allocations == p.stats.allocations + 1 && q.stats.deallocations == p.stats.deallocations
      && q.storage == p.storage && q.maxCount == p.maxCount && r.slice.poolIndex < |q.storage| && r.slice == q.storage[r.slice.poolIndex]
      && q.stats.peakUsage == (if |out| + 1 > p.stats.peakUsage then |out| + 1 else p.stats.peakUsage)
      && Valid(q, out + {r.slice.poolIndex})
      && (forall j :: j in out ==> Disjoint(r.slice, q.storage[j]))
  {
    var (q, r) := TakeBack(p);
    var n := |p.freeList| - 1;
    var i := p.freeList[n];
    assert i in p.freeList;
    forall j | j in q.freeList
      ensures j in p.freeList && j != i
    {
    }
    forall j | 0 <= j < |q.storage|
      ensures j in out + {i} || j in q.freeList
    {
      if j in p.freeList && j != i {
        var m :| 0 <= m < |p.freeList| && p.freeList[m] == j;
        assert q.freeList[m] == j;
      }
    }
    assert |out + {i}| == |out| + 1;
    forall j | j in out
      ensures Disjoint(r.slice, q.storage[j])
    {
      assert j != i;
      if j < i {
        assert Disjoint(p.storage[j], p.storage[i]);
      } else {
        assert Disjoint(p.storage[i], p.storage[j]);
      }
    }
  }

  /** A release by the rightful owner keeps the invariant. */
  lemma ReleaseKeepsValid(p: Pool, out: set<nat>, i: nat)
    requires Valid(p, out) && i in out
    ensures Valid(Release(p, Some(i)), out - {i})
    ensures Release(p, Some(i)).stats.peakUsage == p.stats.peakUsage
  {
    var q := Release(p, Some(i));
    assert q.freeList[|p.freeList|] == i;
    forall j | 0 <= j < |q.storage|
      ensures j in out - {i} || j in q.freeList
    {
      if j in p.freeList {
        assert j in q.freeList;
      }
    }
  }

  /** Releasing is safe exactly for a held buffer: otherwise no ownership fits the pool. */
  lemma ReleaseSafeExactly(p: Pool, out: set<nat>, i: nat)
    requires Valid(p, out) && i < |p.storage|
    ensures i in out <==> exists out' :: OwnershipValid(Release(p, Some(i)), out')
  {
    var q := Release(p, Some(i));
    if i in out {
      ReleaseKeepsValid(p, out, i);
    } else {
      var m :| 0 <= m < |p.freeList| && p.freeList[m] == i;
      assert q.freeList[m] == q.freeList[|p.freeList|];
    }
  }

  // ---- Runs ----

  datatype Op = DoAcquire | DoRelease(index: nat)

  /** A pool with what its callers hold and the largest number they ever held. */
  datatype World = World(pool: Pool, out: set<nat>, most: nat)

  /** Callers release only what they hold, and acquire only where the result is defined. */
  ghost predicate Allowed(w: World, op: Op)
    requires Sane(w.pool)
  {
    match op
    case DoAcquire => Acquire(w.pool).1.Handle?
    case DoRelease(i) => i in w.out
  }

  ghost function Do(w: World, op: Op): World
    requires Sane(w.pool) && Allowed(w, op)
  {
    match op
    case DoAcquire =>
      var (q, r) := Acquire(w.pool);
      var out := w.out + {r.slice.poolIndex};
      World(q, out, if |out| > w.most then |out| else w.most)
    case DoRelease(i) => World(Release(w.pool, Some(i)), w.out - {i}, w.most)
  }

  ghost predicate IsRun(ws: seq<World>, ops: seq<Op>, bufferSize: nat, initialCount: nat, maxCount: nat) {
    && |ws| == |ops| + 1
    && ws[0] == World(Create(bufferSize, initialCount, maxCount), {}, 0)
    && forall n :: 0 <= n < |ops| && Sane(ws[n].pool) ==> Allowed(ws[n], ops[n]) && ws[n + 1] == Do(ws[n], ops[n])
  }

  ghost function Acquires(ops: seq<Op>): nat {
    if ops == [] then 0 else Acquires(ops[..|ops| - 1]) + if ops[|ops| - 1].DoAcquire? then 1 else 0
  }

  /** In every state of every run by rightful owners: distinct free indices that complement the
      held ones, disjoint memory, matching statistics, and the peak is the running maximum. */
  lemma {:induction false} RunKeepsValid(
    ws: seq<World>, ops: seq<Op>, bufferSize: nat, initialCount: nat, maxCount: nat, n: nat)
    requires IsRun(ws, ops, bufferSize, initialCount, maxCount) && n < |ws|
    ensures Valid(ws[n].pool, ws[n].out)
    ensures ws[n].pool.maxCount == maxCount
    ensures |ws[n].pool.storage| <= initialCount || |ws[n].pool.storage| <= maxCount
    ensures ws[n].pool.stats.peakUsage == ws[n].most
    ensures forall m :: 0 <= m <= n ==> |ws[m].out| <= ws[n].most
    ensures exists m :: 0 <= m <= n && |ws[m].out| == ws[n].most
  {
    if n == 0 {
      CreateValid(bufferSize, initialCount, maxCount);
      assert |ws[0].out| == ws[0].most;
    } else {
      RunKeepsValid(ws, ops, bufferSize, initialCount, maxCount, n - 1);
      var peak :| 0 <= peak <= n - 1 && |ws[peak].out| == ws[n - 1].most;
      ValidIsSane(ws[n - 1].pool, ws[n - 1].out);
      hide Valid, Sane, Allowed, Do;
      assert Allowed(ws[n - 1], ops[n - 1]) && ws[n] == Do(ws[n - 1], ops[n - 1]);
      DoKeepsValid(ws[n - 1], ops[n - 1]);
      var now := if |ws[n].out| == ws[n].most then n else peak;
      assert |ws[now].out| == ws[n].most;
    }
  }

  /** The two counters count the acquires and releases of the run. */
  lemma {:induction false} RunCountsOperations(
    ws: seq<World>, ops: seq<Op>, bufferSize: nat, initialCount: nat, maxCount: nat, n: nat)
    requires IsRun(ws, ops, bufferSize, initialCount, maxCount) && n < |ws|
    ensures ws[n].pool.stats.allocations == Acquires(ops[..n])
    ensures ws[n].pool.stats.deallocations == n - Acquires(ops[..n])
  {
    if n > 0 {
      RunCountsOperations(ws, ops, bufferSize, initialCount, maxCount, n - 1);
      RunKeepsValid(ws, ops, bufferSize, initialCount, maxCount, n - 1);
      ValidIsSane(ws[n - 1].pool, ws[n - 1].out);
      hide Valid, Sane, Allowed, Do;
      DoKeepsValid(ws[n - 1], ops[n - 1]);
      assert ops[..n][..n - 1] == ops[..n - 1];
    }
  }

  lemma DoKeepsValid(w: World, op: Op)
    requires Valid(w.pool, w.out) && Sane(w.pool) && Allowed(w, op) && w.pool.stats.peakUsage == w.most
    ensures var n := Do(w, op);
      && Valid(n.pool, n.out) && n.pool.maxCount == w.pool.maxCount
      && (|n.pool.storage| <= |w.pool.storage| || |n.pool.storage| <= w.pool.maxCount)
      && n.pool.stats.allocations == w.pool.stats.allocations + (if op.DoAcquire? then 1 else 0)
      && n.pool.stats.deallocations == w.pool.stats.deallocations + (if op.DoAcquire? then 0 else 1)
      && n.pool.stats.peakUsage == n.most == if |n.out| > w.most then |n.out| else w.most
  {
    hide MemoryValid, OwnershipValid, Disjoint;
    if op.DoAcquire? {
      AcquireKeepsValid(w.pool, w.out);
    } else {
      ReleaseKeepsValid(w.pool, w.out, op.index);
    }
  }

  lemma ValidIsSane(p: Pool, out: set<nat>)
    requires Valid(p, out)
    ensures Sane(p)
  {
  }

  ghost function Limit(p: Pool): nat {
    if |p.storage| > p.maxCount then |p.storage| else p.maxCount
  }

  /** From any held set, enough acquires exhaust the pool, and the next one fails badly. */
  lemma {:induction false} Exhaust(p: Pool, out: set<nat>) returns (q: Pool, out': set<nat>)
    requires Valid(p, out)
    ensures Valid(q, out') && |out'| == |q.storage| >= q.maxCount == p.maxCount
    ensures Acquire(q).1 == if |q.storage| > p.maxCount then TooLarge else Undefined
    decreases Limit(p) - |out|
  {
    AcquireExact(p, out);
    if Acquire(p).1.Handle? {
      AcquireKeepsValid(p, out);
      var (next, r) := Acquire(p);
      assert |out + {r.slice.poolIndex}| == |out| + 1;
      q, out' := Exhaust(next, out + {r.slice.poolIndex});
    } else {
      q, out' := p, out;
    }
  }

  /** The smallest case: one buffer, taken, then asked for again. */
  lemma ExhaustedPoolIsUndefined(bufferSize: nat)
    ensures var p := Create(bufferSize, 1, 1);
      var (q, r) := Acquire(p);
      r.Handle? && Acquire(q).1 == Undefined
  {
  }
}
