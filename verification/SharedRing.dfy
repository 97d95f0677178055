/** The single-producer/single-consumer ring of cpp/include/rpc/buffer_pool.hpp, run by one
    thread at a time. SharedRingMachine interleaves its two callers. */
module SharedRing {
  import opened Bytes

  /** `a - b` as uint64_t arithmetic computes it. */
  function Sub64(a: int, b: int): nat {
    (a - b) % U64
  }

  /** try_push's guard, on the two counters it loaded. */
  predicate SeesFull(write: int, read: int, capacity: nat) {
    Sub64(write, read) >= capacity
  }

  /** try_pop's guard, on the two counters it loaded. */
  predicate SeesEmpty(write: int, read: int) {
    read >= write
  }

  /** The slot of logical position i. */
  function Slot(i: int, capacity: nat): (k: nat)
    requires capacity > 0
    ensures k < capacity
  {
    i % capacity
  }

  lemma Sub64Exact(a: int, b: int)
    requires 0 <= a - b < U64
    ensures Sub64(a, b) == a - b
  {
  }

  /** Two live positions of one window of `capacity` never share a slot. */
  lemma SlotsDistinct(i: nat, j: nat, capacity: nat)
    requires i < j < i + capacity
    ensures Slot(i, capacity) != Slot(j, capacity)
  {
    var d := j / capacity - i / capacity;
    if i % capacity == j % capacity {
      assert j - i == capacity * d by {
        assert i == capacity * (i / capacity) + i % capacity;
        assert j == capacity * (j / capacity) + j % capacity;
        MulDistributes(capacity, j / capacity, i / capacity);
      }
      if d <= 0 {
        MulLeq(capacity, d, 0);
      } else {
        MulLeq(capacity, 1, d);
      }
    }
  }

  lemma MulDistributes(a: int, b: int, c: int)
    ensures a * (b - c) == a * b - a * c
  {
  }

  lemma MulLeq(a: nat, b: int, c: int)
    requires b <= c
    ensures a * b <= a * c
  {
  }

  /** Slots [read, write) of a ring's memory, oldest first. */
  ghost function Window<T>(slots: seq<T>, read: nat, write: nat): (q: seq<T>)
    requires read <= write <= read + |slots|
    ensures |q| == write - read
  {
    seq(write - read, i requires 0 <= i < write - read => slots[Slot(read + i, |slots|)])
  }

  lemma WindowPush<T>(slots: seq<T>, read: nat, write: nat, value: T)
    requires read <= write < read + |slots|
    ensures Window(slots[Slot(write, |slots|) := value], read, write + 1) == Window(slots, read, write) + [value]
  {
    forall i | read <= i < write
      ensures Slot(i, |slots|) != Slot(write, |slots|)
    {
      SlotsDistinct(i, write, |slots|);
    }
  }

  lemma WindowPop<T>(slots: seq<T>, read: nat, write: nat)
    requires read < write <= read + |slots|
    ensures [slots[Slot(read, |slots|)]] + Window(slots, read + 1, write) == Window(slots, read, write)
  {
  }

  class SharedRingBuffer<T(0)> {
    var writePos: nat
    var readPos: nat
    const data: array<T>

    constructor (capacity: nat)
      requires capacity < U64
      ensures Valid() && fresh(data) && data.Length == capacity && Contents() == []
    {
      data := new T[capacity];
      writePos, readPos := 0, 0;
    }

    ghost predicate Valid()
      reads this
    {
      && data.Length < U64
      && readPos <= writePos <= readPos + data.Length
      && writePos < U64
    }

    /** Slots [readPos, writePos), oldest first. */
    ghost function Contents(): (q: seq<T>)
      requires Valid()
      reads this, data
      ensures |q| == writePos - readPos <= data.Length
    {
      Window(data[..], readPos, writePos)
    }

    /** Fails exactly when the queue is full. The 2^64-th push wraps the counter to 0. */
    method TryPush(value: T) returns (ok: bool)
      requires Valid()
      modifies this`writePos, data
      ensures ok <==> |old(Contents())| < data.Length
      ensures !ok ==> Valid() && Contents() == old(Contents())
      ensures ok && old(writePos) + 1 < U64 ==> Valid() && Contents() == old(Contents()) + [value]
      ensures ok && old(writePos) + 1 == U64 ==> writePos == 0
    {
      var write := writePos;
      var read := readPos;
      Sub64Exact(write, read);
      if SeesFull(write, read, data.Length) {
        return false;
      }
      WindowPush(data[..], read, write, value);
      data[Slot(write, data.Length)] := value;
      assert data[..] == old(data[..])[Slot(write, data.Length) := value];
      writePos := (write + 1) % U64;
      return true;
    }

    /** Fails exactly when the queue is empty; otherwise returns and removes its head. */
    method TryPop() returns (r: (bool, T))
      requires Valid()
      modifies this`readPos
      ensures Valid()
      ensures r.0 <==> old(Contents()) != []
      ensures !r.0 ==> Contents() == old(Contents())
      ensures r.0 ==> [r.1] + Contents() == old(Contents())
    {
      var read := readPos;
      var write := writePos;
      if SeesEmpty(write, read) {
        var nothing: T := *;
        return (false, nothing);
      }
      WindowPop(data[..], read, write);
      var value := data[Slot(read, data.Length)];
      readPos := (read + 1) % U64;
      return (true, value);
    }

    method Size() returns (n: nat)
      requires Valid()
      ensures n == |Contents()|
    {
      Sub64Exact(writePos, readPos);
      n := Sub64(writePos, readPos);
    }
  }
}
