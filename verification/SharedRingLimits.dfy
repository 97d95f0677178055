/** Where the promises of the shared ring end: its 2^64-th push, and size() read by a third thread. */
module SharedRingLimits {
  import opened Bytes
  import opened SharedRing
  import opened SharedRingMachine

  /** try_push's guard is right for any counts, wrapped or not. */
  lemma PushGuardAlwaysRight(pushes: nat, pops: nat, capacity: nat)
    requires pops <= pushes <= pops + capacity < pops + U64
    ensures SeesFull(pushes % U64, pops % U64, capacity) <==> pushes - pops == capacity
  {
    WrapCases(pushes, pops);
  }

  /** try_pop's guard is right exactly when no multiple of 2^64 lies inside (pops, pushes]. */
  lemma PopGuardExact(pushes: nat, pops: nat)
    requires pops <= pushes < pops + U64
    ensures (SeesEmpty(pushes % U64, pops % U64) <==> pushes == pops)
       <==> (pushes == pops || pushes / U64 == pops / U64)
  {
    WrapCases(pushes, pops);
  }

  lemma WrapCases(a: nat, b: nat)
    requires b <= a < b + U64
    ensures a / U64 == b / U64 ==> a % U64 - b % U64 == a - b
    ensures a / U64 != b / U64 ==> a % U64 + U64 - b % U64 == a - b
    ensures Sub64(a % U64, b % U64) == a - b
  {
    assert a == U64 * (a / U64) + a % U64 && b == U64 * (b / U64) + b % U64;
    if a / U64 != b / U64 {
      assert a / U64 == b / U64 + 1;
      assert (a % U64 - b % U64) % U64 == (a % U64 - b % U64 + U64) % U64;
    }
  }

  /** What the counters keep in every run, wrapped or not. */
  ghost predicate Counters<W>(s: State<W>) {
    && s.capacity < U64
    && s.writePos == |s.pushed| % U64
    && s.readPos == |s.popped| < U64
    && s.readSeen <= |s.popped| <= |s.pushed| <= s.readSeen + s.capacity
    && s.writeSeen <= |s.pushed|
    && (s.pusher.PushLoaded? ==> s.pusher.write == s.writePos)
    && (s.pusher.PushCopying? ==> s.pusher.write == s.writePos && |s.pushed| < s.readSeen + s.capacity)
    && (s.popper.PopLoaded? ==> s.popper.read == s.readPos)
    && (s.popper.PopCopying? ==> s.popper.read == s.readPos < U64 - 1 && |s.popped| < |s.pushed|)
  }

  lemma StepKeepsCounters<W>(s: State<W>, a: Step<W>)
    requires Counters(s) && Enabled(s, a)
    ensures Counters(Apply(s, a))
  {
    hide Shape;
    match a
    case PushLoadRead(r) => PushGuardAlwaysRight(|s.pushed|, r, s.capacity);
    case PushStore => NextCounter(|s.pushed|);
    case _ =>
  }

  lemma NextCounter(n: nat)
    ensures (n % U64 + 1) % U64 == (n + 1) % U64
  {
  }

  lemma {:induction false} RunKeepsCounters<W>(ss: seq<State<W>>, steps: seq<Step<W>>, n: nat)
    requires IsRun(ss, steps) && n < |ss|
    ensures Counters(ss[n])
  {
    if n > 0 {
      hide Enabled, Apply, Counters;
      RunKeepsCounters(ss, steps, n - 1);
      StepKeepsCounters(ss[n - 1], steps[n - 1]);
    } else {
      hide Enabled, Apply;
    }
  }

  /** Where the promise ends: in every run, the ring is a FIFO queue exactly as long as fewer than 2^64
      pushes have completed, and no run ever pops 2^64 elements. */
  lemma RunIsFifoExactly<W>(ss: seq<State<W>>, steps: seq<Step<W>>, n: nat)
    requires IsRun(ss, steps) && n < |ss|
    ensures IsFifo(ss[n]) <==> |ss[n].pushed| < U64
    ensures |ss[n].popped| < U64
  {
    RunKeepsCounters(ss, steps, n);
    if |ss[n].pushed| < U64 {
      RunIsFifo(ss, steps, n);
    } else {
      WrapCases(|ss[n].pushed|, |ss[n].popped|);
    }
  }

  lemma {:induction false} PushesGrow<W>(ss: seq<State<W>>, steps: seq<Step<W>>, i: nat, j: nat)
    requires Steps(ss, steps) && i <= j < |ss|
    ensures |ss[i].pushed| <= |ss[j].pushed| && |ss[i].popped| <= |ss[j].popped|
  {
    if i < j {
      hide Enabled, Apply;
      PushesGrow(ss, steps, i, j - 1);
      StepGrows(ss[j - 1], steps[j - 1]);
    }
  }

  lemma StepGrows<W>(s: State<W>, a: Step<W>)
    requires Enabled(s, a)
    ensures |s.pushed| <= |Apply(s, a).pushed| && |s.popped| <= |Apply(s, a).popped|
  {
  }

  /** size() from a third thread, which loads write_pos at one moment and read_pos at a later one,
      exceeds the capacity exactly when in between more was popped than had been pushed at the
      first: unless that is by almost 2^64, every such overtaking shows. */
  lemma ThirdPartySizeExactly<W>(ss: seq<State<W>>, steps: seq<Step<W>>, i: nat, j: nat)
    requires IsRun(ss, steps) && i <= j < |ss| && |ss[j].pushed| < U64
    ensures var size := Sub64(ss[i].writePos, ss[j].readPos);
      var ahead := |ss[j].popped| - |ss[i].pushed|;
      && (size > ss[i].capacity <==> 0 < ahead < U64 - ss[i].capacity)
      && (ahead <= 0 ==> size == 0 - ahead)
  {
    PushesGrow(ss, steps, i, j);
    RunKeepsInv(ss, steps, i);
    RunKeepsInv(ss, steps, j);
    var w, r := ss[i].writePos, ss[j].readPos;
    if w >= r {
      Sub64Exact(w, r);
    } else {
      Sub64Wrapped(w, r);
    }
  }

  lemma Sub64Wrapped(a: nat, b: nat)
    requires a < b < U64
    ensures Sub64(a, b) == a + U64 - b
  {
  }
}
