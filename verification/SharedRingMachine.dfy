/** Every interleaving of one pushing and one popping thread over the shared ring. Each atomic
    load, each word of a data copy and each atomic store is a step of its own. A load of the
    counter owned by the other thread may return any value between the last one this thread saw
    and the current one. */
module SharedRingMachine {
  import opened Bytes
  import opened SharedRing

  datatype Pusher<W> =
    | PushIdle
    | PushLoaded(value: seq<W>, write: nat)
    | PushCopying(value: seq<W>, write: nat, done: nat)

  datatype Popper<W> =
    | PopIdle
    | PopLoaded(read: nat)
    | PopCopying(read: nat, copied: seq<W>)

  /** `readSeen` and `writeSeen` count the stores whose effect each thread has already seen;
      `pushed` and `popped` are the histories published by the two release stores. */
  datatype State<W> = State(
    capacity: nat,
    words: nat,
    data: seq<seq<W>>,
    writePos: nat,
    readPos: nat,
    pusher: Pusher<W>,
    popper: Popper<W>,
    readSeen: nat,
    writeSeen: nat,
    pushed: seq<seq<W>>,
    popped: seq<seq<W>>)

  datatype Step<W> =
    | PushBegin(value: seq<W>)
    | PushLoadRead(r: nat)
    | PushCopyWord
    | PushStore
    | PopBegin
    | PopLoadWrite(w: nat)
    | PopCopyWord
    | PopStore
    | PusherSize(r: nat)
    | PopperSize(w: nat)

  ghost predicate Init<W>(s: State<W>) {
    && s.capacity < U64
    && Shape(s)
    && s.writePos == s.readPos == s.readSeen == s.writeSeen == 0
    && s.pusher == PushIdle && s.popper == PopIdle
    && s.pushed == [] && s.popped == []
  }

  /** Memory safety: buffer sizes, and program counters within their copies. */
  ghost predicate Shape<W>(s: State<W>) {
    && |s.data| == s.capacity
    && (forall i :: 0 <= i < |s.data| ==> |s.data[i]| == s.words)
    && (s.pusher.PushLoaded? ==> |s.pusher.value| == s.words)
    && (s.pusher.PushCopying? ==>
          |s.pusher.value| == s.words && s.pusher.done <= s.words && s.capacity > 0)
    && (s.popper.PopCopying? ==> |s.popper.copied| <= s.words && s.capacity > 0)
    && (s.capacity == 0 ==> s.pushed == [])
  }

  ghost predicate Enabled<W>(s: State<W>, a: Step<W>) {
    && Shape(s)
    && match a
       case PushBegin(v) => s.pusher.PushIdle? && |v| == s.words
       case PushLoadRead(r) => s.pusher.PushLoaded? && s.readSeen <= r <= |s.popped|
       case PushCopyWord => s.pusher.PushCopying? && s.pusher.done < s.words
       case PushStore => s.pusher.PushCopying? && s.pusher.done == s.words
       case PopBegin => s.popper.PopIdle?
       case PopLoadWrite(w) => s.popper.PopLoaded? && s.writeSeen <= w <= |s.pushed|
       case PopCopyWord => s.popper.PopCopying? && |s.popper.copied| < s.words
       case PopStore => s.popper.PopCopying? && |s.popper.copied| == s.words
       case PusherSize(r) => s.pusher.PushIdle? && s.readSeen <= r <= |s.popped|
       case PopperSize(w) => s.popper.PopIdle? && s.writeSeen <= w <= |s.pushed|
  }

  ghost function Apply<W>(s: State<W>, a: Step<W>): State<W>
    requires Enabled(s, a)
  {
    match a
    case PushBegin(v) =>
      s.(pusher := PushLoaded(v, s.writePos))
    case PushLoadRead(r) =>
      s.(readSeen := r,
         pusher := if SeesFull(s.pusher.write, r % U64, s.capacity) then PushIdle
                   else PushCopying(s.pusher.value, s.pusher.write, 0))
    case PushCopyWord =>
      var slot := Slot(s.pusher.write, s.capacity);
      var j := s.pusher.done;
      s.(data := s.data[slot := s.data[slot][j := s.pusher.value[j]]],
         pusher := s.pusher.(done := j + 1))
    case PushStore =>
      s.(writePos := (s.pusher.write + 1) % U64, pushed := s.pushed + [s.pusher.value],
         pusher := PushIdle)
    case PopBegin =>
      s.(popper := PopLoaded(s.readPos))
    case PopLoadWrite(w) =>
      s.(writeSeen := w,
         popper := if SeesEmpty(w % U64, s.popper.read) then PopIdle
                   else PopCopying(s.popper.read, []))
    case PopCopyWord =>
      var slot := Slot(s.popper.read, s.capacity);
      s.(popper := s.popper.(copied := s.popper.copied + [s.data[slot][|s.popper.copied|]]))
    case PopStore =>
      s.(readPos := (s.popper.read + 1) % U64, popped := s.popped + [s.popper.copied],
         popper := PopIdle)
    case PusherSize(r) => s.(readSeen := r)
    case PopperSize(w) => s.(writeSeen := w)
  }

  /** No step indexes outside the shared memory, whatever the counters hold. */
  lemma StepKeepsShape<W>(s: State<W>, a: Step<W>)
    requires Enabled(s, a)
    ensures Shape(Apply(s, a))
  {
    if a.PushCopyWord? {
      var t := Apply(s, a);
      forall i | 0 <= i < |t.data|
        ensures |t.data[i]| == t.words
      {
      }
    }
  }

  /** The elements a FIFO queue of the same history would hold. */
  ghost function Queue<W>(s: State<W>): seq<seq<W>>
    requires |s.popped| <= |s.pushed|
  {
    s.pushed[|s.popped|..]
  }

  ghost predicate Inv<W>(s: State<W>) {
    && Shape(s)
    && s.capacity < U64
    && s.writePos == |s.pushed| < U64
    && s.readPos == |s.popped|
    && s.readSeen <= |s.popped| <= s.writeSeen <= |s.pushed| <= s.readSeen + s.capacity
    && s.popped == s.pushed[..|s.popped|]
    && (forall i :: |s.popped| <= i < |s.pushed| ==> s.data[Slot(i, s.capacity)] == s.pushed[i])
    && PusherInv(s)
    && PopperInv(s)
  }

  ghost predicate PusherInv<W>(s: State<W>)
    requires Shape(s)
  {
    && (s.pusher.PushLoaded? ==> s.pusher.write == |s.pushed|)
    && (s.pusher.PushCopying? ==>
          && s.pusher.write == |s.pushed| < s.readSeen + s.capacity
          && s.data[Slot(s.pusher.write, s.capacity)][..s.pusher.done] == s.pusher.value[..s.pusher.done])
  }

  ghost predicate PopperInv<W>(s: State<W>)
    requires Shape(s)
    requires |s.popped| <= s.writeSeen <= |s.pushed|
  {
    && (s.popper.PopLoaded? ==> s.popper.read == |s.popped|)
    && (s.popper.PopCopying? ==>
          && s.popper.read == |s.popped| < s.writeSeen
          && s.popper.copied <= s.pushed[s.popper.read])
  }

  /** Every step keeps the invariant while fewer than 2^64 pushes have completed. */
  lemma StepKeepsInv<W>(s: State<W>, a: Step<W>)
    requires Inv(s) && Enabled(s, a)
    requires |Apply(s, a).pushed| < U64
    ensures Inv(Apply(s, a))
  {
    match a
    case PushLoadRead(r) => PushLoadKeepsInv(s, r);
    case PushCopyWord => CopyWordKeepsInv(s);
    case PushStore => StoreKeepsInv(s);
    case PopLoadWrite(w) => PopLoadKeepsInv(s, w);
    case PopCopyWord => PopCopyWordKeepsInv(s);
    case PopStore => PopStoreKeepsInv(s);
    case _ =>
  }

  lemma PushLoadKeepsInv<W>(s: State<W>, r: nat)
    requires Inv(s) && Enabled(s, PushLoadRead(r))
    ensures Inv(Apply(s, PushLoadRead(r)))
  {
    Sub64Exact(s.pusher.write, r);
  }

  lemma PopLoadKeepsInv<W>(s: State<W>, w: nat)
    requires Inv(s) && Enabled(s, PopLoadWrite(w))
    ensures Inv(Apply(s, PopLoadWrite(w)))
  {
  }

  lemma PopCopyWordKeepsInv<W>(s: State<W>)
    requires Inv(s) && Enabled(s, PopCopyWord)
    ensures Inv(Apply(s, PopCopyWord))
  {
    assert s.data[Slot(s.popper.read, s.capacity)] == s.pushed[s.popper.read];
  }

  lemma CopyWordKeepsInv<W>(s: State<W>)
    requires Inv(s) && Enabled(s, PushCopyWord)
    ensures Inv(Apply(s, PushCopyWord))
  {
    StepKeepsShape(s, PushCopyWord);
    CopyWordKeepsLiveSlots(s);
  }

  lemma StoreKeepsInv<W>(s: State<W>)
    requires Inv(s) && Enabled(s, PushStore) && |s.pushed| + 1 < U64
    ensures Inv(Apply(s, PushStore))
  {
    var slot := s.data[Slot(s.pusher.write, s.capacity)];
    assert slot == slot[..s.words] && s.pusher.value == s.pusher.value[..s.words];
  }

  lemma PopStoreKeepsInv<W>(s: State<W>)
    requires Inv(s) && Enabled(s, PopStore)
    ensures Inv(Apply(s, PopStore))
  {
    assert s.data[Slot(s.popper.read, s.capacity)] == s.pushed[s.popper.read];
    assert s.popper.copied == s.pushed[s.popper.read];
    assert s.pushed[..|s.popped| + 1] == s.pushed[..|s.popped|] + [s.pushed[|s.popped|]];
  }

  lemma CopyWordKeepsLiveSlots<W>(s: State<W>)
    requires Inv(s) && Enabled(s, PushCopyWord)
    ensures var t := Apply(s, PushCopyWord);
      && (forall i :: |s.popped| <= i < |s.pushed| ==> t.data[Slot(i, s.capacity)] == s.pushed[i])
      && t.data[Slot(s.pusher.write, s.capacity)][..t.pusher.done] == s.pusher.value[..t.pusher.done]
  {
    var t := Apply(s, PushCopyWord);
    forall i | |s.popped| <= i < |s.pushed|
      ensures t.data[Slot(i, s.capacity)] == s.pushed[i]
    {
      SlotsDistinct(i, |s.pushed|, s.capacity);
    }
    var before := s.data[Slot(s.pusher.write, s.capacity)];
    var j := s.pusher.done;
    assert before[j := s.pusher.value[j]][..j + 1] == before[..j] + [s.pusher.value[j]];
    assert s.pusher.value[..j + 1] == s.pusher.value[..j] + [s.pusher.value[j]];
  }

  /** The two copies in progress, if any, work on different slots. */
  lemma CopiesNeverCollide<W>(s: State<W>)
    requires Inv(s)
    requires s.pusher.PushCopying? && s.popper.PopCopying?
    ensures Slot(s.pusher.write, s.capacity) != Slot(s.popper.read, s.capacity)
  {
    SlotsDistinct(s.popper.read, s.pusher.write, s.capacity);
  }

  /** A bounded FIFO queue: its contents after one step of the ring. */
  ghost predicate FifoStep<W>(q: seq<seq<W>>, q': seq<seq<W>>, capacity: nat, a: Step<W>, s: State<W>, t: State<W>) {
    if a.PushStore? then
      |q| < capacity && s.pusher.PushCopying? && q' == q + [s.pusher.value] && t.popped == s.popped
    else if a.PopStore? then
      q != [] && q' == q[1..] && t.popped == s.popped + [q[0]] && t.pushed == s.pushed
    else
      q' == q && t.pushed == s.pushed && t.popped == s.popped
  }

  /** The stores are the linearisation points: they perform the queue's push and pop, and no
      other step is visible to it. */
  lemma StepRefinesFifo<W>(s: State<W>, a: Step<W>)
    requires Inv(s) && Enabled(s, a)
    ensures var t := Apply(s, a);
      && |t.popped| <= |t.pushed|
      && FifoStep(Queue(s), Queue(t), s.capacity, a, s, t)
  {
    if a.PopStore? {
      assert s.data[Slot(s.popper.read, s.capacity)] == s.pushed[s.popper.read];
      assert s.popper.copied == s.pushed[s.popper.read];
    }
  }

  /** A push fails exactly when the ring was full in the view it loaded, and a pop exactly when
      it was empty in its view; with a current view that means full or empty now. */
  lemma FailuresAreJustified<W>(s: State<W>, a: Step<W>)
    requires Inv(s) && Enabled(s, a)
    ensures a.PushLoadRead? ==>
      && (Apply(s, a).pusher.PushIdle? <==> |s.pushed| - a.r == s.capacity)
      && (a.r == |s.popped| ==> (Apply(s, a).pusher.PushIdle? <==> |Queue(s)| == s.capacity))
    ensures a.PopLoadWrite? ==>
      && (Apply(s, a).popper.PopIdle? <==> a.w == |s.popped|)
      && (a.w == |s.pushed| ==> (Apply(s, a).popper.PopIdle? <==> Queue(s) == []))
  {
    if a.PushLoadRead? {
      Sub64Exact(s.pusher.write, a.r);
    }
  }

  lemma InvNumbers<W>(s: State<W>)
    requires Inv(s)
    ensures s.capacity < U64 && s.writePos == |s.pushed| < U64 && s.readPos == |s.popped|
    ensures s.readSeen <= |s.popped| <= s.writeSeen <= |s.pushed| <= s.readSeen + s.capacity
  {
  }

  /** size() called by either side never leaves [0, capacity], and errs on its safe side: the
      pusher may over-count and the popper under-count what is queued. */
  lemma SizeInRange<W>(s: State<W>, r: nat, w: nat)
    requires Inv(s)
    ensures Enabled(s, PusherSize(r)) ==> |Queue(s)| <= Sub64(s.writePos, r % U64) <= s.capacity
    ensures Enabled(s, PopperSize(w)) ==> Sub64(w % U64, s.readPos) <= |Queue(s)| <= s.capacity
  {
    hide Inv, Sub64, Queue;
    if Enabled(s, PusherSize(r)) {
      PusherSizeInRange(s, r);
    }
    if Enabled(s, PopperSize(w)) {
      PopperSizeInRange(s, w);
    }
  }

  lemma PusherSizeInRange<W>(s: State<W>, r: nat)
    requires Inv(s) && s.readSeen <= r <= |s.popped|
    ensures |Queue(s)| <= Sub64(s.writePos, r % U64) <= s.capacity
  {
    InvNumbers(s);
    hide Inv, Shape;
    DifferenceInRange(s.writePos, r, |s.popped|, s.writePos - s.capacity);
  }

  lemma PopperSizeInRange<W>(s: State<W>, w: nat)
    requires Inv(s) && s.writeSeen <= w <= |s.pushed|
    ensures Sub64(w % U64, s.readPos) <= |Queue(s)| <= s.capacity
  {
    InvNumbers(s);
    hide Inv, Shape;
    DifferenceInRange(w, s.readPos, s.readPos, s.readPos);
  }

  /** Counters that have not wrapped subtract exactly. */
  lemma DifferenceInRange(a: nat, b: nat, high: int, low: int)
    requires low <= b <= high && b <= a < U64
    ensures a - high <= Sub64(a, b % U64) <= a - low
    ensures a - high <= Sub64(a % U64, b) <= a - low
  {
    Sub64Exact(a, b);
  }

  // ---- Runs ----

  ghost predicate Steps<W>(ss: seq<State<W>>, steps: seq<Step<W>>) {
    && |ss| == |steps| + 1
    && forall i :: 0 <= i < |steps| ==> Enabled(ss[i], steps[i]) && ss[i + 1] == Apply(ss[i], steps[i])
  }

  ghost predicate IsRun<W>(ss: seq<State<W>>, steps: seq<Step<W>>) {
    Steps(ss, steps) && Init(ss[0])
  }

  lemma {:induction false} RunKeepsInv<W>(ss: seq<State<W>>, steps: seq<Step<W>>, n: nat)
    requires IsRun(ss, steps) && n < |ss|
    requires |ss[n].pushed| < U64
    ensures Inv(ss[n])
  {
    if n > 0 {
      assert Enabled(ss[n - 1], steps[n - 1]) && ss[n] == Apply(ss[n - 1], steps[n - 1]);
      RunKeepsInv(ss, steps, n - 1);
      StepKeepsInv(ss[n - 1], steps[n - 1]);
    }
  }

  /** What was pushed is what was popped followed by slots [readPos, writePos), at most `capacity` of
      them. */
  ghost predicate IsFifo<W>(s: State<W>) {
    && Shape(s)
    && 0 <= s.writePos - s.readPos <= s.capacity
    && s.pushed == s.popped
         + seq(s.writePos - s.readPos, k requires 0 <= k < s.writePos - s.readPos && Shape(s) && s.capacity > 0 =>
             s.data[Slot(s.readPos + k, s.capacity)])
  }

  /** Main theorem. The ring is a FIFO queue in every state of every run with fewer than 2^64 completed
      pushes. */
  lemma RunIsFifo<W>(ss: seq<State<W>>, steps: seq<Step<W>>, n: nat)
    requires IsRun(ss, steps) && n < |ss|
    requires |ss[n].pushed| < U64
    ensures IsFifo(ss[n])
  {
    RunKeepsInv(ss, steps, n);
    var s := ss[n];
    assert s.pushed == s.popped + Queue(s);
  }

  /** Every step of such a run is a step of the bounded queue, or invisible to it. */
  lemma RunRefinesFifo<W>(ss: seq<State<W>>, steps: seq<Step<W>>, n: nat)
    requires IsRun(ss, steps) && n < |steps|
    requires |ss[n].pushed| < U64
    ensures var s, t := ss[n], ss[n + 1];
      && |s.popped| <= |s.pushed| && |t.popped| <= |t.pushed|
      && FifoStep(Queue(s), Queue(t), s.capacity, steps[n], s, t)
  {
    RunKeepsInv(ss, steps, n);
    StepRefinesFifo(ss[n], steps[n]);
  }
}
