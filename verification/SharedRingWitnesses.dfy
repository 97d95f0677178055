/** Runs that reach the limits SharedRingLimits proves. */
module SharedRingWitnesses {
  import opened Bytes
  import opened SharedRing
  import opened SharedRingMachine

  ghost predicate Quiet<W>(s: State<W>) {
    Inv(s) && s.words == 1 && s.capacity > 0 && s.pusher.PushIdle? && s.popper.PopIdle? && s.pushed == s.popped
  }

  lemma Four<W>(s: State<W>, a: Step<W>, b: Step<W>, c: Step<W>, d: Step<W>) returns (ss: seq<State<W>>, steps: seq<Step<W>>)
    requires Enabled(s, a) && Enabled(Apply(s, a), b) && Enabled(Apply(Apply(s, a), b), c)
    requires Enabled(Apply(Apply(Apply(s, a), b), c), d)
    ensures Steps(ss, steps) && ss[0] == s && ss[|ss| - 1] == Apply(Apply(Apply(Apply(s, a), b), c), d)
  {
    hide Apply, Enabled;
    var s1 := Apply(s, a);
    var s2 := Apply(s1, b);
    var s3 := Apply(s2, c);
    ss, steps := [s, s1, s2, s3, Apply(s3, d)], [a, b, c, d];
  }

  lemma PushOne<W>(s: State<W>, v: seq<W>) returns (ss: seq<State<W>>, steps: seq<Step<W>>)
    requires Quiet(s) && |v| == 1
    ensures Steps(ss, steps) && ss[0] == s
    ensures ss[|ss| - 1] == s.(data := ss[|ss| - 1].data, writePos := (|s.pushed| + 1) % U64,
                              pushed := s.pushed + [v], readSeen := |s.popped|)
    ensures |s.pushed| + 1 < U64 ==> Inv(ss[|ss| - 1])
  {
    var load := PushLoadRead(|s.popped|);
    var s1 := Apply(s, PushBegin(v));
    StepKeepsInv(s, PushBegin(v));
    var s2 := LoadBeforePush(s1, v);
    var s3 := Apply(s2, PushCopyWord);
    StepKeepsInv(s2, PushCopyWord);
    if |s.pushed| + 1 < U64 {
      StepKeepsInv(s3, PushStore);
    }
    ss, steps := Four(s, PushBegin(v), load, PushCopyWord, PushStore);
  }

  lemma LoadBeforePush<W>(s: State<W>, v: seq<W>) returns (t: State<W>)
    requires Inv(s) && s.words == 1 && s.capacity > 0 && s.pushed == s.popped && |v| == 1
    requires s.pusher == PushLoaded(v, s.writePos)
    ensures Enabled(s, PushLoadRead(|s.popped|)) && t == Apply(s, PushLoadRead(|s.popped|)) && Inv(t)
    ensures t == s.(readSeen := |s.popped|, pusher := PushCopying(v, s.writePos, 0))
  {
    Sub64Exact(s.writePos, |s.popped|);
    t := Apply(s, PushLoadRead(|s.popped|));
    StepKeepsInv(s, PushLoadRead(|s.popped|));
  }

  lemma PopOne<W>(s: State<W>) returns (ss: seq<State<W>>, steps: seq<Step<W>>)
    requires Inv(s) && s.words == 1 && s.pusher.PushIdle? && s.popper.PopIdle?
    requires |s.pushed| == |s.popped| + 1
    ensures Steps(ss, steps) && ss[0] == s
    ensures Quiet(ss[|ss| - 1]) && ss[|ss| - 1].pushed == s.pushed && ss[|ss| - 1].capacity == s.capacity
  {
    var load := PopLoadWrite(|s.pushed|);
    var s1 := Apply(s, PopBegin);
    StepKeepsInv(s, PopBegin);
    var s2 := Apply(s1, load);
    StepKeepsInv(s1, load);
    var s3 := Apply(s2, PopCopyWord);
    StepKeepsInv(s2, PopCopyWord);
    var s4 := Apply(s3, PopStore);
    StepKeepsInv(s3, PopStore);
    ss, steps := Four(s, PopBegin, load, PopCopyWord, PopStore);
  }

  lemma Join<W>(ss: seq<State<W>>, steps: seq<Step<W>>, tt: seq<State<W>>, more: seq<Step<W>>)
    requires Steps(ss, steps) && Steps(tt, more) && ss[|ss| - 1] == tt[0]
    ensures Steps(ss + tt[1..], steps + more)
    ensures (ss + tt[1..])[|steps + more|] == tt[|tt| - 1]
  {
    var all := ss + tt[1..];
    forall i | 0 <= i < |steps + more|
      ensures Enabled(all[i], (steps + more)[i]) && all[i + 1] == Apply(all[i], (steps + more)[i])
    {
      if i >= |steps| {
        assert all[i] == tt[i - |steps|];
      }
    }
  }

  /** n pushes, each followed by its pop. */
  lemma {:induction false} Pump<W>(s: State<W>, v: seq<W>, n: nat) returns (ss: seq<State<W>>, steps: seq<Step<W>>)
    requires Quiet(s) && |v| == 1 && |s.pushed| + n < U64
    ensures Steps(ss, steps) && ss[0] == s
    ensures Quiet(ss[|ss| - 1]) && |ss[|ss| - 1].pushed| == |s.pushed| + n
  {
    if n == 0 {
      ss, steps := [s], [];
    } else {
      var s0, a0 := Pump(s, v, n - 1);
      var s1, a1 := PushOne(s0[|s0| - 1], v);
      var s2, a2 := PopOne(s1[|s1| - 1]);
      Join(s0, a0, s1, a1);
      Join(s0 + s1[1..], a0 + a1, s2, a2);
      ss, steps := s0 + s1[1..] + s2[1..], a0 + a1 + a2;
    }
  }

  /** A popper that has read 2^64 - 1 elements never gets past its guard again. */
  lemma {:induction false} LastPositionIsStuck<W>(ss: seq<State<W>>, steps: seq<Step<W>>, n: nat)
    requires Steps(ss, steps) && n < |ss|
    requires ss[0].readPos == U64 - 1 && ss[0].popper.PopIdle?
    ensures ss[n].popped == ss[0].popped && ss[n].readPos == U64 - 1
    ensures ss[n].popper.PopIdle? || ss[n].popper == PopLoaded(U64 - 1)
  {
    if n > 0 {
      LastPositionIsStuck(ss, steps, n - 1);
      assert Enabled(ss[n - 1], steps[n - 1]) && ss[n] == Apply(ss[n - 1], steps[n - 1]);
    }
  }

  /** A run that gets there, at any capacity: after exactly 2^64 pushes one element stays queued for
      ever, since no continuation pops anything. */
  lemma FifoEndsAt2To64Pushes<W>(capacity: nat, v: seq<W>) returns (ss: seq<State<W>>, steps: seq<Step<W>>)
    requires 0 < capacity < U64 && |v| == 1
    ensures IsRun(ss, steps)
    ensures var s := ss[|ss| - 1];
      && |s.pushed| == U64 && |s.popped| == U64 - 1
      && forall tt: seq<State<W>>, more: seq<Step<W>> ::
           Steps(tt, more) && tt[0] == s ==> tt[|tt| - 1].popped == s.popped
  {
    var s := State(capacity, 1, seq(capacity, _ => v), 0, 0, PushIdle, PopIdle, 0, 0, [], []);
    var s0, a0 := Pump(s, v, U64 - 1);
    var s1, a1 := PushOne(s0[|s0| - 1], v);
    Join(s0, a0, s1, a1);
    ss, steps := s0 + s1[1..], a0 + a1;
    var last := ss[|ss| - 1];
    forall tt: seq<State<W>>, more: seq<Step<W>> | Steps(tt, more) && tt[0] == last
      ensures tt[|tt| - 1].popped == last.popped
    {
      LastPositionIsStuck(tt, more, |tt| - 1);
    }
  }

  /** Such a size occurs: one push and one pop between the two loads are enough. */
  lemma ThirdPartySizeWraps<W>(capacity: nat, v: seq<W>) returns (ss: seq<State<W>>, steps: seq<Step<W>>)
    requires 0 < capacity < U64 - 1 && |v| == 1
    ensures IsRun(ss, steps)
    ensures Sub64(ss[0].writePos, ss[|ss| - 1].readPos) > capacity
  {
    var s := State(capacity, 1, seq(capacity, _ => v), 0, 0, PushIdle, PopIdle, 0, 0, [], []);
    ss, steps := Pump(s, v, 1);
    assert (0 - 1) % U64 == U64 - 1;
  }
}
