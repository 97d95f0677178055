/** The bytes of a gossip message, position by position (python/gossip_rl/gossip/message.py). */
module GossipLayout {
  import opened Wrappers
  import opened Bytes
  import opened GossipWire

  lemma TypeCodes()
    ensures PING.Code() == 1 && PING_REQ.Code() == 2 && ACK.Code() == 3
    ensures SUSPECT.Code() == 4 && ALIVE.Code() == 5 && DEAD.Code() == 6
    ensures PUSH_GRADIENT.Code() == 10 && PULL_GRADIENT.Code() == 11 && PUSH_PULL_GRADIENT.Code() == 12
    ensures AGGREGATE_REQUEST.Code() == 20 && AGGREGATE_RESPONSE.Code() == 21
    ensures MODEL_SYNC.Code() == 30 && MODEL_REQUEST.Code() == 31 && MODEL_RESPONSE.Code() == 32
    ensures forall code: nat :: TypeOf(code).Some? <==>
      1 <= code <= 6 || 10 <= code <= 12 || 20 <= code <= 21 || 30 <= code <= 32
    ensures forall kind: MessageType :: TypeOf(kind.Code()) == Some(kind)
  {
  }

  /** The widths: two bytes for the lengths of ids, eight for counters and the lengths of arrays, four
      for the incarnation and the payload's length. */
  lemma FitsExactly(m: GossipMessage)
    ensures Fits(m) <==>
      && |m.sender| < 0x1_0000
      && 0 <= m.sequence < 0x1_0000_0000_0000_0000
      && (m.target.Some? ==> |m.target.value| < 0x1_0000)
      && (m.gradient.Some? ==>
            && 0 <= m.modelVersion < 0x1_0000_0000_0000_0000
            && 0 <= m.step < 0x1_0000_0000_0000_0000
            && |m.gradient.value| < 0x1_0000_0000_0000_0000
            && (m.indices.Some? ==> |m.indices.value| < 0x1_0000_0000_0000_0000))
      && 0 <= m.incarnation < 0x1_0000_0000
      && (m.payload.Some? ==> |m.payload.value| < 0x1_0000_0000)
  {
    Widths();
  }

  /** A message is carried as it is exactly when it has no metadata, no empty payload, and nothing that
      belongs to a gradient without one. */
  lemma NormalExactly(m: GossipMessage)
    ensures Normal(m) == m <==>
      && m.metadata == map[]
      && m.payload != Some([])
      && (m.gradient.None? ==> m.indices.None? && m.modelVersion == 0 && m.step == 0)
    ensures Normal(Normal(m)) == Normal(m)
  {
  }

  /** `w` bytes at `pos` are the big-endian number x. */
  ghost predicate Number(c: seq<byte>, pos: nat, w: nat, x: int) {
    pos + w <= |c| && FromBe(c[pos..pos + w]) == x
  }

  lemma NumberAt(c: seq<byte>, pos: nat, x: int, w: nat)
    requires InWidth(x, w) && At(c, pos, Be(x, w))
    ensures Number(c, pos, w, x)
  {
    IntAt(c, pos, x, w);
  }

  /** A length of `w` bytes, then the bytes. */
  ghost predicate SizedBytes(c: seq<byte>, pos: nat, w: nat, s: seq<byte>) {
    Number(c, pos, w, |s|) && At(c, pos + w, s)
  }

  lemma SizedBytesAt(c: seq<byte>, pos: nat, w: nat, s: seq<byte>)
    requires InWidth(|s|, w) && At(c, pos, Sized(s, w))
    ensures SizedBytes(c, pos, w, s)
  {
    hide Be, InWidth, At;
    assert Sized(s, w) == Be(|s|, w) + s + [];
    AtPart(c, pos, Be(|s|, w), s, []);
    NumberAt(c, pos, |s|, w);
  }

  /** Where the gradient part starts. */
  function GradientStart(m: GossipMessage): nat {
    20 + |m.sender| + if m.target.None? then 0 else 2 + |m.target.value|
  }

  /** Where the incarnation stands. */
  function TailStart(m: GossipMessage): nat {
    GradientStart(m)
    + if m.gradient.None? then 0
      else 24 + |m.gradient.value| + if m.indices.None? then 0 else 8 + |m.indices.value|
  }

  lemma Starts(m: GossipMessage)
    requires Fits(m)
    ensures |Head(m)| == 20 + |m.sender|
    ensures |Head(m)| + |TargetPart(m)| == GradientStart(m)
    ensures GradientStart(m) + |GradientPart(m)| == TailStart(m)
  {
  }

  /** The parts of a packed message follow each other. */
  lemma Parts(m: GossipMessage)
    requires Fits(m) && m.incarnation >= 0
    ensures At(Packed(m), 0, Head(m))
    ensures At(Packed(m), 20 + |m.sender|, TargetPart(m))
    ensures At(Packed(m), GradientStart(m), GradientPart(m))
    ensures At(Packed(m), TailStart(m), Be(m.incarnation, 4))
    ensures At(Packed(m), TailStart(m) + 4, Be(|Payload(m)|, 4))
    ensures At(Packed(m), TailStart(m) + 8, Payload(m))
    ensures |Packed(m)| == TailStart(m) + 8 + |Payload(m)|
  {
    Starts(m);
    hide Be, InWidth, Head, TargetPart, GradientPart, At, GradientStart, TailStart, Fits, Payload;
    var inc, len := Be(m.incarnation, 4), Be(|Payload(m)|, 4);
    assert Packed(m) == Head(m) + (TargetPart(m) + GradientPart(m) + (inc + len)) + Payload(m);
    hide Packed;
    Consecutive(Packed(m), Head(m), TargetPart(m), GradientPart(m), inc, len, Payload(m),
                20 + |m.sender|, GradientStart(m), TailStart(m));
  }

  lemma Consecutive(c: seq<byte>, head: seq<byte>, target: seq<byte>, gradient: seq<byte>, inc: seq<byte>, len: seq<byte>,
                    payload: seq<byte>, t: nat, g: nat, e: nat)
    requires c == head + (target + gradient + (inc + len)) + payload
    requires t == |head| && g == |head| + |target| && e == g + |gradient| && |inc| == 4 && |len| == 4
    ensures At(c, 0, head) && At(c, t, target) && At(c, g, gradient)
    ensures At(c, e, inc) && At(c, e + 4, len) && At(c, e + 8, payload) && |c| == e + 8 + |payload|
  {
    assert c[0..t] == head && c[t..g] == target && c[g..e] == gradient;
    assert c[e..e + 4] == inc && c[e + 4..e + 8] == len && c[e + 8..e + 8 + |payload|] == payload;
  }

  lemma TwoParts(c: seq<byte>, pos: nat, a: seq<byte>, b: seq<byte>)
    requires At(c, pos, a + b)
    ensures At(c, pos, a) && At(c, pos + |a|, b)
  {
    assert a + b + [] == a + b;
    AtPart(c, pos, a, b, []);
  }

  /** Type code, sender with its length, sequence number, timestamp, flags. */
  lemma HeadLayout(m: GossipMessage)
    requires Fits(m)
    ensures var c, s := Packed(m), |m.sender|;
      && Number(c, 0, 1, m.kind.Code())
      && SizedBytes(c, 1, 2, m.sender)
      && Number(c, 3 + s, 8, m.sequence)
      && Number(c, 11 + s, 8, m.timestamp)
      && Number(c, 19 + s, 1, (if m.target.Some? then 1 else 0) + (if m.gradient.Some? then 2 else 0)
                              + (if m.gradient.Some? && m.indices.Some? then 4 else 0))
  {
    FitsNat(m);
    Parts(m);
    TimestampFits(m.timestamp);
    hide Be, FromBe, InWidth, Packed, TargetPart, GradientPart, At, Number, SizedBytes, Sized;
    var c, s := Packed(m), |m.sender|;
    var code, sender, flags := [m.kind.Code()], Sized(m.sender, 2), [Flags(m)];
    var sequence, timestamp := Be(m.sequence, 8), Be(m.timestamp, 8);
    assert Head(m) == code + sender + (sequence + timestamp) + flags;
    hide Head;
    AtPart(c, 0, code + sender, sequence + timestamp, flags);
    TwoParts(c, 0, code, sender);
    TwoParts(c, 3 + s, sequence, timestamp);
    SizedBytesAt(c, 1, 2, m.sender);
    NumberAt(c, 3 + s, m.sequence, 8);
    NumberAt(c, 11 + s, m.timestamp, 8);
    ByteNumber(c, 0, m.kind.Code());
    ByteNumber(c, 19 + s, Flags(m));
  }

  lemma ByteNumber(c: seq<byte>, pos: nat, b: byte)
    requires At(c, pos, [b])
    ensures Number(c, pos, 1, b)
  {
    ByteAt(c, pos, b);
  }

  /** The target with its length, if there is one. */
  lemma TargetLayout(m: GossipMessage)
    requires Fits(m) && m.target.Some?
    ensures SizedBytes(Packed(m), 20 + |m.sender|, 2, m.target.value)
  {
    FitsNat(m);
    Parts(m);
    hide Be, InWidth, Packed, Head, GradientPart, At, SizedBytes, Sized;
    SizedBytesAt(Packed(m), 20 + |m.sender|, 2, m.target.value);
  }

  /** Model version, step, the gradient with its length, the indices with theirs. */
  ghost predicate GradientFieldsAt(c: seq<byte>, at: nat, m: GossipMessage)
    requires m.gradient.Some?
  {
    && Number(c, at, 8, m.modelVersion) && Number(c, at + 8, 8, m.step)
    && SizedBytes(c, at + 16, 8, m.gradient.value)
    && (m.indices.Some? ==> SizedBytes(c, at + 24 + |m.gradient.value|, 8, m.indices.value))
  }

  lemma GradientLayout(m: GossipMessage)
    requires Fits(m) && m.gradient.Some?
    ensures GradientFieldsAt(Packed(m), GradientStart(m), m)
  {
    FitsNat(m);
    Parts(m);
    hide Be, FromBe, InWidth, Packed, Head, TargetPart, GradientPart, At, Number, SizedBytes, GradientStart, TailStart;
    hide Payload, Fits, GradientFieldsAt;
    GradientBytes(Packed(m), GradientStart(m), m);
  }

  lemma FourParts(c: seq<byte>, pos: nat, a: seq<byte>, b: seq<byte>, d: seq<byte>, e: seq<byte>)
    requires At(c, pos, a + b + d + e) && |a| == |b| == 8
    ensures At(c, pos, a) && At(c, pos + 8, b) && At(c, pos + 16, d) && At(c, pos + 16 + |d|, e)
  {
    AtPart(c, pos, a + b, d, e);
    TwoParts(c, pos, a, b);
  }

  lemma GradientBytes(c: seq<byte>, at: nat, m: GossipMessage)
    requires Fits(m) && m.gradient.Some? && At(c, at, GradientPart(m))
    ensures GradientFieldsAt(c, at, m)
  {
    FitsNat(m);
    var g := m.gradient.value;
    hide Be, FromBe, At, Number, SizedBytes, Sized;
    CountersBytes(c, at, m.modelVersion, m.step, Sized(g, 8), IndicesPart(m));
    hide InWidth;
    ArraysBytes(c, at + 16, at + 24 + |g|, g, m.indices);
  }

  lemma ArraysBytes(c: seq<byte>, p: nat, q: nat, g: seq<byte>, indices: Option<seq<byte>>)
    requires InWidth(|g|, 8) && q == p + 8 + |g| && At(c, p, Sized(g, 8))
    requires indices.Some? ==> InWidth(|indices.value|, 8) && At(c, p + |Sized(g, 8)|, Sized(indices.value, 8))
    ensures SizedBytes(c, p, 8, g) && (indices.Some? ==> SizedBytes(c, q, 8, indices.value))
  {
    hide InWidth, At, SizedBytes, Sized;
    SizedBytesAt(c, p, 8, g);
    if indices.Some? {
      AtSame(c, p + |Sized(g, 8)|, q, Sized(indices.value, 8));
      SizedBytesAt(c, q, 8, indices.value);
    }
  }

  lemma CountersBytes(c: seq<byte>, at: nat, version: nat, step: nat, d: seq<byte>, e: seq<byte>)
    requires InWidth(version, 8) && InWidth(step, 8) && At(c, at, Be(version, 8) + Be(step, 8) + d + e)
    ensures Number(c, at, 8, version) && Number(c, at + 8, 8, step)
    ensures At(c, at + 16, d) && At(c, at + 16 + |d|, e)
  {
    hide Be, FromBe, InWidth, At, Number;
    FourParts(c, at, Be(version, 8), Be(step, 8), d, e);
    NumberAt(c, at, version, 8);
    NumberAt(c, at + 8, step, 8);
  }

  /** At the end: incarnation, then the payload with its length. */
  lemma TailLayout(m: GossipMessage)
    requires Fits(m)
    ensures var c, p := Packed(m), if m.payload.None? then [] else m.payload.value;
      |c| == TailStart(m) + 8 + |p| && Number(c, TailStart(m), 4, m.incarnation) && SizedBytes(c, TailStart(m) + 4, 4, p)
  {
    FitsNat(m);
    Parts(m);
    hide Be, FromBe, InWidth, Packed, Head, TargetPart, GradientPart, At, Number, TailStart;
    var c, p := Packed(m), Payload(m);
    NumberAt(c, TailStart(m), m.incarnation, 4);
    NumberAt(c, TailStart(m) + 4, |p|, 4);
  }
}
