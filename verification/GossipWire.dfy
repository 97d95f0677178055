/** GossipMessage.pack and unpack of python/gossip_rl/gossip/message.py. Ids are byte strings,
    timestamps the 64 bits of a double, arrays the bytes of their elements. */
module GossipWire {
  import opened Wrappers
  import opened Bytes

  datatype MessageType =
    | PING | PING_REQ | ACK | SUSPECT | ALIVE | DEAD
    | PUSH_GRADIENT | PULL_GRADIENT | PUSH_PULL_GRADIENT
    | AGGREGATE_REQUEST | AGGREGATE_RESPONSE
    | MODEL_SYNC | MODEL_REQUEST | MODEL_RESPONSE
  {
    function Code(): byte {
      match this
      case PING => 1
      case PING_REQ => 2
      case ACK => 3
      case SUSPECT => 4
      case ALIVE => 5
      case DEAD => 6
      case PUSH_GRADIENT => 10
      case PULL_GRADIENT => 11
      case PUSH_PULL_GRADIENT => 12
      case AGGREGATE_REQUEST => 20
      case AGGREGATE_RESPONSE => 21
      case MODEL_SYNC => 30
      case MODEL_REQUEST => 31
      case MODEL_RESPONSE => 32
    }
  }

  function TypeOf(code: nat): Option<MessageType> {
    match code
    case 1 => Some(PING)
    case 2 => Some(PING_REQ)
    case 3 => Some(ACK)
    case 4 => Some(SUSPECT)
    case 5 => Some(ALIVE)
    case 6 => Some(DEAD)
    case 10 => Some(PUSH_GRADIENT)
    case 11 => Some(PULL_GRADIENT)
    case 12 => Some(PUSH_PULL_GRADIENT)
    case 20 => Some(AGGREGATE_REQUEST)
    case 21 => Some(AGGREGATE_RESPONSE)
    case 30 => Some(MODEL_SYNC)
    case 31 => Some(MODEL_REQUEST)
    case 32 => Some(MODEL_RESPONSE)
    case _ => None
  }

  type word64 = x: int | 0 <= x < U64

  /** `gradient` with its sparse `indices`, version and step: the gradient part of a message. */
  datatype GossipMessage = GossipMessage(
    kind: MessageType,
    sender: seq<byte>,
    sequence: int,
    timestamp: word64,
    payload: Option<seq<byte>>,
    metadata: map<string, string>,
    gradient: Option<seq<byte>>,
    indices: Option<seq<byte>>,
    modelVersion: int,
    step: int,
    target: Option<seq<byte>>,
    incarnation: int)

  function Payload(m: GossipMessage): seq<byte> {
    if m.payload.None? then [] else m.payload.value
  }

  /** What the format can carry of a message. */
  function Normal(m: GossipMessage): GossipMessage {
    m.(metadata := map[],
       payload := if Payload(m) == [] then None else m.payload,
       indices := if m.gradient.None? then None else m.indices,
       modelVersion := if m.gradient.None? then 0 else m.modelVersion,
       step := if m.gradient.None? then 0 else m.step)
  }

  // ---- pack ----

  predicate InWidth(x: int, w: nat) {
    0 <= x < Pow256(w)
  }

  /** struct.pack accepts every field. */
  predicate Fits(m: GossipMessage) {
    && InWidth(|m.sender|, 2)
    && InWidth(m.sequence, 8)
    && (m.target.Some? ==> InWidth(|m.target.value|, 2))
    && (m.gradient.Some? ==>
          && InWidth(m.modelVersion, 8) && InWidth(m.step, 8) && InWidth(|m.gradient.value|, 8)
          && (m.indices.Some? ==> InWidth(|m.indices.value|, 8)))
    && InWidth(m.incarnation, 4)
    && InWidth(|Payload(m)|, 4)
  }

  function Flags(m: GossipMessage): byte {
    (if m.target.Some? then 1 else 0)
    + (if m.gradient.Some? then 2 else 0)
    + (if m.gradient.Some? && m.indices.Some? then 4 else 0)
  }

  /** A length of `w` bytes, then the bytes. */
  function Sized(s: seq<byte>, w: nat): (r: seq<byte>)
    ensures |r| == w + |s|
  {
    Be(|s|, w) + s
  }

  function Head(m: GossipMessage): seq<byte>
    requires Fits(m)
  {
    [m.kind.Code()] + Sized(m.sender, 2) + (Be(m.sequence, 8) + Be(m.timestamp, 8)) + [Flags(m)]
  }

  function TargetPart(m: GossipMessage): seq<byte> {
    if m.target.None? then [] else Sized(m.target.value, 2)
  }

  function GradientPart(m: GossipMessage): seq<byte>
    requires Fits(m)
  {
    if m.gradient.None? then []
    else Be(m.modelVersion, 8) + Be(m.step, 8) + Sized(m.gradient.value, 8) + IndicesPart(m)
  }

  function IndicesPart(m: GossipMessage): seq<byte> {
    if m.gradient.None? || m.indices.None? then [] else Sized(m.indices.value, 8)
  }

  /** Everything before the payload. */
  function Front(m: GossipMessage): seq<byte>
    requires Fits(m)
  {
    Head(m) + (TargetPart(m) + GradientPart(m) + (Be(m.incarnation, 4) + Be(|Payload(m)|, 4)))
  }

  function Packed(m: GossipMessage): seq<byte>
    requires Fits(m)
  {
    Front(m) + Payload(m)
  }

  /** struct.pack of one unsigned field: None is struct.error. */
  function PackInt(x: int, w: nat): Option<seq<byte>> {
    if InWidth(x, w) then Some(Be(x, w)) else None
  }

  method Pack(m: GossipMessage) returns (r: Option<seq<byte>>)
    ensures r == if Fits(m) then Some(Packed(m)) else None
  {
    hide Be, InWidth, Packed;
    var senderLen := PackInt(|m.sender|, 2);
    if senderLen.None? {
      return None;
    }
    var header := [m.kind.Code()] + senderLen.value;
    header := header + m.sender;
    var sequence, timestamp := PackInt(m.sequence, 8), Be(m.timestamp, 8);
    if sequence.None? {
      return None;
    }
    header := header + (sequence.value + timestamp);
    var flags: byte, bytes := 0, [];
    if m.target.Some? {
      flags := flags + 1;
      var len := PackInt(|m.target.value|, 2);
      if len.None? {
        return None;
      }
      bytes := bytes + (len.value + m.target.value);
    }
    ghost var target := bytes;
    assert target == TargetPart(m);
    if m.gradient.Some? {
      flags := flags + 2;
      var version, step, len := PackInt(m.modelVersion, 8), PackInt(m.step, 8), PackInt(|m.gradient.value|, 8);
      if version.None? || step.None? || len.None? {
        return None;
      }
      bytes := bytes + (version.value + step.value);
      bytes := bytes + len.value;
      bytes := bytes + m.gradient.value;
      if m.indices.Some? {
        flags := flags + 4;
        var len := PackInt(|m.indices.value|, 8);
        if len.None? {
          return None;
        }
        bytes := bytes + len.value;
        bytes := bytes + m.indices.value;
      }
      assert bytes == target + (version.value + step.value + Sized(m.gradient.value, 8) + IndicesPart(m));
    }
    var incarnation, payloadLen := PackInt(m.incarnation, 4), PackInt(|Payload(m)|, 4);
    if incarnation.None? || payloadLen.None? {
      return None;
    }
    ghost var middle := TargetPart(m) + GradientPart(m);
    assert bytes == middle;
    bytes := bytes + incarnation.value;
    var head := header + [flags];
    assert head == Head(m);
    r := Some(head + bytes + payloadLen.value + Payload(m));
    FitsNat(m);
    PackedIs(m, head, middle, incarnation.value, payloadLen.value);
  }

  lemma PackedIs(m: GossipMessage, head: seq<byte>, middle: seq<byte>, incarnation: seq<byte>, len: seq<byte>)
    requires Fits(m) && head == Head(m) && middle == TargetPart(m) + GradientPart(m)
    requires m.incarnation >= 0 && incarnation == Be(m.incarnation, 4) && len == Be(|Payload(m)|, 4)
    ensures Packed(m) == head + (middle + incarnation) + len + Payload(m)
  {
    hide Head, TargetPart, GradientPart, Be;
    var payload := Payload(m);
    assert head + (middle + incarnation) + len + payload == head + (middle + (incarnation + len)) + payload;
  }

  // ---- unpack ----

  /** struct.unpack_from of one unsigned field: None is struct.error. */
  function ReadInt(data: seq<byte>, offset: nat, w: nat): Option<nat> {
    if offset + w <= |data| then Some(FromBe(data[offset..offset + w])) else None
  }

  /** data[offset : offset + n] in Python: never an error, possibly short. */
  function Slice(data: seq<byte>, offset: nat, n: nat): seq<byte> {
    data[Min(offset, |data|)..Min(offset + n, |data|)]
  }

  /** A length of `w` bytes, as many bytes as there are, and where the next field starts. */
  function ReadSized(data: seq<byte>, offset: nat, w: nat): Option<(seq<byte>, nat)> {
    match ReadInt(data, offset, w)
    case None => None
    case Some(n) => Some((Slice(data, offset + w, n), offset + w + n))
  }

  predicate Bit(flags: nat, b: nat)
    requires b > 0
  {
    flags / b % 2 == 1
  }

  /** Type code, sender, sequence, timestamp, flags. */
  datatype HeadFields = HeadFields(code: nat, sender: seq<byte>, sequence: nat, timestamp: word64, flags: nat)

  function ReadHead(data: seq<byte>): Option<(HeadFields, nat)> {
    var code, sender := ReadInt(data, 0, 1), ReadSized(data, 1, 2);
    if code.None? || sender.None? then None
    else
      var at := sender.value.1;
      var sequence, timestamp, flags := ReadInt(data, at, 8), ReadInt(data, at + 8, 8), ReadInt(data, at + 16, 1);
      if sequence.None? || timestamp.None? || flags.None? then None
      else
        TimestampBound(data, at + 8);
        Some((HeadFields(code.value, sender.value.0, sequence.value, timestamp.value, flags.value), at + 17))
  }

  function ReadTarget(data: seq<byte>, offset: nat, flags: nat): Option<(Option<seq<byte>>, nat)> {
    if !Bit(flags, 1) then Some((None, offset))
    else
      match ReadSized(data, offset, 2)
      case None => None
      case Some((s, next)) => Some((Some(s), next))
  }

  datatype GradientFields = GradientFields(
    modelVersion: nat,
    step: nat,
    gradient: Option<seq<byte>>,
    indices: Option<seq<byte>>)

  function ReadGradient(data: seq<byte>, offset: nat, flags: nat): Option<(GradientFields, nat)> {
    if !Bit(flags, 2) then Some((GradientFields(0, 0, None, None), offset))
    else
      var version, step := ReadInt(data, offset, 8), ReadInt(data, offset + 8, 8);
      var gradient := ReadSized(data, offset + 16, 8);
      if version.None? || step.None? || gradient.None? then None
      else
        var (g, next) := gradient.value;
        if !Bit(flags, 4) then Some((GradientFields(version.value, step.value, Some(g), None), next))
        else
          match ReadSized(data, next, 8)
          case None => None
          case Some((i, next)) => Some((GradientFields(version.value, step.value, Some(g), Some(i)), next))
  }

  /** The message `data` starts with and the offset of its payload, before the checks of
      np.frombuffer and of the type code. */
  function Parse(data: seq<byte>): Option<(HeadFields, Option<seq<byte>>, GradientFields, nat, Option<seq<byte>>, nat)> {
    match ReadHead(data)
    case None => None
    case Some((head, at)) =>
      match ReadTarget(data, at, head.flags)
      case None => None
      case Some((target, at)) =>
        match ReadGradient(data, at, head.flags)
        case None => None
        case Some((fields, at)) =>
          var incarnation, n := ReadInt(data, at, 4), ReadInt(data, at + 4, 4);
          if incarnation.None? || n.None? then None
          else
            var payload := if n.value > 0 then Some(Slice(data, at + 8, n.value)) else None;
            Some((head, target, fields, incarnation.value, payload, at + 8))
  }

  /** The float32 and int64 arrays np.frombuffer can make. */
  predicate Aligned(gradient: Option<seq<byte>>, indices: Option<seq<byte>>) {
    && (gradient.Some? ==> |gradient.value| % 4 == 0)
    && (gradient.Some? && indices.Some? ==> |indices.value| % 8 == 0)
  }

  /** None stands for every exception unpack can raise. */
  function Unpacked(data: seq<byte>): Option<GossipMessage> {
    match Parse(data)
    case None => None
    case Some((head, target, g, incarnation, payload, _)) =>
      match TypeOf(head.code)
      case None => None
      case Some(kind) =>
        if !Aligned(g.gradient, g.indices) then None
        else
          Some(GossipMessage(kind, head.sender, head.sequence, head.timestamp, payload, map[],
                             g.gradient, g.indices, g.modelVersion, g.step, target, incarnation))
  }

  method Unpack(data: seq<byte>) returns (r: Option<GossipMessage>)
    ensures r == Unpacked(data)
  {
    hide FromBe, Slice, Bit, ReadInt;
    var offset := 0;
    var code, senderLen := ReadInt(data, offset, 1), ReadInt(data, offset + 1, 2);
    if code.None? || senderLen.None? {
      return None;
    }
    offset := offset + 3;
    var sender := Slice(data, offset, senderLen.value);
    offset := offset + senderLen.value;
    var sequence, timestamp := ReadInt(data, offset, 8), ReadInt(data, offset + 8, 8);
    if sequence.None? || timestamp.None? {
      return None;
    }
    TimestampBound(data, offset + 8);
    offset := offset + 16;
    OneByte(data, offset);
    if offset >= |data| {
      return None;
    }
    var flags: nat := data[offset];
    offset := offset + 1;
    ghost var head := HeadFields(code.value, sender, sequence.value, timestamp.value, flags);
    assert ReadHead(data) == Some((head, offset));
    ghost var afterHead := offset;
    var target: Option<seq<byte>>, gradient: Option<seq<byte>>, indices: Option<seq<byte>> := None, None, None;
    var version, step := 0, 0;
    if Bit(flags, 1) {
      var n := ReadInt(data, offset, 2);
      if n.None? {
        return None;
      }
      offset := offset + 2;
      target := Some(Slice(data, offset, n.value));
      offset := offset + n.value;
    }
    assert ReadTarget(data, afterHead, flags) == Some((target, offset));
    ghost var afterTarget := offset;
    if Bit(flags, 2) {
      var v, s, n := ReadInt(data, offset, 8), ReadInt(data, offset + 8, 8), ReadInt(data, offset + 16, 8);
      if v.None? || s.None? || n.None? {
        return None;
      }
      version, step := v.value, s.value;
      offset := offset + 24;
      gradient := Some(Slice(data, offset, n.value));
      if |gradient.value| % 4 != 0 {
        return None;
      }
      offset := offset + n.value;
      if Bit(flags, 4) {
        var n := ReadInt(data, offset, 8);
        if n.None? {
          return None;
        }
        offset := offset + 8;
        indices := Some(Slice(data, offset, n.value));
        if |indices.value| % 8 != 0 {
          return None;
        }
        offset := offset + n.value;
      }
    }
    assert ReadGradient(data, afterTarget, flags) == Some((GradientFields(version, step, gradient, indices), offset));
    var incarnation, n := ReadInt(data, offset, 4), ReadInt(data, offset + 4, 4);
    if incarnation.None? || n.None? {
      return None;
    }
    offset := offset + 8;
    var payload := if n.value > 0 then Some(Slice(data, offset, n.value)) else None;
    var kind := TypeOf(code.value);
    if kind.None? {
      return None;
    }
    r := Some(GossipMessage(kind.value, sender, sequence.value, timestamp.value, payload, map[],
                            gradient, indices, version, step, target, incarnation.value));
  }

  lemma TimestampBound(data: seq<byte>, offset: nat)
    requires ReadInt(data, offset, 8).Some?
    ensures ReadInt(data, offset, 8).value < U64
  {
    FromBeBound(data[offset..offset + 8]);
    Widths();
  }

  lemma OneByte(data: seq<byte>, offset: nat)
    ensures ReadInt(data, offset, 1) == if offset < |data| then Some(data[offset] as nat) else None
  {
    if offset >= |data| {
      return;
    }
    var s := data[offset..offset + 1];
    assert FromBe(s[..0]) == 0 && FromBe(s) == 256 * FromBe(s[..|s| - 1]) + s[0];
  }

  // ---- Reading what was written ----

  lemma IntAt(c: seq<byte>, pos: nat, x: int, w: nat)
    requires InWidth(x, w) && At(c, pos, Be(x, w))
    ensures ReadInt(c, pos, w) == Some(x)
  {
    BeRoundTrip(x, w);
  }

  lemma SizedAt(c: seq<byte>, pos: nat, s: seq<byte>, w: nat)
    requires InWidth(|s|, w) && At(c, pos, Sized(s, w))
    ensures ReadSized(c, pos, w) == Some((s, pos + |Sized(s, w)|))
  {
    hide Be;
    assert Be(|s|, w) + s + [] == Sized(s, w);
    AtPart(c, pos, Be(|s|, w), s, []);
    IntAt(c, pos, |s|, w);
  }

  lemma FitsNat(m: GossipMessage)
    requires Fits(m)
    ensures m.sequence >= 0 && m.incarnation >= 0 && (m.gradient.Some? ==> m.modelVersion >= 0 && m.step >= 0)
  {
  }

  lemma HeadAt(c: seq<byte>, m: GossipMessage)
    requires Fits(m) && At(c, 0, Head(m))
    ensures ReadHead(c) ==
      Some((HeadFields(m.kind.Code(), m.sender, m.sequence, m.timestamp, Flags(m)), |Head(m)|))
  {
    hide Be, InWidth, Sized, At, ReadInt, ReadSized;
    FitsNat(m);
    var code, sender, times, flags := [m.kind.Code()], Sized(m.sender, 2), Be(m.sequence, 8) + Be(m.timestamp, 8), [Flags(m)];
    assert Head(m) == code + sender + (times + flags);
    AtPart(c, 0, code, sender, times + flags);
    var at := 1 + |sender|;
    assert times + flags == Be(m.sequence, 8) + Be(m.timestamp, 8) + flags;
    AtPart(c, at, Be(m.sequence, 8), Be(m.timestamp, 8), flags);
    ByteAt(c, 0, m.kind.Code());
    SizedAt(c, 1, m.sender, 2);
    IntAt(c, at, m.sequence, 8);
    TimestampFits(m.timestamp);
    IntAt(c, at + 8, m.timestamp, 8);
    ByteAt(c, at + 16, Flags(m));
  }

  lemma TimestampFits(t: word64)
    ensures InWidth(t, 8)
  {
    Widths();
  }

  lemma ByteAt(c: seq<byte>, pos: nat, b: byte)
    requires At(c, pos, [b])
    ensures ReadInt(c, pos, 1) == Some(b as nat)
  {
    assert c[pos] == c[pos..pos + 1][0];
    OneByte(c, pos);
  }

  lemma TargetAt(c: seq<byte>, pos: nat, m: GossipMessage)
    requires Fits(m) && At(c, pos, TargetPart(m))
    ensures ReadTarget(c, pos, Flags(m)) == Some((m.target, pos + |TargetPart(m)|))
  {
    hide InWidth, Sized, At, ReadSized;
    if m.target.Some? {
      SizedAt(c, pos, m.target.value, 2);
    }
  }

  lemma GradientAt(c: seq<byte>, pos: nat, m: GossipMessage)
    requires Fits(m) && At(c, pos, GradientPart(m))
    ensures ReadGradient(c, pos, Flags(m)) ==
      Some((GradientFields(Normal(m).modelVersion, Normal(m).step, m.gradient, Normal(m).indices), pos + |GradientPart(m)|))
  {
    hide Be, InWidth, Sized, At, ReadInt, ReadSized;
    FitsNat(m);
    if m.gradient.Some? {
      var version, step, gradient := Be(m.modelVersion, 8), Be(m.step, 8), Sized(m.gradient.value, 8);
      assert GradientPart(m) == version + step + (gradient + IndicesPart(m));
      AtPart(c, pos, version, step, gradient + IndicesPart(m));
      assert gradient + IndicesPart(m) + [] == gradient + IndicesPart(m);
      AtPart(c, pos + 16, gradient, IndicesPart(m), []);
      IntAt(c, pos, m.modelVersion, 8);
      IntAt(c, pos + 8, m.step, 8);
      SizedAt(c, pos + 16, m.gradient.value, 8);
      if m.indices.Some? {
        SizedAt(c, pos + 16 + |gradient|, m.indices.value, 8);
      }
    }
  }

  /** Data that starts with all of a message but its payload parses to that message's fields. */
  lemma ParseFront(c: seq<byte>, m: GossipMessage)
    requires Fits(m) && Front(m) <= c
    ensures Parse(c) == Some((
      HeadFields(m.kind.Code(), m.sender, m.sequence, m.timestamp, Flags(m)),
      m.target,
      GradientFields(Normal(m).modelVersion, Normal(m).step, m.gradient, Normal(m).indices),
      m.incarnation,
      if Payload(m) == [] then None else Some(Slice(c, |Front(m)|, |Payload(m)|)),
      |Front(m)|))
  {
    hide Be, InWidth, At, ReadInt, ReadHead, ReadTarget, ReadGradient, Slice, Head, TargetPart, GradientPart, Flags;
    FitsNat(m);
    var head, target, gradient := Head(m), TargetPart(m), GradientPart(m);
    var inc, len := Be(m.incarnation, 4), Be(|Payload(m)|, 4);
    WholeAt(c, Front(m));
    assert Front(m) == head + (target + gradient) + (inc + len);
    AtPart(c, 0, head, target + gradient, inc + len);
    assert target + gradient + [] == target + gradient && inc + len + [] == inc + len;
    AtPart(c, |head|, target, gradient, []);
    var at := |head| + |target| + |gradient|;
    AtSame(c, |head| + |target + gradient|, at, inc + len);
    AtPart(c, at, inc, len, []);
    HeadAt(c, m);
    TargetAt(c, |head|, m);
    GradientAt(c, |head| + |target|, m);
    IntAt(c, at, m.incarnation, 4);
    IntAt(c, at + 4, |Payload(m)|, 4);
  }

  lemma TypeOfCode(kind: MessageType)
    ensures TypeOf(kind.Code()) == Some(kind)
  {
  }

  /** unpack(pack(m) + rest) is m in normal form, whatever follows, exactly when np.frombuffer
      can read the arrays back. */
  lemma RoundTrip(m: GossipMessage, rest: seq<byte>)
    requires Fits(m)
    ensures Unpacked(Packed(m) + rest) ==
      if (m.gradient.Some? ==> |m.gradient.value| % 4 == 0)
         && (m.gradient.Some? && m.indices.Some? ==> |m.indices.value| % 8 == 0)
      then Some(Normal(m)) else None
  {
    hide Parse, Front, TypeOf;
    var c := Packed(m) + rest;
    assert Front(m) <= c;
    ParseFront(c, m);
    TypeOfCode(m.kind);
    assert c[|Front(m)|..|Front(m)| + |Payload(m)|] == Payload(m);
  }

  /** The bytes written depend on the normal form only. */
  lemma PackedNormal(m: GossipMessage)
    requires Fits(m)
    ensures Fits(Normal(m)) && Packed(Normal(m)) == Packed(m)
  {
    hide Be;
  }

  /** The format is self-delimiting, so pack is injective on normal forms and no packed message
      is a proper prefix of another. */
  lemma SelfDelimiting(a: GossipMessage, restA: seq<byte>, b: GossipMessage, restB: seq<byte>)
    requires Fits(a) && Fits(b) && Packed(a) + restA == Packed(b) + restB
    ensures Normal(a) == Normal(b) && Packed(a) == Packed(b) && restA == restB
  {
    hide Parse, Front, TypeOf;
    var c := Packed(a) + restA;
    assert Front(a) <= c && Front(b) <= c;
    ParseFront(c, a);
    ParseFront(c, b);
    TypeOfCode(a.kind);
    TypeOfCode(b.kind);
    var at := |Front(a)|;
    assert c[at..at + |Payload(a)|] == Payload(a);
    assert at == |Front(b)| && c[at..at + |Payload(b)|] == Payload(b);
    PackedNormal(a);
    PackedNormal(b);
    assert restA == c[|Packed(a)|..] && restB == c[|Packed(b)|..];
  }

  // ---- Cut messages ----

  lemma IntGrows(c: seq<byte>, k: nat, pos: nat, w: nat)
    requires k <= |c| && ReadInt(c[..k], pos, w).Some?
    ensures pos + w <= k && ReadInt(c, pos, w) == ReadInt(c[..k], pos, w)
  {
    assert c[..k][pos..pos + w] == c[pos..pos + w];
  }

  lemma SizedGrows(c: seq<byte>, k: nat, pos: nat, w: nat)
    requires k <= |c| && ReadSized(c[..k], pos, w).Some?
    ensures ReadSized(c, pos, w).Some? && ReadSized(c, pos, w).value.1 == ReadSized(c[..k], pos, w).value.1
  {
    hide ReadInt, Slice;
    IntGrows(c, k, pos, w);
  }

  /** If the start of some data parses, the data parses with its payload at the same place. */
  lemma ParseGrows(c: seq<byte>, k: nat)
    requires k <= |c| && Parse(c[..k]).Some?
    ensures Parse(c).Some? && Parse(c).value.5 == Parse(c[..k]).value.5 <= k
  {
    hide ReadInt, ReadSized, Slice, Bit;
    var d := c[..k];
    IntGrows(c, k, 0, 1);
    SizedGrows(c, k, 1, 2);
    var at := ReadSized(d, 1, 2).value.1;
    IntGrows(c, k, at, 8);
    IntGrows(c, k, at + 8, 8);
    IntGrows(c, k, at + 16, 1);
    var flags := ReadInt(d, at + 16, 1).value;
    at := at + 17;
    if Bit(flags, 1) {
      SizedGrows(c, k, at, 2);
      at := ReadSized(d, at, 2).value.1;
    }
    if Bit(flags, 2) {
      IntGrows(c, k, at, 8);
      IntGrows(c, k, at + 8, 8);
      SizedGrows(c, k, at + 16, 8);
      at := ReadSized(d, at + 16, 8).value.1;
      if Bit(flags, 4) {
        SizedGrows(c, k, at, 8);
        at := ReadSized(d, at, 8).value.1;
      }
    }
    IntGrows(c, k, at, 4);
    IntGrows(c, k, at + 4, 4);
  }

  /** A packed message cut short is refused exactly when the cut falls before the payload; a cut
      inside the payload goes unnoticed. */
  lemma CutMessage(m: GossipMessage, k: nat)
    requires Fits(m) && Aligned(m.gradient, m.indices) && k <= |Packed(m)|
    ensures Unpacked(Packed(m)[..k]) ==
      if k < |Front(m)| then None
      else if Payload(m) == [] then Some(Normal(m))
      else Some(Normal(m).(payload := Some(Payload(m)[..k - |Front(m)|])))
  {
    hide Parse, Front, TypeOf;
    var c := Packed(m);
    ParseFront(c, m);
    TypeOfCode(m.kind);
    if k < |Front(m)| {
      if Parse(c[..k]).Some? {
        ParseGrows(c, k);
      }
    } else {
      assert Front(m) <= c[..k];
      ParseFront(c[..k], m);
      assert Slice(c[..k], |Front(m)|, |Payload(m)|) == Payload(m)[..k - |Front(m)|];
    }
  }
}
