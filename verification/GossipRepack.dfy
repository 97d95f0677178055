/** The way back: which byte strings unpack accepts are the work of pack
    (python/gossip_rl/gossip/message.py). */
module GossipRepack {
  import opened Wrappers
  import opened Bytes
  import opened GossipWire

  lemma {:induction false} BeInverse(s: seq<byte>)
    ensures Be(FromBe(s), |s|) == s
  {
    if s != [] {
      BeInverse(s[..|s| - 1]);
    }
  }

  lemma IntBack(c: seq<byte>, pos: nat, w: nat)
    requires ReadInt(c, pos, w).Some?
    ensures var x := ReadInt(c, pos, w).value; InWidth(x, w) && At(c, pos, Be(x, w)) && pos + w <= |c|
  {
    var s := c[pos..pos + w];
    BeInverse(s);
    FromBeBound(s);
  }

  /** Also a field cut short fits its width. */
  lemma SizedWidth(c: seq<byte>, pos: nat, w: nat)
    requires ReadSized(c, pos, w).Some?
    ensures InWidth(|ReadSized(c, pos, w).value.0|, w) && pos + w <= |c|
  {
    IntBack(c, pos, w);
  }

  lemma SizedBack(c: seq<byte>, pos: nat, w: nat)
    requires ReadSized(c, pos, w).Some? && ReadSized(c, pos, w).value.1 <= |c|
    ensures var (s, next) := ReadSized(c, pos, w).value;
      InWidth(|s|, w) && At(c, pos, Sized(s, w)) && next == pos + |Sized(s, w)|
  {
    hide Be, FromBe;
    IntBack(c, pos, w);
    var (s, next) := ReadSized(c, pos, w).value;
    assert At(c, pos + w, s);
    Join(c, pos, Be(|s|, w), s);
  }

  lemma Join(c: seq<byte>, pos: nat, a: seq<byte>, b: seq<byte>)
    requires At(c, pos, a) && At(c, pos + |a|, b)
    ensures At(c, pos, a + b)
  {
    var s := c[pos..pos + |a + b|];
    assert s == c[pos..pos + |a|] + c[pos + |a|..pos + |a| + |b|];
  }

  lemma ByteBack(c: seq<byte>, pos: nat, b: byte)
    requires ReadInt(c, pos, 1) == Some(b as nat)
    ensures At(c, pos, [b])
  {
    OneByte(c, pos);
    assert c[pos..pos + 1] == [c[pos]];
  }

  lemma HeadBack(c: seq<byte>, m: GossipMessage)
    requires ReadHead(c).Some? && ReadSized(c, 1, 2).value.1 <= |c|
    requires var h := ReadHead(c).value.0;
      m.kind.Code() == h.code && m.sender == h.sender && m.sequence == h.sequence && m.timestamp == h.timestamp
    requires Fits(m) && Flags(m) == ReadHead(c).value.0.flags
    ensures At(c, 0, Head(m)) && ReadHead(c).value.1 == |Head(m)|
  {
    hide Be, FromBe, InWidth, At, ReadInt, ReadSized, Sized;
    var at := ReadSized(c, 1, 2).value.1;
    ByteBack(c, 0, m.kind.Code());
    SizedBack(c, 1, 2);
    IntBack(c, at, 8);
    IntBack(c, at + 8, 8);
    ByteBack(c, at + 16, Flags(m));
    var code, sender, times := [m.kind.Code()], Sized(m.sender, 2), Be(m.sequence, 8) + Be(m.timestamp, 8);
    Join(c, at, Be(m.sequence, 8), Be(m.timestamp, 8));
    Join(c, 0, code, sender);
    Join(c, 0, code + sender, times);
    Join(c, 0, code + sender + times, [Flags(m)]);
  }

  lemma TargetBack(c: seq<byte>, pos: nat, m: GossipMessage)
    requires ReadTarget(c, pos, Flags(m)).Some? && ReadTarget(c, pos, Flags(m)).value.1 <= |c|
    requires ReadTarget(c, pos, Flags(m)).value.0 == m.target
    requires pos <= |c|
    ensures At(c, pos, TargetPart(m)) && ReadTarget(c, pos, Flags(m)).value.1 == pos + |TargetPart(m)|
  {
    hide ReadSized, Sized;
    if m.target.Some? {
      SizedBack(c, pos, 2);
    }
  }

  /** The gradient fields of a message just unpacked. */
  ghost predicate HasFields(m: GossipMessage, f: GradientFields) {
    m.modelVersion == f.modelVersion && m.step == f.step && m.gradient == f.gradient && m.indices == f.indices
  }

  lemma GradientBack(c: seq<byte>, pos: nat, m: GossipMessage)
    requires Fits(m) && pos <= |c|
    requires var r := ReadGradient(c, pos, Flags(m)); r.Some? && r.value.1 <= |c| && HasFields(m, r.value.0)
    ensures At(c, pos, GradientPart(m))
    ensures ReadGradient(c, pos, Flags(m)).value.1 == pos + |GradientPart(m)|
  {
    hide Be, FromBe, InWidth, At, ReadInt, ReadSized, Sized;
    FitsNat(m);
    if m.gradient.Some? {
      var version, step, gradient := Be(m.modelVersion, 8), Be(m.step, 8), Sized(m.gradient.value, 8);
      IntBack(c, pos, 8);
      IntBack(c, pos + 8, 8);
      if m.indices.Some? {
        SizedWidth(c, ReadSized(c, pos + 16, 8).value.1, 8);
      }
      SizedBack(c, pos + 16, 8);
      Join(c, pos, version, step);
      Join(c, pos, version + step, gradient);
      var at := pos + 16 + |gradient|;
      if m.indices.Some? {
        SizedBack(c, at, 8);
      } else {
        NothingAt(c, at);
      }
      Join(c, pos, version + step + gradient, IndicesPart(m));
    } else {
      NothingAt(c, pos);
    }
  }

  lemma NothingAt(c: seq<byte>, pos: nat)
    requires pos <= |c|
    ensures At(c, pos, [])
  {
  }

  /** The fields of data that parses, where each ends, and that all lie within it. */
  lemma Extents(c: seq<byte>)
    returns (h: HeadFields, at0: nat, target: Option<seq<byte>>, at1: nat, f: GradientFields, at2: nat, inc: nat, n: nat)
    requires Parse(c).Some?
    ensures ReadHead(c) == Some((h, at0)) && at0 <= |c|
    ensures ReadSized(c, 1, 2).Some? && ReadSized(c, 1, 2).value.1 <= |c|
    ensures ReadTarget(c, at0, h.flags) == Some((target, at1)) && at1 <= |c|
    ensures ReadGradient(c, at1, h.flags) == Some((f, at2)) && at2 + 8 <= |c|
    ensures ReadInt(c, at2, 4) == Some(inc) && ReadInt(c, at2 + 4, 4) == Some(n)
    ensures Parse(c) == Some((h, target, f, inc, if n > 0 then Some(Slice(c, at2 + 8, n)) else None, at2 + 8))
  {
    hide FromBe, Slice;
    h, at0 := ReadHead(c).value.0, ReadHead(c).value.1;
    target, at1 := ReadTarget(c, at0, h.flags).value.0, ReadTarget(c, at0, h.flags).value.1;
    f, at2 := ReadGradient(c, at1, h.flags).value.0, ReadGradient(c, at1, h.flags).value.1;
    inc, n := ReadInt(c, at2, 4).value, ReadInt(c, at2 + 4, 4).value;
  }

  lemma TypeBack(code: nat)
    requires TypeOf(code).Some?
    ensures TypeOf(code).value.Code() as nat == code
  {
  }

  lemma LengthBeforePayload(c: seq<byte>)
    requires Parse(c).Some?
    ensures Parse(c).value.5 >= 4 && ReadInt(c, Parse(c).value.5 - 4, 4).Some?
  {
    var h, at0, target, at1, f, at2, inc, n := Extents(c);
  }

  /** The payload length the data announces. */
  function Announced(c: seq<byte>): nat
    requires Parse(c).Some?
  {
    LengthBeforePayload(c);
    ReadInt(c, Parse(c).value.5 - 4, 4).value
  }

  /** Every message unpack returns can be packed. */
  lemma UnpackedFits(c: seq<byte>)
    requires Unpacked(c).Some?
    ensures Fits(Unpacked(c).value)
  {
    var h, at0, target, at1, f, at2, inc, n := Extents(c);
    hide FromBe, Slice, InWidth, ReadInt, ReadTarget, ReadGradient, Parse, Announced;
    SizedWidth(c, 1, 2);
    IntBack(c, ReadSized(c, 1, 2).value.1, 8);
    TargetWidth(c, at0, h.flags);
    GradientWidth(c, at1, h.flags);
    PayloadWidth(c);
  }

  lemma TargetWidth(c: seq<byte>, at: nat, flags: nat)
    requires ReadTarget(c, at, flags).Some?
    ensures var t := ReadTarget(c, at, flags).value.0; t.Some? ==> InWidth(|t.value|, 2)
  {
    hide ReadSized, InWidth;
    if Bit(flags, 1) {
      SizedWidth(c, at, 2);
    }
  }

  lemma GradientWidth(c: seq<byte>, at: nat, flags: nat)
    requires ReadGradient(c, at, flags).Some?
    ensures var f := ReadGradient(c, at, flags).value.0;
      f.gradient.Some? ==>
        && InWidth(f.modelVersion, 8) && InWidth(f.step, 8) && InWidth(|f.gradient.value|, 8)
        && (f.indices.Some? ==> InWidth(|f.indices.value|, 8))
  {
    hide ReadSized, InWidth, ReadInt;
    if Bit(flags, 2) {
      IntBack(c, at, 8);
      IntBack(c, at + 8, 8);
      SizedWidth(c, at + 16, 8);
      if Bit(flags, 4) {
        SizedWidth(c, ReadSized(c, at + 16, 8).value.1, 8);
      }
    }
  }

  lemma PayloadWidth(c: seq<byte>)
    requires Parse(c).Some?
    ensures InWidth(Parse(c).value.3, 4)
    ensures var p := Parse(c).value.4; InWidth(if p.None? then 0 else |p.value|, 4)
  {
    var h, at0, target, at1, f, at2, inc, n := Extents(c);
    hide FromBe, Parse;
    IntBack(c, at2, 4);
    IntBack(c, at2 + 4, 4);
  }

  /** Data unpack accepts starts with what pack makes of the message exactly when its flags are the ones
      pack writes for it and the announced payload is all there. */
  lemma RepackExactly(c: seq<byte>)
    requires Unpacked(c).Some?
    ensures var m := Unpacked(c).value;
      && Fits(m)
      && (Packed(m) <= c <==> Parse(c).value.0.flags == Flags(m) && |Payload(m)| == Announced(c))
  {
    UnpackedFits(c);
    var m := Unpacked(c).value;
    hide Parse, Front, Flags;
    if Parse(c).value.0.flags == Flags(m) && |Payload(m)| == Announced(c) {
      FrontBack(c, m);
      PayloadBack(c, m);
    } else if Packed(m) <= c {
      assert Front(m) <= c;
      ParseFront(c, m);
      AnnouncedFront(c, m);
    }
  }

  lemma AnnouncedFront(c: seq<byte>, m: GossipMessage)
    requires Fits(m) && Front(m) <= c && Parse(c).Some? && Parse(c).value.5 == |Front(m)|
    ensures Announced(c) == |Payload(m)|
  {
    LengthBeforePayload(c);
    LengthEndsFront(m);
    hide Be, InWidth, Parse, Front, ReadInt;
    var at, len := |Front(m)| - 4, Be(|Payload(m)|, 4);
    WholeAt(c, Front(m));
    AtPart(c, 0, Front(m)[..at], len, []);
    IntAt(c, at, |Payload(m)|, 4);
  }

  lemma LengthEndsFront(m: GossipMessage)
    requires Fits(m)
    ensures |Front(m)| >= 4 && Front(m) == Front(m)[..|Front(m)| - 4] + Be(|Payload(m)|, 4) + []
  {
    hide Be, Head, TargetPart, GradientPart;
    FitsNat(m);
    var len := Be(|Payload(m)|, 4);
    var rest := Head(m) + (TargetPart(m) + GradientPart(m) + Be(m.incarnation, 4));
    assert Front(m) == rest + len;
  }

  lemma FrontBack(c: seq<byte>, m: GossipMessage)
    requires Unpacked(c) == Some(m) && Fits(m)
    requires Parse(c).value.0.flags == Flags(m) && |Payload(m)| == Announced(c)
    ensures Front(m) <= c && Parse(c).value.5 == |Front(m)|
  {
    var h, at0, target, at1, f, at2, inc, n := Extents(c);
    assert Announced(c) == n;
    TypeBack(h.code);
    hide Announced, Flags, ReadTarget, ReadGradient, ReadInt, InWidth, FromBe, Slice, ReadHead, ReadSized, Front, Fits;
    FrontFrom(c, m, h, at0, at1, f, at2);
  }

  lemma FrontFrom(c: seq<byte>, m: GossipMessage, h: HeadFields, at0: nat, at1: nat, f: GradientFields, at2: nat)
    requires Fits(m) && at0 <= |c| && at1 <= |c| && at2 + 8 <= |c|
    requires ReadSized(c, 1, 2).Some? && ReadSized(c, 1, 2).value.1 <= |c|
    requires ReadHead(c) == Some((h, at0)) && h.flags == Flags(m)
    requires m.kind.Code() == h.code && m.sender == h.sender && m.sequence == h.sequence && m.timestamp == h.timestamp
    requires ReadTarget(c, at0, Flags(m)) == Some((m.target, at1))
    requires ReadGradient(c, at1, Flags(m)) == Some((f, at2)) && HasFields(m, f)
    requires ReadInt(c, at2, 4) == Some(m.incarnation) && ReadInt(c, at2 + 4, 4) == Some(|Payload(m)|)
    ensures Front(m) <= c && |Front(m)| == at2 + 8
  {
    hide Flags, ReadTarget, ReadGradient, ReadInt, InWidth, Be, FromBe, At, ReadHead, ReadSized, Front;
    HeadBack(c, m);
    TargetBack(c, at0, m);
    GradientBack(c, at1, m);
    IntBack(c, at2, 4);
    IntBack(c, at2 + 4, 4);
    Assemble(c, m, at2);
  }

  lemma Assemble(c: seq<byte>, m: GossipMessage, at: nat)
    requires Fits(m) && m.incarnation >= 0
    requires At(c, 0, Head(m)) && At(c, |Head(m)|, TargetPart(m))
    requires At(c, |Head(m)| + |TargetPart(m)|, GradientPart(m))
    requires at == |Head(m)| + |TargetPart(m)| + |GradientPart(m)|
    requires At(c, at, Be(m.incarnation, 4)) && At(c, at + 4, Be(|Payload(m)|, 4))
    ensures Front(m) <= c && |Front(m)| == at + 8
  {
    hide Be, InWidth, At, Head, TargetPart, GradientPart;
    var head, target, gradient := Head(m), TargetPart(m), GradientPart(m);
    var inc, len := Be(m.incarnation, 4), Be(|Payload(m)|, 4);
    Join(c, |head|, target, gradient);
    Join(c, at, inc, len);
    AtSame(c, at, |head| + |target + gradient|, inc + len);
    Join(c, |head|, target + gradient, inc + len);
    Join(c, 0, head, target + gradient + (inc + len));
    StartsWith(c, Front(m));
  }

  lemma StartsWith(c: seq<byte>, part: seq<byte>)
    requires At(c, 0, part)
    ensures part <= c
  {
  }

  lemma PayloadBack(c: seq<byte>, m: GossipMessage)
    requires Unpacked(c) == Some(m) && Fits(m) && Front(m) <= c && Parse(c).value.5 == |Front(m)|
    requires |Payload(m)| == Announced(c)
    ensures Packed(m) <= c
  {
    hide Parse, Front, Announced;
    PayloadIs(c);
    var at := |Front(m)|;
    if Payload(m) == [] {
      assert Packed(m) == Front(m);
    } else {
      assert Front(m) + c[at..at + |Payload(m)|] <= c;
    }
  }

  lemma PayloadIs(c: seq<byte>)
    requires Parse(c).Some?
    ensures var p, at, n := Parse(c).value.4, Parse(c).value.5, Announced(c);
      && (p.None? <==> n == 0)
      && (p.Some? && |p.value| == n ==> at + n <= |c| && p.value == c[at..at + n])
  {
    var h, at0, target, at1, f, at2, inc, n := Extents(c);
    hide Parse, ReadHead, ReadTarget, ReadGradient, FromBe;
  }
}
