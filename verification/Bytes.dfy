/** Fixed-width integers as bytes: little-endian for memcpy of C++ fields, big-endian for
    struct.pack('>...'). */
module Bytes {

  type byte = b: int | 0 <= b < 256

  function Pow256(w: nat): (p: nat)
    ensures p >= 1
  {
    if w == 0 then 1 else 256 * Pow256(w - 1)
  }

  function Le(x: nat, w: nat): (s: seq<byte>)
    ensures |s| == w
  {
    if w == 0 then [] else [x % 256] + Le(x / 256, w - 1)
  }

  function FromLe(s: seq<byte>): nat {
    if s == [] then 0 else s[0] + 256 * FromLe(s[1..])
  }

  function Be(x: nat, w: nat): (s: seq<byte>)
    ensures |s| == w
  {
    if w == 0 then [] else Be(x / 256, w - 1) + [x % 256]
  }

  function FromBe(s: seq<byte>): nat {
    if s == [] then 0 else 256 * FromBe(s[..|s| - 1]) + s[|s| - 1]
  }

  lemma {:induction false} LeRoundTrip(x: nat, w: nat)
    requires x < Pow256(w)
    ensures FromLe(Le(x, w)) == x
  {
    if w > 0 {
      LeRoundTrip(x / 256, w - 1);
      assert Le(x, w)[1..] == Le(x / 256, w - 1);
    }
  }

  lemma {:induction false} BeRoundTrip(x: nat, w: nat)
    requires x < Pow256(w)
    ensures FromBe(Be(x, w)) == x
  {
    if w > 0 {
      BeRoundTrip(x / 256, w - 1);
      assert Be(x, w)[..w - 1] == Be(x / 256, w - 1);
    }
  }

  /** The byte at position i of a little-endian field has weight 256^i. */
  lemma {:induction false} LeDigit(x: nat, w: nat, i: nat)
    requires i < w
    ensures Le(x, w)[i] == x / Pow256(i) % 256
  {
    if i > 0 {
      LeDigit(x / 256, w - 1, i - 1);
      DivTwice(x, Pow256(i - 1));
    }
  }

  /** The byte at position i of a big-endian field has weight 256^(w - 1 - i). */
  lemma {:induction false} BeDigit(x: nat, w: nat, i: nat)
    requires i < w
    ensures Be(x, w)[i] == x / Pow256(w - 1 - i) % 256
  {
    if i < w - 1 {
      BeDigit(x / 256, w - 1, i);
      DivTwice(x, Pow256(w - 2 - i));
    }
  }

  lemma DivTwice(x: nat, p: nat)
    requires p >= 1
    ensures x / 256 / p == x / (256 * p)
  {
    var q := x / (256 * p);
    var r := x % (256 * p);
    assert x == 256 * p * q + r;
    var s := x / 256;
    assert x == 256 * s + x % 256;
    var pq := p * q;
    assert x == 256 * pq + r && r < 256 * p;
    DivUnique(s, p, q, s - p * q);
  }

  /** The powers in use. */
  lemma Weights()
    ensures Pow256(0) == 1 && Pow256(1) == 0x100 && Pow256(2) == 0x1_0000 && Pow256(4) == 0x1_0000_0000
    ensures Pow256(8) == 0x1_0000_0000_0000_0000
    ensures forall w: nat :: Pow256(w + 1) == 256 * Pow256(w)
  {
    Widths();
  }

  lemma {:induction false} FromLeBound(s: seq<byte>)
    ensures FromLe(s) < Pow256(|s|)
  {
    if s != [] {
      FromLeBound(s[1..]);
    }
  }

  lemma {:induction false} FromBeBound(s: seq<byte>)
    ensures FromBe(s) < Pow256(|s|)
  {
    if s != [] {
      FromBeBound(s[..|s| - 1]);
    }
  }

  const U8: nat := 0x100
  const U16: nat := 0x1_0000
  const U32: nat := 0x1_0000_0000
  const U64: nat := 0x1_0000_0000_0000_0000

  lemma Widths()
    ensures Pow256(1) == U8 && Pow256(2) == U16 && Pow256(4) == U32 && Pow256(8) == U64
  {
    assert Pow256(3) == 256 * Pow256(2);
    assert Pow256(4) == 256 * Pow256(3);
    assert Pow256(5) == 256 * Pow256(4);
    assert Pow256(6) == 256 * Pow256(5);
    assert Pow256(7) == 256 * Pow256(6);
  }

  lemma Le64(x: nat)
    requires x < U64
    ensures FromLe(Le(x, 8)) == x
  {
    Widths();
    LeRoundTrip(x, 8);
  }

  lemma Le32(x: nat)
    requires x < U32
    ensures FromLe(Le(x, 4)) == x
  {
    Widths();
    LeRoundTrip(x, 4);
  }

  /** A field too narrow keeps the value modulo its width. */
  lemma {:induction false} FromLeWraps(x: nat, w: nat)
    ensures FromLe(Le(x, w)) == x % Pow256(w)
  {
    if w > 0 {
      var p := Pow256(w - 1);
      FromLeWraps(x / 256, w - 1);
      assert Le(x, w)[1..] == Le(x / 256, w - 1);
      ModSplit(x, p);
    }
  }

  lemma ModSplit(x: nat, p: nat)
    requires p >= 1
    ensures x % (256 * p) == x % 256 + 256 * (x / 256 % p)
  {
    var q, m := x / 256, x % 256;
    assert q == p * (q / p) + q % p;
    var y := m + 256 * (q % p);
    assert x == 256 * p * (q / p) + y;
    assert 0 <= y < 256 * p;
    DivUnique(x, 256 * p, q / p, y);
  }

  lemma DivUnique(x: nat, d: nat, q: nat, y: nat)
    requires d > 0 && x == d * q + y && y < d
    ensures x / d == q && x % d == y
  {
    SmallMultiple(d, x / d - q);
  }

  lemma SmallMultiple(d: int, k: int)
    requires -d < d * k < d
    ensures k == 0
  {
  }

  lemma SliceOfSlice<T>(c: seq<T>, pos: nat, end: nat, a: nat, b: nat)
    requires pos <= end <= |c| && a <= b <= end - pos
    ensures c[pos..end][a..b] == c[pos + a..pos + b]
  {
    var s, t := c[pos..end][a..b], c[pos + a..pos + b];
    forall i | 0 <= i < b - a
      ensures s[i] == t[i]
    {
    }
  }

  /** The bytes of `part` stand at position `pos` of `c`. */
  ghost predicate At(c: seq<byte>, pos: nat, part: seq<byte>) {
    pos + |part| <= |c| && c[pos..pos + |part|] == part
  }

  lemma WholeAt(c: seq<byte>, part: seq<byte>)
    requires part <= c
    ensures At(c, 0, part)
  {
  }

  lemma AtFits(c: seq<byte>, pos: nat, part: seq<byte>)
    requires At(c, pos, part)
    ensures pos + |part| <= |c|
  {
  }

  lemma AtPart(c: seq<byte>, pos: nat, a: seq<byte>, b: seq<byte>, d: seq<byte>)
    requires At(c, pos, a + b + d)
    ensures At(c, pos, a) && At(c, pos + |a|, b) && At(c, pos + |a| + |b|, d)
  {
    var s := a + b + d;
    assert s[0..|a|] == a && s[|a|..|a| + |b|] == b && s[|a| + |b|..|s|] == d;
    SliceOfSlice(c, pos, pos + |s|, 0, |a|);
    SliceOfSlice(c, pos, pos + |s|, |a|, |a| + |b|);
    SliceOfSlice(c, pos, pos + |s|, |a| + |b|, |s|);
  }

  lemma AtSame(c: seq<byte>, p: nat, q: nat, part: seq<byte>)
    requires p == q && At(c, p, part)
    ensures At(c, q, part)
  {
  }
}
