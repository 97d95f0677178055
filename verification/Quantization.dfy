/** QuantizationCompressor of python/gossip_rl/gossip/compression.py, over reals. */
module Quantization {
  import opened Wrappers
  import opened Vectors

  /** numpy's round: to the nearest integer, ties to even. */
  function RoundHalfEven(x: real): (r: int)
    ensures x - 0.5 <= r as real <= x + 0.5
    ensures (r as real == x - 0.5 || r as real == x + 0.5) ==> r % 2 == 0
  {
    var f := x.Floor;
    var frac := x - f as real;
    if frac < 0.5 then f
    else if frac > 0.5 then f + 1
    else if f % 2 == 0 then f
    else f + 1
  }

  lemma RoundMonotone(x: real, y: real)
    requires x <= y
    ensures RoundHalfEven(x) <= RoundHalfEven(y)
  {
    assert x.Floor <= y.Floor;
  }

  lemma RoundInteger(n: int)
    ensures RoundHalfEven(n as real) == n
  {
  }

  function Pow2(bits: nat): (p: nat)
    ensures p >= 1 && (bits >= 1 ==> p >= 2)
  {
    if bits == 0 then 1 else 2 * Pow2(bits - 1)
  }

  /** The numbers of levels. */
  lemma LevelCounts()
    ensures Pow2(0) == 1 && forall b: nat :: Pow2(b + 1) == 2 * Pow2(b)
    ensures Pow2(1) == 2 && Pow2(2) == 4 && Pow2(3) == 8 && Pow2(4) == 16
    ensures Pow2(5) == 32 && Pow2(6) == 64 && Pow2(7) == 128 && Pow2(8) == 256
  {
    assert Pow2(1) == 2 * Pow2(0) && Pow2(2) == 2 * Pow2(1) && Pow2(3) == 2 * Pow2(2) && Pow2(4) == 2 * Pow2(3);
    assert Pow2(5) == 2 * Pow2(4) && Pow2(6) == 2 * Pow2(5) && Pow2(7) == 2 * Pow2(6) && Pow2(8) == 2 * Pow2(7);
  }

  lemma LevelRange(bits: nat)
    requires 1 <= bits <= 8
    ensures 2 <= Pow2(bits) <= 256
  {
    assert forall b :: 2 <= b <= 8 ==> Pow2(b) == 2 * Pow2(b - 1);
    assert Pow2(1) == 2 && Pow2(2) == 4 && Pow2(3) == 8 && Pow2(4) == 16 && Pow2(5) == 32;
  }

  function Lowest(v: Vec): (m: real)
    requires v != []
    ensures m in v
    ensures forall i :: 0 <= i < |v| ==> m <= v[i]
  {
    if |v| == 1 then v[0]
    else
      var rest := Lowest(v[1..]);
      assert forall i :: 1 <= i < |v| ==> v[i] == v[1..][i - 1];
      if v[0] < rest then v[0] else rest
  }

  function Highest(v: Vec): (m: real)
    requires v != []
    ensures m in v
    ensures forall i :: 0 <= i < |v| ==> m >= v[i]
  {
    if |v| == 1 then v[0]
    else
      var rest := Highest(v[1..]);
      assert forall i :: 1 <= i < |v| ==> v[i] == v[1..][i - 1];
      if v[0] > rest then v[0] else rest
  }

  datatype Quantized = Quantized(codes: seq<int>, lo: real, hi: real)
  datatype QuantizeError = EmptyArray

  function Normalize(x: real, lo: real, hi: real): real {
    if hi - lo > 0.0 then (x - lo) / (hi - lo) else 0.0
  }

  function Scaled(x: real, lo: real, hi: real, levels: nat): real {
    Normalize(x, lo, hi) * (levels - 1) as real
  }

  /** One code, with astype(uint8)'s reduction modulo 256. */
  function Code(x: real, lo: real, hi: real, levels: nat): int {
    RoundHalfEven(Scaled(x, lo, hi, levels)) % 256
  }

  function Decode(code: int, lo: real, hi: real, levels: nat): real
    requires levels > 1
  {
    code as real / (levels - 1) as real * (hi - lo) + lo
  }

  /** min() of an empty array raises. */
  function Compress(g: Vec, bits: nat): Result<Quantized, QuantizeError> {
    if g == [] then Failure(EmptyArray)
    else
      var lo, hi := Lowest(g), Highest(g);
      Success(Quantized(seq(|g|, i requires 0 <= i < |g| => Code(g[i], lo, hi, Pow2(bits))), lo, hi))
  }

  function Decompress(q: Quantized, bits: nat): (g: Vec)
    requires bits >= 1
    ensures |g| == |q.codes|
  {
    seq(|q.codes|, i requires 0 <= i < |q.codes| => Decode(q.codes[i], q.lo, q.hi, Pow2(bits)))
  }

  // ---- One value ----

  lemma NormalizeRange(x: real, lo: real, hi: real)
    requires lo <= x <= hi
    ensures 0.0 <= Normalize(x, lo, hi) <= 1.0
    ensures Normalize(x, lo, hi) * (hi - lo) == x - lo
  {
    if hi > lo {
      var w, t := hi - lo, (x - lo) / (hi - lo);
      assert t * w == x - lo;
      QuotientRange(x - lo, w, t);
    }
  }

  lemma QuotientIs(a: real, w: real, q: real)
    requires w > 0.0 && a == q * w
    ensures a / w == q
  {
    var t := a / w;
    assert t * w == a;
    if t < q {
      ProductPositive(q - t, w, 0.0);
    } else if t > q {
      ProductPositive(t - q, w, 0.0);
    }
  }

  lemma QuotientRange(a: real, w: real, t: real)
    requires w > 0.0 && t * w == a && 0.0 <= a <= w
    ensures 0.0 <= t <= 1.0
  {
    if t < 0.0 {
      ProductPositive(0.0 - t, w, 0.0 - a);
    } else if t > 1.0 {
      ProductPositive(t - 1.0, w, a - w);
    }
  }

  lemma ProductRange(t: real, n: real, p: real)
    requires 0.0 <= t <= 1.0 && n >= 0.0 && p == t * n
    ensures 0.0 <= p <= n
  {
  }

  lemma ScaledRange(x: real, lo: real, hi: real, levels: nat)
    requires lo <= x <= hi && 2 <= levels
    ensures 0.0 <= Scaled(x, lo, hi, levels) <= (levels - 1) as real
  {
    hide Normalize;
    NormalizeRange(x, lo, hi);
    ProductRange(Normalize(x, lo, hi), (levels - 1) as real, Scaled(x, lo, hi, levels));
  }

  /** Codes are in [0, levels − 1], so the reduction to uint8 changes nothing. */
  lemma CodeBasics(x: real, lo: real, hi: real, levels: nat)
    requires lo <= x <= hi && 2 <= levels <= 256
    ensures 0 <= Code(x, lo, hi, levels) <= levels - 1
    ensures Code(x, lo, hi, levels) == RoundHalfEven(Scaled(x, lo, hi, levels))
  {
    hide Scaled, RoundHalfEven;
    var s, n := Scaled(x, lo, hi, levels), (levels - 1) as real;
    ScaledRange(x, lo, hi, levels);
    RoundMonotone(0.0, s);
    RoundMonotone(s, n);
    RoundInteger(0);
    RoundInteger(levels - 1);
  }

  lemma CodeMonotone(x: real, y: real, lo: real, hi: real, levels: nat)
    requires lo <= x <= y <= hi && 2 <= levels <= 256
    ensures Code(x, lo, hi, levels) <= Code(y, lo, hi, levels)
  {
    hide Scaled, RoundHalfEven, Code;
    CodeBasics(x, lo, hi, levels);
    CodeBasics(y, lo, hi, levels);
    ScaledMonotone(x, y, lo, hi, levels);
    RoundMonotone(Scaled(x, lo, hi, levels), Scaled(y, lo, hi, levels));
  }

  lemma ScaledMonotone(x: real, y: real, lo: real, hi: real, levels: nat)
    requires lo <= x <= y <= hi && 2 <= levels
    ensures Scaled(x, lo, hi, levels) <= Scaled(y, lo, hi, levels)
  {
    hide Normalize;
    NormalizeMonotone(x, y, lo, hi);
    ScaleMonotone(Normalize(x, lo, hi), Normalize(y, lo, hi), (levels - 1) as real);
  }

  lemma NormalizeMonotone(x: real, y: real, lo: real, hi: real)
    requires lo <= x <= y <= hi
    ensures Normalize(x, lo, hi) <= Normalize(y, lo, hi)
  {
    if hi > lo {
      var w, s, t := hi - lo, Normalize(x, lo, hi), Normalize(y, lo, hi);
      NormalizeRange(x, lo, hi);
      NormalizeRange(y, lo, hi);
      if s > t {
        ProductPositive(s - t, w, x - y);
      }
    }
  }

  lemma ScaleMonotone(s: real, t: real, n: real)
    requires s <= t && n >= 0.0
    ensures s * n <= t * n
  {
  }

  /** The ends of the range are coded and decoded exactly, also when they coincide. */
  lemma EndsExact(lo: real, hi: real, levels: nat)
    requires lo <= hi && 2 <= levels <= 256
    ensures Decode(Code(lo, lo, hi, levels), lo, hi, levels) == lo
    ensures Decode(Code(hi, lo, hi, levels), lo, hi, levels) == hi
  {
    ScaledEnds(lo, hi, levels);
    hide RoundHalfEven, Scaled;
    CodeBasics(lo, lo, hi, levels);
    CodeBasics(hi, lo, hi, levels);
    RoundInteger(0);
    RoundInteger(levels - 1);
    DecodeEnds(lo, hi, levels);
  }

  lemma ScaledEnds(lo: real, hi: real, levels: nat)
    requires lo <= hi && 2 <= levels
    ensures Scaled(lo, lo, hi, levels) == 0.0
    ensures Scaled(hi, lo, hi, levels) == if lo < hi then (levels - 1) as real else 0.0
  {
    if lo < hi {
      QuotientIs(hi - lo, hi - lo, 1.0);
    }
  }

  lemma DecodeEnds(lo: real, hi: real, levels: nat)
    requires 2 <= levels
    ensures Decode(0, lo, hi, levels) == lo && Decode(levels - 1, lo, hi, levels) == hi
  {
    var n := (levels - 1) as real;
    assert n / n == 1.0;
    assert 0.0 / n == 0.0;
  }

  lemma DecodeRange(c: int, lo: real, hi: real, levels: nat)
    requires lo <= hi && 2 <= levels && 0 <= c <= levels - 1
    ensures lo <= Decode(c, lo, hi, levels) <= hi
  {
    var n := (levels - 1) as real;
    var t := c as real / n;
    assert t * n == c as real;
    QuotientRange(c as real, n, t);
    ProductRange(t, hi - lo, t * (hi - lo));
  }

  /** Recoding a decoded value finds the same code, provided the range is not a single point. */
  lemma RecodeExact(c: int, lo: real, hi: real, levels: nat)
    requires lo < hi && 2 <= levels <= 256 && 0 <= c <= levels - 1
    ensures Code(Decode(c, lo, hi, levels), lo, hi, levels) == c
  {
    var n, w := (levels - 1) as real, hi - lo;
    var t := c as real / n;
    var y := Decode(c, lo, hi, levels);
    QuotientIs(y - lo, w, t);
    assert t * n == c as real;
    assert Scaled(y, lo, hi, levels) == c as real;
    RoundInteger(c);
  }

  function HalfStep(lo: real, hi: real, levels: nat): real
    requires levels > 1
  {
    (hi - lo) / (2.0 * (levels - 1) as real)
  }

  lemma HalfStepIs(lo: real, hi: real, levels: nat)
    requires levels > 1
    ensures HalfStep(lo, hi, levels) == (hi - lo) / (2.0 * (levels - 1) as real)
  {
  }

  /** |decoded − x| ≤ (hi − lo) / (2(levels − 1)) */
  lemma ErrorBound(x: real, lo: real, hi: real, levels: nat)
    requires lo <= x <= hi && 2 <= levels <= 256
    ensures -HalfStep(lo, hi, levels) <= Decode(Code(x, lo, hi, levels), lo, hi, levels) - x <= HalfStep(lo, hi, levels)
  {
    CodeBasics(x, lo, hi, levels);
    NormalizeRange(x, lo, hi);
    hide RoundHalfEven, Normalize, Code;
    RoundedError(x, lo, hi, (levels - 1) as real, Normalize(x, lo, hi), Scaled(x, lo, hi, levels),
                 Code(x, lo, hi, levels) as real, HalfStep(lo, hi, levels));
  }

  lemma RoundedError(x: real, lo: real, hi: real, n: real, t: real, s: real, c: real, half: real)
    requires n > 0.0 && lo <= hi && t * (hi - lo) == x - lo && s == t * n
    requires s - 0.5 <= c <= s + 0.5 && half == (hi - lo) / (2.0 * n)
    ensures -half <= c / n * (hi - lo) + lo - x <= half
  {
    var w := hi - lo;
    assert half * (2.0 * n) == w;
    var u := c / n;
    assert u * n == c;
    var e, diff := u * w - t * w, c - s;
    assert e == 2.0 * (diff * half) by {
      assert u * w == 2.0 * (u * n) * half;
      assert t * w == 2.0 * (t * n) * half;
    }
    if half < 0.0 {
      ProductPositive(0.0 - half, 2.0 * n, 0.0 - w);
    }
    ClampProduct(diff, half, diff * half);
  }

  lemma ClampProduct(d: real, h: real, p: real)
    requires -0.5 <= d <= 0.5 && h >= 0.0 && p == d * h
    ensures -h <= 2.0 * p <= h
  {
    assert (0.5 - d) * h == h / 2.0 - p && (d + 0.5) * h == p + h / 2.0;
  }

  // ---- Whole arrays ----

  /** Quantising then dequantising: codes in range, order kept, error within half a level. */
  lemma QuantizeIsFaithful(g: Vec, bits: nat)
    requires g != [] && 1 <= bits <= 8
    ensures Compress(g, bits).Success?
    ensures var q := Compress(g, bits).value;
      var out := Decompress(q, bits);
      var half := HalfStep(q.lo, q.hi, Pow2(bits));
      && |out| == |q.codes| == |g|
      && q.lo in g && q.hi in g && (forall i :: 0 <= i < |g| ==> q.lo <= g[i] <= q.hi)
      && (forall i :: 0 <= i < |g| ==> 0 <= q.codes[i] <= Pow2(bits) - 1)
      && (forall i :: 0 <= i < |g| ==> -half <= out[i] - g[i] <= half)
      && (forall i, j :: 0 <= i < |g| && 0 <= j < |g| && g[i] <= g[j] ==> q.codes[i] <= q.codes[j])
  {
    hide Code, Decode, HalfStep;
    LevelRange(bits);
    var q := Compress(g, bits).value;
    forall i | 0 <= i < |g|
      ensures 0 <= q.codes[i] <= Pow2(bits) - 1
      ensures var half := HalfStep(q.lo, q.hi, Pow2(bits));
        -half <= Decompress(q, bits)[i] - g[i] <= half
    {
      CodeBasics(g[i], q.lo, q.hi, Pow2(bits));
      ErrorBound(g[i], q.lo, q.hi, Pow2(bits));
    }
    forall i, j | 0 <= i < |g| && 0 <= j < |g| && g[i] <= g[j]
      ensures q.codes[i] <= q.codes[j]
    {
      CodeMonotone(g[i], g[j], q.lo, q.hi, Pow2(bits));
    }
  }

  /** At the default eight bits: 256 levels. */
  lemma EightBits(g: Vec)
    requires g != []
    ensures var q := Compress(g, 8).value;
      var out := Decompress(q, 8);
      && |out| == |q.codes| == |g|
      && (forall i :: 0 <= i < |g| ==> 0 <= q.codes[i] <= 255)
      && (forall i :: 0 <= i < |g| ==> -(q.hi - q.lo) / 510.0 <= out[i] - g[i] <= (q.hi - q.lo) / 510.0)
  {
    LevelCounts();
    hide Compress, Decompress;
    QuantizeIsFaithful(g, 8);
    HalfStepIs(Compress(g, 8).value.lo, Compress(g, 8).value.hi, 256);
  }

  /** The code is the level nearest to the value, the even one of two. */
  ghost predicate IsNearest(x: real, lo: real, hi: real, levels: nat, code: int) {
    if lo == hi then code == 0
    else
      var level := (x - lo) / (hi - lo) * (levels - 1) as real;
      && level - 0.5 <= code as real <= level + 0.5
      && ((code as real == level - 0.5 || code as real == level + 0.5) ==> code % 2 == 0)
  }

  lemma CodesAreNearest(g: Vec, bits: nat)
    requires g != [] && 1 <= bits <= 8
    ensures var q := Compress(g, bits).value;
      |q.codes| == |g| && forall i :: 0 <= i < |g| ==> IsNearest(g[i], q.lo, q.hi, Pow2(bits), q.codes[i])
  {
    LevelRange(bits);
    var q := Compress(g, bits).value;
    hide Code, IsNearest;
    forall i | 0 <= i < |g|
      ensures IsNearest(g[i], q.lo, q.hi, Pow2(bits), q.codes[i])
    {
      NearestCode(g[i], q.lo, q.hi, Pow2(bits));
    }
  }

  lemma NearestCode(x: real, lo: real, hi: real, levels: nat)
    requires lo <= x <= hi && 2 <= levels <= 256
    ensures IsNearest(x, lo, hi, levels, Code(x, lo, hi, levels))
  {
    CodeBasics(x, lo, hi, levels);
    RoundInteger(0);
    hide Code, RoundHalfEven;
    if lo == hi {
      assert Scaled(x, lo, hi, levels) == 0.0;
    }
  }

  lemma EndsAttained(g: Vec, bits: nat)
    requires g != [] && 1 <= bits <= 8
    ensures var q := Compress(g, bits).value;
      var out := Decompress(q, bits);
      && out != []
      && Lowest(out) == q.lo && Highest(out) == q.hi
  {
    hide Code, Decode;
    LevelRange(bits);
    var levels := Pow2(bits);
    var q := Compress(g, bits).value;
    var out := Decompress(q, bits);
    forall i | 0 <= i < |g|
      ensures q.lo <= out[i] <= q.hi
    {
      CodeBasics(g[i], q.lo, q.hi, levels);
      DecodeRange(q.codes[i], q.lo, q.hi, levels);
    }
    EndsExact(q.lo, q.hi, levels);
    var i :| 0 <= i < |g| && g[i] == q.lo;
    var j :| 0 <= j < |g| && g[j] == q.hi;
    assert out[i] == q.lo && out[j] == q.hi;
  }

  /** Compressing a decompressed array returns exactly the same codes and parameters. */
  lemma Recompress(g: Vec, bits: nat)
    requires g != [] && 1 <= bits <= 8
    ensures Compress(Decompress(Compress(g, bits).value, bits), bits) == Compress(g, bits)
  {
    hide Decode;
    LevelRange(bits);
    var levels := Pow2(bits);
    var q := Compress(g, bits).value;
    var out := Decompress(q, bits);
    EndsAttained(g, bits);
    var q' := Compress(out, bits).value;
    forall i | 0 <= i < |g|
      ensures q'.codes[i] == q.codes[i]
    {
      CodeBasics(g[i], q.lo, q.hi, levels);
      if q.lo < q.hi {
        RecodeExact(q.codes[i], q.lo, q.hi, levels);
      } else {
        CodeBasics(out[i], q.lo, q.hi, levels);
      }
    }
    assert q'.codes == q.codes;
  }
}
