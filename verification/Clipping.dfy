/** clip_gradients of python/gossip_rl/privacy/mechanism.py. The square root stays abstract: a
    norm of x is any non-negative r with r² = ‖x‖². */
module Clipping {
  import opened Vectors

  ghost predicate IsNorm(r: real, x: Vec) {
    r >= 0.0 && r * r == SumSq(x)
  }

  function Clip(x: Vec, norm: real, clipNorm: real): (y: Vec)
    requires clipNorm >= 0.0
    ensures |y| == |x|
  {
    if norm > clipNorm then Scale(clipNorm / norm, x) else x
  }

  function Clamped(norm: real, clipNorm: real): real {
    if norm > clipNorm then clipNorm else norm
  }

  /** The factor applied to x. */
  function Factor(norm: real, clipNorm: real): real
    requires clipNorm >= 0.0
  {
    if norm > clipNorm then clipNorm / norm else 1.0
  }

  lemma ClipIsScale(x: Vec, norm: real, clipNorm: real)
    requires clipNorm >= 0.0
    ensures Clip(x, norm, clipNorm) == Scale(Factor(norm, clipNorm), x)
  {
    ScaleOne(x);
  }

  lemma FactorBasics(norm: real, clipNorm: real)
    requires clipNorm >= 0.0 && norm >= 0.0
    ensures 0.0 <= Factor(norm, clipNorm) <= 1.0
    ensures Factor(norm, clipNorm) * norm == Clamped(norm, clipNorm)
  {
    if norm > clipNorm {
      var f := clipNorm / norm;
      assert f * norm == clipNorm;
      if f < 0.0 {
        ProductPositive(0.0 - f, norm, 0.0 - clipNorm);
      } else if f > 1.0 {
        ProductPositive(f - 1.0, norm, clipNorm - norm);
      }
    }
  }

  lemma SquaresEqual(r: real, s: real)
    requires r >= 0.0 && s >= 0.0 && r * r == s * s
    ensures r == s
  {
    SquaresOrdered(r, s, r * r, s * s);
    SquaresOrdered(s, r, s * s, r * r);
  }

  lemma SquaresOrdered(r: real, s: real, p: real, q: real)
    requires r >= 0.0 && s >= 0.0 && p == r * r && q == s * s && p <= q
    ensures r <= s
  {
    if r > s {
      var d, t := r - s, r + s;
      assert d * t == p - q;
      ProductPositive(d, t, p - q);
    }
  }

  /** The clipped vector's norm is min(norm, C). */
  lemma ClippedNorm(x: Vec, norm: real, clipNorm: real)
    requires clipNorm >= 0.0 && IsNorm(norm, x)
    ensures IsNorm(Clamped(norm, clipNorm), Clip(x, norm, clipNorm))
  {
    ClipIsScale(x, norm, clipNorm);
    FactorBasics(norm, clipNorm);
    var f, a := Factor(norm, clipNorm), Clamped(norm, clipNorm);
    SumSqScale(f, x);
    hide SumSq, Factor, Clip, Clamped, Weighted;
    SquareOfProduct(f, norm, a, SumSq(x), SumSq(Clip(x, norm, clipNorm)));
  }

  lemma SquareOfProduct(f: real, n: real, a: real, s: real, r: real)
    requires f * n == a && n * n == s && r == Weighted(f, s)
    ensures a * a == r
  {
    var g := f * n;
    assert g * g == f * f * (n * n);
  }

  /** Clipping again changes nothing. */
  lemma ClipIdempotent(x: Vec, norm: real, clipNorm: real, norm': real)
    requires clipNorm >= 0.0 && IsNorm(norm, x) && IsNorm(norm', Clip(x, norm, clipNorm))
    ensures Clip(Clip(x, norm, clipNorm), norm', clipNorm) == Clip(x, norm, clipNorm)
  {
    ClippedNorm(x, norm, clipNorm);
    SquaresEqual(norm', Clamped(norm, clipNorm));
  }

  lemma DotBelowNorms(x: Vec, y: Vec, nx: real, ny: real)
    requires |x| == |y| && IsNorm(nx, x) && IsNorm(ny, y)
    ensures Dot(x, y) <= nx * ny
  {
    CauchySchwarz(x, y);
    hide SumSq, Dot;
    BelowRoot(Dot(x, y), SumSq(x), SumSq(y), nx, ny, nx * ny);
  }

  lemma BelowRoot(d: real, a: real, b: real, nx: real, ny: real, p: real)
    requires nx >= 0.0 && ny >= 0.0 && nx * nx == a && ny * ny == b && p == nx * ny && d * d <= a * b
    ensures d <= p
  {
    ProductNonNegative(nx, ny, p);
    if d > p {
      assert a * b == p * p by {
        assert (nx * nx) * (ny * ny) == (nx * ny) * (nx * ny);
      }
      SquaresOrdered(d, p, d * d, p * p);
    }
  }

  /** Clipping never moves two vectors apart: ‖clip(x) − clip(y)‖² ≤ ‖x − y‖². */
  lemma ClipNonExpansive(x: Vec, y: Vec, nx: real, ny: real, clipNorm: real)
    requires |x| == |y| && clipNorm >= 0.0 && IsNorm(nx, x) && IsNorm(ny, y)
    ensures SumSq(Minus(Clip(x, nx, clipNorm), Clip(y, ny, clipNorm))) <= SumSq(Minus(x, y))
  {
    hide SumSq, Factor, Clamped, Clip, Scale, IsNorm;
    ClipIsScale(x, nx, clipNorm);
    ClipIsScale(y, ny, clipNorm);
    NormNonNegative(nx, x);
    NormNonNegative(ny, y);
    FactorBasics(nx, clipNorm);
    FactorBasics(ny, clipNorm);
    ClampShrinksGap(nx, ny, clipNorm);
    ScaledDistance(x, y, nx, ny, Factor(nx, clipNorm), Factor(ny, clipNorm), Clamped(nx, clipNorm), Clamped(ny, clipNorm));
  }

  lemma NormNonNegative(r: real, x: Vec)
    requires IsNorm(r, x)
    ensures r >= 0.0
  {
  }

  lemma ScaledDistance(x: Vec, y: Vec, nx: real, ny: real, s: real, t: real, a: real, b: real)
    requires |x| == |y| && IsNorm(nx, x) && IsNorm(ny, y)
    requires 0.0 <= s <= 1.0 && 0.0 <= t <= 1.0 && s * nx == a && t * ny == b
    requires nx - ny >= 0.0 ==> 0.0 <= a - b <= nx - ny
    requires nx - ny <= 0.0 ==> nx - ny <= a - b <= 0.0
    ensures SumSq(Minus(Scale(s, x), Scale(t, y))) <= SumSq(Minus(x, y))
  {
    DotBelowNorms(x, y, nx, ny);
    hide SumSq, Dot, Combination, Scale;
    SumSqCombination(s, x, t, y);
    SumSqCombination(1.0, x, 1.0, y);
    ScaleOne(x);
    ScaleOne(y);
    ShrinkTogether(nx, ny, SumSq(x), SumSq(y), Dot(x, y), s, t, a, b);
  }

  lemma ClampShrinksGap(nx: real, ny: real, clipNorm: real)
    requires nx >= 0.0 && ny >= 0.0 && clipNorm >= 0.0
    ensures nx - ny >= 0.0 ==> 0.0 <= Clamped(nx, clipNorm) - Clamped(ny, clipNorm) <= nx - ny
    ensures nx - ny <= 0.0 ==> nx - ny <= Clamped(nx, clipNorm) - Clamped(ny, clipNorm) <= 0.0
  {
  }

  lemma ShrinkTogether(nx: real, ny: real, xx: real, yy: real, d: real, s: real, t: real, a: real, b: real)
    requires nx * nx == xx && ny * ny == yy && d <= nx * ny
    requires 0.0 <= s <= 1.0 && 0.0 <= t <= 1.0 && s * nx == a && t * ny == b
    requires nx - ny >= 0.0 ==> 0.0 <= a - b <= nx - ny
    requires nx - ny <= 0.0 ==> nx - ny <= a - b <= 0.0
    ensures Combination(s, t, xx, d, yy) <= Combination(1.0, 1.0, xx, d, yy)
  {
    hide Combination;
    var p, qd, ab, aa, bb := nx * ny, s * t * d, a * b, a * a, b * b;
    CrossTerm(nx, ny, s, t, a, b, d, p, qd, ab);
    GapShrinks(nx, ny, xx, yy, a, b, p, aa, ab, bb);
    ExpandCombination(s, t, nx, ny, xx, yy, a, b, d, aa, bb, qd);
  }

  lemma CrossTerm(nx: real, ny: real, s: real, t: real, a: real, b: real, d: real, p: real, qd: real, ab: real)
    requires 0.0 <= s <= 1.0 && 0.0 <= t <= 1.0 && s * nx == a && t * ny == b
    requires p == nx * ny && qd == s * t * d && ab == a * b && d <= p
    ensures p - d - ab + qd >= 0.0
  {
    var q := s * t;
    UnitProduct(s, t, q);
    Regroup(s, nx, t, ny, a, b, ab, q, p);
    var m := (1.0 - q) * (p - d);
    ProductNonNegative(1.0 - q, p - d, m);
    assert m == p - d - q * p + q * d;
  }

  lemma Regroup(s: real, nx: real, t: real, ny: real, a: real, b: real, ab: real, q: real, p: real)
    requires s * nx == a && t * ny == b && ab == a * b && q == s * t && p == nx * ny
    ensures q * p == ab
  {
    assert (s * nx) * (t * ny) == (s * t) * (nx * ny);
  }

  lemma GapShrinks(nx: real, ny: real, xx: real, yy: real, a: real, b: real, p: real, aa: real, ab: real, bb: real)
    requires nx * nx == xx && ny * ny == yy && p == nx * ny && aa == a * a && bb == b * b && ab == a * b
    requires nx - ny >= 0.0 ==> 0.0 <= a - b <= nx - ny
    requires nx - ny <= 0.0 ==> nx - ny <= a - b <= 0.0
    ensures aa - 2.0 * ab + bb <= xx - 2.0 * p + yy
  {
    var g, h := nx - ny, a - b;
    SmallerSquare(g, h, g * g, h * h);
    assert g * g == nx * nx - 2.0 * (nx * ny) + ny * ny;
    assert h * h == a * a - 2.0 * (a * b) + b * b;
  }

  lemma ExpandCombination(s: real, t: real, nx: real, ny: real, xx: real, yy: real, a: real, b: real, d: real,
                          aa: real, bb: real, qd: real)
    requires nx * nx == xx && ny * ny == yy && s * nx == a && t * ny == b
    requires aa == a * a && bb == b * b && qd == s * t * d
    ensures Combination(s, t, xx, d, yy) == aa - 2.0 * qd + bb
    ensures Combination(1.0, 1.0, xx, d, yy) == xx - 2.0 * d + yy
  {
    SquareOfProduct(s, nx, a, xx, Weighted(s, xx));
    SquareOfProduct(t, ny, b, yy, Weighted(t, yy));
  }

  lemma UnitProduct(s: real, t: real, q: real)
    requires 0.0 <= s <= 1.0 && 0.0 <= t <= 1.0 && q == s * t
    ensures 0.0 <= q <= 1.0
  {
    ProductNonNegative(s, t, q);
    ProductNonNegative(1.0 - s, t, t - q);
  }

  lemma SmallerSquare(g: real, h: real, p: real, q: real)
    requires p == g * g && q == h * h
    requires g >= 0.0 ==> 0.0 <= h <= g
    requires g <= 0.0 ==> g <= h <= 0.0
    ensures q <= p
  {
    var d, e := g - h, g + h;
    assert d * e == p - q;
    if g >= 0.0 {
      ProductNonNegative(d, e, p - q);
    } else {
      ProductNonNegative(0.0 - d, 0.0 - e, p - q);
    }
  }

  /** The sensitivity privatize relies on: two clipped gradients differ by at most 2C. */
  lemma ClipSensitivity(x: Vec, y: Vec, nx: real, ny: real, clipNorm: real)
    requires |x| == |y| && clipNorm >= 0.0 && IsNorm(nx, x) && IsNorm(ny, y)
    ensures SumSq(Minus(Clip(x, nx, clipNorm), Clip(y, ny, clipNorm))) <= 4.0 * (clipNorm * clipNorm)
  {
    var u, v := Clip(x, nx, clipNorm), Clip(y, ny, clipNorm);
    ClippedNorm(x, nx, clipNorm);
    ClippedNorm(y, ny, clipNorm);
    NormsBoundDistance(u, v, Clamped(nx, clipNorm), Clamped(ny, clipNorm), clipNorm);
  }

  lemma NormsBoundDistance(u: Vec, v: Vec, a: real, b: real, c: real)
    requires |u| == |v| && IsNorm(a, u) && IsNorm(b, v) && a <= c && b <= c
    ensures SumSq(Minus(u, v)) <= 4.0 * (c * c)
  {
    hide Dot, Scale, SumSq, Combination;
    SumSqCombination(1.0, u, 1.0, v);
    SumSqCombination(1.0, u, -1.0, v);
    ScaleOne(u);
    ScaleOne(v);
    TwiceNorms(SumSq(u), Dot(u, v), SumSq(v), a, b, c,
               SumSq(Minus(Scale(1.0, u), Scale(1.0, v))), SumSq(Minus(Scale(1.0, u), Scale(-1.0, v))));
  }

  lemma TwiceNorms(xx: real, d: real, yy: real, a: real, b: real, c: real, minus: real, plus: real)
    requires a * a == xx && b * b == yy && 0.0 <= a <= c && 0.0 <= b <= c
    requires minus == Combination(1.0, 1.0, xx, d, yy) && plus == Combination(1.0, -1.0, xx, d, yy) && plus >= 0.0
    ensures minus <= 4.0 * (c * c)
  {
    SmallerSquare(c, a, c * c, a * a);
    SmallerSquare(c, b, c * c, b * b);
    assert minus + plus == 2.0 * xx + 2.0 * yy;
  }

  // ---- The nearest point ----

  /** Clipping moves a gradient as little as possible: no vector of norm at most C is closer to it. */
  lemma ClipNearest(x: Vec, z: Vec, nx: real, nz: real, clipNorm: real)
    requires |x| == |z| && IsNorm(nx, x) && IsNorm(nz, z) && nz <= clipNorm
    ensures SumSq(Minus(x, Clip(x, nx, clipNorm))) <= SumSq(Minus(x, z))
  {
    if nx <= clipNorm {
      SumSqNothing(x);
    } else {
      DotBelowNorms(x, z, nx, nz);
      ClippedPart(x, nx, clipNorm);
      hide SumSq, Dot, Combination, Scale, Clip;
      SumSqCombination(1.0, x, 1.0, z);
      ScaleOne(x);
      ScaleOne(z);
      FarFromBall(nx, nz, clipNorm, SumSq(x), SumSq(z), Dot(x, z));
    }
  }

  lemma {:induction false} SumSqNothing(x: Vec)
    ensures SumSq(Minus(x, x)) == 0.0
  {
    if x != [] {
      SumSqNothing(x[..|x| - 1]);
      assert Minus(x, x)[..|x| - 1] == Minus(x[..|x| - 1], x[..|x| - 1]);
    }
  }

  /** What clipping takes away has norm nx - C. */
  lemma ClippedPart(x: Vec, nx: real, clipNorm: real)
    requires IsNorm(nx, x) && nx > clipNorm >= 0.0
    ensures SumSq(Minus(x, Clip(x, nx, clipNorm))) == (nx - clipNorm) * (nx - clipNorm)
  {
    var f := clipNorm / nx;
    assert f * nx == clipNorm;
    var rest := Minus(x, Scale(f, x));
    forall i | 0 <= i < |x|
      ensures rest[i] == Scale(1.0 - f, x)[i]
    {
      Distribute(f, x[i]);
    }
    assert rest == Scale(1.0 - f, x);
    SumSqScale(1.0 - f, x);
    hide SumSq, Weighted;
    Distribute(f, nx);
    SquareOfProduct(1.0 - f, nx, nx - clipNorm, SumSq(x), SumSq(rest));
  }

  lemma Distribute(f: real, x: real)
    ensures x - f * x == (1.0 - f) * x
  {
  }

  lemma FarFromBall(nx: real, nz: real, c: real, xx: real, zz: real, d: real)
    requires nx * nx == xx && nz * nz == zz && d <= nx * nz && 0.0 <= nz <= c < nx
    ensures (nx - c) * (nx - c) <= Combination(1.0, 1.0, xx, d, zz)
  {
    var g, h := nx - nz, nx - c;
    SmallerSquare(g, h, g * g, h * h);
    assert g * g == nx * nx - 2.0 * (nx * nz) + nz * nz;
  }
}
