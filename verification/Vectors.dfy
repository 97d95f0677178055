/** Real vectors: numpy arrays of one dimension, without rounding. */
module Vectors {

  type Vec = seq<real>

  function Zeros(n: nat): (z: Vec)
    ensures |z| == n
  {
    seq(n, _ => 0.0)
  }

  function Add(a: Vec, b: Vec): (c: Vec)
    requires |a| == |b|
    ensures |c| == |a|
  {
    seq(|a|, i requires 0 <= i < |a| => a[i] + b[i])
  }

  function Minus(a: Vec, b: Vec): (c: Vec)
    requires |a| == |b|
    ensures |c| == |a|
  {
    seq(|a|, i requires 0 <= i < |a| => a[i] - b[i])
  }

  function Scale(s: real, a: Vec): (c: Vec)
    ensures |c| == |a|
  {
    seq(|a|, i requires 0 <= i < |a| => s * a[i])
  }

  function Sq(x: real): (s: real)
    ensures s >= 0.0
    ensures s == 0.0 ==> x == 0.0
  {
    var s := x * x;
    SquarePositive(x, s);
    s
  }

  lemma SquarePositive(x: real, s: real)
    requires s == x * x
    ensures s >= 0.0
    ensures x != 0.0 ==> s > 0.0
  {
    var y := if x > 0.0 then x else 0.0 - x;
    assert y * y == s;
    if x != 0.0 {
      ProductPositive(y, y, s);
    }
  }

  lemma ProductPositive(a: real, b: real, p: real)
    requires a > 0.0 && b > 0.0 && p == a * b
    ensures p > 0.0
  {
  }

  lemma ProductNonNegative(a: real, b: real, p: real)
    requires a >= 0.0 && b >= 0.0 && p == a * b
    ensures p >= 0.0
  {
  }

  lemma ProductMono(a: real, x: real, y: real)
    requires a >= 0.0 && x <= y
    ensures a * x <= a * y
  {
  }

  /** The same for products that have a name. */
  lemma ProductOrder(a: real, x: real, y: real, p: real, q: real)
    requires a >= 0.0 && x <= y && p == a * x && q == a * y
    ensures p <= q
  {
  }

  /** The squared L2 norm. */
  function SumSq(a: Vec): (s: real)
    ensures s >= 0.0
  {
    if a == [] then 0.0 else SumSq(a[..|a| - 1]) + Sq(a[|a| - 1])
  }

  function Dot(a: Vec, b: Vec): real
    requires |a| == |b|
  {
    if a == [] then 0.0 else Dot(a[..|a| - 1], b[..|b| - 1]) + a[|a| - 1] * b[|b| - 1]
  }

  /** s²·a − 2st·d + t²·b */
  function Combination(s: real, t: real, a: real, d: real, b: real): real {
    s * s * a - 2.0 * s * t * d + t * t * b
  }

  lemma CombinationAdd(s: real, t: real, a: real, a1: real, d: real, d1: real, b: real, b1: real)
    ensures Combination(s, t, a, d, b) + Combination(s, t, a1, d1, b1) == Combination(s, t, a + a1, d + d1, b + b1)
  {
  }

  lemma CombinationZero(s: real, t: real)
    ensures Combination(s, t, 0.0, 0.0, 0.0) == 0.0
  {
  }

  lemma SquareOfDifference(s: real, x: real, t: real, y: real)
    ensures Sq(s * x - t * y) == Combination(s, t, Sq(x), x * y, Sq(y))
  {
    var p, q, x2, y2, xy := s * x, t * y, x * x, y * y, x * y;
    assert (p - q) * (p - q) == p * p - 2.0 * (p * q) + q * q;
    assert p * p == s * s * x2;
    assert q * q == t * t * y2;
    assert p * q == s * t * xy;
  }

  /** ‖s·a − t·b‖² = s²‖a‖² − 2st⟨a,b⟩ + t²‖b‖² */
  lemma {:induction false} SumSqCombination(s: real, a: Vec, t: real, b: Vec)
    requires |a| == |b|
    ensures SumSq(Minus(Scale(s, a), Scale(t, b))) == Combination(s, t, SumSq(a), Dot(a, b), SumSq(b))
  {
    hide Combination, Sq;
    var c := Minus(Scale(s, a), Scale(t, b));
    if a == [] {
      CombinationZero(s, t);
    } else {
      var a', b', x, y := a[..|a| - 1], b[..|b| - 1], a[|a| - 1], b[|b| - 1];
      var c' := Minus(Scale(s, a'), Scale(t, b'));
      forall i | 0 <= i < |c'|
        ensures c[i] == c'[i]
      {
        assert Scale(s, a)[i] == Scale(s, a')[i] && Scale(t, b)[i] == Scale(t, b')[i];
      }
      assert c[..|c| - 1] == c';
      var z := s * x - t * y;
      assert c[|c| - 1] == z;
      assert SumSq(c) == SumSq(c') + Sq(z);
      SumSqCombination(s, a', t, b');
      SquareOfDifference(s, x, t, y);
      CombinationAdd(s, t, SumSq(a'), Sq(x), Dot(a', b'), x * y, SumSq(b'), Sq(y));
      assert SumSq(a) == SumSq(a') + Sq(x) && SumSq(b) == SumSq(b') + Sq(y);
      assert Dot(a, b) == Dot(a', b') + x * y;
    }
  }

  lemma ScaleOne(a: Vec)
    ensures Scale(1.0, a) == a
  {
  }

  /** s²·x */
  function Weighted(s: real, x: real): real {
    s * s * x
  }

  lemma SumSqScale(s: real, a: Vec)
    ensures SumSq(Scale(s, a)) == Weighted(s, SumSq(a))
  {
    SumSqCombination(s, a, 0.0, a);
    assert Minus(Scale(s, a), Scale(0.0, a)) == Scale(s, a);
  }

  lemma {:induction false} DotWithZero(a: Vec, b: Vec)
    requires |a| == |b| && SumSq(b) == 0.0
    ensures Dot(a, b) == 0.0
  {
    if a != [] {
      DotWithZero(a[..|a| - 1], b[..|b| - 1]);
    }
  }

  /** ⟨a,b⟩² ≤ ‖a‖²‖b‖² */
  lemma CauchySchwarz(a: Vec, b: Vec)
    requires |a| == |b|
    ensures Dot(a, b) * Dot(a, b) <= SumSq(a) * SumSq(b)
  {
    hide Combination, SumSq, Dot;
    var aa, bb, ab := SumSq(a), SumSq(b), Dot(a, b);
    if bb == 0.0 {
      DotWithZero(a, b);
    } else {
      SumSqCombination(bb, a, ab, b);
      var x := aa * bb - ab * ab;
      FactorDiscriminant(aa, bb, ab, x);
      PositiveFactor(bb, x, SumSq(Minus(Scale(bb, a), Scale(ab, b))));
    }
  }

  lemma FactorDiscriminant(a: real, b: real, d: real, x: real)
    requires x == a * b - d * d
    ensures Combination(b, d, a, d, b) == b * x
  {
    assert 2.0 * b * d * d == 2.0 * (b * (d * d));
    assert d * d * b == b * (d * d);
    assert b * b * a == b * (a * b);
    assert b * x == b * (a * b) - b * (d * d);
  }

  lemma PositiveFactor(b: real, x: real, p: real)
    requires b > 0.0 && p == b * x && p >= 0.0
    ensures x >= 0.0
  {
    if x < 0.0 {
      ProductPositive(b, 0.0 - x, 0.0 - p);
    }
  }

  lemma SumSqAdd(a: Vec, b: Vec)
    requires |a| == |b|
    ensures SumSq(Add(a, b)) == SumSq(a) + 2.0 * Dot(a, b) + SumSq(b)
  {
    SumSqCombination(1.0, a, -1.0, b);
    assert Minus(Scale(1.0, a), Scale(-1.0, b)) == Add(a, b);
  }
}
