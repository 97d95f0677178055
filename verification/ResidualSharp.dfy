/** Sharper bounds on the residual of top-k compression over a run
    (python/gossip_rl/gossip/compression.py): one from the contraction alone, one from what top-k
    does when it sends at least half of the positions. */
module ResidualSharp {
  import opened Wrappers
  import opened Vectors
  import opened TopK

  /** With s = sqrt(1 - k/n): (1 - s)|e| <= s G over any run on gradients of norm at most G, squared. */
  lemma {:induction false} SharpResidualBound(calls: seq<Call>, n: nat, k: nat, d: real, s: real, g2: real)
    requires Legal(calls, n, k) && 1 <= k <= n && d == k as real / n as real && g2 >= 0.0
    requires s >= 0.0 && s * s == 1.0 - d
    requires forall c :: c in calls && c.Send? ==> SumSq(c.gradients) <= g2
    ensures Weighted(1.0 - s, SumSq(Carried(After(calls, n, k), n))) <= Weighted(s, g2)
  {
    hide Sq, SumSq, Weighted, Portion, IsTopK, Residual, Kept;
    FractionRange(k, n, d);
    NothingBelow(s, g2);
    if calls == [] {
      SumSqZeros(n);
      NothingWeighs(1.0 - s);
    } else {
      var before, call := calls[..|calls| - 1], calls[|calls| - 1];
      SharpResidualBound(before, n, k, d, s, g2);
      var feedback := After(before, n, k);
      match call
      case Send(g, idx) =>
        assert call in calls;
        var e := Carried(feedback, n);
        AccumulatedIsSum(g, feedback);
        SendContracts(g, e, k, idx, d, s * s);
        SendKeepsSharp(g, e, Residual(Add(g, e), idx), s, 1.0 - s, d, g2);
      case SendWithoutFeedback(_, _) =>
      case Reset =>
        SumSqZeros(n);
        NothingWeighs(1.0 - s);
    }
  }

  lemma NothingWeighs(t: real)
    ensures Weighted(t, 0.0) == 0.0
  {
  }

  lemma NothingBelow(s: real, g2: real)
    requires g2 >= 0.0
    ensures Weighted(s, g2) >= 0.0
  {
    SquarePositive(s, s * s);
    ProductNonNegative(s * s, g2, s * s * g2);
  }

  lemma SendKeepsSharp(g: Vec, e: Vec, r: Vec, s: real, t: real, d: real, g2: real)
    requires |g| == |e| && s >= 0.0 && t == 1.0 - s && s * s == 1.0 - d && 0.0 < d && SumSq(g) <= g2
    requires SumSq(r) <= Portion(s * s, SumSq(Add(g, e)))
    requires Weighted(t, SumSq(e)) <= Weighted(s, g2)
    ensures Weighted(t, SumSq(r)) <= Weighted(s, g2)
  {
    hide Sq, SumSq, Weighted, Portion, Combination, Dot;
    SumSqAdd(g, e);
    SumSqCombination(s, g, t, e);
    var young := SumSq(Minus(Scale(s, g), Scale(t, e)));
    BelowOne(s, d);
    SharpStep(s, t, SumSq(g), Dot(g, e), SumSq(e), SumSq(Add(g, e)), SumSq(r), g2, young);
  }

  lemma BelowOne(s: real, d: real)
    requires s >= 0.0 && s * s == 1.0 - d && d > 0.0
    ensures s < 1.0
  {
    if s >= 1.0 {
      ProductMono(s, 1.0, s);
    }
  }

  lemma SharpStep(s: real, t: real, a: real, dot: real, e: real, v: real, r: real, g2: real, young: real)
    requires 0.0 <= s < 1.0 && t == 1.0 - s && 0.0 <= a <= g2
    requires v == a + 2.0 * dot + e && r <= Portion(s * s, v)
    requires young == Combination(s, t, a, dot, e) && young >= 0.0
    requires Weighted(t, e) <= Weighted(s, g2)
    ensures Weighted(t, r) <= Weighted(s, g2)
  {
    hide Weighted, Portion, Combination;
    if s == 0.0 {
      NothingLeft(t, v, r, g2);
    } else {
      CrossBound(s, t, a, dot, e, g2);
      WholeBound(s, t, a, dot, e, v, g2, t * t * v);
      ShareOfWhole(s, t, v, r, g2);
    }
  }

  lemma NothingLeft(t: real, v: real, r: real, g2: real)
    requires r <= Portion(0.0 * 0.0, v)
    ensures Weighted(t, r) <= Weighted(0.0, g2)
  {
    var tt := t * t;
    assert Portion(0.0 * 0.0, v) == 0.0 && Weighted(0.0, g2) == 0.0;
    SquarePositive(t, tt);
    ProductMono(tt, r, 0.0);
  }

  lemma ShareOfWhole(s: real, t: real, v: real, r: real, g2: real)
    requires r <= Portion(s * s, v) && t * t * v <= g2
    ensures Weighted(t, r) <= Weighted(s, g2)
  {
    var tt, ss := t * t, s * s;
    SquarePositive(t, tt);
    SquarePositive(s, ss);
    ProductMono(tt, r, ss * v);
    assert tt * (ss * v) == ss * (tt * v);
    ProductMono(ss, tt * v, g2);
  }

  /** Young's inequality, divided by s. */
  lemma CrossBound(s: real, t: real, a: real, dot: real, e: real, g2: real)
    requires s > 0.0 && t > 0.0
    requires Combination(s, t, a, dot, e) >= 0.0 && Weighted(t, e) <= Weighted(s, g2)
    ensures 2.0 * (t * dot) <= s * a + s * g2
  {
    var x := s * a + s * g2 - 2.0 * (t * dot);
    assert s * x == s * s * a + s * s * g2 - 2.0 * s * t * dot;
    if x < 0.0 {
      ProductPositive(s, 0.0 - x, 0.0 - s * x);
    }
  }

  lemma WholeBound(s: real, t: real, a: real, dot: real, e: real, v: real, g2: real, tv: real)
    requires 0.0 < s < 1.0 && t == 1.0 - s && 0.0 <= a <= g2 && v == a + 2.0 * dot + e && tv == t * t * v
    requires 2.0 * (t * dot) <= s * a + s * g2 && Weighted(t, e) <= Weighted(s, g2)
    ensures tv <= g2
  {
    var c := s * a + s * g2;
    ProductMono(t, 2.0 * (t * dot), c);
    assert t * (2.0 * (t * dot)) == 2.0 * (t * t * dot);
    assert tv == t * t * a + 2.0 * (t * t * dot) + t * t * e;
    var w := t * t + t * s;
    ProductPositive(t, t, t * t);
    ProductPositive(t, s, t * s);
    ProductMono(w, a, g2);
    assert t * c == t * s * a + t * s * g2;
    assert w * a == t * t * a + t * s * a && w * g2 == t * t * g2 + t * s * g2;
    assert (t * t + 2.0 * (t * s) + s * s) == 1.0 by {
      assert (t + s) * (t + s) == t * t + 2.0 * (t * s) + s * s;
    }
    var q := t * t + 2.0 * (t * s) + s * s;
    assert q * g2 == t * t * g2 + 2.0 * (t * s * g2) + s * s * g2;
  }

  // ---- At least half of the positions sent ----

  /** The residual is zero on some k positions. */
  ghost predicate Sparse(e: Vec, k: nat, zero: seq<nat>) {
    |zero| == k && Distinct(zero) && InRange(zero, |e|) && forall i :: 0 <= i < |e| && i in zero ==> e[i] == 0.0
  }

  /** One position of the count: it is in the new residual unless chosen, and carries the gradient
      alone if the old residual was zero there. */
  lemma DensePosition(m: real, k: nat, rest: nat, c: int, c': int, chosen: bool, zero: bool, q: real, a: real)
    requires m >= 0.0 && a >= 0.0 && rest <= k && (if chosen then q >= m else q <= m) && q >= 0.0
    requires zero ==> a == q
    requires c' == c + (if chosen then 0 else k) - (if zero then rest else 0)
    ensures k as real * (if chosen then 0.0 else q) + Times(m, c) <= rest as real * a + Times(m, c')
  {
    var kr, rr := k as real, rest as real;
    TimesSplit(m, c, if chosen then 0 else k, if zero then rest else 0, c');
    var km, rm := kr * m, rr * m;
    ProductNonNegative(rr, a, rr * a);
    ProductNonNegative(kr, m, km);
    if chosen {
      if zero {
        ProductMono(rr, m, q);
      }
    } else {
      ProductMono(kr, q, m);
      if zero {
        var x := (kr - rr) * (m - q);
        ProductNonNegative(kr - rr, m - q, x);
        assert x == km - rm - kr * q + rr * q;
      }
    }
  }

  lemma TimesSplit(m: real, c: int, plus: nat, minus: nat, c': int)
    requires c' == c + plus - minus
    ensures Times(m, c') == Times(m, c) + plus as real * m - minus as real * m
  {
    assert c' as real == c as real + plus as real - minus as real;
    SplitProduct(m, c as real, plus as real, minus as real);
  }

  lemma SplitProduct(m: real, c: real, p: real, q: real)
    ensures m * (c + p - q) == m * c + p * m - q * m
  {
  }

  ghost function Count(k: nat, rest: nat, idx: seq<nat>, zero: seq<nat>, j: nat): int {
    k * (j - Selected(idx, j)) - rest * Selected(zero, j)
  }

  lemma CountStep(k: nat, rest: nat, idx: seq<nat>, zero: seq<nat>, j: nat)
    requires j > 0
    ensures Count(k, rest, idx, zero, j) ==
      Count(k, rest, idx, zero, j - 1) + (if j - 1 in idx then 0 else k) - (if j - 1 in zero then rest else 0)
  {
    var s, s', z, z' := Selected(idx, j), Selected(idx, j - 1), Selected(zero, j), Selected(zero, j - 1);
    Spread(k, j, s, s', j - 1 in idx);
    assert rest * z == rest * z' + if j - 1 in zero then rest else 0;
  }

  lemma Spread(k: int, j: int, s: int, s': int, chosen: bool)
    requires s == s' + if chosen then 1 else 0
    ensures k * (j - s) == k * (j - 1 - s') + if chosen then 0 else k
  {
  }

  /** k*r <= rest*s + t */
  ghost predicate Balanced(k: real, rest: real, r: real, s: real, t: real) {
    k * r <= rest * s + t
  }

  lemma {:induction false} DensePrefix(g: Vec, e: Vec, k: nat, rest: nat, idx: seq<nat>, zero: seq<nat>, m: real, j: nat)
    requires |g| == |e| && j <= |g| && rest <= k && m >= 0.0
    requires Separates(Add(g, e), idx, m) && Sparse(e, k, zero)
    ensures Balanced(k as real, rest as real, SumSq(Residual(Add(g, e), idx)[..j]), SumSq(g[..j]),
                     Times(m, Count(k, rest, idx, zero, j)))
  {
    if j == 0 {
      DenseStart(k, rest, idx, zero, m);
      assert Residual(Add(g, e), idx)[..0] == [] && g[..0] == [];
    } else {
      hide Balanced, SumSq, Residual, Separates, Count, Times, Add, Sparse;
      DensePrefix(g, e, k, rest, idx, zero, m, j - 1);
      DenseAt(g, e, k, rest, idx, zero, m, j);
    }
  }

  lemma DenseStart(k: nat, rest: nat, idx: seq<nat>, zero: seq<nat>, m: real)
    ensures Balanced(k as real, rest as real, SumSq([]), SumSq([]), Times(m, Count(k, rest, idx, zero, 0)))
  {
    assert Count(k, rest, idx, zero, 0) == 0;
    TimesZero(m);
  }

  lemma DenseAt(g: Vec, e: Vec, k: nat, rest: nat, idx: seq<nat>, zero: seq<nat>, m: real, j: nat)
    requires |g| == |e| && 0 < j <= |g| && rest <= k && m >= 0.0
    requires Separates(Add(g, e), idx, m) && Sparse(e, k, zero)
    requires Balanced(k as real, rest as real, SumSq(Residual(Add(g, e), idx)[..j - 1]), SumSq(g[..j - 1]),
                      Times(m, Count(k, rest, idx, zero, j - 1)))
    ensures Balanced(k as real, rest as real, SumSq(Residual(Add(g, e), idx)[..j]), SumSq(g[..j]),
                     Times(m, Count(k, rest, idx, zero, j)))
  {
    hide Sq, SumSq, Times, Kept, Residual, Balanced;
    var v := Add(g, e);
    assert j - 1 in zero ==> v[j - 1] == g[j - 1];
    LastSquares(v, idx, j);
    LastSquare(g, j);
    CountStep(k, rest, idx, zero, j);
    hide Count, Add, Sparse;
    var c, c' := Count(k, rest, idx, zero, j - 1), Count(k, rest, idx, zero, j);
    var q, a := Sq(v[j - 1]), Sq(g[j - 1]);
    DensePosition(m, k, rest, c, c', j - 1 in idx, j - 1 in zero, q, a);
    Collect(k as real, rest as real, SumSq(Residual(v, idx)[..j - 1]), if j - 1 in idx then 0.0 else q,
            SumSq(Residual(v, idx)[..j]), SumSq(g[..j - 1]), a, SumSq(g[..j]), Times(m, c), Times(m, c'));
  }

  lemma Collect(k: real, rest: real, r: real, q: real, r': real, s: real, a: real, s': real, t: real, t': real)
    requires r' == r + q && s' == s + a
    requires Balanced(k, rest, r, s, t) && k * q + t <= rest * a + t'
    ensures Balanced(k, rest, r', s', t')
  {
    assert k * r' == k * r + k * q && rest * s' == rest * s + rest * a;
  }

  /** One call: with at least half of the positions sent, k|e'|^2 <= (n - k)|g|^2, whatever was carried
      over, if that was zero on k positions. */
  lemma DenseResidual(g: Vec, e: Vec, k: nat, idx: seq<nat>, zero: seq<nat>)
    requires |g| == |e| && k >= 1 && |g| <= 2 * k && IsTopK(Add(g, e), k, idx) && Sparse(e, k, zero)
    ensures k <= |g|
    ensures Balanced(k as real, (|g| - k) as real, SumSq(Residual(Add(g, e), idx)), SumSq(g), 0.0)
  {
    hide Balanced, SumSq, Residual, Times, Add, IsTopK, Sparse, Separates, Sq;
    var n, v := |g|, Add(g, e);
    TopKSize(v, k, idx);
    AllCounted(v, e, k, idx, zero);
    hide Count;
    var m := TopKSeparates(v, k, idx);
    DensePrefix(g, e, k, n - k, idx, zero, m, n);
    TimesZero(m);
    WholeVector(Residual(v, idx));
    WholeVector(g);
  }

  lemma AllCounted(v: Vec, e: Vec, k: nat, idx: seq<nat>, zero: seq<nat>)
    requires |v| == |e| && k <= |v| && IsTopK(v, k, idx) && Sparse(e, k, zero)
    ensures Count(k, |v| - k, idx, zero, |v|) == 0
  {
    CountAll(k, |v|, idx, zero);
  }

  lemma CountAll(k: nat, n: nat, idx: seq<nat>, zero: seq<nat>)
    requires k <= n && |idx| == |zero| == k && Distinct(idx) && InRange(idx, n) && Distinct(zero) && InRange(zero, n)
    ensures Count(k, n - k, idx, zero, n) == 0
  {
    SelectedAll(idx, n);
    SelectedAll(zero, n);
  }

  lemma ZerosSparse(n: nat, k: nat)
    requires k <= n
    ensures Sparse(Zeros(n), k, seq(k, i requires i >= 0 => i))
  {
  }

  lemma ResidualSparse(v: Vec, k: nat, idx: seq<nat>)
    requires IsTopK(v, k, idx)
    ensures Sparse(Residual(v, idx), k, idx)
  {
  }

  lemma {:induction false} CarriedSparse(calls: seq<Call>, n: nat, k: nat) returns (zero: seq<nat>)
    requires Legal(calls, n, k) && k <= n
    ensures Sparse(Carried(After(calls, n, k), n), k, zero)
  {
    zero := seq(k, i requires i >= 0 => i);
    ZerosSparse(n, k);
    if calls != [] {
      hide IsTopK, Residual, Sparse;
      var before, call := calls[..|calls| - 1], calls[|calls| - 1];
      match call
      case Send(g, idx) =>
        zero := idx;
        ResidualSparse(Accumulated(g, After(before, n, k)), k, idx);
      case SendWithoutFeedback(_, _) =>
        zero := CarriedSparse(before, n, k);
      case Reset =>
    }
  }

  /** Over any run that sends at least half of the positions: k|e|^2 <= (n - k)G^2, so the residual never
      outweighs one gradient. */
  lemma {:induction false} DenseResidualBound(calls: seq<Call>, n: nat, k: nat, g2: real)
    requires Legal(calls, n, k) && 1 <= k <= n <= 2 * k && g2 >= 0.0
    requires forall c :: c in calls && c.Send? ==> SumSq(c.gradients) <= g2
    ensures Balanced(k as real, (n - k) as real, SumSq(Carried(After(calls, n, k), n)), g2, 0.0)
  {
    hide Sq, SumSq, IsTopK, Residual, Kept, Sparse, Balanced;
    var kr, rr := k as real, (n - k) as real;
    NothingBalanced(kr, rr, g2);
    if calls == [] {
      SumSqZeros(n);
    } else {
      var before, call := calls[..|calls| - 1], calls[|calls| - 1];
      DenseResidualBound(before, n, k, g2);
      var feedback := After(before, n, k);
      match call
      case Send(g, idx) =>
        assert call in calls;
        AccumulatedIsSum(g, feedback);
        var zero := CarriedSparse(before, n, k);
        DenseResidual(g, Carried(feedback, n), k, idx, zero);
        Widen(kr, rr, SumSq(Residual(Add(g, Carried(feedback, n)), idx)), SumSq(g), g2);
      case SendWithoutFeedback(_, _) =>
      case Reset =>
        SumSqZeros(n);
    }
  }

  lemma Widen(k: real, rest: real, r: real, s: real, g2: real)
    requires Balanced(k, rest, r, s, 0.0) && rest >= 0.0 && s <= g2
    ensures Balanced(k, rest, r, g2, 0.0)
  {
    ProductMono(rest, s, g2);
  }

  lemma NothingBalanced(k: real, rest: real, g2: real)
    requires rest >= 0.0 && g2 >= 0.0
    ensures Balanced(k, rest, 0.0, g2, 0.0)
  {
    ProductNonNegative(rest, g2, rest * g2);
  }
}
