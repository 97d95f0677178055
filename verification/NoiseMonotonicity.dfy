/** When more noise never hurts: whether epsilon falls as sigma grows, for full batches
    (accountant.py's branch without subsampling), and what that gives the bisection. */
module NoiseMonotonicity {
  import opened Wrappers
  import opened Vectors
  import opened SigmaSearch

  /** A sigma that meets the goal is never followed by one that misses it. */
  ghost predicate UpwardClosed(goal: Goal) {
    forall a, b :: 0.0 < a <= b && goal.Met(a) ==> goal.Met(b)
  }

  /** Enough noise makes the value of this order negative, and get_epsilon then drops the order. */
  predicate Drops(goal: Goal, i: nat)
    requires i < |goal.orders|
  {
    goal.delta > 0.0 && goal.steps > 0 && goal.orders[i] > 1.0 && goal.calculus.Offset(goal.orders[i], goal.delta) < 0.0
  }

  predicate KeepsAllOrders(goal: Goal) {
    forall i :: 0 <= i < |goal.orders| ==> !Drops(goal, i)
  }

  /** What the proofs use of the logarithm. */
  ghost predicate LogSigns(ln: real -> real) {
    forall x, y :: x > 0.0 && y > 0.0 ==> LogSign(ln, x, y)
  }

  ghost predicate LogSign(ln: real -> real, x: real, y: real) {
    ln(x) + ln(y) > 0.0 <==> x * y > 1.0
  }

  /** A function with these signs, simpler than the logarithm. */
  function SignLog(x: real): real {
    if x > 0.0 then x - 1.0 / x else 0.0
  }

  lemma LogSignsHold()
    ensures LogSigns(SignLog)
  {
    forall x, y | x > 0.0 && y > 0.0
      ensures LogSign(SignLog, x, y)
    {
      SignOfSum(x, y, 1.0 / x, 1.0 / y, x * y, SignLog(x) + SignLog(y));
    }
  }

  lemma SignOfSum(x: real, y: real, p: real, q: real, m: real, s: real)
    requires x > 0.0 && y > 0.0 && p * x == 1.0 && q * y == 1.0 && m == x * y && s == x + y - p - q
    ensures s > 0.0 <==> m > 1.0
  {
    var w := x + y;
    ProductPositive(x, y, m);
    assert m * p == y && m * q == x by {
      assert m * p == y * (p * x) && m * q == x * (q * y);
    }
    var left, right := m * s, w * (m - 1.0);
    assert left == m * w - m * p - m * q;
    assert right == m * w - w;
    assert left == right;
    if m > 1.0 {
      ProductPositive(w, m - 1.0, right);
      if s <= 0.0 {
        ProductNonNegative(m, 0.0 - s, 0.0 - left);
      }
    } else {
      ProductNonNegative(w, 1.0 - m, 0.0 - right);
      if s > 0.0 {
        ProductPositive(m, s, left);
      }
    }
  }

  function Epsilon(goal: Goal, sigma: real): Option<real>
    requires sigma != 0.0
  {
    goal.calculus.Epsilon(goal.orders, goal.Spent(sigma), goal.delta)
  }

  // ---- One order ----

  /** The total cost of an order is (steps * order / 2) / sigma^2. */
  lemma SpentAt(goal: Goal, sigma: real, i: nat, k: real)
    requires goal.rate == 1.0 && sigma > 0.0 && i < |goal.orders| && k == goal.steps as real * goal.orders[i] / 2.0
    ensures Sq(sigma) > 0.0 && goal.Spent(sigma)[i] == k / Sq(sigma)
  {
    SquarePositive(sigma, Sq(sigma));
    Fraction(goal.steps as real, goal.orders[i], Sq(sigma), k);
  }

  lemma Fraction(n: real, o: real, s: real, k: real)
    requires s > 0.0 && k == n * o / 2.0
    ensures n * (o / (2.0 * s)) == k / s
  {
    var q := o / (2.0 * s);
    assert q * (2.0 * s) == o;
    assert (n * q) * s == k;
  }

  lemma QuotientOrder(k: real, s: real, t: real)
    requires k > 0.0 && 0.0 < s <= t
    ensures 0.0 < k / t <= k / s
  {
    var p, q := k / s, k / t;
    assert p * s == k && q * t == k;
    if q <= 0.0 {
      ProductMono(t, q, 0.0);
    }
    if q > p {
      ProductMono(s, p, q);
      ProductMono(q, s, t);
      ProductPositive(s, q - p, s * q - s * p);
    }
  }

  lemma SquareGrows(a: real, b: real)
    requires 0.0 < a <= b
    ensures Sq(a) <= Sq(b)
  {
    assert Sq(b) - Sq(a) == (b - a) * (b + a);
    ProductNonNegative(b - a, b + a, Sq(b) - Sq(a));
  }

  lemma SquareReflects(a: real, b: real)
    requires a > 0.0 && b > 0.0 && Sq(a) < Sq(b)
    ensures a < b
  {
    if b <= a {
      SquareGrows(b, a);
    }
  }

  // ---- No order is dropped: epsilon falls ----

  lemma CandidateFalls(goal: Goal, a: real, b: real, i: nat)
    requires goal.rate == 1.0 && 0.0 < a <= b && i < |goal.orders| && !Drops(goal, i) && goal.delta > 0.0 && goal.steps > 0
    requires goal.orders[i] > 1.0
    ensures var p := goal.calculus.Candidate(goal.orders[i], goal.Spent(a)[i], goal.delta);
      var q := goal.calculus.Candidate(goal.orders[i], goal.Spent(b)[i], goal.delta);
      p.Some? && q.Some? && q.value <= p.value
  {
    var n, o := goal.steps as real, goal.orders[i];
    var k := n * o / 2.0;
    ProductPositive(n, o, n * o);
    SpentAt(goal, a, i, k);
    SpentAt(goal, b, i, k);
    SquareGrows(a, b);
    QuotientOrder(k, Sq(a), Sq(b));
  }

  lemma EpsilonFalls(goal: Goal, a: real, b: real)
    requires goal.rate == 1.0 && KeepsAllOrders(goal) && 0.0 < a <= b
    ensures Epsilon(goal, a).Some? ==> Epsilon(goal, b).Some? && Epsilon(goal, b).value <= Epsilon(goal, a).value
  {
    hide Calculus.Offset, Calculus.Least, Goal.Spent;
    var c := goal.calculus;
    if goal.steps == 0 {
      NothingSpent(goal, a, b);
    } else if Epsilon(goal, a).Some? {
      LeastMeaning(c, goal.orders, goal.Spent(a), goal.delta);
      LeastMeaning(c, goal.orders, goal.Spent(b), goal.delta);
      var i :| 0 <= i < |goal.orders|
        && c.Candidate(goal.orders[i], goal.Spent(a)[i], goal.delta) == Epsilon(goal, a);
      CandidateFalls(goal, a, b, i);
    }
  }

  lemma NothingSpent(goal: Goal, a: real, b: real)
    requires goal.steps == 0 && a > 0.0 && b > 0.0
    ensures goal.Spent(a) == goal.Spent(b)
  {
    var ca, cb := goal.calculus.StepCost(goal.orders, a, goal.rate), goal.calculus.StepCost(goal.orders, b, goal.rate);
    forall i | 0 <= i < |goal.orders|
      ensures goal.Spent(a)[i] == goal.Spent(b)[i]
    {
      assert 0.0 * ca[i] == 0.0 && 0.0 * cb[i] == 0.0;
    }
  }

  lemma LeastMeaning(c: Calculus, orders: seq<real>, rdp: Vec, delta: real)
    requires |orders| == |rdp|
    ensures var r := c.Least(orders, rdp, delta);
      && (r.Some? <==> exists i :: 0 <= i < |orders| && c.Candidate(orders[i], rdp[i], delta).Some?)
      && (r.Some? ==> exists i :: 0 <= i < |orders| && c.Candidate(orders[i], rdp[i], delta) == r)
      && (r.Some? ==> r.value > 0.0)
      && (r.Some? ==> forall i :: 0 <= i < |orders| && c.Candidate(orders[i], rdp[i], delta).Some? ==>
            r.value <= c.Candidate(orders[i], rdp[i], delta).value)
  {
  }

  // ---- A dropped order: epsilon jumps ----

  /** Between two different non-negative reals lies a square. */
  lemma RootBetween(u: real, v: real) returns (r: real)
    requires 0.0 <= u < v
    ensures r > 0.0 && u < Sq(r) < v
  {
    var top := v + 1.0;
    var tolerance := (v - u) / (2.0 * top);
    assert tolerance * (2.0 * top) == v - u;
    RootBounds(v, tolerance, v - u);
    var lo, hi := 0.0, top;
    while true
      invariant 0.0 <= lo < hi <= top && Sq(lo) <= u && v <= Sq(hi)
      decreases Rounds(hi - lo, tolerance)
    {
      r := (lo + hi) / 2.0;
      if u < Sq(r) < v {
        return;
      }
      Apart(lo, hi, top, tolerance, v - u);
      Halving(hi - lo, r - lo, tolerance);
      if Sq(r) <= u {
        lo := r;
      } else {
        hi := r;
      }
      assert hi - lo == hi - r + r - lo;
    }
  }

  lemma RootBounds(v: real, tolerance: real, gap: real)
    requires v > 0.0 && gap > 0.0 && tolerance * (2.0 * (v + 1.0)) == gap
    ensures Sq(0.0) == 0.0 && v <= Sq(v + 1.0) && tolerance > 0.0
  {
    assert Sq(v + 1.0) == v * v + 2.0 * v + 1.0;
    if tolerance <= 0.0 {
      ProductMono(2.0 * (v + 1.0), tolerance, 0.0);
    }
  }

  lemma Apart(lo: real, hi: real, top: real, tolerance: real, gap: real)
    requires 0.0 <= lo < hi <= top && Sq(hi) - Sq(lo) >= gap && tolerance * (2.0 * top) == gap
    ensures hi - lo > tolerance
  {
    var d, s := hi - lo, hi + lo;
    assert Sq(hi) - Sq(lo) == d * s;
    ProductPositive(d, 2.0 * top - s, d * (2.0 * top) - d * s);
    if d <= tolerance {
      ProductMono(2.0 * top, d, tolerance);
    }
  }

  /** If some order is dropped, there are two noise levels of which the larger has the larger epsilon. */
  lemma EpsilonJumps(goal: Goal, i: nat) returns (a: real, b: real)
    requires goal.rate == 1.0 && i < |goal.orders| && Drops(goal, i)
    ensures 0.0 < a < b && Epsilon(goal, a).Some?
    ensures Epsilon(goal, b).Some? ==> Epsilon(goal, a).value < Epsilon(goal, b).value
  {
    hide Calculus.Least, Goal.Spent, Calculus.Offset;
    var c, n, o := goal.calculus, goal.steps as real, goal.orders[i];
    var k, d := n * o / 2.0, 0.0 - c.Offset(o, goal.delta);
    ProductPositive(n, o, n * o);
    b := 1.0 + k / d;
    Beyond(k, d, b);
    var jump := Epsilon(goal, b);
    LeastMeaning(c, goal.orders, goal.Spent(b), goal.delta);
    var m := if jump.Some? then jump.value else 1.0;
    QuotientBelow(k, d, d + m);
    a := RootBetween(k / (d + m), k / d);
    SpentAt(goal, a, i, k);
    Within(k, d, m, Sq(a));
    LeastMeaning(c, goal.orders, goal.Spent(a), goal.delta);
    assert c.Candidate(o, goal.Spent(a)[i], goal.delta) == Some(k / Sq(a) - d);
    SquareReflects(a, b);
  }

  lemma Beyond(k: real, d: real, b: real)
    requires k > 0.0 && d > 0.0 && b == 1.0 + k / d
    ensures b > 1.0 && Sq(b) > k / d
  {
    var q := k / d;
    assert q * d == k;
    if q <= 0.0 {
      ProductMono(d, q, 0.0);
    }
    assert Sq(b) == 1.0 + 2.0 * q + q * q;
    ProductNonNegative(q, q, q * q);
  }

  lemma QuotientBelow(k: real, d: real, e: real)
    requires k > 0.0 && 0.0 < d < e
    ensures 0.0 < k / e < k / d
  {
    QuotientOrder(k, d, e);
    var p, q := k / d, k / e;
    assert p * d == k && q * e == k;
    ProductPositive(p, e - d, p * e - p * d);
  }

  lemma Within(k: real, d: real, m: real, s: real)
    requires k > 0.0 && d > 0.0 && m > 0.0 && s > 0.0 && k / (d + m) < s < k / d
    ensures d < k / s < d + m
  {
    var p, q, r := k / (d + m), k / d, k / s;
    assert p * (d + m) == k && q * d == k && r * s == k;
    ProductPositive(d, q - s, d * q - d * s);
    ProductPositive(d + m, s - p, (d + m) * s - (d + m) * p);
    if r <= d {
      ProductMono(s, r, d);
    }
    if r >= d + m {
      ProductMono(s, d + m, r);
    }
  }

  // ---- The exact condition ----

  /** Without subsampling, more noise never loses a met target, whatever the target, exactly when no
      order's value can become negative. */
  lemma MonotoneExactly(goal: Goal)
    requires goal.rate == 1.0
    ensures (forall epsilon :: UpwardClosed(goal.(epsilon := epsilon))) <==> KeepsAllOrders(goal)
  {
    if KeepsAllOrders(goal) {
      forall epsilon
        ensures UpwardClosed(goal.(epsilon := epsilon))
      {
        SameOrders(goal, goal.(epsilon := epsilon));
        MonotoneIfKept(goal.(epsilon := epsilon));
      }
    } else {
      var i :| 0 <= i < |goal.orders| && Drops(goal, i);
      var a, b := EpsilonJumps(goal, i);
      var missed := goal.(epsilon := Epsilon(goal, a).value);
      SameEpsilon(goal, missed, a);
      SameEpsilon(goal, missed, b);
      assert missed.Met(a) && !missed.Met(b);
      assert !UpwardClosed(missed);
    }
  }

  lemma SameOrders(goal: Goal, other: Goal)
    requires other == goal.(epsilon := other.epsilon) && KeepsAllOrders(goal)
    ensures KeepsAllOrders(other)
  {
    forall i | 0 <= i < |other.orders|
      ensures !Drops(other, i)
    {
      assert !Drops(goal, i);
    }
  }

  lemma SameEpsilon(goal: Goal, other: Goal, sigma: real)
    requires other == goal.(epsilon := other.epsilon) && sigma > 0.0
    ensures Epsilon(goal, sigma) == Epsilon(other, sigma)
  {
  }

  lemma MonotoneIfKept(goal: Goal)
    requires goal.rate == 1.0 && KeepsAllOrders(goal)
    ensures UpwardClosed(goal)
  {
    hide Goal.Spent, Calculus.Epsilon;
    forall a, b | 0.0 < a <= b && goal.Met(a)
      ensures goal.Met(b)
    {
      EpsilonFalls(goal, a, b);
    }
  }

  /** In the caller's terms: the product of an order above 1 and delta must not exceed 1. */
  lemma DropsExactly(goal: Goal, i: nat)
    requires LogSigns(goal.calculus.ln) && i < |goal.orders|
    ensures Drops(goal, i) <==>
      goal.delta > 0.0 && goal.steps > 0 && goal.orders[i] > 1.0 && Exceeds(goal.orders[i], goal.delta)
  {
    if goal.orders[i] > 1.0 && goal.delta > 0.0 {
      OffsetSign(goal.calculus, goal.orders[i], goal.delta);
    }
  }

  predicate Exceeds(order: real, delta: real) {
    order * delta > 1.0
  }

  lemma OffsetSign(c: Calculus, o: real, d: real)
    requires LogSigns(c.ln) && o > 1.0 && d > 0.0
    ensures c.Offset(o, d) < 0.0 <==> Exceeds(o, d)
  {
    var s, q := c.ln(d) + c.ln(o), c.Offset(o, d);
    assert LogSign(c.ln, o, d);
    assert q * (1.0 - o) == s;
    NegativeQuotient(s, o - 1.0, q);
  }

  lemma NegativeQuotient(s: real, w: real, q: real)
    requires w > 0.0 && q * (0.0 - w) == s
    ensures q < 0.0 <==> s > 0.0
  {
    if q < 0.0 {
      ProductPositive(0.0 - q, w, s);
    } else {
      ProductNonNegative(q, w, 0.0 - s);
    }
  }

  /** The bisection's result then exceeds no sigma that meets the target by more than the tolerance. */
  lemma NearlyOptimal(goal: Goal, sigma: real, tolerance: real)
    requires goal.rate == 1.0 && KeepsAllOrders(goal)
    ensures NearMiss(goal, sigma, tolerance) ==> forall s :: s >= LOWEST && goal.Met(s) ==> sigma <= s + tolerance
  {
    hide Goal.Met;
    MonotoneIfKept(goal);
    if low :| Misses(goal, low) && low <= sigma <= low + tolerance {
      forall s | s >= LOWEST && goal.Met(s)
        ensures sigma <= s + tolerance
      {
        assert low > 0.0 && s <= low && goal.Met(s) ==> goal.Met(low);
      }
    }
  }
}
