/** The RDP accountant (python/gossip_rl/privacy/accountant.py) and the bisection for the noise
    multiplier (compute_sigma_for_rdp of python/gossip_rl/privacy/mechanism.py). The logarithm and the
    cost of a subsampled step are left uninterpreted. */
module SigmaSearch {
  import opened Wrappers
  import opened Vectors

  /** `ln` and `subsampled(sigma, rate, order)` are any functions. */
  datatype Calculus = Calculus(ln: real -> real, subsampled: (real, real, real) -> real)
  {
    /** The RDP of one step at one order. */
    function Cost(order: real, sigma: real, rate: real): real
      requires sigma != 0.0
    {
      if rate == 1.0 then order / (2.0 * Sq(sigma)) else subsampled(sigma, rate, order)
    }

    function StepCost(orders: seq<real>, sigma: real, rate: real): (c: Vec)
      requires sigma != 0.0
      ensures |c| == |orders|
    {
      seq(|orders|, i requires 0 <= i < |orders| => Cost(orders[i], sigma, rate))
    }

    function Offset(order: real, delta: real): real
      requires order > 1.0
    {
      (ln(delta) + ln(order)) / (1.0 - order)
    }

    /** The epsilon one order yields, if it is positive. */
    function Candidate(order: real, rdp: real, delta: real): Option<real> {
      if order <= 1.0 then None
      else
        var eps := rdp + Offset(order, delta);
        if eps > 0.0 then Some(eps) else None
    }

    /** The smallest candidate; None is infinity. */
    function Epsilon(orders: seq<real>, rdp: Vec, delta: real): Option<real>
      requires |orders| == |rdp|
    {
      if delta <= 0.0 then None else Least(orders, rdp, delta)
    }

    function Least(orders: seq<real>, rdp: Vec, delta: real): (r: Option<real>)
      requires |orders| == |rdp|
      ensures r.Some? <==> exists i :: 0 <= i < |orders| && Candidate(orders[i], rdp[i], delta).Some?
      ensures r.Some? ==> exists i :: 0 <= i < |orders| && Candidate(orders[i], rdp[i], delta) == r
      ensures r.Some? ==> forall i :: 0 <= i < |orders| && Candidate(orders[i], rdp[i], delta).Some? ==>
                r.value <= Candidate(orders[i], rdp[i], delta).value
    {
      if orders == [] then None
      else
        var n := |orders| - 1;
        var front, last := Least(orders[..n], rdp[..n], delta), Candidate(orders[n], rdp[n], delta);
        assert forall i :: 0 <= i < n ==> orders[..n][i] == orders[i] && rdp[..n][i] == rdp[i];
        if front.None? then last
        else if last.None? || front.value <= last.value then
          var i :| 0 <= i < n && Candidate(orders[..n][i], rdp[..n][i], delta) == front;
          assert Candidate(orders[i], rdp[i], delta) == front;
          front
        else last
    }

    lemma LeastOfNone(delta: real)
      ensures Least([], [], delta) == None
    {
    }

    lemma LeastStep(orders: seq<real>, rdp: Vec, delta: real, i: nat)
      requires i < |orders| == |rdp|
      ensures var front, last := Least(orders[..i], rdp[..i], delta), Candidate(orders[i], rdp[i], delta);
        Least(orders[..i + 1], rdp[..i + 1], delta) ==
        if front.None? then last
        else if last.None? || front.value <= last.value then front
        else last
    {
      assert orders[..i + 1][..i] == orders[..i] && rdp[..i + 1][..i] == rdp[..i];
    }
  }

  datatype Record = Record(noiseMultiplier: real, sampleRate: real, step: nat)

  class RdpAccountant {
    const calculus: Calculus
    const orders: seq<real>
    var rdpEpsilon: Vec
    var stepCount: nat
    var history: seq<Record>

    constructor (calculus: Calculus, orders: seq<real>)
      ensures Valid() && this.calculus == calculus && this.orders == orders
      ensures rdpEpsilon == Zeros(|orders|) && stepCount == 0 && history == []
    {
      this.calculus, this.orders := calculus, orders;
      rdpEpsilon, stepCount, history := Zeros(|orders|), 0, [];
    }

    ghost predicate Valid()
      reads this
    {
      |rdpEpsilon| == |orders| && |history| == stepCount
    }

    method ComputeRdp(sigma: real, rate: real) returns (rdp: Vec)
      requires sigma != 0.0
      ensures rdp == calculus.StepCost(orders, sigma, rate)
    {
      rdp := [];
      for i := 0 to |orders|
        invariant rdp == calculus.StepCost(orders, sigma, rate)[..i]
      {
        rdp := rdp + [if rate == 1.0 then orders[i] / (2.0 * Sq(sigma)) else calculus.subsampled(sigma, rate, orders[i])];
      }
    }

    /** Composition adds up. */
    method Step(sigma: real, rate: real)
      requires Valid() && sigma != 0.0
      modifies this
      ensures Valid() && stepCount == old(stepCount) + 1
      ensures rdpEpsilon == Add(old(rdpEpsilon), calculus.StepCost(orders, sigma, rate))
      ensures history == old(history) + [Record(sigma, rate, stepCount)]
    {
      stepCount := stepCount + 1;
      var rdp := ComputeRdp(sigma, rate);
      rdpEpsilon := Add(rdpEpsilon, rdp);
      history := history + [Record(sigma, rate, stepCount)];
    }

    method GetEpsilon(delta: real) returns (eps: Option<real>)
      requires Valid()
      ensures eps == calculus.Epsilon(orders, rdpEpsilon, delta)
    {
      hide Calculus.Least;
      if delta <= 0.0 {
        return None;
      }
      var logDelta := calculus.ln(delta);
      eps := None;
      calculus.LeastOfNone(delta);
      assert orders[..0] == [] && rdpEpsilon[..0] == [];
      for i := 0 to |orders|
        invariant eps == calculus.Least(orders[..i], rdpEpsilon[..i], delta)
      {
        calculus.LeastStep(orders, rdpEpsilon, delta, i);
        var alpha := orders[i];
        if alpha <= 1.0 {
          continue;
        }
        var e := rdpEpsilon[i] + (logDelta + calculus.ln(alpha)) / (1.0 - alpha);
        if e > 0.0 {
          eps := if eps.None? || e < eps.value then Some(e) else eps;
        }
      }
      assert orders[..|orders|] == orders && rdpEpsilon[..|orders|] == rdpEpsilon;
    }
  }

  /** What the search is for. */
  datatype Goal = Goal(calculus: Calculus, orders: seq<real>, rate: real, epsilon: real, delta: real, steps: nat)
  {
    /** `steps` steps at this noise cost `steps` times one. */
    function Spent(sigma: real): (rdp: Vec)
      requires sigma != 0.0
      ensures |rdp| == |orders|
    {
      Scale(steps as real, calculus.StepCost(orders, sigma, rate))
    }

    predicate Met(sigma: real)
      requires sigma != 0.0
    {
      var eps := calculus.Epsilon(orders, Spent(sigma), delta);
      eps.Some? && eps.value <= epsilon
    }
  }

  lemma ScaleStep(k: real, c: Vec)
    ensures Add(Scale(k, c), c) == Scale(k + 1.0, c)
  {
    forall i | 0 <= i < |c|
      ensures Add(Scale(k, c), c)[i] == Scale(k + 1.0, c)[i]
    {
      OneMore(k, c[i]);
    }
  }

  lemma OneMore(k: real, x: real)
    ensures k * x + x == (k + 1.0) * x
  {
  }

  /** check_sigma: a fresh accountant, stepped `steps` times. */
  method CheckSigma(goal: Goal, sigma: real) returns (met: bool)
    requires sigma != 0.0
    ensures met <==> goal.Met(sigma)
  {
    var accountant := new RdpAccountant(goal.calculus, goal.orders);
    ghost var cost := goal.calculus.StepCost(goal.orders, sigma, goal.rate);
    assert Zeros(|cost|) == Scale(0.0, cost);
    for k := 0 to goal.steps
      invariant accountant.Valid() && accountant.stepCount == k
      invariant accountant.rdpEpsilon == Scale(k as real, cost)
    {
      accountant.Step(sigma, goal.rate);
      ScaleStep(k as real, cost);
    }
    var eps := accountant.GetEpsilon(goal.delta);
    return eps.Some? && eps.value <= goal.epsilon;
  }

  const LOWEST: real := 0.1

  /** `low` is the 0.1 floor or misses the goal. */
  ghost predicate Misses(goal: Goal, low: real) {
    low == 0.1 || (low > 0.0 && !goal.Met(low))
  }

  /** How often the gap can still be halved. */
  ghost function Rounds(gap: real, tolerance: real): nat
    requires tolerance > 0.0
  {
    var n := (gap / tolerance).Floor;
    if n > 0 then n else 0
  }

  lemma Halving(gap: real, half: real, tolerance: real)
    requires gap > tolerance > 0.0 && half + half == gap
    ensures Rounds(half, tolerance) < Rounds(gap, tolerance)
  {
    var x, y := gap / tolerance, half / tolerance;
    assert x * tolerance == gap && y * tolerance == half;
    if x <= 1.0 {
      ProductMono(tolerance, x, 1.0);
    }
    assert x == y + y by {
      assert (x - y - y) * tolerance == 0.0;
    }
  }

  /** Not above sigma, and at most the tolerance below it, lies the floor or a sigma that misses. */
  ghost predicate NearMiss(goal: Goal, sigma: real, tolerance: real) {
    exists low :: Misses(goal, low) && low <= sigma <= low + tolerance
  }

  /** Ends for every positive tolerance. The result meets the goal unless it is max_sigma itself, and lies
      within the tolerance above a sigma that misses the goal or the 0.1 floor. Nothing is assumed
      about how the goal depends on sigma. */
  method ComputeSigma(goal: Goal, maxSigma: real, tolerance: real) returns (sigma: real)
    requires tolerance > 0.0
    ensures sigma == maxSigma || (sigma > 0.0 && goal.Met(sigma))
    ensures 0.1 <= maxSigma ==> NearMiss(goal, sigma, tolerance) && 0.1 <= sigma <= maxSigma
    ensures maxSigma < 0.1 ==> sigma == maxSigma
  {
    hide Goal.Met, Rounds;
    var low, high := LOWEST, maxSigma;
    while high - low > tolerance
      invariant Misses(goal, low) && low >= LOWEST
      invariant high == maxSigma || (high > 0.0 && goal.Met(high))
      invariant LOWEST <= maxSigma ==> low <= high <= maxSigma
      invariant maxSigma < LOWEST ==> high == maxSigma
      decreases Rounds(high - low, tolerance)
    {
      var mid := (low + high) / 2.0;
      Halving(high - low, mid - low, tolerance);
      assert high - mid == mid - low;
      var met := CheckSigma(goal, mid);
      if met {
        high := mid;
      } else {
        low := mid;
      }
    }
    return high;
  }

  // ---- The formulas ----

  /** The epsilon of one order: rdp + log(1/delta)/(order - 1) - log(order)/(order - 1). */
  ghost function Formula(c: Calculus, order: real, rdp: real, delta: real): real
    requires order > 1.0
  {
    rdp - c.ln(delta) / (order - 1.0) - c.ln(order) / (order - 1.0)
  }

  lemma OffsetIs(c: Calculus, order: real, rdp: real, delta: real)
    requires order > 1.0
    ensures rdp + c.Offset(order, delta) == Formula(c, order, rdp, delta)
  {
    Opposite(c.ln(delta), c.ln(order), order - 1.0, c.Offset(order, delta));
  }

  lemma Opposite(a: real, b: real, w: real, q: real)
    requires w > 0.0 && q * (0.0 - w) == a + b
    ensures q == 0.0 - a / w - b / w
  {
    var x, y := a / w, b / w;
    assert x * w == a && y * w == b;
    assert (q + x + y) * w == 0.0;
  }

  /** get_epsilon is the least positive value of the formula over the orders above 1. */
  lemma EpsilonExactly(c: Calculus, orders: seq<real>, rdp: Vec, delta: real, bound: real)
    requires |orders| == |rdp|
    ensures var r := c.Epsilon(orders, rdp, delta);
      r.Some? && r.value <= bound <==>
      delta > 0.0 && exists i :: 0 <= i < |orders| && orders[i] > 1.0 && 0.0 < Formula(c, orders[i], rdp[i], delta) <= bound
  {
    hide Calculus.Offset, Formula;
    forall i | 0 <= i < |orders| && orders[i] > 1.0
      ensures rdp[i] + c.Offset(orders[i], delta) == Formula(c, orders[i], rdp[i], delta)
    {
      OffsetIs(c, orders[i], rdp[i], delta);
    }
    var r := c.Epsilon(orders, rdp, delta);
    if r.Some? && r.value <= bound {
      var i :| 0 <= i < |orders| && c.Candidate(orders[i], rdp[i], delta) == r;
      assert orders[i] > 1.0 && 0.0 < Formula(c, orders[i], rdp[i], delta) <= bound;
    }
    if i :| delta > 0.0 && 0 <= i < |orders| && orders[i] > 1.0 && 0.0 < Formula(c, orders[i], rdp[i], delta) <= bound {
      assert c.Candidate(orders[i], rdp[i], delta).Some?;
    }
  }

  /** The cost of one step at one order. */
  lemma CostIs(c: Calculus, order: real, sigma: real, rate: real)
    requires sigma != 0.0
    ensures c.Cost(order, sigma, rate) ==
      if rate == 1.0 then order / (2.0 * (sigma * sigma)) else c.subsampled(sigma, rate, order)
  {
  }

  /** What one order has cost after all steps. */
  ghost function TotalCost(goal: Goal, sigma: real, i: nat): real
    requires sigma != 0.0 && i < |goal.orders|
  {
    goal.steps as real * goal.calculus.Cost(goal.orders[i], sigma, goal.rate)
  }

  lemma SpentIs(goal: Goal, sigma: real, i: nat)
    requires sigma != 0.0 && i < |goal.orders|
    ensures goal.Spent(sigma)[i] == TotalCost(goal, sigma, i)
  {
  }

  ghost predicate MeetsAt(goal: Goal, sigma: real, i: nat)
    requires sigma != 0.0 && i < |goal.orders|
  {
    && goal.orders[i] > 1.0
    && 0.0 < Formula(goal.calculus, goal.orders[i], TotalCost(goal, sigma, i), goal.delta) <= goal.epsilon
  }

  /** A sigma meets the goal exactly when some order's formula, fed with `steps` times the cost of a step,
      is positive and at most the target. */
  lemma MetExactly(goal: Goal, sigma: real)
    requires sigma != 0.0
    ensures goal.Met(sigma) <==>
      goal.delta > 0.0 && exists i :: 0 <= i < |goal.orders| && MeetsAt(goal, sigma, i)
  {
    hide Calculus.Cost, Formula, Calculus.Epsilon, TotalCost, Goal.Spent;
    EpsilonExactly(goal.calculus, goal.orders, goal.Spent(sigma), goal.delta, goal.epsilon);
    var c, spent := goal.calculus, goal.Spent(sigma);
    forall i | 0 <= i < |goal.orders| && goal.orders[i] > 1.0
      ensures MeetsAt(goal, sigma, i) <==> 0.0 < Formula(c, goal.orders[i], spent[i], goal.delta) <= goal.epsilon
    {
      SpentIs(goal, sigma, i);
    }
    if i :| 0 <= i < |goal.orders| && MeetsAt(goal, sigma, i) {
      assert 0.0 < Formula(c, goal.orders[i], spent[i], goal.delta) <= goal.epsilon;
    }
    if i :| 0 <= i < |goal.orders| && goal.orders[i] > 1.0 && 0.0 < Formula(c, goal.orders[i], spent[i], goal.delta) <= goal.epsilon {
      assert MeetsAt(goal, sigma, i);
    }
  }
}
