/** compute_advantages of python/gossip_rl/training/ppo.py, before its final normalisation. */
module Gae {
  import opened Vectors

  datatype Rollout = Rollout(
    rewards: seq<real>,
    values: seq<real>,
    dones: seq<bool>,
    lastValue: real,
    gamma: real,
    lambda: real)
  {
    predicate Valid() {
      |rewards| == |values| == |dones|
    }

    /** The value estimate at t; past the end, the bootstrap value. */
    function ValueAt(t: nat): real
      requires Valid() && t <= |values|
    {
      if t < |values| then values[t] else lastValue
    }

    function NonTerminal(t: nat): real
      requires t < |dones|
    {
      if dones[t] then 0.0 else 1.0
    }

    /** The TD error. */
    function Delta(t: nat): real
      requires Valid() && t < |rewards|
    {
      rewards[t] + gamma * ValueAt(t + 1) * NonTerminal(t) - values[t]
    }

    function Damping(t: nat): real
      requires t < |dones|
    {
      gamma * lambda * NonTerminal(t)
    }

    /** The value `last_gae` takes at t in the backward loop. */
    function Advantage(t: nat): real
      requires Valid() && t <= |rewards|
      decreases |rewards| - t
    {
      if t == |rewards| then 0.0
      else Delta(t) + Damping(t) * Advantage(t + 1)
    }

    /** The product of γλ·(1 − done) over [t, t + l). */
    ghost function Weight(t: nat, l: nat): real
      requires t + l <= |dones|
    {
      if l == 0 then 1.0 else Weight(t, l - 1) * Damping(t + l - 1)
    }

    /** The first h terms of the forward sum from t. */
    ghost function ForwardSum(t: nat, h: nat): real
      requires Valid() && t + h <= |rewards|
    {
      if h == 0 then 0.0 else ForwardSum(t, h - 1) + Weight(t, h - 1) * Delta(t + h - 1)
    }

    ghost function RewardSum(t: nat, h: nat): real
      requires Valid() && t + h <= |rewards|
    {
      if h == 0 then 0.0 else RewardSum(t, h - 1) + Weight(t, h - 1) * rewards[t + h - 1]
    }

    function Return(t: nat): real
      requires Valid() && t <= |rewards|
    {
      Advantage(t) + ValueAt(t)
    }
  }

  method ComputeAdvantages(b: Rollout) returns (advantages: array<real>, returns_: array<real>)
    requires b.Valid()
    ensures advantages.Length == returns_.Length == |b.rewards|
    ensures forall t :: 0 <= t < |b.rewards| ==> advantages[t] == b.ForwardSum(t, |b.rewards| - t)
    ensures forall t :: 0 <= t < |b.rewards| ==> returns_[t] == b.Return(t) == advantages[t] + b.values[t]
  {
    hide Rollout.Advantage, Rollout.Delta, Rollout.ForwardSum, Rollout.Weight;
    var n := |b.rewards|;
    BackwardEnd(b);
    advantages := new real[n](_ => 0.0);
    var lastGae := 0.0;
    for t := n downto 0
      invariant lastGae == b.Advantage(t)
      invariant forall s :: t <= s < n ==> advantages[s] == b.Advantage(s)
    {
      var nextValue := if t == n - 1 then b.lastValue else b.values[t + 1];
      var nextNonTerminal := if b.dones[t] then 0.0 else 1.0;
      var delta := b.rewards[t] + b.gamma * nextValue * nextNonTerminal - b.values[t];
      ghost var before := lastGae;
      lastGae := delta + b.gamma * b.lambda * nextNonTerminal * lastGae;
      BackwardStep(b, t, nextValue, nextNonTerminal, delta, before, lastGae);
      advantages[t] := lastGae;
    }
    returns_ := new real[n](t requires 0 <= t < n && advantages.Length == n && b.Valid() && n == |b.rewards| reads advantages =>
      advantages[t] + b.values[t]);
    forall t | 0 <= t < n
      ensures advantages[t] == b.ForwardSum(t, n - t)
    {
      BackwardIsForward(b, t);
    }
  }

  lemma BackwardEnd(b: Rollout)
    requires b.Valid()
    ensures b.Advantage(|b.rewards|) == 0.0
  {
  }

  lemma BackwardStep(b: Rollout, t: nat, next: real, nt: real, delta: real, before: real, after: real)
    requires b.Valid() && t < |b.rewards| && next == b.ValueAt(t + 1) && nt == b.NonTerminal(t)
    requires delta == b.rewards[t] + b.gamma * next * nt - b.values[t]
    requires before == b.Advantage(t + 1) && after == delta + b.gamma * b.lambda * nt * before
    ensures after == b.Advantage(t)
  {
  }

  lemma {:induction false} Unroll(b: Rollout, t: nat, h: nat)
    requires b.Valid() && t + h <= |b.rewards|
    ensures b.Advantage(t) == b.ForwardSum(t, h) + b.Weight(t, h) * b.Advantage(t + h)
  {
    hide Rollout.Delta, Rollout.Damping;
    if h == 0 {
      TimesOne(b.Weight(t, 0), b.Advantage(t));
    } else {
      var s := t + h - 1;
      Unroll(b, t, h - 1);
      UnrollStep(b.Weight(t, h - 1), b.Damping(s), b.Weight(t, h), b.Delta(s), b.Advantage(s + 1), b.Advantage(s));
    }
  }

  lemma TimesOne(w: real, a: real)
    requires w == 1.0
    ensures w * a == a
  {
  }

  lemma UnrollStep(w: real, g: real, w': real, d: real, next: real, a: real)
    requires a == d + g * next && w' == w * g
    ensures w * a == w * d + w' * next
  {
    assert w * (g * next) == (w * g) * next;
  }

  /** The backward recursion equals the forward discounted sum of TD errors. */
  lemma BackwardIsForward(b: Rollout, t: nat)
    requires b.Valid() && t <= |b.rewards|
    ensures b.Advantage(t) == b.ForwardSum(t, |b.rewards| - t)
  {
    Unroll(b, t, |b.rewards| - t);
  }

  ghost function Pow(x: real, l: nat): real {
    if l == 0 then 1.0 else Pow(x, l - 1) * x
  }

  lemma DampingCases(b: Rollout, t: nat)
    requires t < |b.dones|
    ensures b.Damping(t) == if b.dones[t] then 0.0 else b.gamma * b.lambda
  {
  }

  /** The sum is cut at the first episode end: weights are (γλ)^l up to it and 0 after it. */
  lemma {:induction false} WeightCut(b: Rollout, t: nat, l: nat)
    requires t + l <= |b.dones|
    ensures (forall m :: t <= m < t + l ==> !b.dones[m]) ==> b.Weight(t, l) == Pow(b.gamma * b.lambda, l)
    ensures (exists m :: t <= m < t + l && b.dones[m]) ==> b.Weight(t, l) == 0.0
  {
    if l > 0 {
      WeightCut(b, t, l - 1);
      DampingCases(b, t + l - 1);
    }
  }

  /** returns[t] = r + γ·nt·((1 − λ)V[t+1] + λ·returns[t+1]), with V and returns past the end
      both the bootstrap value. */
  lemma ReturnRecursion(b: Rollout, t: nat)
    requires b.Valid() && t < |b.rewards|
    ensures b.Return(t) == b.rewards[t]
      + b.gamma * b.NonTerminal(t) * ((1.0 - b.lambda) * b.ValueAt(t + 1) + b.lambda * b.Return(t + 1))
  {
    ReturnAlgebra(b.gamma, b.NonTerminal(t), b.lambda, b.ValueAt(t + 1), b.Advantage(t + 1));
  }

  lemma ReturnAlgebra(g: real, nt: real, l: real, v: real, a: real)
    ensures g * v * nt + g * l * nt * a == g * nt * ((1.0 - l) * v + l * (a + v))
  {
  }

  /** With λ = 1 the returns telescope to the discounted rewards plus the bootstrap. */
  lemma {:induction false} MonteCarlo(b: Rollout, t: nat, h: nat)
    requires b.Valid() && b.lambda == 1.0 && t + h <= |b.rewards|
    ensures b.Return(t) == b.RewardSum(t, h) + b.Weight(t, h) * b.Return(t + h)
  {
    hide Rollout.Return, Rollout.Damping;
    if h == 0 {
      TimesOne(b.Weight(t, 0), b.Return(t));
    } else {
      var s := t + h - 1;
      MonteCarlo(b, t, h - 1);
      MonteCarloStep(b, s);
      UnrollStep(b.Weight(t, h - 1), b.Damping(s), b.Weight(t, h), b.rewards[s], b.Return(s + 1), b.Return(s));
    }
  }

  lemma MonteCarloStep(b: Rollout, t: nat)
    requires b.Valid() && b.lambda == 1.0 && t < |b.rewards|
    ensures b.Return(t) == b.rewards[t] + b.Damping(t) * b.Return(t + 1)
  {
    hide Rollout.Return;
    ReturnRecursion(b, t);
    MonteCarloAlgebra(b.gamma, b.lambda, b.NonTerminal(t), b.ValueAt(t + 1), b.Return(t + 1));
  }

  lemma MonteCarloAlgebra(g: real, l: real, nt: real, v: real, r: real)
    requires l == 1.0
    ensures g * nt * ((1.0 - l) * v + l * r) == g * l * nt * r
  {
    assert (1.0 - l) * v == 0.0 && l * r == r && g * l == g;
  }

  lemma SameProduct(w: real, x: real, y: real)
    requires x == y
    ensures w * x == w * y
  {
  }

  lemma ReturnAtEnd(b: Rollout)
    requires b.Valid()
    ensures b.Return(|b.rewards|) == b.lastValue
  {
  }

  lemma MonteCarloReturn(b: Rollout, t: nat)
    requires b.Valid() && b.lambda == 1.0 && t <= |b.rewards|
    ensures b.Return(t) == b.RewardSum(t, |b.rewards| - t) + b.Weight(t, |b.rewards| - t) * b.lastValue
  {
    ReturnAtEnd(b);
    hide Rollout.Return, Rollout.Weight, Rollout.RewardSum;
    MonteCarlo(b, t, |b.rewards| - t);
    SameProduct(b.Weight(t, |b.rewards| - t), b.Return(|b.rewards|), b.lastValue);
  }

  /** Nothing after an episode end reaches an earlier advantage: two rollouts that agree up to
      and including a done step, whatever follows, have the same advantages up to it. */
  lemma {:induction false} EpisodesAreIndependent(b: Rollout, c: Rollout, done: nat, t: nat)
    requires b.Valid() && c.Valid() && b.gamma == c.gamma && b.lambda == c.lambda
    requires t <= done < |b.rewards| && done < |c.rewards|
    requires b.rewards[..done + 1] == c.rewards[..done + 1]
    requires b.values[..done + 1] == c.values[..done + 1]
    requires b.dones[..done + 1] == c.dones[..done + 1]
    requires b.dones[done]
    ensures b.Advantage(t) == c.Advantage(t)
    decreases done - t
  {
    assert b.rewards[..done + 1][t] == c.rewards[..done + 1][t];
    assert b.values[..done + 1][t] == c.values[..done + 1][t];
    assert b.dones[..done + 1][t] == c.dones[..done + 1][t];
    if t == done {
      ZeroProducts(b.gamma, b.lambda, b.ValueAt(t + 1), b.Advantage(t + 1));
      ZeroProducts(b.gamma, b.lambda, c.ValueAt(t + 1), c.Advantage(t + 1));
    } else {
      assert b.values[..done + 1][t + 1] == c.values[..done + 1][t + 1];
      EpisodesAreIndependent(b, c, done, t + 1);
    }
  }

  lemma ZeroProducts(g: real, l: real, v: real, a: real)
    ensures g * v * 0.0 == 0.0 && g * l * 0.0 * a == 0.0
  {
  }

  ghost predicate Within(x: real, d: real) {
    -d <= x <= d
  }

  /** |δ| ≤ D everywhere gives |A|·(1 − γλ) ≤ D. */
  lemma {:induction false} AdvantageBound(b: Rollout, t: nat, d: real, bound: real)
    requires b.Valid() && t <= |b.rewards| && d >= 0.0
    requires 0.0 <= b.gamma * b.lambda < 1.0 && bound == d / (1.0 - b.gamma * b.lambda)
    requires forall s :: 0 <= s < |b.rewards| ==> Within(b.Delta(s), d)
    ensures Within(b.Advantage(t), bound)
    decreases |b.rewards| - t
  {
    var x := b.gamma * b.lambda;
    BoundEquation(d, x, bound);
    if t < |b.rewards| {
      AdvantageBound(b, t + 1, d, bound);
      hide Rollout.Delta, Rollout.Damping;
      DampingCases(b, t);
      assert Within(b.Delta(t), d);
      DampedStep(x, b.Damping(t), b.Delta(t), b.Advantage(t + 1), d, bound, b.Advantage(t));
    }
  }

  lemma DampedStep(x: real, g: real, delta: real, next: real, d: real, bound: real, a: real)
    requires x >= 0.0 && (g == 0.0 || g == x) && bound >= 0.0 && d + x * bound == bound
    requires Within(delta, d) && Within(next, bound) && a == delta + g * next
    ensures Within(a, bound)
  {
    var p, q := x * next, x * bound;
    ProductOrder(x, next, bound, p, q);
    ProductOrder(x, 0.0 - bound, next, 0.0 - q, p);
    ProductOrder(x, 0.0, bound, 0.0, q);
    var r := g * next;
    assert g == 0.0 ==> r == 0.0;
    assert g == x ==> r == p;
  }

  lemma BoundEquation(d: real, x: real, bound: real)
    requires 0.0 <= x < 1.0 && d >= 0.0 && bound == d / (1.0 - x)
    ensures bound >= 0.0 && d + x * bound == bound
  {
    var y := 1.0 - x;
    assert bound * y == d;
    if bound < 0.0 {
      ProductPositive(0.0 - bound, y, 0.0 - d);
    }
    assert bound * y == bound - x * bound;
  }
}
