/** TopKCompressor of python/gossip_rl/gossip/compression.py: sparsification with error feedback.
    numpy may break ties in any way, so every statement here holds for every legal choice. */
module TopK {
  import opened Wrappers
  import opened Vectors

  function Abs(x: real): real {
    if x < 0.0 then -x else x
  }

  predicate InRange(idx: seq<nat>, n: nat) {
    forall i :: 0 <= i < |idx| ==> idx[i] < n
  }

  /** What argpartition followed by argsort returns: k distinct positions, largest magnitude
      first, none of the others larger. */
  predicate IsTopK(v: Vec, k: nat, idx: seq<nat>) {
    && |idx| == k <= |v|
    && Distinct(idx) && InRange(idx, |v|)
    && (forall i, j :: 0 <= i < j < k ==> Abs(v[idx[i]]) >= Abs(v[idx[j]]))
    && (forall i, j :: 0 <= i < k && 0 <= j < |v| && j !in idx ==> Abs(v[idx[i]]) >= Abs(v[j]))
  }

  /** int() of a float truncates toward zero. */
  function Trunc(x: real): int {
    if x >= 0.0 then x.Floor else -((-x).Floor)
  }

  /** The largest count within the ratio, but at least one. */
  function KeepCount(n: nat, ratio: real): (k: nat)
    ensures k >= 1
    ensures n as real * ratio < k as real + 1.0
    ensures k == 1 || k as real <= n as real * ratio
  {
    var k := Trunc(n as real * ratio);
    if k > 1 then k else 1
  }

  /** At most one count has these properties. */
  lemma KeepCountUnique(n: nat, ratio: real, k: nat)
    requires k >= 1 && n as real * ratio < k as real + 1.0 && (k == 1 || k as real <= n as real * ratio)
    ensures k == KeepCount(n, ratio)
  {
  }

  function Gather(v: Vec, idx: seq<nat>): (values: Vec)
    requires InRange(idx, |v|)
    ensures |values| == |idx|
  {
    seq(|idx|, i requires 0 <= i < |idx| => v[idx[i]])
  }

  /** The part of v that is sent. */
  ghost function Kept(v: Vec, idx: seq<nat>): (r: Vec)
    ensures |r| == |v|
  {
    seq(|v|, i requires 0 <= i < |v| => if i in idx then v[i] else 0.0)
  }

  /** The part of v that is carried over to the next call. */
  ghost function Residual(v: Vec, idx: seq<nat>): (r: Vec)
    ensures |r| == |v|
  {
    seq(|v|, i requires 0 <= i < |v| => if i in idx then 0.0 else v[i])
  }

  /** What a call compresses, given the stored feedback. */
  function Accumulated(gradients: Vec, feedback: Option<Vec>): (v: Vec)
    requires feedback.Some? ==> |feedback.value| == |gradients|
    ensures |v| == |gradients|
  {
    if feedback.Some? then Add(gradients, feedback.value) else gradients
  }

  /** One use of a compressor, with the positions numpy happened to choose. */
  datatype Call =
    | Send(gradients: Vec, idx: seq<nat>)
    | SendWithoutFeedback(gradients: Vec, idx: seq<nat>)
    | Reset

  ghost predicate LegalCall(call: Call, feedback: Option<Vec>, n: nat, k: nat) {
    match call
    case Send(g, idx) =>
      |g| == n && (feedback.Some? ==> |feedback.value| == n) && IsTopK(Accumulated(g, feedback), k, idx)
    case SendWithoutFeedback(g, idx) =>
      |g| == n && IsTopK(g, k, idx)
    case Reset => true
  }

  ghost function NextFeedback(call: Call, feedback: Option<Vec>, n: nat, k: nat): Option<Vec>
    requires LegalCall(call, feedback, n, k)
  {
    match call
    case Send(g, idx) => Some(Residual(Accumulated(g, feedback), idx))
    case SendWithoutFeedback(_, _) => feedback
    case Reset => None
  }

  datatype CompressError = ShapeMismatch | KthOutOfBounds

  class TopKCompressor {
    const ratio: real
    var errorFeedback: Option<Vec>

    constructor (ratio: real)
      ensures this.ratio == ratio && errorFeedback == None
    {
      this.ratio := ratio;
      errorFeedback := None;
    }

    /** On an error nothing changes. Otherwise the result is a top-k choice of the accumulated
        gradient, and its residual becomes the new feedback. */
    method Compress(gradients: Vec, useErrorFeedback: bool)
      returns (r: Result<(Vec, seq<nat>), CompressError>)
      modifies this
      ensures var fed := useErrorFeedback && old(errorFeedback).Some?;
        var k := KeepCount(|gradients|, ratio);
        if fed && |old(errorFeedback).value| != |gradients| then
          r == Failure(ShapeMismatch) && errorFeedback == old(errorFeedback)
        else if k > |gradients| then
          r == Failure(KthOutOfBounds) && errorFeedback == old(errorFeedback)
        else
          var v := Accumulated(gradients, if useErrorFeedback then old(errorFeedback) else None);
          && r.Success?
          && IsTopK(v, k, r.value.1)
          && r.value.0 == Gather(v, r.value.1)
          && errorFeedback == if useErrorFeedback then Some(Residual(v, r.value.1)) else old(errorFeedback)
      ensures r.Success? ==>
        var sent := |r.value.1|;
        && |r.value.0| == sent >= 1
        && |gradients| as real * ratio < sent as real + 1.0
        && (sent == 1 || sent as real <= |gradients| as real * ratio)
      ensures r.Success? ==>
        var call := if useErrorFeedback then Send(gradients, r.value.1) else SendWithoutFeedback(gradients, r.value.1);
        var n, k := |gradients|, KeepCount(|gradients|, ratio);
        && LegalCall(call, old(errorFeedback), n, k)
        && errorFeedback == NextFeedback(call, old(errorFeedback), n, k)
    {
      var v := gradients;
      if useErrorFeedback && errorFeedback.Some? {
        if |errorFeedback.value| != |gradients| {
          return Failure(ShapeMismatch);
        }
        v := Add(gradients, errorFeedback.value);
      }
      var k := KeepCount(|v|, ratio);
      if k > |v| {
        return Failure(KthOutOfBounds);
      }
      TopKExists(v, k);
      var indices :| IsTopK(v, k, indices);
      var values := Gather(v, indices);
      if useErrorFeedback {
        var residual := v;
        for i := 0 to |indices|
          invariant |residual| == |v|
          invariant forall j :: 0 <= j < |v| ==> residual[j] == if j in indices[..i] then 0.0 else v[j]
        {
          residual := residual[indices[i] := 0.0];
        }
        assert indices[..|indices|] == indices;
        assert residual == Residual(v, indices);
        errorFeedback := Some(residual);
      }
      return Success((values, indices));
    }

    method ResetErrorFeedback()
      modifies this
      ensures forall n, k :: errorFeedback == NextFeedback(Reset, old(errorFeedback), n, k)
    {
      errorFeedback := None;
    }
  }

  /** Scatters the values into zeros; on a compressed vector that is exactly its kept part. */
  method Decompress(values: Vec, indices: seq<nat>, size: nat) returns (gradients: array<real>)
    requires |values| == |indices| && InRange(indices, size)
    ensures gradients.Length == size
    ensures forall j :: 0 <= j < size && j !in indices ==> gradients[j] == 0.0
    ensures Distinct(indices) ==> forall i :: 0 <= i < |indices| ==> gradients[indices[i]] == values[i]
    ensures forall v: Vec :: |v| == size && Distinct(indices) && values == Gather(v, indices)
              ==> gradients[..] == Kept(v, indices)
  {
    gradients := new real[size](_ => 0.0);
    for i := 0 to |indices|
      invariant forall j :: 0 <= j < size && j !in indices[..i] ==> gradients[j] == 0.0
      invariant Distinct(indices) ==> forall m :: 0 <= m < i ==> gradients[indices[m]] == values[m]
    {
      gradients[indices[i]] := values[i];
    }
    assert indices[..|indices|] == indices;
    forall v: Vec | |v| == size && Distinct(indices) && values == Gather(v, indices)
      ensures gradients[..] == Kept(v, indices)
    {
      forall j | 0 <= j < size
        ensures gradients[j] == Kept(v, indices)[j]
      {
        if j in indices {
          var i :| 0 <= i < |indices| && indices[i] == j;
        }
      }
    }
  }

  // ---- A top-k choice always exists ----

  ghost predicate Ranked(v: Vec, idx: seq<nat>) {
    && InRange(idx, |v|)
    && forall i, j :: 0 <= i < j < |idx| ==> Abs(v[idx[i]]) >= Abs(v[idx[j]])
  }

  lemma {:induction false} InsertRanked(v: Vec, idx: seq<nat>, x: nat) returns (r: seq<nat>)
    requires Ranked(v, idx) && x < |v| && Distinct(idx) && x !in idx
    ensures Ranked(v, r) && Distinct(r) && |r| == |idx| + 1
    ensures forall y :: y in r <==> y == x || y in idx
  {
    if idx == [] || Abs(v[x]) >= Abs(v[idx[0]]) {
      r := [x] + idx;
    } else {
      var rest := InsertRanked(v, idx[1..], x);
      r := [idx[0]] + rest;
      assert forall y :: y in idx <==> y == idx[0] || y in idx[1..];
      assert forall j :: 0 <= j < |rest| ==> rest[j] in rest;
      forall j | 0 <= j < |rest|
        ensures Abs(v[idx[0]]) >= Abs(v[rest[j]]) && rest[j] != idx[0]
      {
        if rest[j] != x {
          assert rest[j] in idx[1..];
        }
      }
    }
  }

  lemma {:induction false} RankAll(v: Vec, n: nat) returns (r: seq<nat>)
    requires n <= |v|
    ensures Ranked(v, r) && Distinct(r) && |r| == n
    ensures forall y :: y in r <==> 0 <= y < n
  {
    if n == 0 {
      r := [];
    } else {
      r := RankAll(v, n - 1);
      r := InsertRanked(v, r, n - 1);
    }
  }

  lemma TopKExists(v: Vec, k: nat)
    requires k <= |v|
    ensures exists idx :: IsTopK(v, k, idx)
  {
    var all := RankAll(v, |v|);
    var idx := all[..k];
    forall i, j | 0 <= i < k && 0 <= j < |v| && j !in idx
      ensures Abs(v[idx[i]]) >= Abs(v[j])
    {
      assert j in all;
      var m :| 0 <= m < |all| && all[m] == j;
      assert all == idx + all[k..];
    }
    assert IsTopK(v, k, idx);
  }

  // ---- One call ----

  /** How many of the positions below n are selected. */
  ghost function Selected(idx: seq<nat>, n: nat): (c: nat)
    ensures c <= n
  {
    if n == 0 then 0 else Selected(idx, n - 1) + if n - 1 in idx then 1 else 0
  }

  lemma {:induction false} SelectedMore(idx: seq<nat>, x: nat, n: nat)
    requires x !in idx
    ensures Selected(idx + [x], n) == Selected(idx, n) + if x < n then 1 else 0
  {
    if n > 0 {
      SelectedMore(idx, x, n - 1);
      assert n - 1 in idx + [x] <==> n - 1 in idx || n - 1 == x;
    }
  }

  lemma {:induction false} SelectedAll(idx: seq<nat>, n: nat)
    requires Distinct(idx) && InRange(idx, n)
    ensures Selected(idx, n) == |idx|
  {
    if idx == [] {
      SelectedNone(n);
    } else {
      var front, x := idx[..|idx| - 1], idx[|idx| - 1];
      assert idx == front + [x];
      SelectedAll(front, n);
      SelectedMore(front, x, n);
    }
  }

  lemma {:induction false} SelectedNone(n: nat)
    ensures Selected([], n) == 0
  {
    if n > 0 {
      SelectedNone(n - 1);
    }
  }

  /** c copies of m. */
  ghost function Times(m: real, c: int): real {
    m * c as real
  }

  lemma TimesStep(m: real, c: int)
    ensures Times(m, c + 1) == Times(m, c) + m
  {
  }

  lemma TimesZero(m: real)
    ensures Times(m, 0) == 0.0
  {
  }

  lemma TimesBalance(m: real, a: int, b: int)
    ensures a as real * Times(m, b) == b as real * Times(m, a)
  {
  }

  /** m separates the squares of the selected positions from the others. */
  ghost predicate Separates(v: Vec, idx: seq<nat>, m: real) {
    forall i :: 0 <= i < |v| ==> if i in idx then Sq(v[i]) >= m else Sq(v[i]) <= m
  }

  lemma SquareOrder(x: real, y: real)
    requires Abs(x) >= Abs(y)
    ensures Sq(x) >= Sq(y)
  {
    var a, b := Abs(x), Abs(y);
    var p, q := a * a, b * b;
    assert p == x * x && q == y * y;
    assert p - q == (a - b) * (a + b);
    ProductNonNegative(a - b, a + b, p - q);
  }

  lemma TopKSeparates(v: Vec, k: nat, idx: seq<nat>) returns (m: real)
    requires IsTopK(v, k, idx) && k >= 1
    ensures m >= 0.0 && Separates(v, idx, m)
  {
    hide Sq;
    m := Sq(v[idx[k - 1]]);
    forall i | 0 <= i < |v|
      ensures if i in idx then Sq(v[i]) >= m else Sq(v[i]) <= m
    {
      if i in idx {
        var j :| 0 <= j < k && idx[j] == i;
        if j < k - 1 {
          SquareOrder(v[i], v[idx[k - 1]]);
        }
      } else {
        SquareOrder(v[idx[k - 1]], v[i]);
      }
    }
  }

  /** Sending splits the energy, and the separator bounds both parts. */
  lemma {:induction false} EnergySplit(v: Vec, idx: seq<nat>, m: real, n: nat)
    requires n <= |v| && Separates(v, idx, m)
    ensures SumSq(Kept(v, idx)[..n]) + SumSq(Residual(v, idx)[..n]) == SumSq(v[..n])
    ensures SumSq(Kept(v, idx)[..n]) >= Times(m, Selected(idx, n))
    ensures SumSq(Residual(v, idx)[..n]) <= Times(m, n - Selected(idx, n))
  {
    if n == 0 {
      TimesZero(m);
    } else {
      hide Sq, SumSq, Times, Kept, Residual;
      EnergySplit(v, idx, m, n - 1);
      LastSquares(v, idx, n);
      var c, rest := Selected(idx, n - 1), n - 1 - Selected(idx, n - 1);
      if n - 1 in idx {
        TimesStep(m, c);
        assert Selected(idx, n) == c + 1 && n - Selected(idx, n) == rest;
      } else {
        TimesStep(m, rest);
        assert Selected(idx, n) == c && n - Selected(idx, n) == rest + 1;
      }
    }
  }

  lemma LastSquare(v: Vec, n: nat)
    requires 0 < n <= |v|
    ensures SumSq(v[..n]) == SumSq(v[..n - 1]) + Sq(v[n - 1])
  {
    assert v[..n][..n - 1] == v[..n - 1];
  }

  lemma LastSquares(v: Vec, idx: seq<nat>, n: nat)
    requires 0 < n <= |v|
    ensures SumSq(v[..n]) == SumSq(v[..n - 1]) + Sq(v[n - 1])
    ensures SumSq(Kept(v, idx)[..n]) == SumSq(Kept(v, idx)[..n - 1]) + if n - 1 in idx then Sq(v[n - 1]) else 0.0
    ensures SumSq(Residual(v, idx)[..n]) == SumSq(Residual(v, idx)[..n - 1]) + if n - 1 in idx then 0.0 else Sq(v[n - 1])
  {
    hide Sq, SumSq;
    LastSquare(v, n);
    LastSquare(Kept(v, idx), n);
    LastSquare(Residual(v, idx), n);
    SqZero();
  }

  lemma SqZero()
    ensures Sq(0.0) == 0.0
  {
  }

  lemma WholeVector(v: Vec)
    ensures v[..|v|] == v
  {
  }

  lemma EnergyBounds(v: Vec, k: nat, idx: seq<nat>) returns (m: real)
    requires IsTopK(v, k, idx) && k >= 1
    ensures SumSq(Kept(v, idx)) + SumSq(Residual(v, idx)) == SumSq(v)
    ensures SumSq(Kept(v, idx)) >= Times(m, k)
    ensures SumSq(Residual(v, idx)) <= Times(m, |v| - k)
  {
    hide Sq, SumSq, Times;
    m := TopKSeparates(v, k, idx);
    EnergySplit(v, idx, m, |v|);
    SelectedAll(idx, |v|);
    WholeVector(v);
    WholeVector(Kept(v, idx));
    WholeVector(Residual(v, idx));
  }

  /** Each call contracts: ‖e‖² ≤ (1 − k/n)‖v‖², and nothing is lost: ‖kept‖² + ‖e‖² = ‖v‖². */
  lemma Contraction(v: Vec, k: nat, idx: seq<nat>, c: real)
    requires IsTopK(v, k, idx) && k >= 1 && c == 1.0 - k as real / |v| as real
    ensures SumSq(Residual(v, idx)) <= c * SumSq(v)
    ensures SumSq(Kept(v, idx)) + SumSq(Residual(v, idx)) == SumSq(v)
  {
    hide Sq, SumSq, Times, Kept, Residual, IsTopK;
    TopKSize(v, k, idx);
    var m := EnergyBounds(v, k, idx);
    var n, rest := |v|, |v| - k;
    TimesBalance(m, k, rest);
    var lost, kept, total := SumSq(Residual(v, idx)), SumSq(Kept(v, idx)), SumSq(v);
    AveragesContract(lost, kept, total, Times(m, rest), Times(m, k), k as real, n as real, rest as real, c);
  }

  lemma TopKSize(v: Vec, k: nat, idx: seq<nat>)
    requires IsTopK(v, k, idx)
    ensures k <= |v|
  {
  }

  lemma AveragesContract(lost: real, kept: real, total: real, u: real, w: real, k: real, n: real, rest: real, c: real)
    requires 1.0 <= k <= n && rest == n - k && c == 1.0 - k / n
    requires lost <= u && kept >= w && k * u == rest * w && total == kept + lost
    ensures lost <= c * total
  {
    ProductMono(k, lost, u);
    ProductMono(rest, w, kept);
    var p, q, r := n * lost, rest * total, c * total;
    assert q == rest * kept + rest * lost;
    assert p == k * lost + rest * lost;
    KeepFraction(k, n, c);
    assert n * r == (n * c) * total;
    CancelFactor(n, lost, r, p, q);
  }

  lemma KeepFraction(k: real, n: real, c: real)
    requires n > 0.0 && c == 1.0 - k / n
    ensures n * c == n - k
  {
    assert n * (k / n) == k;
  }

  lemma CancelFactor(n: real, x: real, y: real, p: real, q: real)
    requires n > 0.0 && p == n * x && q == n * y && p <= q
    ensures x <= y
  {
    if x > y {
      ProductPositive(n, x - y, p - q);
    }
  }

  /** Top-k is the best k-sparse approximation: every vector supported on some k positions is at
      least as far from v. */
  lemma BestSparseApproximation(v: Vec, k: nat, idx: seq<nat>, z: Vec, alt: seq<nat>)
    requires IsTopK(v, k, idx) && k >= 1
    requires |z| == |v| && |alt| == k && Distinct(alt) && InRange(alt, |v|)
    requires forall i :: 0 <= i < |z| && i !in alt ==> z[i] == 0.0
    ensures SumSq(Minus(v, Kept(v, idx))) <= SumSq(Minus(v, z))
  {
    hide Sq, SumSq;
    var m := TopKSeparates(v, k, idx);
    assert Minus(v, Kept(v, idx)) == Residual(v, idx);
    Exchange(v, idx, z, alt, m, |v|);
    SelectedAll(idx, |v|);
    SelectedAll(alt, |v|);
    WholeVector(Residual(v, idx));
    WholeVector(Minus(v, z));
  }

  lemma {:induction false} Exchange(v: Vec, idx: seq<nat>, z: Vec, alt: seq<nat>, m: real, n: nat)
    requires n <= |v| == |z| && m >= 0.0 && Separates(v, idx, m)
    requires forall i :: 0 <= i < |z| && i !in alt ==> z[i] == 0.0
    ensures SumSq(Residual(v, idx)[..n]) + Times(m, Selected(idx, n) - Selected(alt, n)) <= SumSq(Minus(v, z)[..n])
  {
    if n == 0 {
      TimesZero(m);
    } else {
      hide Sq, SumSq, Times, Kept, Residual, Minus, Separates, Selected;
      Exchange(v, idx, z, alt, m, n - 1);
      ExchangeStep(v, idx, z, alt, m, n);
    }
  }

  lemma ExchangeStep(v: Vec, idx: seq<nat>, z: Vec, alt: seq<nat>, m: real, n: nat)
    requires 0 < n <= |v| == |z| && m >= 0.0 && Separates(v, idx, m)
    requires forall i :: 0 <= i < |z| && i !in alt ==> z[i] == 0.0
    ensures SumSq(Residual(v, idx)[..n]) - SumSq(Residual(v, idx)[..n - 1])
          + Times(m, Selected(idx, n) - Selected(alt, n)) - Times(m, Selected(idx, n - 1) - Selected(alt, n - 1))
         <= SumSq(Minus(v, z)[..n]) - SumSq(Minus(v, z)[..n - 1])
  {
    hide Sq, SumSq, Times, Kept, Residual;
    LastSquares(v, idx, n);
    LastSquare(Minus(v, z), n);
    assert n - 1 !in alt ==> Minus(v, z)[n - 1] == v[n - 1];
    ExchangeOne(m, Selected(idx, n - 1) - Selected(alt, n - 1), Selected(idx, n) - Selected(alt, n), n - 1 in idx,
                n - 1 in alt, Sq(v[n - 1]), Sq(Minus(v, z)[n - 1]));
  }

  /** One position of the exchange argument: q is v's square there, r the other vector's error. */
  lemma ExchangeOne(m: real, c: int, c': int, chosen: bool, other: bool, q: real, r: real)
    requires m >= 0.0 && r >= 0.0 && (if chosen then q >= m else q <= m) && (!other ==> r == q)
    requires c' == c + (if chosen then 1 else 0) - (if other then 1 else 0)
    ensures (if chosen then 0.0 else q) + Times(m, c') - Times(m, c) <= r
  {
    TimesStep(m, c);
    TimesStep(m, c - 1);
  }

  // ---- Runs ----

  ghost predicate Legal(calls: seq<Call>, n: nat, k: nat)
    decreases |calls|, 0
  {
    calls != [] ==>
      var before := calls[..|calls| - 1];
      Legal(before, n, k) && LegalCall(calls[|calls| - 1], After(before, n, k), n, k)
  }

  /** The stored feedback after a run that starts from a fresh compressor. */
  ghost function After(calls: seq<Call>, n: nat, k: nat): (feedback: Option<Vec>)
    requires Legal(calls, n, k)
    ensures feedback.Some? ==> |feedback.value| == n
    decreases |calls|, 1
  {
    if calls == [] then None
    else NextFeedback(calls[|calls| - 1], After(calls[..|calls| - 1], n, k), n, k)
  }

  ghost function Carried(feedback: Option<Vec>, n: nat): (e: Vec)
    requires feedback.Some? ==> |feedback.value| == n
    ensures |e| == n
  {
    if feedback.Some? then feedback.value else Zeros(n)
  }

  lemma AccumulatedIsSum(g: Vec, feedback: Option<Vec>)
    requires feedback.Some? ==> |feedback.value| == |g|
    ensures Accumulated(g, feedback) == Add(g, Carried(feedback, |g|))
  {
    assert feedback.None? ==> Add(g, Zeros(|g|)) == g;
  }

  lemma {:induction false} SumSqZeros(n: nat)
    ensures SumSq(Zeros(n)) == 0.0
  {
    if n > 0 {
      SumSqZeros(n - 1);
      assert Zeros(n)[..n - 1] == Zeros(n - 1);
    }
  }

  ghost function Bound(d: real, g2: real): real {
    2.0 * (1.0 - d) * (2.0 - d) * g2
  }

  /** c·x */
  ghost function Portion(c: real, x: real): real {
    c * x
  }

  /** Over any run on gradients with ‖g‖² ≤ G², the stored residual satisfies
      d²‖e‖² ≤ 2(1 − d)(2 − d)G², whatever the gradients, ties, resets and feedback-free calls. */
  lemma {:induction false} ResidualBound(calls: seq<Call>, n: nat, k: nat, d: real, g2: real)
    requires Legal(calls, n, k) && 1 <= k <= n && d == k as real / n as real && g2 >= 0.0
    requires forall c :: c in calls && c.Send? ==> SumSq(c.gradients) <= g2
    ensures Weighted(d, SumSq(Carried(After(calls, n, k), n))) <= Bound(d, g2)
  {
    hide Sq, SumSq, Bound, Weighted, Portion, IsTopK, Residual, Kept;
    FractionRange(k, n, d);
    if calls == [] {
      SumSqZeros(n);
      BoundNonNegative(d, g2);
    } else {
      var before, call := calls[..|calls| - 1], calls[|calls| - 1];
      ResidualBound(before, n, k, d, g2);
      var feedback := After(before, n, k);
      match call
      case Send(g, idx) =>
        assert call in calls;
        var e := Carried(feedback, n);
        AccumulatedIsSum(g, feedback);
        SendContracts(g, e, k, idx, d, 1.0 - d);
        SendKeepsBound(g, e, Residual(Add(g, e), idx), d, 1.0 - d, g2);
      case SendWithoutFeedback(_, _) =>
      case Reset =>
        SumSqZeros(n);
        BoundNonNegative(d, g2);
    }
  }

  lemma FractionRange(k: nat, n: nat, d: real)
    requires 1 <= k <= n && d == k as real / n as real
    ensures 0.0 < d <= 1.0
  {
  }

  lemma BoundNonNegative(d: real, g2: real)
    requires 0.0 < d <= 1.0 && g2 >= 0.0
    ensures Bound(d, g2) >= 0.0 && Weighted(d, 0.0) == 0.0
  {
    var p := (1.0 - d) * (2.0 - d);
    ProductNonNegative(1.0 - d, 2.0 - d, p);
    var q := p * g2;
    ProductNonNegative(p, g2, q);
    assert Bound(d, g2) == 2.0 * q;
  }

  lemma SendContracts(g: Vec, e: Vec, k: nat, idx: seq<nat>, d: real, c: real)
    requires |g| == |e| && 1 <= k && IsTopK(Add(g, e), k, idx) && d == k as real / |g| as real && c == 1.0 - d
    ensures 0.0 < d <= 1.0
    ensures SumSq(Residual(Add(g, e), idx)) <= Portion(c, SumSq(Add(g, e)))
  {
    hide Sq, SumSq, Kept, Residual, Abs, Distinct, InRange;
    FractionRange(k, |g|, d);
    Contraction(Add(g, e), k, idx, c);
  }

  lemma SendKeepsBound(g: Vec, e: Vec, r: Vec, d: real, c: real, g2: real)
    requires |g| == |e| && 0.0 < d <= 1.0 && c == 1.0 - d && SumSq(g) <= g2
    requires SumSq(r) <= Portion(c, SumSq(Add(g, e)))
    requires Weighted(d, SumSq(e)) <= Bound(d, g2)
    ensures Weighted(d, SumSq(r)) <= Bound(d, g2)
  {
    hide Sq, SumSq, Bound, Weighted, Portion, Combination, Dot;
    AddCommutes(g, e);
    SumSqAdd(e, g);
    SumSqCombination(d, e, 2.0 * c, g);
    var young := SumSq(Minus(Scale(d, e), Scale(2.0 * c, g)));
    ScalarStep(d, c, SumSq(e), SumSq(g), Dot(e, g), SumSq(Add(g, e)), SumSq(r), g2, young);
  }

  lemma AddCommutes(a: Vec, b: Vec)
    requires |a| == |b|
    ensures Add(a, b) == Add(b, a)
  {
  }

  lemma ScalarStep(d: real, c: real, e: real, a: real, dot: real, v: real, e': real, g2: real, young: real)
    requires 0.0 < d <= 1.0 && c == 1.0 - d && a <= g2
    requires v == e + 2.0 * dot + a && e' <= Portion(c, v)
    requires young == Combination(d, 2.0 * c, e, dot, a) && young >= 0.0
    requires Weighted(d, e) <= Bound(d, g2)
    ensures Weighted(d, e') <= Bound(d, g2)
  {
    hide Bound, Combination, Weighted, Portion;
    var w, m := d * c * dot, d * c * a;
    var f, f' := Weighted(d, e), Weighted(d, e');
    ExpandStep(d, c, e, a, dot, v, e', f, w, m, f');
    YoungStep(d, c, e, a, dot, young, f, w, m);
    CloseStep(d, c, a, g2, f, m, f', Bound(d, g2), d * w);
  }

  lemma YoungStep(d: real, c: real, e: real, a: real, dot: real, young: real, f: real, w: real, m: real)
    requires 0.0 < d
    requires young == Combination(d, 2.0 * c, e, dot, a) && young >= 0.0
    requires f == Weighted(d, e) && w == d * c * dot && m == d * c * a
    ensures 4.0 * (d * w) <= d * f + 4.0 * (c * m)
  {
    var q := c * c * a;
    assert young == f - 4.0 * w + 4.0 * q;
    var x := f + 4.0 * q;
    ProductMono(d, 4.0 * w, x);
    assert d * (4.0 * w) == 4.0 * (d * w);
    assert d * q == c * m;
    assert d * x == d * f + 4.0 * (d * q);
  }

  lemma ExpandStep(d: real, c: real, e: real, a: real, dot: real, v: real, e': real, f: real, w: real, m: real, f': real)
    requires v == e + 2.0 * dot + a && e' <= Portion(c, v) && f' == Weighted(d, e')
    requires f == Weighted(d, e) && w == d * c * dot && m == d * c * a
    ensures f' <= c * f + 2.0 * (d * w) + d * m
  {
    var dd, cv := d * d, c * v;
    NonNegSquare(d, dd);
    ProductMono(dd, e', cv);
    assert cv == c * e + 2.0 * (c * dot) + c * a;
    assert dd * cv == dd * (c * e) + 2.0 * (dd * (c * dot)) + dd * (c * a);
    assert dd * (c * e) == c * f;
    assert dd * (c * dot) == d * w;
    assert dd * (c * a) == d * m;
  }

  lemma NonNegSquare(x: real, s: real)
    requires s == x * x
    ensures s >= 0.0
  {
  }

  lemma CloseStep(d: real, c: real, a: real, g2: real, f: real, m: real, f': real, bound: real, dw: real)
    requires 0.0 < d <= 1.0 && c == 1.0 - d && a <= g2
    requires m == d * c * a && f <= bound && bound == Bound(d, g2)
    requires 4.0 * dw <= d * f + 4.0 * (c * m) && f' <= c * f + 2.0 * dw + d * m
    ensures f' <= bound
  {
    hide Bound;
    var coef := 1.0 - d / 2.0;
    FeedbackShare(d, c, f, bound, coef);
    GradientShare(d, c, a, g2, m, bound);
    assert coef * bound == bound - d * bound / 2.0;
  }

  lemma FeedbackShare(d: real, c: real, f: real, bound: real, coef: real)
    requires 0.0 < d <= 1.0 && c == 1.0 - d && coef == 1.0 - d / 2.0 && f <= bound
    ensures c * f + d * f / 2.0 <= coef * bound
  {
    ProductMono(coef, f, bound);
    assert c * f + d * f / 2.0 == coef * f;
  }

  lemma GradientShare(d: real, c: real, a: real, g2: real, m: real, bound: real)
    requires 0.0 < d <= 1.0 && c == 1.0 - d && a <= g2
    requires m == d * c * a && bound == Bound(d, g2)
    ensures 2.0 * (c * m) + d * m <= d * bound / 2.0
  {
    var dc, h := d * c, d * c * (2.0 - d);
    ProductNonNegative(d, c, dc);
    ProductNonNegative(dc, 2.0 - d, h);
    ProductMono(h, a, g2);
    assert 2.0 * (c * m) + d * m == h * a;
    assert h * g2 == d * bound / 2.0;
  }

  /** The looser, better-known form: d²‖e‖² ≤ 4(1 − d)G². */
  lemma ResidualBoundSimple(calls: seq<Call>, n: nat, k: nat, d: real, g2: real)
    requires Legal(calls, n, k) && 1 <= k <= n && d == k as real / n as real && g2 >= 0.0
    requires forall c :: c in calls && c.Send? ==> SumSq(c.gradients) <= g2
    ensures d * d * SumSq(Carried(After(calls, n, k), n)) <= 4.0 * (1.0 - d) * g2
  {
    hide Sq, SumSq, IsTopK, After, Legal;
    ResidualBound(calls, n, k, d, g2);
    FractionRange(k, n, d);
    LoosenBound(d, g2, Bound(d, g2));
  }

  lemma LoosenBound(d: real, g2: real, bound: real)
    requires 0.0 < d <= 1.0 && g2 >= 0.0 && bound == 2.0 * (1.0 - d) * (2.0 - d) * g2
    ensures bound <= 4.0 * (1.0 - d) * g2
  {
    var q := (1.0 - d) * g2;
    ProductNonNegative(1.0 - d, g2, q);
    var r := d * q;
    ProductNonNegative(d, q, r);
    assert bound == 4.0 * q - 2.0 * r;
  }

  // ---- Conservation, coordinate by coordinate ----

  ghost function Inputs(calls: seq<Call>, i: nat, n: nat, k: nat): real
    requires Legal(calls, n, k) && i < n
  {
    if calls == [] then 0.0
    else
      var call := calls[|calls| - 1];
      Inputs(calls[..|calls| - 1], i, n, k) + if call.Reset? then 0.0 else call.gradients[i]
  }

  /** The sum of what the receiver decompresses. */
  ghost function Outputs(calls: seq<Call>, i: nat, n: nat, k: nat): real
    requires Legal(calls, n, k) && i < n
  {
    if calls == [] then 0.0
    else
      var before, call := calls[..|calls| - 1], calls[|calls| - 1];
      Outputs(before, i, n, k) +
      match call
      case Send(g, idx) => Kept(Accumulated(g, After(before, n, k)), idx)[i]
      case SendWithoutFeedback(g, idx) => Kept(g, idx)[i]
      case Reset => 0.0
  }

  /** What feedback-free calls and resets throw away. */
  ghost function Discarded(calls: seq<Call>, i: nat, n: nat, k: nat): real
    requires Legal(calls, n, k) && i < n
  {
    if calls == [] then 0.0
    else
      var before, call := calls[..|calls| - 1], calls[|calls| - 1];
      Discarded(before, i, n, k) +
      match call
      case Send(_, _) => 0.0
      case SendWithoutFeedback(g, idx) => Residual(g, idx)[i]
      case Reset => Carried(After(before, n, k), n)[i]
  }

  /** Nothing is lost or duplicated: outputs + current residual + discarded = inputs. */
  lemma {:induction false} Conservation(calls: seq<Call>, i: nat, n: nat, k: nat)
    requires Legal(calls, n, k) && i < n
    ensures Outputs(calls, i, n, k) + Carried(After(calls, n, k), n)[i] + Discarded(calls, i, n, k) == Inputs(calls, i, n, k)
  {
    if calls != [] {
      hide IsTopK;
      var before, call := calls[..|calls| - 1], calls[|calls| - 1];
      Conservation(before, i, n, k);
      if call.Send? {
        AccumulatedIsSum(call.gradients, After(before, n, k));
      }
    }
  }

  /** With feedback on every call, nothing is discarded. */
  lemma {:induction false} FeedbackDiscardsNothing(calls: seq<Call>, i: nat, n: nat, k: nat)
    requires Legal(calls, n, k) && i < n
    requires forall c :: c in calls ==> c.Send?
    ensures Discarded(calls, i, n, k) == 0.0
  {
    if calls != [] {
      assert calls[|calls| - 1] in calls;
      FeedbackDiscardsNothing(calls[..|calls| - 1], i, n, k);
    }
  }
}
