/** The gradient cache and its aggregate (python/gossip_rl/gossip/protocol.py). Handlers run
    concurrently: another one may run between a handler's store and its aggregation. */
module GradientCache {
  import opened Wrappers
  import opened Vectors
  import opened Peers

  datatype Entry = Entry(gradient: Vec, modelVersion: nat, step: nat)

  /** A dict in insertion order. */
  type Cache = seq<(Id, Entry)>

  function Lookup(cache: Cache, id: Id): (e: Option<Entry>)
    ensures e.Some? ==> (id, e.value) in cache
    ensures e.None? ==> forall p :: p in cache ==> p.0 != id
  {
    if cache == [] then None
    else if cache[0].0 == id then Some(cache[0].1)
    else Lookup(cache[1..], id)
  }

  function Assign(cache: Cache, id: Id, e: Entry): Cache {
    if cache == [] then [(id, e)]
    else if cache[0].0 == id then [(id, e)] + cache[1..]
    else [cache[0]] + Assign(cache[1..], id, e)
  }

  /** `e` is no newer than `cached` in either counter. */
  predicate Stale(e: Entry, cached: Entry) {
    cached.step >= e.step && cached.modelVersion >= e.modelVersion
  }

  function Slot(cached: Option<Entry>, e: Entry): Option<Entry> {
    if cached.Some? && Stale(e, cached.value) then cached else Some(e)
  }

  /** Own gradient first, then the cached ones of its dimension. */
  function AllGradients(own: Vec, cache: Cache): (all: seq<Vec>)
    ensures |all| >= 1 && all[0] == own
    ensures forall v :: v in all ==> |v| == |own|
  {
    if cache == [] then [own]
    else
      var front, last := AllGradients(own, cache[..|cache| - 1]), cache[|cache| - 1].1.gradient;
      if |last| == |own| then front + [last] else front
  }

  function SumAt(vs: seq<Vec>, i: nat): real
    requires forall v :: v in vs ==> i < |v|
  {
    if vs == [] then 0.0 else SumAt(vs[..|vs| - 1], i) + vs[|vs| - 1][i]
  }

  /** np.mean over axis 0. */
  function Mean(vs: seq<Vec>): (m: Vec)
    requires vs != [] && forall v :: v in vs ==> |v| == |vs[0]|
    ensures |m| == |vs[0]|
  {
    seq(|vs[0]|, i requires 0 <= i < |vs[0]| => SumAt(vs, i) / |vs| as real)
  }

  datatype Protocol = Protocol(
    cache: Cache,
    own: Option<Vec>,
    aggregated: Option<Vec>,
    modelVersion: nat,
    step: nat,
    gradientsAggregated: nat)

  function SetGradients(s: Protocol, g: Vec, modelVersion: nat, step: nat): Protocol {
    s.(own := Some(g), aggregated := Some(g), modelVersion := modelVersion, step := step)
  }

  function Accepts(s: Protocol, id: Id, e: Entry): bool {
    Lookup(s.cache, id).None? || !Stale(e, Lookup(s.cache, id).value)
  }

  function StoreGradient(s: Protocol, id: Id, e: Entry): Protocol {
    if Accepts(s, id, e) then s.(cache := Assign(s.cache, id, e)) else s
  }

  function Aggregate(s: Protocol): Protocol {
    if s.cache == [] || s.own.None? then s
    else
      var all := AllGradients(s.own.value, s.cache);
      if |all| > 1 then s.(aggregated := Some(Mean(all)), gradientsAggregated := |all|) else s
  }

  /** get_aggregated_gradients: the aggregate and the number of contributors. */
  function Report(s: Protocol): (Vec, nat) {
    if s.aggregated.None? then ([], 0) else (s.aggregated.value, |s.cache| + 1)
  }

  class GossipProtocol {
    var cache: Cache
    var currentGradients: Option<Vec>
    var aggregatedGradients: Option<Vec>
    var modelVersion: nat
    var step: nat
    var gradientsAggregated: nat

    constructor ()
      ensures State() == Protocol([], None, None, 0, 0, 0)
    {
      cache, currentGradients, aggregatedGradients := [], None, None;
      modelVersion, step, gradientsAggregated := 0, 0, 0;
    }

    function State(): Protocol
      reads this
    {
      Protocol(cache, currentGradients, aggregatedGradients, modelVersion, step, gradientsAggregated)
    }

    method SetOwnGradients(g: Vec, modelVersion: nat, step: nat)
      modifies this
      ensures State() == SetGradients(old(State()), g, modelVersion, step)
      ensures currentGradients == aggregatedGradients == Some(g) && cache == old(cache)
      ensures this.modelVersion == modelVersion && this.step == step
    {
      currentGradients, aggregatedGradients := Some(g), Some(g);
      this.modelVersion, this.step := modelVersion, step;
    }

    /** The part of _process_gradient under the cache lock; false is a stale update. */
    method TryStore(id: Id, gradient: Vec, modelVersion: nat, step: nat) returns (stored: bool)
      modifies this`cache
      ensures State() == StoreGradient(old(State()), id, Entry(gradient, modelVersion, step))
      ensures stored == Accepts(old(State()), id, Entry(gradient, modelVersion, step))
      ensures var cached := Lookup(old(cache), id);
        && (stored <==> cached.None? || step > cached.value.step || modelVersion > cached.value.modelVersion)
        && Lookup(cache, id) == (if stored then Some(Entry(gradient, modelVersion, step)) else cached)
    {
      var cached := Lookup(cache, id);
      if cached.Some? {
        if cached.value.step >= step && cached.value.modelVersion >= modelVersion {
          return false;
        }
      }
      LookupAssign(cache, id, Entry(gradient, modelVersion, step), id);
      cache := Assign(cache, id, Entry(gradient, modelVersion, step));
      return true;
    }

    method AggregateGradients()
      modifies this`aggregatedGradients, this`gradientsAggregated
      ensures State() == Aggregate(old(State()))
    {
      if cache == [] || currentGradients.None? {
        return;
      }
      var own := currentGradients.value;
      var all := [own];
      for k := 0 to |cache|
        modifies {}
        invariant all == AllGradients(own, cache[..k])
      {
        assert cache[..k + 1][..k] == cache[..k];
        if |cache[k].1.gradient| == |own| {
          all := all + [cache[k].1.gradient];
        }
      }
      assert cache[..|cache|] == cache;
      if |all| > 1 {
        aggregatedGradients := Some(Mean(all));
        gradientsAggregated := |all|;
      }
    }

    method GetAggregatedGradients() returns (g: Vec, contributors: nat)
      ensures (g, contributors) == Report(State())
      ensures g == if aggregatedGradients.None? then [] else aggregatedGradients.value
      ensures contributors == if aggregatedGradients.None? then 0 else |cache| + 1
    {
      if aggregatedGradients.None? {
        return [], 0;
      }
      return aggregatedGradients.value, |cache| + 1;
    }
  }

  // ---- What the cache holds, whatever the order of delivery ----

  lemma {:induction false} LookupAssign(cache: Cache, id: Id, e: Entry, other: Id)
    ensures Lookup(Assign(cache, id, e), other) == if other == id then Some(e) else Lookup(cache, other)
  {
    if cache != [] && cache[0].0 != id {
      LookupAssign(cache[1..], id, e, other);
      assert ([cache[0]] + Assign(cache[1..], id, e))[1..] == Assign(cache[1..], id, e);
    } else if cache != [] {
      assert ([(id, e)] + cache[1..])[1..] == cache[1..];
    } else {
      assert [(id, e)][1..] == [];
    }
  }

  /** The entry a sender's pushes leave. */
  ghost function Kept(es: seq<Entry>): Option<Entry> {
    if es == [] then None else Slot(Kept(es[..|es| - 1]), es[|es| - 1])
  }

  ghost function Delivered(s: Protocol, ds: seq<(Id, Entry)>): Protocol {
    if ds == [] then s else StoreGradient(Delivered(s, ds[..|ds| - 1]), ds[|ds| - 1].0, ds[|ds| - 1].1)
  }

  ghost function From(ds: seq<(Id, Entry)>, id: Id): seq<Entry> {
    if ds == [] then []
    else
      var front, d := From(ds[..|ds| - 1], id), ds[|ds| - 1];
      if d.0 == id then front + [d.1] else front
  }

  /** Senders do not disturb each other. */
  lemma {:induction false} CacheBySender(s: Protocol, ds: seq<(Id, Entry)>, id: Id)
    requires s.cache == []
    ensures Lookup(Delivered(s, ds).cache, id) == Kept(From(ds, id))
  {
    if ds != [] {
      var front, d := ds[..|ds| - 1], ds[|ds| - 1];
      CacheBySender(s, front, id);
      LookupAssign(Delivered(s, front).cache, d.0, d.1, id);
      var es := From(ds, id);
      if d.0 == id {
        assert es[..|es| - 1] == From(front, id);
      }
    }
  }

  ghost predicate IsGreatest(g: Entry, es: set<Entry>) {
    g in es && forall e :: e in es ==> Stale(e, g)
  }

  /** Newest in both counters, with no other entry under the same ones. */
  ghost predicate IsNewest(g: Entry, es: set<Entry>) {
    IsGreatest(g, es) && forall e :: e in es && Stale(g, e) ==> e == g
  }

  lemma {:induction false} KeptIsDelivered(es: seq<Entry>)
    requires es != []
    ensures Kept(es).Some? && Kept(es).value in es
  {
    var front := es[..|es| - 1];
    if front != [] {
      KeptIsDelivered(front);
    }
  }

  lemma {:induction false} KeepsNewest(es: seq<Entry>, g: Entry)
    requires IsNewest(g, Elements(es))
    ensures Kept(es) == Some(g)
  {
    var front, last := es[..|es| - 1], es[|es| - 1];
    assert forall e :: e in front ==> e in Elements(es);
    assert last in Elements(es);
    if g in front {
      assert g in Elements(front);
      KeepsNewest(front, g);
    } else {
      assert last == g;
      if front != [] {
        KeptIsDelivered(front);
        assert Kept(front).value in Elements(es);
      }
    }
  }

  /** Nothing but equal counters is at least as new. */
  ghost predicate IsMaximal(m: Entry, es: set<Entry>) {
    m in es && forall e :: e in es && Stale(m, e) ==> Stale(e, m)
  }

  lemma {:induction false} HasMaximal(es: set<Entry>) returns (m: Entry)
    requires es != {}
    ensures IsMaximal(m, es)
  {
    m :| m in es;
    if !IsMaximal(m, es) {
      var above := set e | e in es && Stale(m, e) && !Stale(e, m);
      var e :| e in es && Stale(m, e) && !Stale(e, m);
      assert e in above;
      assert m !in above;
      assert above < es;
      var n := HasMaximal(above);
      assert IsMaximal(n, es);
      m := n;
    }
  }

  /** The first of the entries under the top counters stays. */
  lemma {:induction false} TopStays(front: seq<Entry>, m: Entry, twins: seq<Entry>)
    requires forall e :: e in front ==> !Stale(m, e)
    requires forall e :: e in twins ==> Stale(e, m)
    ensures Kept(front + [m] + twins) == Some(m)
  {
    var es := front + [m] + twins;
    if twins == [] {
      assert es[..|es| - 1] == front;
      if front != [] {
        KeptIsDelivered(front);
      }
    } else {
      assert es[..|es| - 1] == front + [m] + twins[..|twins| - 1];
      TopStays(front, m, twins[..|twins| - 1]);
    }
  }

  /** One sender's entries, each delivered at least once, leave the same cache entry in every order exactly
      when there are none, or one of them is newest in both counters and no other has the same. */
  lemma OrderIndependentExactly(es: set<Entry>)
    ensures (forall d, d' :: Elements(d) == es && Elements(d') == es ==> Kept(d) == Kept(d'))
      <==> es == {} || exists g :: IsNewest(g, es)
  {
    if g :| IsNewest(g, es) {
      forall d, d' | Elements(d) == es && Elements(d') == es
        ensures Kept(d) == Kept(d')
      {
        KeepsNewest(d, g);
        KeepsNewest(d', g);
      }
    } else if es == {} {
      forall d: seq<Entry> | Elements(d) == es
        ensures d == []
      {
        if d != [] {
          HasElements(d);
        }
      }
    } else {
      var d, d' := TwoOrders(es);
    }
  }

  lemma HasElements(d: seq<Entry>)
    requires d != []
    ensures Elements(d) != {}
  {
    assert d[0] in Elements(d);
  }

  /** All of `es`, with its entry `m` first among those under m's counters. */
  lemma WithTop(es: set<Entry>, m: Entry) returns (d: seq<Entry>)
    requires IsMaximal(m, es)
    ensures Elements(d) == es && Kept(d) == Some(m)
  {
    var top := set e | e in es && Stale(m, e);
    var front := Listing(es - top);
    var twins := Listing(top);
    forall e | e in front
      ensures !Stale(m, e)
    {
      assert e in Elements(front);
    }
    forall e | e in twins
      ensures Stale(e, m)
    {
      assert e in Elements(twins);
    }
    d := front + [m] + twins;
    assert Elements(d) == Elements(front) + {m} + Elements(twins);
    TopStays(front, m, twins);
  }

  lemma TwoOrders(es: set<Entry>) returns (d: seq<Entry>, d': seq<Entry>)
    requires es != {} && !exists g :: IsNewest(g, es)
    ensures Elements(d) == es && Elements(d') == es && Kept(d) != Kept(d')
  {
    var m := HasMaximal(es);
    d := WithTop(es, m);
    assert !IsNewest(m, es);
    if e :| e in es && !Stale(e, m) {
      d' := d + [e];
      assert Elements(d') == Elements(d) + {e};
      assert d'[..|d'| - 1] == d;
    } else {
      var e :| e in es && Stale(m, e) && e != m;
      d' := WithTop(es, e);
    }
  }

  /** A trainer publishes after a train step: its step rises, its model version never falls. */
  ghost predicate Chain(published: seq<Entry>) {
    forall i, j :: 0 <= i < j < |published| ==>
      published[i].step < published[j].step && published[i].modelVersion <= published[j].modelVersion
  }

  /** So any entries it delivered have a newest one. */
  lemma ChainHasNewest(published: seq<Entry>, es: set<Entry>)
    requires Chain(published) && es != {} && es <= Elements(published)
    ensures exists g :: IsNewest(g, es)
  {
    var k := |published|;
    while k > 0 && published[k - 1] !in es
      invariant 0 <= k <= |published| && forall j :: k <= j < |published| ==> published[j] !in es
    {
      k := k - 1;
    }
    forall e | e in es
      ensures exists i :: 0 <= i < k && published[i] == e
    {
      assert e in Elements(published);
      var i :| 0 <= i < |published| && published[i] == e;
    }
    var any :| any in es;
    assert IsNewest(published[k - 1], es);
  }

  // ---- The aggregate ----

  lemma {:induction false} SumBounds(vs: seq<Vec>, i: nat, lo: real, hi: real)
    requires forall v :: v in vs ==> i < |v| && lo <= v[i] <= hi
    ensures |vs| as real * lo <= SumAt(vs, i) <= |vs| as real * hi
  {
    if vs != [] {
      var front, last := vs[..|vs| - 1], vs[|vs| - 1];
      SumBounds(front, i, lo, hi);
      assert last in vs;
      OneMoreTerm(|front| as real, SumAt(front, i), last[i], lo, hi);
    }
  }

  lemma OneMoreTerm(n: real, s: real, x: real, lo: real, hi: real)
    requires n * lo <= s <= n * hi && lo <= x <= hi
    ensures (n + 1.0) * lo <= s + x <= (n + 1.0) * hi
  {
  }

  lemma DivideSum(n: real, s: real, lo: real, hi: real)
    requires n > 0.0 && n * lo <= s <= n * hi
    ensures lo <= s / n <= hi
  {
    assert (s / n) * n == s;
  }

  /** A mean lies componentwise between any bounds of its vectors. */
  lemma MeanBetween(vs: seq<Vec>, i: nat, lo: real, hi: real)
    requires vs != [] && (forall v :: v in vs ==> |v| == |vs[0]|) && i < |vs[0]|
    requires forall v :: v in vs ==> lo <= v[i] <= hi
    ensures lo <= Mean(vs)[i] <= hi
  {
    SumBounds(vs, i, lo, hi);
    DivideSum(|vs| as real, SumAt(vs, i), lo, hi);
  }

  ghost predicate SameDimension(own: Vec, cache: Cache) {
    forall p :: p in cache ==> |p.1.gradient| == |own|
  }

  /** With equal dimensions every cached gradient is averaged. */
  lemma {:induction false} AllGradientsComplete(own: Vec, cache: Cache)
    requires SameDimension(own, cache)
    ensures |AllGradients(own, cache)| == |cache| + 1
    ensures forall k :: 0 <= k < |cache| ==> AllGradients(own, cache)[k + 1] == cache[k].1.gradient
  {
    if cache != [] {
      AllGradientsComplete(own, cache[..|cache| - 1]);
    }
  }

  /** A cached gradient of another dimension is counted but never averaged. */
  lemma {:induction false} AllAveragedExactly(own: Vec, cache: Cache)
    ensures |AllGradients(own, cache)| <= |cache| + 1
    ensures |AllGradients(own, cache)| == |cache| + 1 <==> SameDimension(own, cache)
  {
    if cache != [] {
      var front, last := cache[..|cache| - 1], cache[|cache| - 1];
      AllAveragedExactly(own, front);
      assert cache == front + [last];
    }
  }

  /** The cached gradients of dimension n. */
  ghost function Matching(cache: Cache, n: nat): nat {
    if cache == [] then 0
    else Matching(cache[..|cache| - 1], n) + if |cache[|cache| - 1].1.gradient| == n then 1 else 0
  }

  ghost function MatchingSum(cache: Cache, n: nat, i: nat): real
    requires i < n
  {
    if cache == [] then 0.0
    else
      var g := cache[|cache| - 1].1.gradient;
      MatchingSum(cache[..|cache| - 1], n, i) + if |g| == n then g[i] else 0.0
  }

  /** The averaged vectors are the own one and the cached ones of its dimension. */
  lemma {:induction false} AllGradientsSum(own: Vec, cache: Cache, i: nat)
    requires i < |own|
    ensures |AllGradients(own, cache)| == 1 + Matching(cache, |own|)
    ensures SumAt(AllGradients(own, cache), i) == own[i] + MatchingSum(cache, |own|, i)
  {
    var all := AllGradients(own, cache);
    if cache == [] {
      assert SumAt([own][..0], i) == 0.0;
    } else {
      var front, g := cache[..|cache| - 1], cache[|cache| - 1].1.gradient;
      AllGradientsSum(own, front, i);
      if |g| == |own| {
        assert all[..|all| - 1] == AllGradients(own, front);
      }
    }
  }

  /** count * x == sum */
  ghost predicate Averages(count: nat, x: real, sum: real) {
    count as real * x == sum
  }

  /** A mean times the number of vectors is their sum. */
  lemma MeanTimesCount(vs: seq<Vec>, i: nat)
    requires vs != [] && (forall v :: v in vs ==> |v| == |vs[0]|) && i < |vs[0]|
    ensures Averages(|vs|, Mean(vs)[i], SumAt(vs, i))
  {
  }

  lemma {:induction false} MatchingAll(cache: Cache, n: nat)
    requires forall p :: p in cache ==> |p.1.gradient| == n
    ensures Matching(cache, n) == |cache|
  {
    if cache != [] {
      MatchingAll(cache[..|cache| - 1], n);
    }
  }

  /** What an aggregation stores: the sum of the own gradient and the matching cached ones, divided by
      their number, which it also records. */
  lemma AggregateExactly(s: Protocol, i: nat)
    requires s.own.Some? && i < |s.own.value|
    ensures var own, count := s.own.value, Matching(s.cache, |s.own.value|);
      var t := Aggregate(s);
      if count == 0 then t == s
      else
        && t == s.(aggregated := t.aggregated, gradientsAggregated := 1 + count)
        && t.aggregated.Some? && |t.aggregated.value| == |own|
        && Averages(1 + count, t.aggregated.value[i], own[i] + MatchingSum(s.cache, |own|, i))
  {
    var all := AllGradients(s.own.value, s.cache);
    AllGradientsSum(s.own.value, s.cache, i);
    hide Mean, SumAt, AllGradients, Averages;
    MeanTimesCount(all, i);
  }

  /** Aggregation leaves the mean of the own gradient and the matching cached ones exactly when
      some cached one matches or the aggregate is already the own gradient. */
  lemma AggregateIsMeanExactly(s: Protocol)
    requires s.cache != [] && s.own.Some?
    ensures var all := AllGradients(s.own.value, s.cache);
      Aggregate(s).aggregated == Some(Mean(all)) <==> |all| > 1 || s.aggregated == s.own
  {
    var own := s.own.value;
    var all := AllGradients(own, s.cache);
    if |all| == 1 {
      assert all == [own];
      MeanOfOne(own);
    }
  }

  lemma MeanOfOne(v: Vec)
    ensures Mean([v]) == v
  {
    forall i | 0 <= i < |v|
      ensures Mean([v])[i] == v[i]
    {
      assert SumAt([v][..0], i) == 0.0;
    }
  }

  // ---- Nodes that heard the same, in any order, aggregate the same ----

  ghost predicate DistinctIds(cache: Cache) {
    forall i, j :: 0 <= i < j < |cache| ==> cache[i].0 != cache[j].0
  }

  lemma {:induction false} AssignKeepsDistinct(cache: Cache, id: Id, e: Entry)
    requires DistinctIds(cache)
    ensures DistinctIds(Assign(cache, id, e))
    ensures forall p :: p in Assign(cache, id, e) <==> p == (id, e) || (p in cache && p.0 != id)
  {
    if cache != [] {
      var rest := cache[1..];
      assert cache == [cache[0]] + rest;
      assert forall p :: p in rest ==> p in cache && p.0 != cache[0].0;
      if cache[0].0 != id {
        AssignKeepsDistinct(rest, id, e);
      }
    }
  }

  lemma {:induction false} DeliveredDistinct(s: Protocol, ds: seq<(Id, Entry)>)
    requires s.cache == []
    ensures DistinctIds(Delivered(s, ds).cache)
    ensures forall p :: p in Delivered(s, ds).cache ==> p in ds
  {
    if ds != [] {
      var front, d := ds[..|ds| - 1], ds[|ds| - 1];
      DeliveredDistinct(s, front);
      AssignKeepsDistinct(Delivered(s, front).cache, d.0, d.1);
    }
  }

  lemma {:induction false} LookupIn(cache: Cache, p: (Id, Entry))
    requires DistinctIds(cache)
    ensures p in cache <==> Lookup(cache, p.0) == Some(p.1)
  {
    if cache != [] {
      assert DistinctIds(cache[1..]);
      assert cache == [cache[0]] + cache[1..];
      LookupIn(cache[1..], p);
      if p in cache && cache[0].0 == p.0 {
        var j :| 0 <= j < |cache| && cache[j] == p;
        assert j == 0;
      }
    }
  }

  ghost function CacheSum(cache: Cache, i: nat): real
    requires forall p :: p in cache ==> i < |p.1.gradient|
  {
    if cache == [] then 0.0 else CacheSum(cache[..|cache| - 1], i) + cache[|cache| - 1].1.gradient[i]
  }

  lemma {:induction false} SumIsCacheSum(own: Vec, cache: Cache, i: nat)
    requires SameDimension(own, cache) && i < |own|
    ensures SumAt(AllGradients(own, cache), i) == own[i] + CacheSum(cache, i)
  {
    var all := AllGradients(own, cache);
    if cache == [] {
      assert SumAt([own][..0], i) == 0.0;
    } else {
      SumIsCacheSum(own, cache[..|cache| - 1], i);
      assert all[..|all| - 1] == AllGradients(own, cache[..|cache| - 1]);
    }
  }

  lemma {:induction false} SumWithout(cache: Cache, j: nat, i: nat)
    requires j < |cache| && forall p :: p in cache ==> i < |p.1.gradient|
    ensures var rest := cache[..j] + cache[j + 1..];
      && (forall p :: p in rest ==> p in cache)
      && CacheSum(cache, i) == CacheSum(rest, i) + cache[j].1.gradient[i]
  {
    var rest, k := cache[..j] + cache[j + 1..], |cache| - 1;
    if j == k {
      assert rest == cache[..k];
    } else {
      SumWithout(cache[..k], j, i);
      assert rest[..|rest| - 1] == cache[..k][..j] + cache[..k][j + 1..];
    }
  }

  lemma {:induction false} SameEntriesSameSum(a: Cache, b: Cache, i: nat)
    requires DistinctIds(a) && DistinctIds(b) && forall p :: p in a <==> p in b
    requires forall p :: p in a ==> i < |p.1.gradient|
    ensures |a| == |b| && CacheSum(a, i) == CacheSum(b, i)
  {
    if a == [] {
      assert b == [] by {
        assert forall k :: 0 <= k < |b| ==> b[k] in b;
      }
    } else {
      var front, last := a[..|a| - 1], a[|a| - 1];
      assert last in a;
      var j :| 0 <= j < |b| && b[j] == last;
      SumWithout(b, j, i);
      var rest := b[..j] + b[j + 1..];
      WithoutOne(a, |a| - 1);
      WithoutOne(b, j);
      assert a[..|a| - 1] + a[|a|..] == front;
      SameEntriesSameSum(front, rest, i);
    }
  }

  /** Removing an entry leaves exactly the others. */
  lemma WithoutOne(cache: Cache, j: nat)
    requires DistinctIds(cache) && j < |cache|
    ensures var rest := cache[..j] + cache[j + 1..];
      DistinctIds(rest) && forall p :: p in rest <==> p in cache && p != cache[j]
  {
    var rest := cache[..j] + cache[j + 1..];
    forall p | p in cache && p != cache[j]
      ensures p in rest
    {
      var k :| 0 <= k < |cache| && cache[k] == p;
      assert rest[if k < j then k else k - 1] == p;
    }
  }

  /** If two nodes with the same own gradient hear the same entries from each sender, in any order and
      with any repetition, and each sender's have a single newest one, their aggregates agree. */
  lemma AggregatesAgree(s: Protocol, own: Vec, d: seq<(Id, Entry)>, d': seq<(Id, Entry)>)
    requires s.cache == [] && forall p :: p in d || p in d' ==> |p.1.gradient| == |own|
    requires forall id :: Elements(From(d, id)) == Elements(From(d', id))
    requires forall id :: From(d, id) != [] ==> exists g :: IsNewest(g, Elements(From(d, id)))
    ensures Mean(AllGradients(own, Delivered(s, d).cache)) == Mean(AllGradients(own, Delivered(s, d').cache))
  {
    hide Delivered, From, AllGradients, Elements, IsNewest, Mean;
    var a, b := Delivered(s, d).cache, Delivered(s, d').cache;
    DeliveredDistinct(s, d);
    DeliveredDistinct(s, d');
    forall p
      ensures p in a <==> p in b
    {
      SameEntry(s, d, d', p);
    }
    SameEntriesSameMean(own, a, b);
  }

  lemma SameEntriesSameMean(own: Vec, a: Cache, b: Cache)
    requires DistinctIds(a) && DistinctIds(b) && forall p :: p in a <==> p in b
    requires SameDimension(own, a)
    ensures Mean(AllGradients(own, a)) == Mean(AllGradients(own, b))
  {
    hide AllGradients, SumAt, CacheSum;
    AllGradientsComplete(own, a);
    AllGradientsComplete(own, b);
    var all, all' := AllGradients(own, a), AllGradients(own, b);
    assert own in all && own in all';
    forall i | 0 <= i < |own|
      ensures Mean(all)[i] == Mean(all')[i]
    {
      SumIsCacheSum(own, a, i);
      SumIsCacheSum(own, b, i);
      SameEntriesSameSum(a, b, i);
    }
  }

  lemma SameEntry(s: Protocol, d: seq<(Id, Entry)>, d': seq<(Id, Entry)>, p: (Id, Entry))
    requires s.cache == [] && Elements(From(d, p.0)) == Elements(From(d', p.0))
    requires From(d, p.0) != [] ==> exists g :: IsNewest(g, Elements(From(d, p.0)))
    ensures p in Delivered(s, d).cache <==> p in Delivered(s, d').cache
  {
    hide Delivered, From, Kept, Lookup, Elements, IsNewest;
    SameKept(From(d, p.0), From(d', p.0));
    CacheBySender(s, d, p.0);
    CacheBySender(s, d', p.0);
    DeliveredDistinct(s, d);
    DeliveredDistinct(s, d');
    LookupIn(Delivered(s, d).cache, p);
    LookupIn(Delivered(s, d').cache, p);
  }

  lemma SameKept(es: seq<Entry>, es': seq<Entry>)
    requires Elements(es) == Elements(es')
    requires es != [] ==> exists g :: IsNewest(g, Elements(es))
    ensures Kept(es) == Kept(es')
  {
    if es != [] {
      var g :| IsNewest(g, Elements(es));
      KeepsNewest(es, g);
      KeepsNewest(es', g);
    } else {
      assert forall k :: 0 <= k < |es'| ==> es'[k] in Elements(es');
    }
  }

  // ---- Interleaved handlers ----

  /** History: handlers that have stored but not aggregated, whether the cache changed since the last
      aggregation, how many aggregations followed the last set_gradients, and the vectors whose mean
      the aggregate is. */
  datatype World = World(p: Protocol, pending: nat, changed: bool, done: nat, used: seq<Vec>)

  datatype Action =
    | SetOwn(gradient: Vec, modelVersion: nat, step: nat)
    | Push(id: Id, entry: Entry)
    | FinishPush

  ghost function Act(w: World, a: Action): World
    requires a.FinishPush? ==> w.pending > 0
  {
    match a
    case SetOwn(g, v, s) => w.(p := SetGradients(w.p, g, v, s), done := 0, used := [g])
    case Push(id, e) =>
      if Accepts(w.p, id, e) then w.(p := StoreGradient(w.p, id, e), pending := w.pending + 1, changed := true) else w
    case FinishPush =>
      var all := if w.p.own.Some? then AllGradients(w.p.own.value, w.p.cache) else [];
      World(Aggregate(w.p), w.pending - 1, false, if w.p.own.Some? then w.done + 1 else 0,
            if |all| > 1 then all else w.used)
  }

  ghost predicate WorldValid(w: World) {
    && (w.changed ==> w.pending > 0)
    && (w.pending > 0 || w.done > 0 ==> w.p.cache != [])
    && match w.p.own
       case None => w.p.aggregated.None? && w.done == 0
       case Some(own) =>
         && w.used != [] && w.used[0] == own && (forall v :: v in w.used ==> |v| == |own|)
         && w.p.aggregated == Some(Mean(w.used))
         && (w.done == 0 ==> w.used == [own])
         && (w.done > 0 && !w.changed && |AllGradients(own, w.p.cache)| > 1 ==> w.used == AllGradients(own, w.p.cache))
  }

  lemma AssignNotEmpty(cache: Cache, id: Id, e: Entry)
    ensures Assign(cache, id, e) != []
  {
  }

  lemma ActKeepsValid(w: World, a: Action)
    requires WorldValid(w) && (a.FinishPush? ==> w.pending > 0)
    ensures WorldValid(Act(w, a))
  {
    hide AllGradients, Mean;
    match a
    case SetOwn(g, _, _) => MeanOfOne(g);
    case Push(id, e) => AssignNotEmpty(w.p.cache, id, e);
    case FinishPush =>
  }

  ghost predicate IsRun(ws: seq<World>, acts: seq<Action>) {
    && |ws| == |acts| + 1
    && ws[0] == World(Protocol([], None, None, 0, 0, 0), 0, false, 0, [])
    && forall k :: 0 <= k < |acts| ==> (acts[k].FinishPush? ==> ws[k].pending > 0) && ws[k + 1] == Act(ws[k], acts[k])
  }

  lemma {:induction false} RunKeepsValid(ws: seq<World>, acts: seq<Action>, k: nat)
    requires IsRun(ws, acts) && k < |ws|
    ensures WorldValid(ws[k])
  {
    if k > 0 {
      RunKeepsValid(ws, acts, k - 1);
      ActKeepsValid(ws[k - 1], acts[k - 1]);
    }
  }

  /** Whenever no handler is in flight, the aggregate is the own gradient if no push finished since
      it was set, and otherwise, if the cached dimensions agree, the exact mean of it and all cached
      ones. */
  lemma QuiescentAggregate(ws: seq<World>, acts: seq<Action>, k: nat)
    requires IsRun(ws, acts) && k < |ws| && ws[k].pending == 0 && ws[k].p.own.Some?
    ensures var p, own := ws[k].p, ws[k].p.own.value;
      && (ws[k].done == 0 ==> p.aggregated == Some(own))
      && (ws[k].done > 0 && SameDimension(own, p.cache) ==> p.aggregated == Some(Mean(AllGradients(own, p.cache))))
  {
    hide Mean, AllGradients;
    RunKeepsValid(ws, acts, k);
    MeanOfOne(ws[k].p.own.value);
    AllAveragedExactly(ws[k].p.own.value, ws[k].p.cache);
  }

  /** In sums: unless nothing cached matches, the aggregate times the number of averaged vectors is the own
      gradient plus the matching cached ones, component by component. */
  lemma QuiescentSum(ws: seq<World>, acts: seq<Action>, k: nat, i: nat)
    requires IsRun(ws, acts) && k < |ws| && ws[k].pending == 0 && ws[k].p.own.Some? && ws[k].done > 0
    requires i < |ws[k].p.own.value| && Matching(ws[k].p.cache, |ws[k].p.own.value|) > 0
    ensures var p, own := ws[k].p, ws[k].p.own.value;
      && p.aggregated.Some? && |p.aggregated.value| == |own|
      && Averages(1 + Matching(p.cache, |own|), p.aggregated.value[i], own[i] + MatchingSum(p.cache, |own|, i))
      && (SameDimension(own, p.cache) ==> Matching(p.cache, |own|) == |p.cache|)
  {
    RunKeepsValid(ws, acts, k);
    var p, own := ws[k].p, ws[k].p.own.value;
    AllGradientsSum(own, p.cache, i);
    hide Mean, SumAt, AllGradients, Averages, Matching, MatchingSum;
    MeanTimesCount(AllGradients(own, p.cache), i);
    if SameDimension(own, p.cache) {
      MatchingAll(p.cache, |own|);
    }
  }

  ghost function CachedGradients(cache: Cache): seq<Vec> {
    seq(|cache|, i requires 0 <= i < |cache| => cache[i].1.gradient)
  }

  /** The aggregate then averages exactly the vectors it is reported for, the own and all cached ones, if
      and only if nothing is cached, or some push finished since set_gradients and all cached
      gradients have the own dimension. */
  lemma ReportRightExactly(ws: seq<World>, acts: seq<Action>, k: nat)
    requires IsRun(ws, acts) && k < |ws| && ws[k].pending == 0 && ws[k].p.own.Some?
    ensures var p, own := ws[k].p, ws[k].p.own.value;
      ws[k].used == [own] + CachedGradients(p.cache)
      <==> p.cache == [] || (ws[k].done > 0 && SameDimension(own, p.cache))
  {
    hide Mean, AllGradients;
    RunKeepsValid(ws, acts, k);
    var w := ws[k];
    var own, cached := w.p.own.value, CachedGradients(w.p.cache);
    AllAveragedExactly(own, w.p.cache);
    if SameDimension(own, w.p.cache) {
      AllGradientsComplete(own, w.p.cache);
      assert AllGradients(own, w.p.cache) == [own] + cached;
    } else if w.used == [own] + cached {
      forall p | p in w.p.cache
        ensures |p.1.gradient| == |own|
      {
        var i :| 0 <= i < |w.p.cache| && w.p.cache[i] == p;
        assert w.used[i + 1] == p.1.gradient;
      }
    }
  }

  /** Where the cached dimensions agree, that is when the reported number is right. */
  lemma CountRightExactly(ws: seq<World>, acts: seq<Action>, k: nat)
    requires IsRun(ws, acts) && k < |ws| && ws[k].pending == 0 && ws[k].p.own.Some?
    requires SameDimension(ws[k].p.own.value, ws[k].p.cache)
    ensures Report(ws[k].p).1 == |ws[k].used| <==> ws[k].p.cache == [] || ws[k].done > 0
  {
    hide Mean, AllGradients;
    RunKeepsValid(ws, acts, k);
    AllAveragedExactly(ws[k].p.own.value, ws[k].p.cache);
  }
}
