/** _select_gossip_peers of python/gossip_rl/gossip/protocol.py, for every outcome of its random samples. */
module PeerSelection {
  import opened Wrappers
  import opened Peers

  datatype Candidate = Candidate(id: Id, datacenter: Option<string>)

  predicate IsLocal(p: Candidate, datacenter: Option<string>) {
    p.datacenter.Some? && datacenter.Some? && p.datacenter.value == datacenter.value
  }

  predicate Ready(p: Candidate, backoff: map<Id, real>, now: real) {
    p.id in backoff ==> now >= backoff[p.id]
  }

  function Filter(keep: Candidate -> bool, s: seq<Candidate>): (r: seq<Candidate>)
    ensures forall x :: x in r <==> x in s && keep(x)
  {
    if s == [] then []
    else
      var front, last := Filter(keep, s[..|s| - 1]), s[|s| - 1];
      if keep(last) then front + [last] else front
  }

  function LocalTo(datacenter: Option<string>): Candidate -> bool {
    p => IsLocal(p, datacenter)
  }

  function RemoteFrom(datacenter: Option<string>): Candidate -> bool {
    p => !IsLocal(p, datacenter)
  }

  function ReadyAt(backoff: map<Id, real>, now: real): Candidate -> bool {
    p => Ready(p, backoff, now)
  }

  function NotIn(selected: seq<Candidate>): Candidate -> bool {
    p => !Chosen(selected, p)
  }

  /** Peers compare by id. */
  ghost predicate DistinctPeers(s: seq<Candidate>) {
    forall i, j :: 0 <= i < j < |s| ==> s[i].id != s[j].id
  }

  /** `draw(round, n, k)` are the positions random.sample picks, in the given call, of k out of n. */
  ghost predicate Random(draw: (nat, nat, nat) -> seq<nat>) {
    forall round: nat, n: nat, k: nat :: k <= n ==>
      && |draw(round, n, k)| == k
      && Distinct(draw(round, n, k))
      && forall i :: 0 <= i < k ==> draw(round, n, k)[i] < n
  }

  function Sample(s: seq<Candidate>, k: nat, round: nat, draw: (nat, nat, nat) -> seq<nat>): (r: seq<Candidate>)
    requires Random(draw) && k <= |s|
    ensures |r| == k
  {
    var d := draw(round, |s|, k);
    seq(k, i requires 0 <= i < k => s[d[i]])
  }

  function NonNegative(a: int): nat {
    if a < 0 then 0 else a
  }

  lemma SampleDistinct(s: seq<Candidate>, k: nat, round: nat, draw: (nat, nat, nat) -> seq<nat>)
    requires Random(draw) && k <= |s| && DistinctPeers(s)
    ensures var r := Sample(s, k, round, draw);
      DistinctPeers(r) && forall p :: p in r ==> p in s
  {
    var r, d := Sample(s, k, round, draw), draw(round, |s|, k);
    forall i, j | 0 <= i < j < k
      ensures r[i].id != r[j].id
    {
      assert d[i] != d[j];
      if d[i] < d[j] {
        assert s[d[i]].id != s[d[j]].id;
      } else {
        assert s[d[j]].id != s[d[i]].id;
      }
    }
  }

  lemma {:induction false} FilterDistinct(keep: Candidate -> bool, s: seq<Candidate>)
    requires DistinctPeers(s)
    ensures DistinctPeers(Filter(keep, s))
  {
    if s != [] {
      var front, last := s[..|s| - 1], s[|s| - 1];
      FilterDistinct(keep, front);
      assert forall p :: p in Filter(keep, front) ==> p in front && p.id != last.id;
    }
  }

  lemma {:induction false} FilterAppend(keep: Candidate -> bool, a: seq<Candidate>, b: seq<Candidate>)
    ensures Filter(keep, a + b) == Filter(keep, a) + Filter(keep, b)
  {
    if b == [] {
      assert a + b == a;
    } else {
      var front := b[..|b| - 1];
      FilterAppend(keep, a, front);
      assert (a + b)[..|a + b| - 1] == a + front;
    }
  }

  lemma {:induction false} FilterUniform(keep: Candidate -> bool, s: seq<Candidate>, all: bool)
    requires forall p :: p in s ==> keep(p) == all
    ensures Filter(keep, s) == if all then s else []
  {
    if s != [] {
      assert s[|s| - 1] in s;
      FilterUniform(keep, s[..|s| - 1], all);
    }
  }

  lemma {:induction false} DistinctSize(s: seq<Candidate>)
    requires DistinctPeers(s)
    ensures |Elements(s)| == |s|
  {
    if s != [] {
      var front, last := s[..|s| - 1], s[|s| - 1];
      DistinctSize(front);
      assert last !in front;
      assert Elements(s) == Elements(front) + {last};
    }
  }

  predicate Chosen(selected: seq<Candidate>, p: Candidate) {
    exists i :: 0 <= i < |selected| && selected[i].id == p.id
  }

  lemma SamePeer(s: seq<Candidate>, p: Candidate, q: Candidate)
    requires DistinctPeers(s) && p in s && q in s && p.id == q.id
    ensures p == q
  {
  }

  /** Of distinct peers, all but the chosen ones remain. */
  lemma RemainingAfter(same: seq<Candidate>, chosen: seq<Candidate>, others: seq<Candidate>, some: seq<Candidate>)
    requires DistinctPeers(same + others) && DistinctPeers(chosen)
    requires forall p :: p in chosen ==> p in same
    requires forall p :: p in some ==> p in others
    ensures |Filter(NotIn(chosen + some), same)| == |same| - |chosen|
  {
    var all, keep := same + others, NotIn(chosen + some);
    var rest := Filter(keep, same);
    assert forall i :: 0 <= i < |same| ==> all[i] == same[i];
    FilterDistinct(keep, same);
    DistinctSize(same);
    DistinctSize(chosen);
    DistinctSize(rest);
    forall p | p in same
      ensures p in rest <==> p !in chosen
    {
      ChosenExactly(same, chosen, others, some, p);
    }
    assert Elements(rest) == Elements(same) - Elements(chosen);
  }

  lemma ChosenExactly(same: seq<Candidate>, chosen: seq<Candidate>, others: seq<Candidate>, some: seq<Candidate>, p: Candidate)
    requires DistinctPeers(same + others) && p in same
    requires forall q :: q in chosen ==> q in same
    requires forall q :: q in some ==> q in others
    ensures Chosen(chosen + some, p) <==> p in chosen
  {
    var selected := chosen + some;
    if p in chosen {
      var i :| 0 <= i < |chosen| && chosen[i] == p;
      assert selected[i].id == p.id;
    }
    if i :| 0 <= i < |selected| && selected[i].id == p.id {
      assert selected[i] in chosen || selected[i] in some;
      SamePeer(same + others, selected[i], p);
      if selected[i] in some {
        var j :| 0 <= j < |same| && same[j] == p;
        var k :| 0 <= k < |others| && others[k] == p;
        assert (same + others)[j] == (same + others)[|same| + k];
      }
    }
  }

  /** How many peers of other datacenters are taken, and how many local ones first. */
  function FirstLocals(fanout: int, locals: nat): (n: nat)
    ensures n <= locals
  {
    NonNegative(Min(locals, fanout * 2 / 3))
  }

  /** The three samples: locals first, then remote peers, then the locals not yet chosen. */
  method Draw(
    sameDc: seq<Candidate>,
    otherDc: seq<Candidate>,
    fanout: int,
    draw: (nat, nat, nat) -> seq<nat>)
    returns (selected: seq<Candidate>, ghost first: seq<Candidate>, ghost others: seq<Candidate>, ghost more: seq<Candidate>)
    requires DistinctPeers(sameDc) && DistinctPeers(otherDc) && DistinctPeers(sameDc + otherDc) && Random(draw)
    ensures selected == first + others + more && DistinctPeers(selected)
    ensures forall p :: p in first || p in more ==> p in sameDc
    ensures forall p :: p in others ==> p in otherDc
    ensures |first| == FirstLocals(fanout, |sameDc|) == NonNegative(Min(|sameDc|, fanout * 2 / 3))
    ensures |others| == if fanout - |first| > 0 && otherDc != [] then Min(fanout - |first|, |otherDc|) else 0
    ensures |more| ==
      if fanout - |first| - |others| > 0 then Min(fanout - |first| - |others|, |sameDc| - |first|) else 0
  {
    hide DistinctPeers, Chosen, Random, Filter, Sample, NotIn;
    NoPeers();
    selected := [];
    var localCount := Min(|sameDc|, fanout * 2 / 3);
    if localCount > 0 {
      selected := selected + Sample(sameDc, localCount, 0, draw);
      SampleDistinct(sameDc, localCount, 0, draw);
    }
    first := selected;
    assert |first| == FirstLocals(fanout, |sameDc|);
    hide FirstLocals;
    var remaining := fanout - |selected|;
    others := [];
    if remaining > 0 && otherDc != [] {
      others := Sample(otherDc, Min(remaining, |otherDc|), 1, draw);
      SampleDistinct(otherDc, Min(remaining, |otherDc|), 1, draw);
      selected := selected + Sample(otherDc, Min(remaining, |otherDc|), 1, draw);
    }
    assert selected == first + others;
    AppendDistinct(first, others, sameDc, otherDc);
    remaining := fanout - |selected|;
    more := [];
    if remaining > 0 {
      var rest := Filter(NotIn(selected), sameDc);
      RemainingAfter(sameDc, first, otherDc, others);
      FilterDistinct(NotIn(selected), sameDc);
      Unchosen(selected);
      more := Sample(rest, Min(remaining, |rest|), 2, draw);
      SampleDistinct(rest, Min(remaining, |rest|), 2, draw);
      AppendUnchosen(selected, more);
      selected := selected + Sample(rest, Min(remaining, |rest|), 2, draw);
    }
  }

  /** Exactly max(0, min(fanout, available)) distinct peers out of those alive and not in backoff, with
      exactly the stated number of remote ones; the rest, never fewer than two thirds of the
      fanout where there are as many, are local. */
  method SelectGossipPeers(
    alive: seq<Candidate>,
    backoff: map<Id, real>,
    now: real,
    fanout: int,
    datacenter: Option<string>,
    draw: (nat, nat, nat) -> seq<nat>)
    returns (selected: seq<Candidate>)
    requires DistinctPeers(alive) && Random(draw)
    ensures DistinctPeers(selected)
    ensures forall p :: p in selected ==> p in alive && (p.id !in backoff || now >= backoff[p.id])
    ensures var available := Filter(ReadyAt(backoff, now), alive);
      var local, remote := LocalTo(datacenter), RemoteFrom(datacenter);
      var locals, remotes := |Filter(local, available)|, |Filter(remote, available)|;
      && |selected| == NonNegative(Min(fanout, |available|)) == NonNegative(Min(fanout, locals + remotes))
      && |Filter(remote, selected)| == NonNegative(Min(remotes, fanout - NonNegative(Min(locals, fanout * 2 / 3))))
      && |Filter(local, selected)| == |selected| - |Filter(remote, selected)| >= Min(locals, fanout * 2 / 3)
  {
    hide DistinctPeers, Chosen, Random, Filter, Sample, LocalTo, RemoteFrom, ReadyAt, NotIn, IsLocal, Ready;
    hide FirstLocals;
    var local, remote := LocalTo(datacenter), RemoteFrom(datacenter);
    Meanings(backoff, now, datacenter);
    var available := Filter(ReadyAt(backoff, now), alive);
    FilterDistinct(ReadyAt(backoff, now), alive);
    Splits(available, datacenter);
    NoPeers();
    if available == [] {
      Tally(fanout, 0, 0, 0, 0, 0);
      return [];
    }
    var sameDc, otherDc := Filter(local, available), Filter(remote, available);
    FilterDistinct(local, available);
    FilterDistinct(remote, available);
    Apart(available, datacenter, sameDc, otherDc);
    ghost var first, others, more;
    selected, first, others, more := Draw(sameDc, otherDc, fanout, draw);
    Counts(first, others, more, datacenter);
    Tally(fanout, |sameDc|, |otherDc|, |first|, |others|, |more|);
  }

  /** The three samples add up. */
  lemma Tally(fanout: int, locals: nat, remotes: nat, first: nat, others: nat, more: nat)
    requires first == FirstLocals(fanout, locals)
    requires others == if fanout - first > 0 && remotes > 0 then Min(fanout - first, remotes) else 0
    requires more == if fanout - first - others > 0 then Min(fanout - first - others, locals - first) else 0
    ensures FirstLocals(fanout, locals) <= first + more
    ensures first + others + more == NonNegative(Min(fanout, locals + remotes))
    ensures others == NonNegative(Min(remotes, fanout - NonNegative(Min(locals, fanout * 2 / 3))))
    ensures first + more >= Min(locals, fanout * 2 / 3)
  {
  }

  lemma {:induction false} Splits(s: seq<Candidate>, datacenter: Option<string>)
    ensures |Filter(LocalTo(datacenter), s)| + |Filter(RemoteFrom(datacenter), s)| == |s|
  {
    if s != [] {
      Splits(s[..|s| - 1], datacenter);
    }
  }

  lemma Meanings(backoff: map<Id, real>, now: real, datacenter: Option<string>)
    ensures forall p :: ReadyAt(backoff, now)(p) <==> p.id !in backoff || now >= backoff[p.id]
    ensures forall p :: LocalTo(datacenter)(p) <==> p.datacenter.Some? && p.datacenter == datacenter
    ensures forall p :: RemoteFrom(datacenter)(p) <==> p.datacenter.None? || p.datacenter != datacenter
    ensures forall p :: IsLocal(p, datacenter) <==> p.datacenter.Some? && p.datacenter == datacenter
    ensures forall p :: Ready(p, backoff, now) <==> p.id !in backoff || now >= backoff[p.id]
  {
  }

  lemma Unchosen(selected: seq<Candidate>)
    ensures forall p :: NotIn(selected)(p) <==> !Chosen(selected, p)
  {
  }

  lemma NoPeers()
    ensures DistinctPeers([]) && forall keep :: Filter(keep, []) == []
  {
  }

  lemma AppendDistinct(a: seq<Candidate>, b: seq<Candidate>, all: seq<Candidate>, others: seq<Candidate>)
    requires DistinctPeers(all + others) && DistinctPeers(a) && DistinctPeers(b)
    requires (forall p :: p in a ==> p in all) && forall p :: p in b ==> p in others
    ensures DistinctPeers(a + b)
  {
    forall i, j | 0 <= i < |a| && 0 <= j < |b|
      ensures a[i].id != b[j].id
    {
      assert a[i] in all && b[j] in others;
      var k :| 0 <= k < |all| && all[k] == a[i];
      var l :| 0 <= l < |others| && others[l] == b[j];
      assert (all + others)[k] == a[i] && (all + others)[|all| + l] == b[j];
    }
  }

  lemma AppendUnchosen(selected: seq<Candidate>, more: seq<Candidate>)
    requires DistinctPeers(selected) && DistinctPeers(more)
    requires forall p :: p in more ==> !Chosen(selected, p)
    ensures DistinctPeers(selected + more)
  {
    forall i, j | 0 <= i < |selected| && 0 <= j < |more|
      ensures selected[i].id != more[j].id
    {
      assert more[j] in more;
    }
  }

  lemma Apart(available: seq<Candidate>, datacenter: Option<string>, same: seq<Candidate>, other: seq<Candidate>)
    requires DistinctPeers(available) && DistinctPeers(same) && DistinctPeers(other)
    requires forall p :: p in same <==> p in available && IsLocal(p, datacenter)
    requires forall p :: p in other <==> p in available && !IsLocal(p, datacenter)
    ensures DistinctPeers(same + other)
  {
    forall i, j | 0 <= i < |same| && 0 <= j < |other|
      ensures same[i].id != other[j].id
    {
      assert same[i] in same && other[j] in other;
      if same[i].id == other[j].id {
        SamePeer(available, same[i], other[j]);
      }
    }
  }

  lemma Counts(first: seq<Candidate>, others: seq<Candidate>, more: seq<Candidate>, datacenter: Option<string>)
    requires forall p :: p in first || p in more ==> IsLocal(p, datacenter)
    requires forall p :: p in others ==> !IsLocal(p, datacenter)
    ensures var s := first + others + more;
      && |Filter(LocalTo(datacenter), s)| == |first| + |more|
      && |Filter(RemoteFrom(datacenter), s)| == |others|
  {
    var local, remote := LocalTo(datacenter), RemoteFrom(datacenter);
    FilterAppend(local, first + others, more);
    FilterAppend(local, first, others);
    FilterAppend(remote, first + others, more);
    FilterAppend(remote, first, others);
    FilterUniform(local, first, true);
    FilterUniform(local, others, false);
    FilterUniform(local, more, true);
    FilterUniform(remote, first, false);
    FilterUniform(remote, others, true);
    FilterUniform(remote, more, false);
  }
}
