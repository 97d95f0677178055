/** A run in which a refuted suspicion takes effect again: the PING of a peer takes its record back to
    incarnation 0 (python/gossip_rl/gossip/membership.py). */
module MembershipReopening {
  import opened Wrappers
  import opened Peers
  import opened Membership
  import opened MembershipTimers
  import opened MembershipNetwork

  lemma Move(nets: seq<Net>, steps: seq<Step>, net: Net, s: Step) returns (nets': seq<Net>, steps': seq<Step>)
    requires IsNetRun(nets, steps) && nets != [] && nets[|nets| - 1] == net && Possible(net, s)
    ensures IsNetRun(nets', steps') && |nets'| == |nets| + 1 && nets <= nets' && nets'[|nets|] == Next(net, s)
    ensures steps' == steps + [s]
  {
    hide Possible, Next, Init;
    nets', steps' := nets + [Next(net, s)], steps + [s];
  }

  ghost function Suspicion(n: Id, p: Id): Message {
    Message(GossipWire.SUSPECT, n, 1, Some(p), 0)
  }

  ghost function Refutation(p: Id): Message {
    Message(GossipWire.ALIVE, p, 1, Some(p), 1)
  }

  ghost function Ping(n: Id, p: Id): Message {
    Message(GossipWire.PING, p, 2, Some(n), 0)
  }

  /** n's record of p, n's queue, p's incarnation, sequence number and queue, and messages sent. */
  ghost predicate Stage(net: Net, n: Id, p: Id, record: Record, queue: seq<Message>, own: nat, sequence: nat,
                      queueP: seq<Message>, sent: set<Message>) {
    && n in net.nodes && p in net.nodes && net.nodes[n].self == n && net.nodes[p].self == p
    && net.nodes[n].peers == map[p := record] && net.nodes[n].updates == queue
    && net.nodes[p].incarnation == own && net.nodes[p].sequence == sequence && net.nodes[p].updates == queueP
    && sent <= net.soup
  }

  lemma Added(net: Net, n: Id, p: Id)
    requires n != p && n in net.nodes && p in net.nodes && net.nodes[n] == Fresh(n, 0) && net.nodes[p] == Fresh(p, 0)
    ensures var s := At(n, Add(p, Record(ALIVE, 0)));
      Possible(net, s) && Stage(Next(net, s), n, p, Record(ALIVE, 0), [], 0, 0, [], {}) && Next(net, s).nodes[n].sequence == 0
  {
    assert AddPeer(Fresh(n, 0), p, Record(ALIVE, 0)).0.peers == map[p := Record(ALIVE, 0)];
  }

  lemma Suspected(net: Net, n: Id, p: Id)
    requires n != p && Stage(net, n, p, Record(ALIVE, 0), [], 0, 0, [], {}) && net.nodes[n].sequence == 0
    ensures var s := At(n, ProbeTimeout(p, 0, false));
      Possible(net, s) && Stage(Next(net, s), n, p, Record(SUSPECT, 0), [Suspicion(n, p)], 0, 0, [], {})
  {
    hide StartTimer;
  }

  lemma Spread(net: Net, n: Id, p: Id)
    requires n != p && Stage(net, n, p, Record(SUSPECT, 0), [Suspicion(n, p)], 0, 0, [], {})
    ensures var s := At(n, Take(10));
      Possible(net, s) && Stage(Next(net, s), n, p, Record(SUSPECT, 0), [], 0, 0, [], {Suspicion(n, p)})
  {
    assert [Suspicion(n, p)][..1] == [Suspicion(n, p)];
    assert Suspicion(n, p) in TakeUpdates(net.nodes[n], 10).1;
  }

  lemma RefutedBy(net: Net, n: Id, p: Id)
    requires n != p && Stage(net, n, p, Record(SUSPECT, 0), [], 0, 0, [], {Suspicion(n, p)})
    ensures var s := At(p, Receive(Suspicion(n, p), false));
      Possible(net, s) && Stage(Next(net, s), n, p, Record(SUSPECT, 0), [], 1, 1, [Refutation(p)], {Suspicion(n, p)})
  {
  }

  lemma Answered(net: Net, n: Id, p: Id)
    requires n != p && Stage(net, n, p, Record(SUSPECT, 0), [], 1, 1, [Refutation(p)], {Suspicion(n, p)})
    ensures var s := At(p, Take(10));
      Possible(net, s) && Stage(Next(net, s), n, p, Record(SUSPECT, 0), [], 1, 1, [], {Suspicion(n, p), Refutation(p)})
  {
    assert [Refutation(p)][..1] == [Refutation(p)];
    assert Refutation(p) in TakeUpdates(net.nodes[p], 10).1;
  }

  lemma Revived(net: Net, n: Id, p: Id)
    requires n != p && Stage(net, n, p, Record(SUSPECT, 0), [], 1, 1, [], {Suspicion(n, p), Refutation(p)})
    ensures var s := At(n, Receive(Refutation(p), false));
      Possible(net, s) && Stage(Next(net, s), n, p, Record(ALIVE, 1), [], 1, 1, [], {Suspicion(n, p)})
  {
    hide CancelTimer;
  }

  lemma Probed(net: Net, n: Id, p: Id)
    requires n != p && Stage(net, n, p, Record(ALIVE, 1), [], 1, 1, [], {Suspicion(n, p)})
    ensures var s := At(p, SendProbe(n));
      Possible(net, s) && Stage(Next(net, s), n, p, Record(ALIVE, 1), [], 1, 2, [], {Suspicion(n, p), Ping(n, p)})
  {
    assert Ping(n, p) in Do(net.nodes[p], SendProbe(n)).1;
  }

  lemma Pinged(net: Net, n: Id, p: Id)
    requires n != p && Stage(net, n, p, Record(ALIVE, 1), [], 1, 2, [], {Suspicion(n, p), Ping(n, p)})
    ensures var s := At(n, Receive(Ping(n, p), false));
      Possible(net, s) && Stage(Next(net, s), n, p, Record(ALIVE, 0), [], 1, 2, [], {Suspicion(n, p)})
  {
  }

  lemma Believed(net: Net, n: Id, p: Id)
    requires n != p && Stage(net, n, p, Record(ALIVE, 0), [], 1, 2, [], {Suspicion(n, p)})
    ensures var s := At(n, Receive(Suspicion(n, p), false));
      Possible(net, s) && Stage(Next(net, s), n, p, Record(SUSPECT, 0), [], 1, 2, [], {Suspicion(n, p)})
  {
    hide StartTimer;
  }

  lemma Accusing(nets: seq<Net>, steps: seq<Step>, net: Net, n: Id, p: Id) returns (nets': seq<Net>, steps': seq<Step>)
    requires n != p && IsNetRun(nets, steps) && nets != [] && nets[|nets| - 1] == net
    requires n in net.nodes && p in net.nodes && net.nodes[n] == Fresh(n, 0) && net.nodes[p] == Fresh(p, 0)
    ensures IsNetRun(nets', steps') && |nets'| == |nets| + 3 && nets <= nets'
    ensures Stage(nets'[|nets| + 2], n, p, Record(SUSPECT, 0), [], 0, 0, [], {Suspicion(n, p)})
  {
    hide IsNetRun, Init, Next, Possible, Stage;
    var net0 := net;
    Added(net0, n, p);
    var s0 := At(n, Add(p, Record(ALIVE, 0)));
    var net1 := Next(net0, s0);
    nets', steps' := Move(nets, steps, net0, s0);
    Suspected(net1, n, p);
    var s1 := At(n, ProbeTimeout(p, 0, false));
    var net2 := Next(net1, s1);
    nets', steps' := Move(nets', steps', net1, s1);
    Spread(net2, n, p);
    var s2 := At(n, Take(10));
    var net3 := Next(net2, s2);
    nets', steps' := Move(nets', steps', net2, s2);
  }

  lemma Clearing(nets: seq<Net>, steps: seq<Step>, net: Net, n: Id, p: Id) returns (nets': seq<Net>, steps': seq<Step>)
    requires n != p && IsNetRun(nets, steps) && nets != [] && nets[|nets| - 1] == net
    requires Stage(net, n, p, Record(SUSPECT, 0), [], 0, 0, [], {Suspicion(n, p)})
    ensures IsNetRun(nets', steps') && |nets'| == |nets| + 3 && nets <= nets'
    ensures Stage(nets'[|nets| + 2], n, p, Record(ALIVE, 1), [], 1, 1, [], {Suspicion(n, p)})
  {
    hide IsNetRun, Init, Next, Possible, Stage;
    var net0 := net;
    RefutedBy(net0, n, p);
    var s0 := At(p, Receive(Suspicion(n, p), false));
    var net1 := Next(net0, s0);
    nets', steps' := Move(nets, steps, net0, s0);
    Answered(net1, n, p);
    var s1 := At(p, Take(10));
    var net2 := Next(net1, s1);
    nets', steps' := Move(nets', steps', net1, s1);
    Revived(net2, n, p);
    var s2 := At(n, Receive(Refutation(p), false));
    var net3 := Next(net2, s2);
    nets', steps' := Move(nets', steps', net2, s2);
  }

  lemma Reopening(nets: seq<Net>, steps: seq<Step>, net: Net, n: Id, p: Id) returns (nets': seq<Net>, steps': seq<Step>)
    requires n != p && IsNetRun(nets, steps) && nets != [] && nets[|nets| - 1] == net
    requires Stage(net, n, p, Record(ALIVE, 1), [], 1, 1, [], {Suspicion(n, p)})
    ensures IsNetRun(nets', steps') && |nets'| == |nets| + 3 && nets <= nets'
    ensures Stage(nets'[|nets| + 2], n, p, Record(SUSPECT, 0), [], 1, 2, [], {Suspicion(n, p)})
    ensures steps' != [] && steps'[|steps'| - 1] == At(n, Receive(Suspicion(n, p), false))
  {
    hide IsNetRun, Init, Next, Possible, Stage;
    var net0 := net;
    Probed(net0, n, p);
    var s0 := At(p, SendProbe(n));
    var net1 := Next(net0, s0);
    nets', steps' := Move(nets, steps, net0, s0);
    Pinged(net1, n, p);
    var s1 := At(n, Receive(Ping(n, p), false));
    var net2 := Next(net1, s1);
    nets', steps' := Move(nets', steps', net1, s1);
    Believed(net2, n, p);
    var s2 := At(n, Receive(Suspicion(n, p), false));
    var net3 := Next(net2, s2);
    nets', steps' := Move(nets', steps', net2, s2);
  }

  /** Nine steps: n suspects p, p refutes, n sees p alive at incarnation 1, p pings n, and the old
      suspicion, delivered again, is believed. */
  lemma OldSuspicionReturns(net: Net, n: Id, p: Id) returns (nets: seq<Net>, steps: seq<Step>)
    requires n != p && Init(net) && n in net.nodes && p in net.nodes && net.start[n] == net.start[p] == 0
    ensures IsNetRun(nets, steps) && |nets| == 10 && nets[0] == net
    ensures Stage(nets[6], n, p, Record(ALIVE, 1), [], 1, 1, [], {Suspicion(n, p)})
    ensures Stage(nets[9], n, p, Record(SUSPECT, 0), [], 1, 2, [], {Suspicion(n, p)})
    ensures steps != [] && steps[|steps| - 1] == At(n, Receive(Suspicion(n, p), false))
  {
    nets, steps := [net], [];
    assert IsNetRun(nets, steps) && net.nodes[n] == Fresh(n, 0) && net.nodes[p] == Fresh(p, 0);
    hide IsNetRun, Init, Stage;
    nets, steps := Accusing(nets, steps, net, n, p);
    nets, steps := Clearing(nets, steps, nets[3], n, p);
    nets, steps := Reopening(nets, steps, nets[6], n, p);
  }
}
