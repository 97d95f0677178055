/** What each message and call changes at a membership manager, and that it changes nothing else
    (python/gossip_rl/gossip/membership.py). */
module MembershipEffects {
  import opened Wrappers
  import opened Peers
  import opened Membership

  /** n is m with this table of peers, and everything else alike but perhaps the timers. */
  ghost predicate OnlyPeersAndTimers(m: Manager, n: Manager, peers: map<Id, Record>) {
    n == m.(peers := peers, timers := n.timers, armed := n.armed, nextHandle := n.nextHandle)
  }

  /** p's entry is gone and its handle cannot fire; the other timers stay. */
  ghost predicate TimerDropped(m: Manager, n: Manager, p: Id) {
    && n.timers == m.timers - {p}
    && n.armed == m.armed - (if p in m.timers then {m.timers[p]} else {})
    && n.nextHandle == m.nextHandle
  }

  /** p has an entry, a fresh armed one unless it had one; the other timers stay. */
  ghost predicate TimerStarted(m: Manager, n: Manager, p: Id) {
    if p in m.timers then n.timers == m.timers && n.armed == m.armed && n.nextHandle == m.nextHandle
    else
      && n.timers == m.timers[p := m.nextHandle]
      && n.armed == m.armed[m.nextHandle := p]
      && n.nextHandle == m.nextHandle + 1
  }

  ghost predicate TimersAlike(m: Manager, n: Manager) {
    n.timers == m.timers && n.armed == m.armed && n.nextHandle == m.nextHandle
  }

  lemma PingTakesEffectExactly(m: Manager, msg: Message, raises: bool)
    requires msg.kind == GossipWire.PING
    ensures var (n, reply) := Handle(m, msg, raises);
      && reply == Some(Message(GossipWire.ACK, m.self, msg.sequence, Some(msg.sender), 0))
      && n == m.(peers := n.peers)
      && n.peers == if msg.sender in m.peers
                    then m.peers[msg.sender := Record(m.peers[msg.sender].state, msg.incarnation)]
                    else m.peers
  {
  }

  /** An ALIVE claim of this incarnation about p. */
  ghost predicate Revived(m: Manager, n: Manager, p: Id, incarnation: nat) {
    if p !in m.peers || incarnation <= m.peers[p].incarnation then n == m
    else
      && OnlyPeersAndTimers(m, n, m.peers[p := Record(ALIVE, incarnation)])
      && if m.peers[p].state == ALIVE then TimersAlike(m, n) else TimerDropped(m, n, p)
  }

  lemma ReviveExactly(m: Manager, p: Id, incarnation: nat)
    ensures Revived(m, Revive(m, p, incarnation), p, incarnation)
  {
    if p in m.peers {
      assert m.peers[p := m.peers[p]] == m.peers;
      NoEntry(m, p);
    }
  }

  lemma NoEntry(m: Manager, p: Id)
    ensures p !in m.timers ==> m.timers - {p} == m.timers && m.armed - {} == m.armed
  {
  }

  lemma AliveTakesEffectExactly(m: Manager, msg: Message, raises: bool)
    requires msg.kind == GossipWire.ALIVE
    ensures var (n, reply) := Handle(m, msg, raises);
      && reply == None
      && if msg.target.None? then n == m else Revived(m, n, msg.target.value, msg.incarnation)
  {
    hide Revive, Revived;
    if msg.target.Some? {
      ReviveExactly(m, msg.target.value, msg.incarnation);
    }
  }

  /** An ACK acts as an ALIVE claim about the probed peer and ends the probe, unless the callback of a
      revival raises. */
  lemma AckTakesEffectExactly(m: Manager, msg: Message, raises: bool)
    requires msg.kind == GossipWire.ACK
    ensures var (n, reply) := Handle(m, msg, raises);
      && reply == None
      && if msg.sequence !in m.probes then n == m
         else
           var p := m.probes[msg.sequence];
           var interrupted := raises && p in m.peers && msg.incarnation > m.peers[p].incarnation && m.peers[p].state != ALIVE;
           && Revived(m, n.(probes := m.probes), p, msg.incarnation)
           && n.probes == if interrupted then m.probes else m.probes - {msg.sequence}
  {
    hide Revive, Revived;
    if msg.sequence in m.probes {
      ReviveExactly(m, m.probes[msg.sequence], msg.incarnation);
    }
  }

  /** A suspicion of p, which changes nothing unless p is alive and the claim, if any, not stale. */
  ghost predicate SuspectedNow(m: Manager, n: Manager, p: Id, claim: Option<nat>, raises: bool)
    requires p in m.peers
  {
    if m.peers[p].state != ALIVE || (claim.Some? && claim.value < m.peers[p].incarnation) then n == m
    else
      && OnlyPeersAndTimers(m, n, m.peers[p := Record(SUSPECT, m.peers[p].incarnation)])
      && if raises then TimersAlike(m, n) else TimerStarted(m, n, p)
  }

  lemma SuspicionExactly(m: Manager, p: Id, claim: Option<nat>, raises: bool)
    requires p in m.peers
    ensures SuspectedNow(m, MarkAndWatch(m, p, claim, raises).0, p, claim, raises)
    ensures MarkAndWatch(m, p, claim, raises).1 <==> m.peers[p].state == ALIVE && (claim.None? || claim.value >= m.peers[p].incarnation)
  {
    assert m.peers[p := m.peers[p]] == m.peers;
  }

  /** A SUSPECT claim about the node itself is refuted with a higher incarnation, one about a peer in the
      table suspects it. */
  lemma SuspectTakesEffectExactly(m: Manager, msg: Message, raises: bool)
    requires msg.kind == GossipWire.SUSPECT
    ensures var (n, reply) := Handle(m, msg, raises);
      && reply == None
      && if msg.target == Some(m.self) then
           var own := (if msg.incarnation > m.incarnation then msg.incarnation else m.incarnation) + 1;
           n == m.(incarnation := own, sequence := m.sequence + 1,
                   updates := m.updates + [Message(GossipWire.ALIVE, m.self, m.sequence + 1, Some(m.self), own)])
         else if msg.target.Some? && msg.target.value in m.peers then
           SuspectedNow(m, n, msg.target.value, Some(msg.incarnation), raises)
         else n == m
  {
    hide MarkAndWatch, SuspectedNow;
    if msg.target.Some? && msg.target.value in m.peers {
      SuspicionExactly(m, msg.target.value, Some(msg.incarnation), raises);
    }
  }

  /** A DEAD claim about a peer in the table that is not stale marks it dead and drops its timer. */
  lemma DeadTakesEffectExactly(m: Manager, msg: Message, raises: bool)
    requires msg.kind == GossipWire.DEAD
    ensures var (n, reply) := Handle(m, msg, raises);
      && reply == None
      && if msg.target.Some? && msg.target.value in m.peers && m.peers[msg.target.value].state != DEAD
            && msg.incarnation >= m.peers[msg.target.value].incarnation then
           var p := msg.target.value;
           && OnlyPeersAndTimers(m, n, m.peers[p := Record(DEAD, m.peers[p].incarnation)])
           && TimerDropped(m, n, p)
         else n == m
  {
    if msg.target.Some? && msg.target.value in m.peers {
      var p := msg.target.value;
      assert m.peers[p := m.peers[p]] == m.peers;
      NoEntry(m, p);
    }
  }

  lemma OtherMessagesChangeNothing(m: Manager, msg: Message, raises: bool)
    requires msg.kind !in {GossipWire.PING, GossipWire.ACK, GossipWire.ALIVE, GossipWire.SUSPECT, GossipWire.DEAD}
    ensures Handle(m, msg, raises) == (m, None)
  {
  }

  /** A timed-out probe suspects the peer and, if that changed it, spreads the suspicion. */
  lemma ProbeTimeoutTakesEffectExactly(m: Manager, p: Id, known: nat, raises: bool)
    ensures var n := SuspectPeer(m, p, known, raises);
      if p !in m.peers then n == m
      else
        && SuspectedNow(m, n.(sequence := m.sequence, updates := m.updates), p, None, raises)
        && if m.peers[p].state == ALIVE && !raises then
             && n.sequence == m.sequence + 1
             && n.updates == m.updates + [Message(GossipWire.SUSPECT, m.self, m.sequence + 1, Some(p), known)]
           else n.sequence == m.sequence && n.updates == m.updates
  {
    hide MarkAndWatch, SuspectedNow;
    if p in m.peers {
      SuspicionExactly(m, p, None, raises);
    }
  }

  /** A peer is added exactly when it is unknown or newer; adding and removing touch no timer. */
  lemma TableChangesExactly(m: Manager, p: Id, r: Record)
    ensures var (n, added) := AddPeer(m, p, r);
      && (added <==> p !in m.peers || r.incarnation > m.peers[p].incarnation)
      && n == if added then m.(peers := m.peers[p := r]) else m
    ensures RemovePeer(m, p) == m.(peers := map q | q in m.peers && q != p :: m.peers[q])
  {
    assert m.peers - {p} == map q | q in m.peers && q != p :: m.peers[q];
  }

  /** Updates leave in order, each once. */
  lemma UpdatesAreConserved(m: Manager, most: nat)
    ensures var (n, batch) := TakeUpdates(m, most);
      && batch + n.updates == m.updates
      && |batch| == (if most < |m.updates| then most else |m.updates|)
      && n == m.(updates := n.updates)
  {
  }

  /** A probe takes the next sequence number, is remembered under it until it ends, and sends a PING. */
  lemma ProbesExactly(m: Manager, p: Id)
    ensures var (n, ping) := Probe(m, p);
      && n == m.(sequence := m.sequence + 1, probes := m.probes[m.sequence + 1 := p])
      && ping == Message(GossipWire.PING, m.self, m.sequence + 1, Some(p), 0)
      && (m.sequence + 1 !in m.probes ==> ForgetProbe(n, n.sequence) == m.(sequence := m.sequence + 1))
  {
    if m.sequence + 1 !in m.probes {
      assert m.probes[m.sequence + 1 := p] - {m.sequence + 1} == m.probes;
    }
  }

  /** From the firing of p's timer to its confirmation, run through without interruption: p, if suspected, is
      dead, its entry is gone and no task remains. */
  lemma ConfirmationExactly(m: Manager, h: nat)
    requires h in m.armed
    ensures var p := m.armed[h];
      var fired := Fire(m, h);
      var started := ConfirmStart(fired, p);
      var n := ConfirmFinish(started, p);
      && fired == m.(armed := m.armed - {h}, tasks := m.tasks + multiset{Task(p, false)})
      && started == fired.(timers := m.timers - {p}, tasks := m.tasks + multiset{Task(p, true)})
      && n == started.(tasks := m.tasks, peers := n.peers)
      && n.peers == if p in m.peers && m.peers[p].state == SUSPECT
                    then m.peers[p := Record(DEAD, m.peers[p].incarnation)]
                    else m.peers
  {
    var p := m.armed[h];
    assert m.tasks + multiset{Task(p, false)} - multiset{Task(p, false)} + multiset{Task(p, true)} == m.tasks + multiset{Task(p, true)};
    assert m.tasks + multiset{Task(p, true)} - multiset{Task(p, true)} == m.tasks;
  }
}
