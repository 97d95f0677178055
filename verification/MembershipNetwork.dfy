/** Any number of membership managers and the messages they exchange. Messages stay in the soup:
    never delivered is loss, delivered twice is duplication, in any order is reordering. The
    rules of section 4.2 of the SWIM paper (Das, Gupta, Motivala, DSN 2002), as far as the code keeps them. */
module MembershipNetwork {
  import opened Wrappers
  import opened Peers
  import opened Membership
  import opened MembershipEffects
  import opened MembershipTimers

  /** Besides nodes and messages, history: how often each node refuted a suspicion, the
      incarnations of Peer objects that left a table (node, peer, incarnation), and the ALIVE claims
      and added peers each node has learned of (node, peer, incarnation). */
  datatype Net = Net(
    nodes: map<Id, Manager>,
    soup: set<Message>,
    start: map<Id, nat>,
    refutations: map<Id, nat>,
    detached: set<(Id, Id, nat)>,
    learned: set<(Id, Id, nat)>)

  datatype Step =
    | At(node: Id, event: Event)
    | AnnounceDead(node: Id, peer: Id, sequence: nat)

  ghost predicate Possible(net: Net, s: Step) {
    && s.node in net.nodes
    && var m := net.nodes[s.node];
    match s
    case AnnounceDead(_, p, _) => p in m.peers && m.peers[p].state == DEAD
    case At(n, e) =>
      && Enabled(m, e)
      && match e
         case Receive(msg, _) => msg in net.soup
         case ProbeTimeout(p, known, _) => (p in m.peers && known == m.peers[p].incarnation) || (n, p, known) in net.detached
         case Add(p, r) => p in net.nodes && r.incarnation <= net.nodes[p].incarnation
         case _ => true
  }

  ghost predicate Refutes(m: Manager, e: Event) {
    e.Receive? && e.msg.kind == GossipWire.SUSPECT && e.msg.target == Some(m.self)
  }

  ghost function Detached(n: Id, m: Manager, e: Event): set<(Id, Id, nat)> {
    match e
    case Add(p, _) => if p in m.peers then {(n, p, m.peers[p].incarnation)} else {}
    case Remove(p) => if p in m.peers then {(n, p, m.peers[p].incarnation)} else {}
    case _ => {}
  }

  ghost function Learned(n: Id, e: Event): set<(Id, Id, nat)> {
    match e
    case Add(p, r) => {(n, p, r.incarnation)}
    case Receive(msg, _) =>
      if msg.kind == GossipWire.ALIVE && msg.target.Some? then {(n, msg.target.value, msg.incarnation)} else {}
    case _ => {}
  }

  ghost function Next(net: Net, s: Step): Net
    requires Possible(net, s)
  {
    var m := net.nodes[s.node];
    match s
    case AnnounceDead(n, p, sequence) =>
      net.(soup := net.soup + {Message(GossipWire.DEAD, n, sequence, Some(p), m.peers[p].incarnation)})
    case At(n, e) =>
      var (m', sent) := Do(m, e);
      var count := if n in net.refutations then net.refutations[n] else 0;
      Net(net.nodes[n := m'],
          net.soup + (set msg | msg in sent),
          net.start,
          net.refutations[n := if Refutes(m, e) then count + 1 else count],
          net.detached + Detached(n, m, e),
          net.learned + Learned(n, e))
  }

  // ---- Incarnations ----

  ghost function Own(net: Net): map<Id, nat> {
    map n | n in net.nodes :: net.nodes[n].incarnation
  }

  ghost predicate AtMost(own: map<Id, nat>, p: Id, incarnation: nat) {
    p in own && incarnation <= own[p]
  }

  /** ALIVE, SUSPECT and DEAD claims stay within the incarnation of the node they are about, an
      ALIVE one is a refutation of that node's, and the other messages carry none. */
  ghost predicate MessageBounded(own: map<Id, nat>, start: map<Id, nat>, msg: Message) {
    match msg.kind
    case ALIVE =>
      && msg.target == Some(msg.sender) && AtMost(own, msg.sender, msg.incarnation)
      && msg.sender in start && start[msg.sender] < msg.incarnation
    case SUSPECT => msg.target.Some? && AtMost(own, msg.target.value, msg.incarnation)
    case DEAD => msg.target.Some? && AtMost(own, msg.target.value, msg.incarnation)
    case _ => msg.incarnation == 0
  }

  ghost predicate NodeBounded(own: map<Id, nat>, start: map<Id, nat>, m: Manager) {
    && (forall p :: p in m.peers ==> AtMost(own, p, m.peers[p].incarnation))
    && (forall msg :: msg in m.updates ==> MessageBounded(own, start, msg))
  }

  /** A record's incarnation is 0 or was learned. */
  ghost predicate NodeLearned(learned: set<(Id, Id, nat)>, n: Id, m: Manager) {
    forall p :: p in m.peers ==> m.peers[p].incarnation == 0 || (n, p, m.peers[p].incarnation) in learned
  }

  ghost predicate NodeCounted(net: Net, n: Id)
    requires n in net.nodes
  {
    && net.nodes[n].self == n
    && n in net.start && n in net.refutations
    && net.nodes[n].incarnation == net.start[n] + net.refutations[n]
  }

  ghost predicate Inv(net: Net) {
    var own := Own(net);
    && (forall n :: n in net.nodes ==>
          NodeCounted(net, n) && NodeBounded(own, net.start, net.nodes[n]) && NodeLearned(net.learned, n, net.nodes[n]))
    && (forall msg :: msg in net.soup ==> MessageBounded(own, net.start, msg))
    && (forall d :: d in net.detached ==> AtMost(own, d.1, d.2))
  }

  ghost predicate Init(net: Net) {
    && (forall n :: n in net.nodes ==>
          n in net.start && net.nodes[n] == Fresh(n, net.start[n])
          && n in net.refutations && net.refutations[n] == 0)
    && net.soup == {} && net.detached == {} && net.learned == {}
  }

  ghost predicate Grows(own: map<Id, nat>, own': map<Id, nat>) {
    forall p :: p in own ==> p in own' && own[p] <= own'[p]
  }

  lemma MessageGrows(own: map<Id, nat>, own': map<Id, nat>, start: map<Id, nat>, msg: Message)
    requires Grows(own, own') && MessageBounded(own, start, msg)
    ensures MessageBounded(own', start, msg)
  {
  }

  lemma NodeGrows(own: map<Id, nat>, own': map<Id, nat>, start: map<Id, nat>, m: Manager)
    requires Grows(own, own') && NodeBounded(own, start, m)
    ensures NodeBounded(own', start, m)
  {
    forall msg | msg in m.updates
      ensures MessageBounded(own', start, msg)
    {
      MessageGrows(own, own', start, msg);
    }
  }

  lemma ReviveRecord(m: Manager, id: Id, incarnation: nat, p: Id)
    ensures var n := Revive(m, id, incarnation);
      && (p in n.peers <==> p in m.peers)
      && (p in m.peers ==> (
            || n.peers[p].incarnation == m.peers[p].incarnation
            || (p == id && n.peers[p].incarnation == incarnation > m.peers[p].incarnation)))
  {
    hide CancelTimer;
  }

  lemma DeadRecord(m: Manager, msg: Message, p: Id)
    ensures var n := HandleDead(m, msg);
      && (p in n.peers <==> p in m.peers)
      && (p in m.peers ==> n.peers[p].incarnation == m.peers[p].incarnation)
  {
    hide CancelTimer;
  }

  lemma SuspectRecord(m: Manager, id: Id, claim: Option<nat>, raises: bool, p: Id)
    requires id in m.peers
    ensures var n := MarkAndWatch(m, id, claim, raises).0;
      && (p in n.peers <==> p in m.peers)
      && (p in m.peers ==> n.peers[p].incarnation == m.peers[p].incarnation)
  {
    hide StartTimer;
  }

  /** How a message changes the incarnation of a record. */
  lemma ReceivedRecord(m: Manager, msg: Message, raises: bool, p: Id)
    ensures var n := Handle(m, msg, raises).0;
      && (p in n.peers <==> p in m.peers)
      && (p in m.peers ==>
            var i, j := m.peers[p].incarnation, n.peers[p].incarnation;
            match msg.kind
            case PING => j == if msg.sender == p then msg.incarnation else i
            case ACK => j == i || j == msg.incarnation > i
            case ALIVE => j == i || (j == msg.incarnation > i && msg.target == Some(p))
            case _ => j == i)
  {
    hide Revive, MarkAndWatch, HandleDead;
    DeadRecord(m, msg, p);
    if msg.kind == GossipWire.ACK && msg.sequence in m.probes {
      ReviveRecord(m, m.probes[msg.sequence], msg.incarnation, p);
    }
    if msg.target.Some? {
      ReviveRecord(m, msg.target.value, msg.incarnation, p);
      if msg.target.value in m.peers {
        SuspectRecord(m, msg.target.value, Some(msg.incarnation), raises, p);
      }
    }
  }

  /** Where a record's incarnation comes from. */
  lemma RecordOrigin(m: Manager, e: Event, p: Id)
    requires Enabled(m, e) && p in Do(m, e).0.peers
    requires e.Receive? && (e.msg.kind == GossipWire.PING || e.msg.kind == GossipWire.ACK) ==> e.msg.incarnation == 0
    ensures var i := Do(m, e).0.peers[p].incarnation;
      || (p in m.peers && (i == m.peers[p].incarnation || i == 0))
      || (e.Receive? && e.msg.kind == GossipWire.ALIVE && e.msg.target == Some(p) && i == e.msg.incarnation)
      || (e.Add? && e.id == p && i == e.record.incarnation)
  {
    hide Handle, MarkAndWatch;
    if e.Receive? {
      ReceivedRecord(m, e.msg, e.raises, p);
    } else if e.ProbeTimeout? && e.id in m.peers {
      SuspectRecord(m, e.id, None, e.raises, p);
    }
  }

  lemma ReceivedMessage(m: Manager, msg: Message, raises: bool)
    ensures var (n, reply) := Handle(m, msg, raises);
      && (reply.Some? ==> reply.value.kind == GossipWire.ACK && reply.value.incarnation == 0)
      && (n.updates == m.updates || (Refutes(m, Receive(msg, raises)) && n.updates ==
            m.updates + [Message(GossipWire.ALIVE, m.self, m.sequence + 1, Some(m.self), n.incarnation)]))
  {
    hide HandleAck, HandleAlive, HandleSuspect, HandleDead;
  }

  /** Where a queued or sent message comes from. */
  lemma MessageOrigin(m: Manager, e: Event, msg: Message)
    requires Enabled(m, e) && (msg in Do(m, e).0.updates || msg in Do(m, e).1)
    ensures
      || msg in m.updates
      || ((msg.kind == GossipWire.PING || msg.kind == GossipWire.ACK) && msg.incarnation == 0)
      || (Refutes(m, e) && msg == Message(GossipWire.ALIVE, m.self, m.sequence + 1, Some(m.self), Do(m, e).0.incarnation))
      || (e.ProbeTimeout? && e.id in m.peers && msg == Message(GossipWire.SUSPECT, m.self, m.sequence + 1, Some(e.id), e.known))
  {
    hide Handle, StartTimer;
    if e.Receive? {
      ReceivedMessage(m, e.msg, e.raises);
    }
  }

  /** A node's incarnation moves only by refutation, one at a time: no claim is ahead of it. */
  lemma OwnIncarnation(m: Manager, e: Event)
    requires Enabled(m, e)
    requires Refutes(m, e) ==> e.msg.incarnation <= m.incarnation
    ensures var n := Do(m, e).0;
      n.self == m.self && n.incarnation == if Refutes(m, e) then m.incarnation + 1 else m.incarnation
  {
    hide Handle, MarkAndWatch;
    if e.Receive? {
      ReceivedIncarnation(m, e.msg, e.raises);
    }
  }

  lemma ReceivedIncarnation(m: Manager, msg: Message, raises: bool)
    requires Refutes(m, Receive(msg, raises)) ==> msg.incarnation <= m.incarnation
    ensures var n := Handle(m, msg, raises).0;
      n.self == m.self && n.incarnation == if Refutes(m, Receive(msg, raises)) then m.incarnation + 1 else m.incarnation
  {
    hide HandlePing, HandleAck, HandleAlive, HandleSuspect, HandleDead;
  }

  lemma NextOwn(net: Net, n: Id, e: Event)
    requires Inv(net) && Possible(net, At(n, e))
    ensures var net' := Next(net, At(n, e));
      && Own(net') == Own(net)[n := net'.nodes[n].incarnation]
      && Grows(Own(net), Own(net'))
      && NodeCounted(net', n)
      && (Refutes(net.nodes[n], e) ==> net'.start[n] < net'.nodes[n].incarnation)
  {
    hide Do, MessageBounded, NodeBounded, NodeLearned;
    var m := net.nodes[n];
    assert NodeCounted(net, n);
    if Refutes(m, e) {
      assert MessageBounded(Own(net), net.start, e.msg);
      ClaimBounded(Own(net), net.start, e.msg, n);
    }
    OwnIncarnation(m, e);
  }

  lemma NodeAfterEvent(net: Net, n: Id, e: Event)
    requires Inv(net) && Possible(net, At(n, e))
    ensures var net' := Next(net, At(n, e));
      && NodeBounded(Own(net'), net'.start, net'.nodes[n])
      && NodeLearned(net'.learned, n, net'.nodes[n])
  {
    hide Do;
    var m, net' := net.nodes[n], Next(net, At(n, e));
    var own, own' := Own(net), Own(net');
    NextOwn(net, n, e);
    assert NodeCounted(net, n) && NodeBounded(own, net.start, m) && NodeLearned(net.learned, n, m);
    assert e.Receive? ==> MessageBounded(own, net.start, e.msg);
    forall p | p in net'.nodes[n].peers
      ensures AtMost(own', p, net'.nodes[n].peers[p].incarnation)
      ensures net'.nodes[n].peers[p].incarnation == 0 || (n, p, net'.nodes[n].peers[p].incarnation) in net'.learned
    {
      RecordOrigin(m, e, p);
    }
    forall msg | msg in net'.nodes[n].updates
      ensures MessageBounded(own', net'.start, msg)
    {
      SentBounded(net, n, e, msg);
    }
  }

  lemma OriginBounded(own: map<Id, nat>, own': map<Id, nat>, start: map<Id, nat>, m: Manager, e: Event, msg: Message)
    requires Enabled(m, e) && (msg in Do(m, e).0.updates || msg in Do(m, e).1)
    requires Grows(own, own') && NodeBounded(own, start, m)
    requires AtMost(own', m.self, Do(m, e).0.incarnation) && m.self in start
    requires Refutes(m, e) ==> start[m.self] < Do(m, e).0.incarnation
    requires e.ProbeTimeout? ==> AtMost(own, e.id, e.known)
    ensures MessageBounded(own', start, msg)
  {
    hide Do, Enabled;
    MessageOrigin(m, e, msg);
    if msg in m.updates {
      MessageGrows(own, own', start, msg);
    }
  }

  lemma SentBounded(net: Net, n: Id, e: Event, msg: Message)
    requires Inv(net) && Possible(net, At(n, e))
    requires msg in Do(net.nodes[n], e).0.updates || msg in Do(net.nodes[n], e).1
    ensures MessageBounded(Own(Next(net, At(n, e))), net.start, msg)
  {
    hide Do, MessageBounded;
    var m, own := net.nodes[n], Own(net);
    NextOwn(net, n, e);
    assert NodeCounted(net, n) && NodeBounded(own, net.start, m);
    OriginBounded(own, Own(Next(net, At(n, e))), net.start, m, e, msg);
  }

  lemma OtherNodes(net: Net, n: Id, e: Event, k: Id)
    requires Inv(net) && Possible(net, At(n, e)) && k in net.nodes && k != n
    ensures var net' := Next(net, At(n, e));
      && NodeCounted(net', k)
      && NodeBounded(Own(net'), net'.start, net'.nodes[k])
      && NodeLearned(net'.learned, k, net'.nodes[k])
  {
    hide Do;
    var net' := Next(net, At(n, e));
    NextOwn(net, n, e);
    assert NodeCounted(net, k) && NodeBounded(Own(net), net.start, net.nodes[k]) && NodeLearned(net.learned, k, net.nodes[k]);
    NodeGrows(Own(net), Own(net'), net.start, net.nodes[k]);
  }

  lemma SoupAfterEvent(net: Net, n: Id, e: Event, msg: Message)
    requires Inv(net) && Possible(net, At(n, e)) && msg in Next(net, At(n, e)).soup
    ensures MessageBounded(Own(Next(net, At(n, e))), net.start, msg)
  {
    hide Do, MessageBounded;
    if msg in net.soup {
      NextOwn(net, n, e);
      MessageGrows(Own(net), Own(Next(net, At(n, e))), net.start, msg);
    } else {
      SentBounded(net, n, e, msg);
    }
  }

  lemma DetachedAfterEvent(net: Net, n: Id, e: Event, d: (Id, Id, nat))
    requires Inv(net) && Possible(net, At(n, e)) && d in Next(net, At(n, e)).detached
    ensures AtMost(Own(Next(net, At(n, e))), d.1, d.2)
  {
    hide Do, MessageBounded;
    NextOwn(net, n, e);
    assert NodeBounded(Own(net), net.start, net.nodes[n]);
    assert AtMost(Own(net), d.1, d.2);
  }

  lemma EventKeepsInv(net: Net, n: Id, e: Event)
    requires Inv(net) && Possible(net, At(n, e))
    ensures Inv(Next(net, At(n, e)))
  {
    hide Do, MessageBounded, NodeBounded, NodeLearned, NodeCounted, AtMost;
    var net' := Next(net, At(n, e));
    var own' := Own(net');
    NextOwn(net, n, e);
    NodeAfterEvent(net, n, e);
    forall k | k in net'.nodes
      ensures NodeCounted(net', k) && NodeBounded(own', net'.start, net'.nodes[k]) && NodeLearned(net'.learned, k, net'.nodes[k])
    {
      if k != n {
        OtherNodes(net, n, e, k);
      }
    }
    forall msg | msg in net'.soup
      ensures MessageBounded(own', net'.start, msg)
    {
      SoupAfterEvent(net, n, e, msg);
    }
    forall d | d in net'.detached
      ensures AtMost(own', d.1, d.2)
    {
      DetachedAfterEvent(net, n, e, d);
    }
  }

  lemma AnnounceKeepsInv(net: Net, s: Step)
    requires Inv(net) && s.AnnounceDead? && Possible(net, s)
    ensures Inv(Next(net, s))
  {
    var net' := Next(net, s);
    assert Own(net') == Own(net);
    forall k | k in net.nodes
      ensures NodeCounted(net', k)
    {
      assert NodeCounted(net, k);
    }
    assert NodeBounded(Own(net), net.start, net.nodes[s.node]);
  }

  ghost predicate IsNetPath(nets: seq<Net>, steps: seq<Step>) {
    && |nets| == |steps| + 1
    && forall k :: 0 <= k < |steps| ==> Possible(nets[k], steps[k]) && nets[k + 1] == Next(nets[k], steps[k])
  }

  ghost predicate IsNetRun(nets: seq<Net>, steps: seq<Step>) {
    IsNetPath(nets, steps) && Init(nets[0])
  }

  /** In every reachable state: a record of p, a Peer object of p and a claim about p carry at most
      p's own incarnation, which counts p's refutations. */
  lemma {:induction false} NetRunKeepsInv(nets: seq<Net>, steps: seq<Step>, k: nat)
    requires IsNetRun(nets, steps) && k < |nets|
    ensures Inv(nets[k])
  {
    if k == 0 {
      InitInv(nets[0]);
    } else {
      NetRunKeepsInv(nets, steps, k - 1);
      if steps[k - 1].At? {
        EventKeepsInv(nets[k - 1], steps[k - 1].node, steps[k - 1].event);
      } else {
        AnnounceKeepsInv(nets[k - 1], steps[k - 1]);
      }
    }
  }

  lemma InitInv(net: Net)
    requires Init(net)
    ensures Inv(net)
  {
  }

  // ---- What the incarnations buy ----

  ghost predicate Claims(msg: Message, p: Id) {
    Accuses(msg, p) || (msg.kind == GossipWire.ALIVE && msg.target == Some(p))
  }

  /** A claim about `p` other than its own refutation. */
  ghost predicate Accuses(msg: Message, p: Id) {
    (msg.kind == GossipWire.SUSPECT || msg.kind == GossipWire.DEAD) && msg.target == Some(p)
  }

  /** A refutation outranks every record and every claim there is. */
  lemma RefutationOutranks(net: Net, p: Id, e: Event)
    requires Inv(net) && Possible(net, At(p, e)) && Refutes(net.nodes[p], e)
    ensures var own := Next(net, At(p, e)).nodes[p].incarnation;
      && own == net.nodes[p].incarnation + 1
      && (forall n :: n in net.nodes && p in net.nodes[n].peers ==> net.nodes[n].peers[p].incarnation < own)
      && (forall msg :: msg in net.soup && Claims(msg, p) ==> msg.incarnation < own)
      && (forall n, msg :: n in net.nodes && msg in net.nodes[n].updates && Claims(msg, p) ==> msg.incarnation < own)
      && Message(GossipWire.ALIVE, p, net.nodes[p].sequence + 1, Some(p), own) in Next(net, At(p, e)).nodes[p].updates
  {
    hide MessageBounded, Do;
    NextOwn(net, p, e);
    var m, own := net.nodes[p], Own(net);
    Refuted(m, e, p) by {
      assert NodeCounted(net, p);
    }
    forall n | n in net.nodes
      ensures NodeBounded(own, net.start, net.nodes[n])
    {
    }
    forall msg | msg in net.soup && Claims(msg, p)
      ensures msg.incarnation <= own[p]
    {
      ClaimBounded(own, net.start, msg, p);
    }
    forall n, msg | n in net.nodes && msg in net.nodes[n].updates && Claims(msg, p)
      ensures msg.incarnation <= own[p]
    {
      assert NodeBounded(own, net.start, net.nodes[n]);
      ClaimBounded(own, net.start, msg, p);
    }
    assert NodeCounted(net, p);
    ClaimBounded(own, net.start, e.msg, p);
    OwnIncarnation(m, e);
  }

  lemma ClaimBounded(own: map<Id, nat>, start: map<Id, nat>, msg: Message, p: Id)
    requires MessageBounded(own, start, msg) && Claims(msg, p)
    ensures AtMost(own, p, msg.incarnation)
  {
  }

  lemma Refuted(m: Manager, e: Event, p: Id)
    requires Enabled(m, e) && Refutes(m, e) && m.self == p
    ensures var n := Do(m, e).0;
      Message(GossipWire.ALIVE, p, m.sequence + 1, Some(p), n.incarnation) in n.updates
  {
    var n := Do(m, e).0;
    assert n.updates[|m.updates|] == Message(GossipWire.ALIVE, p, m.sequence + 1, Some(p), n.incarnation);
  }

  /** The first delivery of p's newest refutation makes any observer holding a record of p see p
      alive, at that incarnation, with no timer left in its table if p was not seen alive before. */
  lemma FirstDeliveryRevives(net: Net, n: Id, msg: Message, raises: bool)
    requires Inv(net) && Possible(net, At(n, Receive(msg, raises)))
    requires msg.kind == GossipWire.ALIVE && msg.sender in net.nodes[n].peers
    requires msg.incarnation == Own(net)[msg.sender]
    requires (n, msg.sender, msg.incarnation) !in net.learned
    ensures var p, m, m' := msg.sender, net.nodes[n], Next(net, At(n, Receive(msg, raises))).nodes[n];
      && p in m'.peers && m'.peers[p] == Record(ALIVE, msg.incarnation)
      && (m.peers[p].state != ALIVE ==> p !in m'.timers)
  {
    var p, m := msg.sender, net.nodes[n];
    assert NodeBounded(Own(net), net.start, m) && NodeLearned(net.learned, n, m);
    assert MessageBounded(Own(net), net.start, msg);
    AliveTakesEffectExactly(m, msg, raises);
  }

  // ---- How long a refutation keeps outranking ----

  /** A PING from p with an incarnation below the record's. */
  ghost predicate PingsBelow(m: Manager, e: Event, p: Id) {
    e.Receive? && e.msg.kind == GossipWire.PING && e.msg.sender == p && p in m.peers
    && e.msg.incarnation < m.peers[p].incarnation
  }

  /** While a peer stays in the table its record's incarnation falls exactly by such a PING. */
  lemma RecordFallsExactly(m: Manager, e: Event, p: Id)
    requires Enabled(m, e) && p in m.peers && p in Do(m, e).0.peers
    ensures Do(m, e).0.peers[p].incarnation < m.peers[p].incarnation <==> PingsBelow(m, e, p)
  {
    hide Handle, StartTimer;
    if e.Receive? {
      ReceivedRecord(m, e.msg, e.raises, p);
    }
  }

  /** The step leaves n's record of p alone or raises it: no PING from p reaches n, and n keeps p. */
  ghost predicate Spares(s: Step, n: Id, p: Id) {
    s.At? && s.node == n ==>
      && !(s.event.Receive? && s.event.msg.kind == GossipWire.PING && s.event.msg.sender == p)
      && s.event != Remove(p)
  }

  lemma SparedStays(m: Manager, e: Event, p: Id)
    requires Enabled(m, e) && p in m.peers && e != Remove(p)
    ensures p in Do(m, e).0.peers
  {
    hide Handle, StartTimer;
    if e.Receive? {
      ReceivedRecord(m, e.msg, e.raises, p);
    }
  }

  ghost predicate Holds(net: Net, n: Id, p: Id, i: nat) {
    n in net.nodes && p in net.nodes[n].peers && net.nodes[n].peers[p].incarnation >= i
  }

  lemma StepKeepsRecord(net: Net, s: Step, n: Id, p: Id, i: nat)
    requires Possible(net, s) && Holds(net, n, p, i) && Spares(s, n, p)
    ensures Holds(Next(net, s), n, p, i)
  {
    hide Do, Enabled;
    if s.At? && s.node == n {
      SparedStays(net.nodes[n], s.event, p);
      RecordFallsExactly(net.nodes[n], s.event, p);
    }
  }

  /** Once n's record of p is at i, it stays there or above until p pings n or n drops p. */
  lemma {:induction false} RefutationHolds(nets: seq<Net>, steps: seq<Step>, n: Id, p: Id, i: nat, k: nat)
    requires IsNetPath(nets, steps) && k < |nets| && Holds(nets[0], n, p, i)
    requires forall j :: 0 <= j < k ==> Spares(steps[j], n, p)
    ensures Holds(nets[k], n, p, i)
  {
    if k > 0 {
      RefutationHolds(nets, steps, n, p, i, k - 1);
      StepKeepsRecord(nets[k - 1], steps[k - 1], n, p, i);
    }
  }

  /** So long, every accusation older than i changes nothing at n. */
  lemma OldAccusationsIgnored(nets: seq<Net>, steps: seq<Step>, n: Id, p: Id, i: nat, k: nat, msg: Message, raises: bool)
    requires IsNetPath(nets, steps) && k < |steps| && Holds(nets[0], n, p, i)
    requires forall j :: 0 <= j < k ==> Spares(steps[j], n, p)
    requires steps[k] == At(n, Receive(msg, raises)) && Accuses(msg, p) && msg.incarnation < i
    ensures nets[k + 1].nodes[n].peers == nets[k].nodes[n].peers
  {
    hide Possible;
    RefutationHolds(nets, steps, n, p, i, k);
    OldAccusation(nets[k].nodes[n], msg, raises, p);
  }

  lemma OldAccusation(m: Manager, msg: Message, raises: bool, p: Id)
    requires Accuses(msg, p) && p in m.peers && msg.incarnation < m.peers[p].incarnation
    ensures Handle(m, msg, raises).0.peers == m.peers
  {
    assert m.peers[p := m.peers[p]] == m.peers;
  }

  /** In a reachable network every PING carries 0: the first one from p takes the record of p to 0
      whatever it was, and from then on every suspicion of p ever sent takes effect while p is
      recorded as alive. */
  lemma PingReopensOldSuspicions(net: Net, n: Id, ping: Message, suspicion: Message, raises: bool)
    requires Inv(net) && Possible(net, At(n, Receive(ping, raises)))
    requires ping.kind == GossipWire.PING && ping.sender in net.nodes[n].peers
    requires suspicion in net.soup && suspicion.kind == GossipWire.SUSPECT && suspicion.target == Some(ping.sender)
    requires ping.sender != n
    ensures var p, m := ping.sender, Next(net, At(n, Receive(ping, raises))).nodes[n];
      && p in m.peers && m.peers[p] == Record(net.nodes[n].peers[p].state, 0)
      && (Handle(m, suspicion, raises).0.peers != m.peers <==> m.peers[p].state == ALIVE)
  {
    hide StartTimer;
    assert MessageBounded(Own(net), net.start, ping);
    assert NodeCounted(net, n);
    var p, m := ping.sender, Next(net, At(n, Receive(ping, raises))).nodes[n];
    if m.peers[p].state == ALIVE {
      assert Handle(m, suspicion, raises).0.peers[p].state == SUSPECT;
    } else {
      assert m.peers[p := m.peers[p]] == m.peers;
    }
  }

  /** An ACK never revives: every ACK in the network carries incarnation 0, which is always stale. */
  lemma AckNeverRevives(net: Net, n: Id, msg: Message, raises: bool)
    requires Inv(net) && Possible(net, At(n, Receive(msg, raises))) && msg.kind == GossipWire.ACK
    ensures var m, m' := net.nodes[n], Next(net, At(n, Receive(msg, raises))).nodes[n];
      m'.peers == m.peers && m'.timers == m.timers && m'.armed == m.armed
  {
    var m := net.nodes[n];
    assert MessageBounded(Own(net), net.start, msg);
    if msg.sequence in m.probes && m.probes[msg.sequence] in m.peers {
      var p := m.probes[msg.sequence];
      assert m.peers[p := m.peers[p]] == m.peers;
    }
  }
}
