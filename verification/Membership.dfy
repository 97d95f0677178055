/** One node's MembershipManager (python/gossip_rl/gossip/membership.py) with the timers and
    _confirm_dead tasks its event loop holds. Handlers never suspend while they hold a lock, so each
    is one step; _confirm_dead is two, before and after it takes the lock. */
module Membership {
  import opened Wrappers
  import opened Peers
  import GossipWire

  datatype Message = Message(kind: GossipWire.MessageType, sender: Id, sequence: nat, target: Option<Id>, incarnation: nat)

  /** A _confirm_dead task; `timerDeleted` once it has passed its first statement. */
  datatype Task = Task(peer: Id, timerDeleted: bool)

  /** `timers` maps peers to handles, `armed` the handles that may still fire to their peers. */
  datatype Manager = Manager(
    self: Id,
    incarnation: nat,
    peers: map<Id, Record>,
    timers: map<Id, nat>,
    armed: map<nat, Id>,
    nextHandle: nat,
    tasks: multiset<Task>,
    sequence: nat,
    probes: map<nat, Id>,
    updates: seq<Message>)

  // ---- Specification of the handlers ----

  function CancelTimer(m: Manager, id: Id): (n: Manager)
    ensures n == m.(timers := n.timers, armed := n.armed)
  {
    if id in m.timers then m.(timers := m.timers - {id}, armed := m.armed - {m.timers[id]}) else m
  }

  function StartTimer(m: Manager, id: Id): (n: Manager)
    ensures n == m.(timers := n.timers, armed := n.armed, nextHandle := n.nextHandle)
  {
    if id in m.timers then m
    else m.(timers := m.timers[id := m.nextHandle], armed := m.armed[m.nextHandle := id], nextHandle := m.nextHandle + 1)
  }

  function HandlePing(m: Manager, msg: Message): (r: (Manager, Message))
    ensures r.0 == m.(peers := r.0.peers)
  {
    (if msg.sender in m.peers then m.(peers := m.peers[msg.sender := m.peers[msg.sender].(incarnation := msg.incarnation)])
     else m,
     Message(GossipWire.ACK, m.self, msg.sequence, Some(msg.sender), 0))
  }

  /** A mark_alive with its effect on the timer. */
  function Revive(m: Manager, id: Id, incarnation: nat): (n: Manager)
    ensures n == m.(peers := n.peers, timers := n.timers, armed := n.armed)
  {
    if id !in m.peers then m
    else
      var (r, changed) := MarkAlive(m.peers[id], Some(incarnation));
      var n := m.(peers := m.peers[id := r]);
      if changed then CancelTimer(n, id) else n
  }

  predicate Revives(m: Manager, id: Id, incarnation: nat) {
    id in m.peers && MarkAlive(m.peers[id], Some(incarnation)).1
  }

  /** An exception in on_peer_alive leaves the probe pending. */
  function HandleAck(m: Manager, msg: Message, raises: bool): (n: Manager)
    ensures n == m.(peers := n.peers, timers := n.timers, armed := n.armed, probes := n.probes)
  {
    if msg.sequence !in m.probes then m
    else
      var n := Revive(m, m.probes[msg.sequence], msg.incarnation);
      if raises && Revives(m, m.probes[msg.sequence], msg.incarnation) then n
      else n.(probes := m.probes - {msg.sequence})
  }

  function HandleAlive(m: Manager, msg: Message): (n: Manager)
    ensures n == m.(peers := n.peers, timers := n.timers, armed := n.armed)
  {
    if msg.target.None? then m else Revive(m, msg.target.value, msg.incarnation)
  }

  /** A claim about the node itself is refuted. */
  function Refute(m: Manager, incarnation: nat): Manager {
    var own := (if m.incarnation > incarnation then m.incarnation else incarnation) + 1;
    m.(incarnation := own, sequence := m.sequence + 1,
       updates := m.updates + [Message(GossipWire.ALIVE, m.self, m.sequence + 1, Some(m.self), own)])
  }

  /** Mark and start the timer; an exception in on_peer_suspect, between the two, skips the timer. */
  function MarkAndWatch(m: Manager, id: Id, claim: Option<nat>, raises: bool): (r: (Manager, bool))
    requires id in m.peers
    ensures r.0 == m.(peers := r.0.peers, timers := r.0.timers, armed := r.0.armed, nextHandle := r.0.nextHandle)
  {
    var (r, changed) := MarkSuspect(m.peers[id], claim);
    var n := m.(peers := m.peers[id := r]);
    (if changed && !raises then StartTimer(n, id) else n, changed)
  }

  function HandleSuspect(m: Manager, msg: Message, raises: bool): (n: Manager)
    ensures msg.target == Some(m.self) ==> n == Refute(m, msg.incarnation)
    ensures msg.target != Some(m.self) ==>
              n == m.(peers := n.peers, timers := n.timers, armed := n.armed, nextHandle := n.nextHandle)
  {
    if msg.target.None? then m
    else if msg.target.value == m.self then Refute(m, msg.incarnation)
    else if msg.target.value !in m.peers then m
    else MarkAndWatch(m, msg.target.value, Some(msg.incarnation), raises).0
  }

  function HandleDead(m: Manager, msg: Message): (n: Manager)
    ensures n == m.(peers := n.peers, timers := n.timers, armed := n.armed)
  {
    if msg.target.None? || msg.target.value !in m.peers then m
    else
      var id := msg.target.value;
      var (r, changed) := MarkDead(m.peers[id], Some(msg.incarnation));
      var n := m.(peers := m.peers[id := r]);
      if changed then CancelTimer(n, id) else n
  }

  /** A probe timed out. `known` is the incarnation in the Peer object the probe started from,
      which may have left the table since. */
  function SuspectPeer(m: Manager, id: Id, known: nat, raises: bool): Manager {
    if id !in m.peers then m
    else
      var (n, changed) := MarkAndWatch(m, id, None, raises);
      if changed && !raises then
        n.(sequence := n.sequence + 1,
           updates := n.updates + [Message(GossipWire.SUSPECT, n.self, n.sequence + 1, Some(id), known)])
      else n
  }

  function AddPeer(m: Manager, id: Id, r: Record): (Manager, bool) {
    if id in m.peers && r.incarnation <= m.peers[id].incarnation then (m, false)
    else (m.(peers := m.peers[id := r]), true)
  }

  function RemovePeer(m: Manager, id: Id): Manager {
    m.(peers := m.peers - {id})
  }

  function Probe(m: Manager, id: Id): (Manager, Message) {
    var sequence := m.sequence + 1;
    (m.(sequence := sequence, probes := m.probes[sequence := id]), Message(GossipWire.PING, m.self, sequence, Some(id), 0))
  }

  /** The loop runs a timer's callback, which creates the task. */
  function Fire(m: Manager, handle: nat): Manager
    requires handle in m.armed
  {
    m.(armed := m.armed - {handle}, tasks := m.tasks + multiset{Task(m.armed[handle], false)})
  }

  function ConfirmStart(m: Manager, id: Id): Manager {
    m.(timers := m.timers - {id}, tasks := m.tasks - multiset{Task(id, false)} + multiset{Task(id, true)})
  }

  function ConfirmFinish(m: Manager, id: Id): Manager {
    var n := m.(tasks := m.tasks - multiset{Task(id, true)});
    if id in m.peers && m.peers[id].state == SUSPECT then
      n.(peers := m.peers[id := m.peers[id].(state := DEAD)])
    else n
  }

  function TakeUpdates(m: Manager, most: nat): (Manager, seq<Message>) {
    var n := if most < |m.updates| then most else |m.updates|;
    (m.(updates := m.updates[n..]), m.updates[..n])
  }

  function ForgetProbe(m: Manager, sequence: nat): Manager {
    m.(probes := m.probes - {sequence})
  }

  function Handle(m: Manager, msg: Message, raises: bool): (Manager, Option<Message>) {
    match msg.kind
    case PING => var (n, ack) := HandlePing(m, msg); (n, Some(ack))
    case ACK => (HandleAck(m, msg, raises), None)
    case ALIVE => (HandleAlive(m, msg), None)
    case SUSPECT => (HandleSuspect(m, msg, raises), None)
    case DEAD => (HandleDead(m, msg), None)
    case _ => (m, None)
  }

  // ---- The class ----

  class MembershipManager {
    const localPeer: Peer
    var peers: map<Id, Peer>
    var timers: map<Id, nat>
    var armed: map<nat, Id>
    var nextHandle: nat
    var tasks: multiset<Task>
    var sequence: nat
    var probes: map<nat, Id>
    var updates: seq<Message>

    constructor (localPeer: Peer)
      ensures Valid() && this.localPeer == localPeer && peers == map[]
      ensures State() == Manager(localPeer.id, localPeer.incarnation, map[], map[], map[], 0, multiset{}, 0, map[], [])
    {
      this.localPeer := localPeer;
      peers, timers, armed, nextHandle := map[], map[], map[], 0;
      tasks, sequence, probes, updates := multiset{}, 0, map[], [];
    }

    /** The node's own Peer object is not one of its table's. */
    ghost predicate Valid()
      reads this, peers.Values
    {
      forall id :: id in peers ==> peers[id].id == id && peers[id] != localPeer
    }

    ghost function Table(): map<Id, Record>
      reads this`peers, peers.Values
    {
      map id | id in peers :: peers[id].View()
    }

    ghost function State(): Manager
      reads this, localPeer, peers.Values
    {
      Manager(localPeer.id, localPeer.incarnation, Table(), timers, armed, nextHandle,
              tasks, sequence, probes, updates)
    }

    method CancelSuspicionTimer(id: Id)
      requires Valid()
      modifies this`timers, this`armed
      ensures Valid() && State() == CancelTimer(old(State()), id)
    {
      if id in timers {
        armed := armed - {timers[id]};
        timers := timers - {id};
      }
    }

    method StartSuspicionTimer(id: Id)
      requires Valid()
      modifies this`timers, this`armed, this`nextHandle
      ensures Valid() && State() == StartTimer(old(State()), id)
    {
      if id in timers {
        return;
      }
      timers, armed := timers[id := nextHandle], armed[nextHandle := id];
      nextHandle := nextHandle + 1;
    }

    method HandleMessage(msg: Message, raises: bool) returns (reply: Option<Message>)
      requires Valid()
      modifies this`timers, this`armed, this`nextHandle, this`sequence, this`updates, this`probes, localPeer, peers.Values
      ensures Valid()
      ensures State() == Handle(old(State()), msg, raises).0 && reply == Handle(old(State()), msg, raises).1
    {
      reply := None;
      match msg.kind
      case PING =>
        var ack := OnPing(msg);
        reply := Some(ack);
      case ACK => OnAck(msg, raises);
      case ALIVE => OnAlive(msg);
      case SUSPECT => OnSuspect(msg, raises);
      case DEAD => OnDead(msg);
      case _ =>
    }

    method OnPing(msg: Message) returns (ack: Message)
      requires Valid()
      modifies peers.Values
      ensures Valid()
      ensures State() == HandlePing(old(State()), msg).0 && ack == HandlePing(old(State()), msg).1
    {
      if msg.sender in peers {
        peers[msg.sender].incarnation := msg.incarnation;
        assert Table() == old(Table())[msg.sender := peers[msg.sender].View()];
      }
      return Message(GossipWire.ACK, localPeer.id, msg.sequence, Some(msg.sender), 0);
    }

    method OnAck(msg: Message, raises: bool)
      requires Valid()
      modifies this`timers, this`armed, this`probes, peers.Values
      ensures Valid() && State() == HandleAck(old(State()), msg, raises)
    {
      if msg.sequence in probes {
        var target := probes[msg.sequence];
        InTable(target);
        if target in peers {
          var changed := ReviveInTable(target, msg.incarnation);
          if changed && raises {
            return;
          }
        }
        probes := probes - {msg.sequence};
      }
    }

    method OnAlive(msg: Message)
      requires Valid()
      modifies this`timers, this`armed, peers.Values
      ensures Valid() && State() == HandleAlive(old(State()), msg)
    {
      if msg.target.None? {
        return;
      }
      var id := msg.target.value;
      InTable(id);
      if id in peers {
        var changed := ReviveInTable(id, msg.incarnation);
      }
    }

    method OnSuspect(msg: Message, raises: bool)
      requires Valid()
      modifies this`timers, this`armed, this`nextHandle, this`sequence, this`updates, localPeer, peers.Values
      ensures Valid() && State() == HandleSuspect(old(State()), msg, raises)
    {
      if msg.target.None? {
        return;
      }
      var id := msg.target.value;
      if id == localPeer.id {
        localPeer.incarnation :=
          (if localPeer.incarnation > msg.incarnation then localPeer.incarnation else msg.incarnation) + 1;
        BroadcastAlive();
        return;
      }
      InTable(id);
      if id in peers {
        var changed := SuspectInTable(id, Some(msg.incarnation), raises);
      }
    }

    method BroadcastAlive()
      modifies this`sequence, this`updates
      ensures sequence == old(sequence) + 1
      ensures updates == old(updates) + [Message(GossipWire.ALIVE, localPeer.id, sequence, Some(localPeer.id), localPeer.incarnation)]
    {
      sequence := sequence + 1;
      updates := updates + [Message(GossipWire.ALIVE, localPeer.id, sequence, Some(localPeer.id), localPeer.incarnation)];
    }

    method OnDead(msg: Message)
      requires Valid()
      modifies this`timers, this`armed, peers.Values
      ensures Valid() && State() == HandleDead(old(State()), msg)
    {
      if msg.target.None? {
        return;
      }
      var id := msg.target.value;
      if id in peers {
        var changed := peers[id].MarkPeerDead(Some(msg.incarnation));
        assert Table() == old(Table())[id := peers[id].View()];
        if changed {
          CancelSuspicionTimer(id);
        }
      }
    }

    /** _suspect_peer. */
    method OnProbeTimeout(peer: Peer, raises: bool)
      requires Valid()
      modifies this`timers, this`armed, this`nextHandle, this`sequence, this`updates, peers.Values
      ensures Valid() && State() == SuspectPeer(old(State()), peer.id, old(peer.incarnation), raises)
    {
      hide MarkAndWatch;
      if peer.id in peers {
        InTable(peer.id);
        var changed := SuspectInTable(peer.id, None, raises);
        if changed && !raises {
          sequence := sequence + 1;
          updates := updates + [Message(GossipWire.SUSPECT, localPeer.id, sequence, Some(peer.id), peer.incarnation)];
        }
      } else {
        InTable(peer.id);
      }
    }

    lemma InTable(id: Id)
      ensures id in peers <==> id in State().peers
    {
    }

    /** Mark a peer as suspected and start its timer. */
    method SuspectInTable(id: Id, claim: Option<nat>, raises: bool) returns (changed: bool)
      requires Valid() && id in peers
      modifies this`timers, this`armed, this`nextHandle, peers.Values
      ensures Valid() && id in old(State()).peers
      ensures State() == MarkAndWatch(old(State()), id, claim, raises).0
      ensures changed == MarkAndWatch(old(State()), id, claim, raises).1
      ensures forall p: Peer :: p in old(peers.Values) ==> p.incarnation == old(p.incarnation)
    {
      hide StartTimer;
      changed := peers[id].MarkPeerSuspect(claim);
      ghost var r := peers[id].View();
      assert Table() == old(Table())[id := r];
      assert State() == old(State()).(peers := old(Table())[id := r]);
      if changed && !raises {
        StartSuspicionTimer(id);
      }
    }

    /** Mark a peer as alive and drop its timer. */
    method ReviveInTable(id: Id, incarnation: nat) returns (changed: bool)
      requires Valid() && id in peers
      modifies this`timers, this`armed, peers.Values
      ensures Valid() && State() == Revive(old(State()), id, incarnation)
      ensures changed == Revives(old(State()), id, incarnation)
    {
      hide CancelTimer;
      changed := peers[id].MarkPeerAlive(Some(incarnation));
      ghost var r := peers[id].View();
      assert Table() == old(Table())[id := r];
      assert State() == old(State()).(peers := old(Table())[id := r]);
      if changed {
        CancelSuspicionTimer(id);
      }
    }

    method Add(peer: Peer) returns (added: bool)
      requires Valid() && peer != localPeer
      modifies this`peers
      ensures Valid()
      ensures State() == AddPeer(old(State()), peer.id, old(peer.View())).0
      ensures added == AddPeer(old(State()), peer.id, old(peer.View())).1
      ensures peers == if added then old(peers)[peer.id := peer] else old(peers)
    {
      if peer.id in peers {
        var existing := peers[peer.id];
        if peer.incarnation > existing.incarnation {
          peers := peers[peer.id := peer];
          assert Table() == old(Table())[peer.id := peer.View()];
          return true;
        }
        return false;
      }
      peers := peers[peer.id := peer];
      assert Table() == old(Table())[peer.id := peer.View()];
      return true;
    }

    method Remove(id: Id) returns (peer: Option<Peer>)
      requires Valid()
      modifies this`peers
      ensures Valid() && State() == RemovePeer(old(State()), id)
      ensures peer == if id in old(peers) then Some(old(peers)[id]) else None
    {
      peer := None;
      if id in peers {
        peer := Some(peers[id]);
        peers := peers - {id};
        assert Table() == old(Table()) - {id};
      }
    }

    method StartProbe(target: Peer) returns (ping: Message)
      requires Valid()
      modifies this`sequence, this`probes
      ensures Valid() && State() == Probe(old(State()), target.id).0 && ping == Probe(old(State()), target.id).1
    {
      sequence := sequence + 1;
      probes := probes[sequence := target.id];
      ping := Message(GossipWire.PING, localPeer.id, sequence, Some(target.id), 0);
    }

    method OnTimeout(handle: nat)
      requires Valid() && handle in armed
      modifies this`armed, this`tasks
      ensures Valid() && State() == Fire(old(State()), handle)
    {
      tasks := tasks + multiset{Task(armed[handle], false)};
      armed := armed - {handle};
    }

    method ConfirmDeadStart(id: Id)
      requires Valid()
      modifies this`timers, this`tasks
      ensures Valid() && State() == ConfirmStart(old(State()), id)
    {
      timers := timers - {id};
      tasks := tasks - multiset{Task(id, false)} + multiset{Task(id, true)};
    }

    method ConfirmDeadFinish(id: Id)
      requires Valid()
      modifies this`tasks, peers.Values
      ensures Valid() && State() == ConfirmFinish(old(State()), id)
    {
      tasks := tasks - multiset{Task(id, true)};
      if id in peers {
        if peers[id].state == SUSPECT {
          var changed := peers[id].MarkPeerDead(None);
          assert Table() == old(Table())[id := peers[id].View()];
        }
      }
    }

    method GetPendingUpdates(most: nat) returns (batch: seq<Message>)
      requires Valid()
      modifies this`updates
      ensures Valid()
      ensures State() == TakeUpdates(old(State()), most).0 && batch == TakeUpdates(old(State()), most).1
    {
      var n := if most < |updates| then most else |updates|;
      batch := updates[..n];
      updates := updates[n..];
    }
  }
}
