/** No suspicion is orphaned: runs of one MembershipManager between start and stop. */
module MembershipTimers {
  import opened Wrappers
  import opened Peers
  import opened Membership

  datatype Event =
    | Receive(msg: Message, raises: bool)
    | ProbeTimeout(id: Id, known: nat, raises: bool)
    | Add(id: Id, record: Record)
    | Remove(id: Id)
    | SendProbe(id: Id)
    | EndProbe(sequence: nat)
    | TimerFires(handle: nat)
    | ConfirmStarts(id: Id)
    | ConfirmFinishes(id: Id)
    | Take(most: nat)

  ghost predicate Enabled(m: Manager, e: Event) {
    match e
    case TimerFires(h) => h in m.armed
    case ConfirmStarts(id) => Task(id, false) in m.tasks
    case ConfirmFinishes(id) => Task(id, true) in m.tasks
    case _ => true
  }

  /** The next state and the messages sent. */
  ghost function Do(m: Manager, e: Event): (Manager, seq<Message>)
    requires Enabled(m, e)
  {
    match e
    case Receive(msg, raises) =>
      var (n, reply) := Handle(m, msg, raises);
      (n, if reply.Some? then [reply.value] else [])
    case ProbeTimeout(id, known, raises) => (SuspectPeer(m, id, known, raises), [])
    case Add(id, record) => (AddPeer(m, id, record).0, [])
    case Remove(id) => (RemovePeer(m, id), [])
    case SendProbe(id) => var (n, ping) := Probe(m, id); (n, [ping])
    case EndProbe(sequence) => (ForgetProbe(m, sequence), [])
    case TimerFires(h) => (Fire(m, h), [])
    case ConfirmStarts(id) => (ConfirmStart(m, id), [])
    case ConfirmFinishes(id) => (ConfirmFinish(m, id), [])
    case Take(most) => TakeUpdates(m, most)
  }

  /** A timer that can still fire or a _confirm_dead task that has not finished. */
  ghost predicate Watched(m: Manager, id: Id) {
    || (exists h :: h in m.armed && m.armed[h] == id)
    || Task(id, false) in m.tasks
    || Task(id, true) in m.tasks
  }

  /** An entry of `timers` is armed, or has fired and its task has yet to start. */
  ghost predicate TimersValid(m: Manager) {
    && (forall h :: h in m.armed ==> h < m.nextHandle)
    && forall id :: id in m.timers ==>
         var h := m.timers[id];
         h < m.nextHandle && if h in m.armed then m.armed[h] == id else Task(id, false) in m.tasks
  }

  ghost predicate NoOrphans(m: Manager) {
    forall id :: id in m.peers && m.peers[id].state == SUSPECT ==> Watched(m, id)
  }

  ghost predicate Sound(m: Manager) {
    TimersValid(m) && NoOrphans(m)
  }

  lemma WatchedBy(m: Manager, n: Manager, id: Id)
    requires Watched(m, id)
    requires forall h :: h in m.armed && m.armed[h] == id ==> h in n.armed && n.armed[h] == id
    requires Task(id, false) in m.tasks ==> Task(id, false) in n.tasks
    requires Task(id, true) in m.tasks ==> Task(id, true) in n.tasks
    ensures Watched(n, id)
  {
  }

  lemma StartKeepsSound(m: Manager, id: Id)
    requires TimersValid(m)
    ensures var n := StartTimer(m, id); TimersValid(n) && Watched(n, id)
    ensures forall i :: Watched(m, i) ==> Watched(StartTimer(m, id), i)
  {
    var n := StartTimer(m, id);
    forall i | Watched(m, i)
      ensures Watched(n, i)
    {
      WatchedBy(m, n, i);
    }
    if id in m.timers {
      assert m.timers[id] in m.armed || Task(id, false) in m.tasks;
    } else {
      assert n.armed[m.nextHandle] == id;
    }
  }

  lemma CancelKeepsSound(m: Manager, id: Id)
    requires TimersValid(m)
    ensures TimersValid(CancelTimer(m, id))
    ensures forall i :: i != id && Watched(m, i) ==> Watched(CancelTimer(m, id), i)
  {
    var n := CancelTimer(m, id);
    forall i | i != id && Watched(m, i)
      ensures Watched(n, i)
    {
      WatchedBy(m, n, i);
    }
  }

  lemma ReviveKeepsSound(m: Manager, id: Id, incarnation: nat)
    requires Sound(m)
    ensures Sound(Revive(m, id, incarnation))
  {
    if id in m.peers {
      var n := m.(peers := m.peers[id := MarkAlive(m.peers[id], Some(incarnation)).0]);
      SameWatch(m, n);
      CancelKeepsSound(n, id);
    }
  }

  lemma SameWatch(m: Manager, n: Manager)
    requires n.armed == m.armed && n.tasks == m.tasks
    ensures forall id :: Watched(m, id) <==> Watched(n, id)
  {
  }

  /** Suspecting a peer keeps the invariant exactly when it changes nothing, the timer is started, or
      an older timer or task still watches the peer. */
  lemma SuspectKeepsSoundExactly(m: Manager, id: Id, claim: Option<nat>, raises: bool)
    requires Sound(m) && id in m.peers
    ensures Sound(MarkAndWatch(m, id, claim, raises).0)
      <==> !raises || Watched(m, id) || !MarkSuspect(m.peers[id], claim).1
  {
    var (r, changed) := MarkSuspect(m.peers[id], claim);
    var n := m.(peers := m.peers[id := r]);
    SameWatch(m, n);
    StartKeepsSound(n, id);
  }

  /** Adding a peer keeps the invariant exactly when the peer is refused, not suspected, or watched. */
  lemma AddKeepsSoundExactly(m: Manager, id: Id, r: Record)
    requires Sound(m)
    ensures Sound(AddPeer(m, id, r).0) <==> !AddPeer(m, id, r).1 || r.state != SUSPECT || Watched(m, id)
  {
    SameWatch(m, AddPeer(m, id, r).0);
  }

  lemma DeadKeepsSound(m: Manager, msg: Message)
    requires Sound(m)
    ensures Sound(HandleDead(m, msg))
  {
    if msg.target.Some? && msg.target.value in m.peers {
      var id := msg.target.value;
      var n := m.(peers := m.peers[id := MarkDead(m.peers[id], Some(msg.incarnation)).0]);
      SameWatch(m, n);
      CancelKeepsSound(n, id);
    }
  }

  lemma FireKeepsSound(m: Manager, h: nat)
    requires Sound(m) && h in m.armed
    ensures Sound(Fire(m, h))
  {
    var n := Fire(m, h);
    assert Task(m.armed[h], false) in n.tasks;
    forall id | Watched(m, id)
      ensures Watched(n, id)
    {
      if id != m.armed[h] {
        WatchedBy(m, n, id);
      }
    }
  }

  lemma ConfirmStartKeepsSound(m: Manager, id: Id)
    requires Sound(m) && Task(id, false) in m.tasks
    ensures Sound(ConfirmStart(m, id))
  {
    var n := ConfirmStart(m, id);
    assert Task(id, true) in n.tasks;
    forall i | Watched(m, i)
      ensures Watched(n, i)
    {
      if i != id {
        WatchedBy(m, n, i);
      }
    }
  }

  lemma ConfirmFinishKeepsSound(m: Manager, id: Id)
    requires Sound(m) && Task(id, true) in m.tasks
    ensures Sound(ConfirmFinish(m, id))
  {
    var n := ConfirmFinish(m, id);
    forall i | i != id && Watched(m, i)
      ensures Watched(n, i)
    {
      WatchedBy(m, n, i);
    }
  }

  /** The events of a manager whose callbacks do not raise and which is given only live peers. */
  ghost predicate Ordinary(e: Event) {
    match e
    case Receive(_, raises) => !raises
    case ProbeTimeout(_, _, raises) => !raises
    case Add(_, record) => record.state == ALIVE
    case _ => true
  }

  lemma ReceiveKeepsSound(m: Manager, msg: Message)
    requires Sound(m)
    ensures Sound(Handle(m, msg, false).0)
  {
    hide Sound, Revive, MarkAndWatch, HandleDead;
    match msg.kind
    case PING => SameTimersAndStates(m, HandlePing(m, msg).0);
    case ACK =>
      if msg.sequence in m.probes {
        var n := Revive(m, m.probes[msg.sequence], msg.incarnation);
        ReviveKeepsSound(m, m.probes[msg.sequence], msg.incarnation);
        SameTimersAndStates(n, HandleAck(m, msg, false));
      }
    case ALIVE =>
      if msg.target.Some? {
        ReviveKeepsSound(m, msg.target.value, msg.incarnation);
      }
    case SUSPECT =>
      SameTimersAndStates(m, Refute(m, msg.incarnation));
      if msg.target.Some? && msg.target.value in m.peers {
        SuspectKeepsSoundExactly(m, msg.target.value, Some(msg.incarnation), false);
      }
    case DEAD => DeadKeepsSound(m, msg);
    case _ =>
  }

  /** Nothing else matters to the invariant. */
  lemma SameTimersAndStates(m: Manager, n: Manager)
    requires Sound(m)
    requires n.timers == m.timers && n.armed == m.armed && n.nextHandle == m.nextHandle && n.tasks == m.tasks
    requires forall id :: id in n.peers ==> id in m.peers && n.peers[id].state == m.peers[id].state
    ensures Sound(n)
  {
    SameWatch(m, n);
  }

  lemma ProbeTimeoutKeepsSound(m: Manager, id: Id, known: nat)
    requires Sound(m)
    ensures Sound(SuspectPeer(m, id, known, false))
  {
    hide Sound, MarkAndWatch;
    if id in m.peers {
      var n := MarkAndWatch(m, id, None, false).0;
      SuspectKeepsSoundExactly(m, id, None, false);
      SameTimersAndStates(n, SuspectPeer(m, id, known, false));
    }
  }

  lemma EventKeepsSound(m: Manager, e: Event)
    requires Sound(m) && Enabled(m, e) && Ordinary(e)
    ensures Sound(Do(m, e).0)
  {
    hide Sound, Handle, SuspectPeer, AddPeer, Fire, ConfirmStart, ConfirmFinish;
    match e
    case Receive(msg, raises) => ReceiveKeepsSound(m, msg);
    case ProbeTimeout(id, known, raises) => ProbeTimeoutKeepsSound(m, id, known);
    case Add(id, record) => AddKeepsSoundExactly(m, id, record);
    case TimerFires(h) => FireKeepsSound(m, h);
    case ConfirmStarts(id) => ConfirmStartKeepsSound(m, id);
    case ConfirmFinishes(id) => ConfirmFinishKeepsSound(m, id);
    case _ => SameTimersAndStates(m, Do(m, e).0);
  }

  ghost function Fresh(self: Id, incarnation: nat): Manager {
    Manager(self, incarnation, map[], map[], map[], 0, multiset{}, 0, map[], [])
  }

  ghost predicate IsPath(ms: seq<Manager>, es: seq<Event>) {
    && |ms| == |es| + 1
    && forall k :: 0 <= k < |es| ==> Enabled(ms[k], es[k]) && ms[k + 1] == Do(ms[k], es[k]).0
  }

  ghost predicate IsRun(ms: seq<Manager>, es: seq<Event>) {
    IsPath(ms, es) && ms[0] == Fresh(ms[0].self, ms[0].incarnation)
  }

  /** In every state of every run, each suspected peer has a timer that can still fire or an
      unfinished confirmation, whatever races timers, tasks and messages run. */
  lemma {:induction false} SuspicionsAreNeverOrphaned(ms: seq<Manager>, es: seq<Event>, k: nat)
    requires IsOrdinaryRun(ms, es) && k < |ms|
    ensures Sound(ms[k])
  {
    if k > 0 {
      SuspicionsAreNeverOrphaned(ms, es, k - 1);
      assert Ordinary(es[k - 1]);
      EventKeepsSound(ms[k - 1], es[k - 1]);
    }
  }

  /** A watched suspicion is resolved: once every task of a peer has finished and no timer of it is
      armed, the peer is not suspected. */
  lemma ResolvedWhenQuiet(m: Manager, id: Id)
    requires Sound(m) && id in m.peers && m.tasks == multiset{}
    requires forall h :: h in m.armed ==> m.armed[h] != id
    ensures m.peers[id].state != SUSPECT
  {
  }

  /** Continue an ordinary run by one event. */
  lemma Extend(ms: seq<Manager>, es: seq<Event>, e: Event, n: Manager)
    requires IsOrdinaryRun(ms, es) && Ordinary(e) && Enabled(ms[|ms| - 1], e) && n == Do(ms[|ms| - 1], e).0
    ensures IsOrdinaryRun(ms + [n], es + [e])
  {
  }

  ghost predicate IsOrdinaryRun(ms: seq<Manager>, es: seq<Event>) {
    IsRun(ms, es) && forall j :: 0 <= j < |es| ==> Ordinary(es[j])
  }

  /** The race the two stages allow: a task of a refuted suspicion deletes the entry of the next
      one and confirms it dead, although its own timer is still armed. */
  lemma StaleTaskConfirmsEarly(self: Id, p: Id, i: nat) returns (ms: seq<Manager>, es: seq<Event>)
    requires self != p && i > 0
    ensures IsOrdinaryRun(ms, es)
    ensures var m := ms[|ms| - 1];
      p in m.peers && m.peers[p] == Record(DEAD, i) && 1 in m.armed && m.armed[1] == p && p !in m.timers
  {
    var m := Fresh(self, 0);
    ms, es := [m], [];
    m, ms, es := SuspectNewPeer(ms, es, p);
    m, ms, es := FireAndRefute(ms, es, p, i);
    m, ms, es := SuspectAgain(ms, es, p, i);
    m, ms, es := Confirm(ms, es, p, i);
  }

  lemma SuspectNewPeer(ms: seq<Manager>, es: seq<Event>, p: Id) returns (m: Manager, ms': seq<Manager>, es': seq<Event>)
    requires ms != [] && IsOrdinaryRun(ms, es) && ms[|ms| - 1] == Fresh(ms[|ms| - 1].self, 0)
    ensures ms' != [] && IsOrdinaryRun(ms', es') && m == ms'[|ms'| - 1]
    ensures m.peers == map[p := Record(SUSPECT, 0)] && m.timers == map[p := 0] && m.armed == map[0 := p]
    ensures m.nextHandle == 1 && m.tasks == multiset{}
  {
    hide IsOrdinaryRun;
    var add, timeout := Add(p, Record(ALIVE, 0)), ProbeTimeout(p, 0, false);
    var m1 := Do(ms[|ms| - 1], add).0;
    m := Do(m1, timeout).0;
    Extend(ms, es, add, m1);
    Extend(ms + [m1], es + [add], timeout, m);
    ms', es' := ms + [m1] + [m], es + [add] + [timeout];
  }

  lemma FireAndRefute(ms: seq<Manager>, es: seq<Event>, p: Id, i: nat) returns (m: Manager, ms': seq<Manager>, es': seq<Event>)
    requires ms != [] && IsOrdinaryRun(ms, es) && i > 0
    requires var m := ms[|ms| - 1];
      && m.peers == map[p := Record(SUSPECT, 0)] && m.timers == map[p := 0] && m.armed == map[0 := p]
      && m.nextHandle == 1 && m.tasks == multiset{}
    ensures ms' != [] && IsOrdinaryRun(ms', es') && m == ms'[|ms'| - 1]
    ensures m.peers == map[p := Record(ALIVE, i)] && m.timers == map[] && m.armed == map[]
    ensures m.nextHandle == 1 && m.tasks == multiset{Task(p, false)}
  {
    hide IsOrdinaryRun;
    var fire, alive := TimerFires(0), Receive(Message(GossipWire.ALIVE, p, 1, Some(p), i), false);
    var m1 := Do(ms[|ms| - 1], fire).0;
    m := Do(m1, alive).0;
    Extend(ms, es, fire, m1);
    Extend(ms + [m1], es + [fire], alive, m);
    ms', es' := ms + [m1] + [m], es + [fire] + [alive];
  }

  lemma SuspectAgain(ms: seq<Manager>, es: seq<Event>, p: Id, i: nat) returns (m: Manager, ms': seq<Manager>, es': seq<Event>)
    requires ms != [] && IsOrdinaryRun(ms, es)
    requires var m := ms[|ms| - 1];
      && m.peers == map[p := Record(ALIVE, i)] && m.timers == map[] && m.armed == map[]
      && m.nextHandle == 1 && m.tasks == multiset{Task(p, false)}
    ensures ms' != [] && IsOrdinaryRun(ms', es') && m == ms'[|ms'| - 1]
    ensures m.peers == map[p := Record(SUSPECT, i)] && m.armed == map[1 := p]
    ensures m.timers == map[p := 1] && m.tasks == multiset{Task(p, false)}
  {
    hide IsOrdinaryRun;
    var timeout := ProbeTimeout(p, i, false);
    m := Do(ms[|ms| - 1], timeout).0;
    Extend(ms, es, timeout, m);
    ms', es' := ms + [m], es + [timeout];
  }

  lemma Confirm(ms: seq<Manager>, es: seq<Event>, p: Id, i: nat) returns (m: Manager, ms': seq<Manager>, es': seq<Event>)
    requires ms != [] && IsOrdinaryRun(ms, es)
    requires var m := ms[|ms| - 1];
      && m.peers == map[p := Record(SUSPECT, i)] && m.armed == map[1 := p]
      && m.timers == map[p := 1] && m.tasks == multiset{Task(p, false)}
    ensures IsOrdinaryRun(ms', es') && m == ms'[|ms'| - 1]
    ensures m.peers == map[p := Record(DEAD, i)] && m.timers == map[] && m.armed == map[1 := p]
  {
    hide IsOrdinaryRun;
    var start, finish := ConfirmStarts(p), ConfirmFinishes(p);
    var m1 := Do(ms[|ms| - 1], start).0;
    m := Do(m1, finish).0;
    Extend(ms, es, start, m1);
    Extend(ms + [m1], es + [start], finish, m);
    ms', es' := ms + [m1] + [m], es + [start] + [finish];
  }
}
