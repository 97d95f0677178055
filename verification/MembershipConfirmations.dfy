/** Which timer confirms a suspicion: when a confirmation may come before the suspicion's own
    timeout (python/gossip_rl/gossip/membership.py). */
module MembershipConfirmations {
  import opened Wrappers
  import opened Peers
  import opened Membership
  import opened MembershipTimers

  ghost predicate SameTiming(m: Manager, n: Manager) {
    n.timers == m.timers && n.armed == m.armed && n.nextHandle == m.nextHandle && n.tasks == m.tasks
  }

  /** Apart from what the loop does, an event touches the timers of at most one peer: it starts one
      or cancels it. */
  lemma Touched(m: Manager, e: Event) returns (id: Id)
    requires Enabled(m, e) && !e.TimerFires? && !e.ConfirmStarts? && !e.ConfirmFinishes?
    ensures TouchesOnly(m, Do(m, e).0, id)
  {
    hide Handle, MarkAndWatch, StartTimer, CancelTimer;
    id := m.self;
    match e
    case ProbeTimeout(p, known, raises) =>
      id := p;
      if p in m.peers {
        MarkTiming(m, p, None, raises);
      }
    case Receive(msg, raises) =>
      id := if msg.kind == GossipWire.ACK && msg.sequence in m.probes then m.probes[msg.sequence]
            else if msg.target.Some? then msg.target.value else msg.sender;
      MessageTiming(m, msg, raises, id);
    case _ =>
  }

  /** The timing of n is m's, up to a timer started or cancelled for this peer. */
  ghost predicate TouchesOnly(m: Manager, n: Manager, id: Id) {
    SameTiming(m, n) || SameTiming(StartTimer(m, id), n) || SameTiming(CancelTimer(m, id), n)
  }

  lemma ReviveTiming(m: Manager, id: Id, incarnation: nat)
    ensures TouchesOnly(m, Revive(m, id, incarnation), id)
  {
  }

  lemma MarkTiming(m: Manager, id: Id, claim: Option<nat>, raises: bool)
    requires id in m.peers
    ensures TouchesOnly(m, MarkAndWatch(m, id, claim, raises).0, id)
  {
  }

  lemma DeadTiming(m: Manager, msg: Message)
    ensures TouchesOnly(m, HandleDead(m, msg), if msg.target.Some? then msg.target.value else msg.sender)
  {
  }

  lemma MessageTiming(m: Manager, msg: Message, raises: bool, id: Id)
    requires id == if msg.kind == GossipWire.ACK && msg.sequence in m.probes then m.probes[msg.sequence]
                   else if msg.target.Some? then msg.target.value else msg.sender
    ensures TouchesOnly(m, Handle(m, msg, raises).0, id)
  {
    hide Revive, MarkAndWatch, HandleDead, StartTimer, CancelTimer;
    ReviveTiming(m, id, msg.incarnation);
    DeadTiming(m, msg);
    if id in m.peers {
      MarkTiming(m, id, Some(msg.incarnation), raises);
    }
  }

  // ---- The table of timers in every run ----

  lemma TouchKeepsTimers(m: Manager, n: Manager, id: Id)
    requires TouchesOnly(m, n, id) && TimersValid(m)
    ensures TimersValid(n)
  {
    StartKeepsSound(m, id);
    CancelKeepsSound(m, id);
  }

  lemma FireKeepsTimers(m: Manager, h: nat)
    requires TimersValid(m) && h in m.armed
    ensures TimersValid(Fire(m, h))
  {
    var n := Fire(m, h);
    assert Task(m.armed[h], false) in n.tasks;
  }

  lemma ConfirmKeepsTimers(m: Manager, id: Id)
    requires TimersValid(m)
    ensures Task(id, false) in m.tasks ==> TimersValid(ConfirmStart(m, id))
    ensures TimersValid(ConfirmFinish(m, id))
  {
  }

  /** Every event keeps it, also with raising callbacks and suspected peers added. */
  lemma EventKeepsTimers(m: Manager, e: Event)
    requires TimersValid(m) && Enabled(m, e)
    ensures TimersValid(Do(m, e).0)
  {
    hide TimersValid, Handle, SuspectPeer, Fire, ConfirmStart, ConfirmFinish, TouchesOnly;
    match e
    case TimerFires(h) => FireKeepsTimers(m, h);
    case ConfirmStarts(id) => ConfirmKeepsTimers(m, id);
    case ConfirmFinishes(id) => ConfirmKeepsTimers(m, id);
    case _ =>
      var id := Touched(m, e);
      TouchKeepsTimers(m, Do(m, e).0, id);
  }

  lemma {:induction false} RunKeepsTimers(ms: seq<Manager>, es: seq<Event>, k: nat)
    requires IsRun(ms, es) && k < |ms|
    ensures TimersValid(ms[k])
  {
    if k > 0 {
      RunKeepsTimers(ms, es, k - 1);
      EventKeepsTimers(ms[k - 1], es[k - 1]);
    }
  }

  // ---- A suspicion with its own timer ----

  /** Handle h is the only thing that can lead to a confirmation of p. */
  ghost predicate OnlyTimer(m: Manager, p: Id, h: nat) {
    && h < m.nextHandle && h in m.armed && m.armed[h] == p
    && p in m.timers && m.timers[p] == h
    && (forall g :: g in m.armed && m.armed[g] == p ==> g == h)
    && Task(p, false) !in m.tasks && Task(p, true) !in m.tasks
  }

  lemma StartIsOnlyTimer(m: Manager, p: Id, claim: Option<nat>)
    requires TimersValid(m) && !Watched(m, p) && p in m.peers && MarkSuspect(m.peers[p], claim).1
    ensures OnlyTimer(MarkAndWatch(m, p, claim, false).0, p, m.nextHandle)
  {
  }

  lemma TouchKeepsOnlyTimer(m: Manager, n: Manager, id: Id, p: Id, h: nat)
    requires TouchesOnly(m, n, id) && h < m.nextHandle && (h in m.armed ==> OnlyTimer(m, p, h))
    ensures h < n.nextHandle && (h in n.armed ==> h in m.armed && OnlyTimer(n, p, h))
  {
  }

  lemma FireKeepsOnlyTimer(m: Manager, g: nat, p: Id, h: nat)
    requires g in m.armed && OnlyTimer(m, p, h)
    ensures h in Fire(m, g).armed ==> OnlyTimer(Fire(m, g), p, h)
  {
  }

  lemma ConfirmKeepsOnlyTimer(m: Manager, id: Id, p: Id, h: nat)
    requires OnlyTimer(m, p, h)
    ensures Task(id, false) in m.tasks ==> OnlyTimer(ConfirmStart(m, id), p, h)
    ensures Task(id, true) in m.tasks ==> OnlyTimer(ConfirmFinish(m, id), p, h)
  {
  }

  lemma LoopKeepsOnlyTimer(m: Manager, e: Event, p: Id, h: nat)
    requires Enabled(m, e) && (e.TimerFires? || e.ConfirmStarts? || e.ConfirmFinishes?)
    requires h < m.nextHandle && (h in m.armed ==> OnlyTimer(m, p, h))
    ensures var n := Do(m, e).0;
      h < n.nextHandle && (h in n.armed ==> h in m.armed && OnlyTimer(n, p, h))
  {
    hide Handle, SuspectPeer, OnlyTimer;
    if h in m.armed {
      match e
      case TimerFires(g) => FireKeepsOnlyTimer(m, g, p, h);
      case ConfirmStarts(id) => ConfirmKeepsOnlyTimer(m, id, p, h);
      case ConfirmFinishes(id) => ConfirmKeepsOnlyTimer(m, id, p, h);
    }
  }

  /** It stays that way until h fires or is cancelled; it is never armed again. */
  lemma EventKeepsOnlyTimer(m: Manager, e: Event, p: Id, h: nat)
    requires Enabled(m, e) && h < m.nextHandle && (h in m.armed ==> OnlyTimer(m, p, h))
    ensures var n := Do(m, e).0;
      h < n.nextHandle && (h in n.armed ==> h in m.armed && OnlyTimer(n, p, h))
  {
    hide Do, Enabled, TouchesOnly, OnlyTimer;
    if e.TimerFires? || e.ConfirmStarts? || e.ConfirmFinishes? {
      LoopKeepsOnlyTimer(m, e, p, h);
    } else {
      var id := Touched(m, e);
      TouchKeepsOnlyTimer(m, Do(m, e).0, id, p, h);
    }
  }

  lemma {:induction false} OnlyTimerAlong(ms: seq<Manager>, es: seq<Event>, p: Id, h: nat, k: nat)
    requires IsPath(ms, es) && k < |ms| && OnlyTimer(ms[0], p, h)
    ensures h < ms[k].nextHandle && (h in ms[k].armed ==> OnlyTimer(ms[k], p, h))
  {
    if k > 0 {
      OnlyTimerAlong(ms, es, p, h, k - 1);
      EventKeepsOnlyTimer(ms[k - 1], es[k - 1], p, h);
    }
  }

  /** A suspicion that nothing watched before is not confirmed while its timer is armed, whatever
      happens. */
  lemma OwnTimerConfirms(m: Manager, p: Id, claim: Option<nat>, ms: seq<Manager>, es: seq<Event>, k: nat)
    requires TimersValid(m) && !Watched(m, p) && p in m.peers && MarkSuspect(m.peers[p], claim).1
    requires IsPath(ms, es) && ms[0] == MarkAndWatch(m, p, claim, false).0 && k < |es|
    requires m.nextHandle in ms[k].armed
    ensures es[k] != ConfirmStarts(p) && es[k] != ConfirmFinishes(p)
  {
    StartIsOnlyTimer(m, p, claim);
    OnlyTimerAlong(ms, es, p, m.nextHandle, k);
    assert Enabled(ms[k], es[k]);
  }

  // ---- Exactly when a suspicion may be confirmed early ----

  /** A continuation of ordinary events that confirms p, and in which no timer started at or after
      handle `since` fires. */
  ghost predicate Early(ms: seq<Manager>, es: seq<Event>, p: Id, since: nat) {
    && es != [] && IsPath(ms, es)
    && (forall j :: 0 <= j < |es| ==> Ordinary(es[j]) && !FiresSince(es[j], since))
    && es[|es| - 1] == ConfirmFinishes(p)
    && p in ms[|es| - 1].peers && ms[|es| - 1].peers[p].state == SUSPECT
  }

  predicate FiresSince(e: Event, since: nat) {
    e.TimerFires? && e.handle >= since
  }

  ghost predicate ConfirmableEarly(m: Manager, p: Id, since: nat) {
    exists ms, es :: Early(ms, es, p, since) && ms[0] == m
  }

  /** Nothing older than `since` can lead to a confirmation of p. */
  ghost predicate NothingOld(m: Manager, p: Id, since: nat) {
    && since <= m.nextHandle
    && (forall g :: g in m.armed && m.armed[g] == p ==> g >= since)
    && Task(p, false) !in m.tasks && Task(p, true) !in m.tasks
  }

  lemma TouchKeepsNothingOld(m: Manager, n: Manager, id: Id, p: Id, since: nat)
    requires TouchesOnly(m, n, id) && NothingOld(m, p, since)
    ensures NothingOld(n, p, since)
  {
  }

  lemma LoopKeepsNothingOld(m: Manager, e: Event, p: Id, since: nat)
    requires Enabled(m, e) && NothingOld(m, p, since) && !FiresSince(e, since)
    requires e.TimerFires? || e.ConfirmStarts? || e.ConfirmFinishes?
    ensures NothingOld(Do(m, e).0, p, since)
  {
    hide Handle, SuspectPeer;
  }

  lemma EventKeepsNothingOld(m: Manager, e: Event, p: Id, since: nat)
    requires Enabled(m, e) && NothingOld(m, p, since) && !FiresSince(e, since)
    ensures NothingOld(Do(m, e).0, p, since)
  {
    hide Do, Enabled, TouchesOnly, NothingOld, FiresSince;
    if e.TimerFires? || e.ConfirmStarts? || e.ConfirmFinishes? {
      LoopKeepsNothingOld(m, e, p, since);
    } else {
      var id := Touched(m, e);
      TouchKeepsNothingOld(m, Do(m, e).0, id, p, since);
    }
  }

  lemma {:induction false} NothingOldAlong(ms: seq<Manager>, es: seq<Event>, p: Id, since: nat, k: nat)
    requires IsPath(ms, es) && k < |ms| && NothingOld(ms[0], p, since)
    requires forall j :: 0 <= j < |es| ==> !FiresSince(es[j], since)
    ensures NothingOld(ms[k], p, since)
  {
    if k > 0 {
      NothingOldAlong(ms, es, p, since, k - 1);
      EventKeepsNothingOld(ms[k - 1], es[k - 1], p, since);
    }
  }

  lemma Prepend(m: Manager, e: Event, p: Id, since: nat)
    requires Enabled(m, e) && Ordinary(e) && !FiresSince(e, since) && ConfirmableEarly(Do(m, e).0, p, since)
    ensures ConfirmableEarly(m, p, since)
  {
    hide Do, Enabled, Ordinary, FiresSince;
    var ms, es :| Early(ms, es, p, since) && ms[0] == Do(m, e).0;
    EarlyFrom(m, e, ms, es, p, since);
  }

  lemma EarlyFrom(m: Manager, e: Event, ms: seq<Manager>, es: seq<Event>, p: Id, since: nat)
    requires Enabled(m, e) && Ordinary(e) && !FiresSince(e, since) && Early(ms, es, p, since) && ms[0] == Do(m, e).0
    ensures Early([m] + ms, [e] + es, p, since)
  {
    hide Do, Enabled, Ordinary, FiresSince;
    var ms', es' := [m] + ms, [e] + es;
    forall j | 0 <= j < |es'|
      ensures Enabled(ms'[j], es'[j]) && ms'[j + 1] == Do(ms'[j], es'[j]).0
      ensures Ordinary(es'[j]) && !FiresSince(es'[j], since)
    {
      if j > 0 {
        assert es'[j] == es[j - 1] && ms'[j] == ms[j - 1] && ms'[j + 1] == ms[j];
      }
    }
    assert ms'[|es'| - 1] == ms[|es| - 1] && es'[|es'| - 1] == es[|es| - 1];
  }

  ghost predicate Suspected(m: Manager, p: Id) {
    p in m.peers && m.peers[p].state == SUSPECT
  }

  lemma ConfirmBegun(m: Manager, p: Id, since: nat)
    requires Suspected(m, p) && Task(p, true) in m.tasks
    ensures ConfirmableEarly(m, p, since)
  {
    var e := ConfirmFinishes(p);
    assert Early([m, Do(m, e).0], [e], p, since);
  }

  lemma ConfirmWaiting(m: Manager, p: Id, since: nat)
    requires Suspected(m, p) && Task(p, false) in m.tasks
    ensures ConfirmableEarly(m, p, since)
  {
    ConfirmBegun(Do(m, ConfirmStarts(p)).0, p, since);
    Prepend(m, ConfirmStarts(p), p, since);
  }

  lemma ConfirmArmed(m: Manager, p: Id, since: nat, h: nat)
    requires Suspected(m, p) && h < since && h in m.armed && m.armed[h] == p
    ensures ConfirmableEarly(m, p, since)
  {
    ConfirmWaiting(Do(m, TimerFires(h)).0, p, since);
    Prepend(m, TimerFires(h), p, since);
  }

  /** A new suspicion can be confirmed before any timer started for it fires exactly when, at that
      moment, an older timer of the peer is still armed or an older confirmation has not finished. */
  lemma EarlyConfirmationExactly(m: Manager, p: Id, claim: Option<nat>)
    requires TimersValid(m) && p in m.peers && MarkSuspect(m.peers[p], claim).1
    ensures ConfirmableEarly(MarkAndWatch(m, p, claim, false).0, p, m.nextHandle) <==> Watched(m, p)
  {
    var n := MarkAndWatch(m, p, claim, false).0;
    if Watched(m, p) {
      if h :| h in m.armed && m.armed[h] == p {
        ConfirmArmed(n, p, m.nextHandle, h);
      } else if Task(p, false) in m.tasks {
        ConfirmWaiting(n, p, m.nextHandle);
      } else {
        ConfirmBegun(n, p, m.nextHandle);
      }
    } else {
      NeverEarly(m, n, p, m.nextHandle);
    }
  }

  lemma NeverEarly(m: Manager, n: Manager, p: Id, since: nat)
    requires !Watched(m, p) && n.tasks == m.tasks && since == m.nextHandle <= n.nextHandle
    requires forall g :: g in n.armed && g < since ==> g in m.armed && n.armed[g] == m.armed[g]
    ensures !ConfirmableEarly(n, p, since)
  {
    assert NothingOld(n, p, since);
    forall ms, es | Early(ms, es, p, since) && ms[0] == n
      ensures false
    {
      NothingOldAlong(ms, es, p, since, |es| - 1);
      LastTask(ms, es, p, since);
    }
  }

  lemma LastTask(ms: seq<Manager>, es: seq<Event>, p: Id, since: nat)
    requires Early(ms, es, p, since)
    ensures Task(p, true) in ms[|es| - 1].tasks
  {
    assert Enabled(ms[|es| - 1], es[|es| - 1]);
  }
}
