/** The health record of a peer and its three marks (python/gossip_rl/gossip/peer.py). */
module Peers {
  import opened Wrappers

  type Id = string

  datatype PeerState = ALIVE | SUSPECT | DEAD | LEFT

  datatype Record = Record(state: PeerState, incarnation: nat)

  /** Each mark gives the new record and whether it reports a change; no incarnation means an
      unconditional mark. */
  function MarkAlive(r: Record, incarnation: Option<nat>): (Record, bool) {
    if incarnation.Some? && incarnation.value <= r.incarnation then (r, false)
    else (Record(ALIVE, if incarnation.Some? then incarnation.value else r.incarnation), r.state != ALIVE)
  }

  function MarkSuspect(r: Record, incarnation: Option<nat>): (Record, bool) {
    if (incarnation.Some? && incarnation.value < r.incarnation) || r.state != ALIVE then (r, false)
    else (r.(state := SUSPECT), true)
  }

  function MarkDead(r: Record, incarnation: Option<nat>): (Record, bool) {
    if (incarnation.Some? && incarnation.value < r.incarnation) || r.state == DEAD then (r, false)
    else (r.(state := DEAD), true)
  }

  class Peer {
    const id: Id
    var state: PeerState
    var incarnation: nat

    constructor (id: Id, state: PeerState, incarnation: nat)
      ensures this.id == id && View() == Record(state, incarnation)
    {
      this.id, this.state, this.incarnation := id, state, incarnation;
    }

    function View(): Record
      reads this
    {
      Record(state, incarnation)
    }

    method MarkPeerAlive(claim: Option<nat>) returns (changed: bool)
      modifies this
      ensures (View(), changed) == MarkAlive(old(View()), claim)
    {
      if claim.Some? && claim.value <= incarnation {
        return false;
      }
      if claim.Some? {
        incarnation := claim.value;
      }
      var oldState := state;
      state := ALIVE;
      return oldState != ALIVE;
    }

    method MarkPeerSuspect(claim: Option<nat>) returns (changed: bool)
      modifies this
      ensures (View(), changed) == MarkSuspect(old(View()), claim)
    {
      if claim.Some? && claim.value < incarnation {
        return false;
      }
      if state == ALIVE {
        state := SUSPECT;
        return true;
      }
      return false;
    }

    method MarkPeerDead(claim: Option<nat>) returns (changed: bool)
      modifies this
      ensures (View(), changed) == MarkDead(old(View()), claim)
    {
      if claim.Some? && claim.value < incarnation {
        return false;
      }
      if state != DEAD {
        state := DEAD;
        return true;
      }
      return false;
    }
  }

  /** A mark reports a change exactly when the state changed. */
  lemma ChangeReportedExactly(r: Record, claim: Option<nat>)
    ensures MarkAlive(r, claim).1 <==> MarkAlive(r, claim).0.state != r.state
    ensures MarkSuspect(r, claim).1 <==> MarkSuspect(r, claim).0.state != r.state
    ensures MarkDead(r, claim).1 <==> MarkDead(r, claim).0.state != r.state
  {
  }

  /** What each mark does to a record, with and without an incarnation. */
  lemma MarksExactly(r: Record, i: nat)
    ensures MarkAlive(r, Some(i)).0 == if i > r.incarnation then Record(ALIVE, i) else r
    ensures MarkAlive(r, None).0 == Record(ALIVE, r.incarnation)
    ensures MarkSuspect(r, Some(i)).0 ==
      if i >= r.incarnation && r.state == ALIVE then Record(SUSPECT, r.incarnation) else r
    ensures MarkSuspect(r, None).0 == if r.state == ALIVE then Record(SUSPECT, r.incarnation) else r
    ensures MarkDead(r, Some(i)).0 == if i >= r.incarnation then Record(DEAD, r.incarnation) else r
    ensures MarkDead(r, None).0 == Record(DEAD, r.incarnation)
  {
  }

  // ---- Orders of arrival ----

  datatype Mark = Alive(incarnation: nat) | Suspect(incarnation: nat) | Dead(incarnation: nat)

  function Apply(r: Record, mark: Mark): Record {
    match mark
    case Alive(i) => MarkAlive(r, Some(i)).0
    case Suspect(i) => MarkSuspect(r, Some(i)).0
    case Dead(i) => MarkDead(r, Some(i)).0
  }

  function Rank(s: PeerState): nat {
    match s
    case ALIVE => 0
    case SUSPECT => 1
    case LEFT => 2
    case DEAD => 3
  }

  function ApplyAll(r: Record, marks: seq<Mark>): Record
    decreases |marks|
  {
    if marks == [] then r else ApplyAll(Apply(r, marks[0]), marks[1..])
  }

  ghost predicate NotBefore(a: Record, b: Record) {
    a.incarnation > b.incarnation || (a.incarnation == b.incarnation && Rank(a.state) >= Rank(b.state))
  }

  /** Marks never move a record back: the incarnation never falls, and within one incarnation
      only ALIVE -> SUSPECT -> DEAD is possible. */
  lemma {:induction false} MarksProgress(r: Record, marks: seq<Mark>)
    ensures NotBefore(ApplyAll(r, marks), r)
    decreases |marks|
  {
    if marks != [] {
      MarksProgress(Apply(r, marks[0]), marks[1..]);
    }
  }

  /** Records depend on the order of arrival, because SUSPECT does not store the incarnation it
      was made with: ALIVE and SUSPECT claims commute exactly when the ALIVE one is stale or the newer. */
  lemma AliveSuspectCommuteExactly(r: Record, i: nat, j: nat)
    ensures ApplyAll(r, [Alive(i), Suspect(j)]) == ApplyAll(r, [Suspect(j), Alive(i)])
      <==> i <= r.incarnation || j < i
  {
    ApplyTwo(r, Alive(i), Suspect(j));
    ApplyTwo(r, Suspect(j), Alive(i));
  }

  /** The same for DEAD claims, which a newer ALIVE one also undoes. */
  lemma AliveDeadCommuteExactly(r: Record, i: nat, j: nat)
    ensures ApplyAll(r, [Alive(i), Dead(j)]) == ApplyAll(r, [Dead(j), Alive(i)])
      <==> i <= r.incarnation || j < i
  {
    ApplyTwo(r, Alive(i), Dead(j));
    ApplyTwo(r, Dead(j), Alive(i));
  }

  lemma ApplyTwo(r: Record, a: Mark, b: Mark)
    ensures ApplyAll(r, [a, b]) == Apply(Apply(r, a), b)
  {
    assert [a, b][1..] == [b] && [b][1..] == [];
    assert ApplyAll(Apply(Apply(r, a), b), []) == Apply(Apply(r, a), b);
  }
}
