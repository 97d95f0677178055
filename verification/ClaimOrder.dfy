/** When a peer's record does not depend on the order in which claims about it arrive
    (python/gossip_rl/gossip/peer.py). */
module ClaimOrder {
  import opened Wrappers
  import opened Peers

  ghost predicate Accuses(m: Mark) {
    m.Suspect? || m.Dead?
  }

  /** An ALIVE claim newer than the record. */
  ghost predicate Newer(m: Mark, r: Record) {
    m.Alive? && m.incarnation > r.incarnation
  }

  /** A newer ALIVE claim that outranks every accusation. */
  ghost predicate Clears(m: Mark, r: Record, s: set<Mark>) {
    m in s && Newer(m, r) && forall a :: a in s && Accuses(a) ==> a.incarnation < m.incarnation
  }

  // ---- No newer ALIVE claim: accusations accumulate ----

  ghost predicate Condemned(r: Record, s: set<Mark>) {
    exists m :: m in s && m.Dead? && m.incarnation >= r.incarnation
  }

  ghost predicate Doubted(r: Record, s: set<Mark>) {
    exists m :: m in s && m.Suspect? && m.incarnation >= r.incarnation
  }

  ghost function Accused(r: Record, s: set<Mark>): Record {
    if Condemned(r, s) then r.(state := DEAD)
    else if Doubted(r, s) && r.state == ALIVE then r.(state := SUSPECT)
    else r
  }

  lemma {:induction false} OnlyAccusations(r: Record, d: seq<Mark>)
    requires forall m :: m in d ==> !Newer(m, r)
    ensures ApplyAll(r, d) == Accused(r, Elements(d))
    decreases |d|
  {
    if d != [] {
      var next, rest := Apply(r, d[0]), d[1..];
      assert d == [d[0]] + rest;
      assert Elements(d) == {d[0]} + Elements(rest);
      OnlyAccusations(next, rest);
      AccusedStep(r, d[0], Elements(rest));
    }
  }

  lemma AccusedStep(r: Record, m: Mark, s: set<Mark>)
    requires !Newer(m, r)
    ensures Accused(Apply(r, m), s) == Accused(r, {m} + s)
  {
    assert m in {m} + s;
    assert forall x :: x in {m} + s ==> x == m || x in s;
    assert forall x :: x in s ==> x in {m} + s;
    assert Condemned(Apply(r, m), s) ==> Condemned(r, {m} + s);
    assert Doubted(Apply(r, m), s) ==> Doubted(r, {m} + s);
  }

  // ---- A clearing ALIVE claim wins wherever it arrives ----

  lemma {:induction false} NewestWins(r: Record, d: seq<Mark>, i: nat)
    requires forall m :: m in d ==> if m.Alive? then m.incarnation <= i else m.incarnation < i
    requires r == Record(ALIVE, i) || (r.incarnation < i && Alive(i) in d)
    ensures ApplyAll(r, d) == Record(ALIVE, i)
    decreases |d|
  {
    if d != [] {
      assert d == [d[0]] + d[1..];
      NewestWins(Apply(r, d[0]), d[1..], i);
    }
  }

  // ---- Otherwise two orders differ ----

  lemma {:induction false} IncarnationOrigin(r: Record, d: seq<Mark>)
    ensures var i := ApplyAll(r, d).incarnation; i == r.incarnation || Alive(i) in d
    ensures forall j: nat :: Alive(j) in d ==> j <= ApplyAll(r, d).incarnation
    ensures r.incarnation <= ApplyAll(r, d).incarnation
    decreases |d|
  {
    if d != [] {
      assert d == [d[0]] + d[1..];
      IncarnationOrigin(Apply(r, d[0]), d[1..]);
    }
  }

  lemma {:induction false} ApplyLast(r: Record, d: seq<Mark>, m: Mark)
    ensures ApplyAll(r, d + [m]) == Apply(ApplyAll(r, d), m)
    decreases |d|
  {
    if d == [] {
      assert [] + [m] == [m] && [m][1..] == [];
      assert ApplyAll(Apply(r, m), []) == Apply(r, m);
    } else {
      ApplyLast(Apply(r, d[0]), d[1..], m);
      assert (d + [m])[1..] == d[1..] + [m];
    }
  }

  lemma {:induction false} NewestAlive(s: set<Mark>, m: Mark) returns (newest: Mark)
    requires m in s && m.Alive?
    ensures newest in s && newest.Alive?
    ensures forall a :: a in s && a.Alive? ==> a.incarnation <= newest.incarnation
    decreases s
  {
    newest := m;
    if above :| above in s && above.Alive? && above.incarnation > m.incarnation {
      var n := NewestAlive(s - {m}, above);
      newest := n;
      assert forall a :: a in s ==> a == m || a in s - {m};
    }
  }

  lemma TwoOrders(r: Record, s: set<Mark>, m: Mark) returns (d: seq<Mark>, d': seq<Mark>)
    requires m in s && Newer(m, r) && !exists c :: Clears(c, r, s)
    ensures Elements(d) == s && Elements(d') == s && ApplyAll(r, d) != ApplyAll(r, d')
  {
    var newest := NewestAlive(s, m);
    assert !Clears(newest, r, s);
    var a :| a in s && Accuses(a) && a.incarnation >= newest.incarnation;
    var others := Listing(s - {newest});
    var all := Listing(s);
    d, d' := others + [newest], all + [a];
    assert Elements(d) == Elements(others) + {newest};
    assert Elements(d') == Elements(all) + {a};
    ApplyLast(r, others, newest);
    ApplyLast(r, all, a);
    IncarnationOrigin(r, others);
    IncarnationOrigin(r, all);
    NotYet(r, s, others, newest);
    Reached(r, s, all, newest);
  }

  lemma NotYet(r: Record, s: set<Mark>, others: seq<Mark>, newest: Mark)
    requires Elements(others) == s - {newest} && Newer(newest, r)
    requires forall a :: a in s && a.Alive? ==> a.incarnation <= newest.incarnation
    ensures ApplyAll(r, others).incarnation < newest.incarnation
  {
    IncarnationOrigin(r, others);
    var i := ApplyAll(r, others).incarnation;
    if Alive(i) in others {
      assert Alive(i) in Elements(others);
    }
  }

  lemma Reached(r: Record, s: set<Mark>, all: seq<Mark>, newest: Mark)
    requires Elements(all) == s && newest in s && Newer(newest, r)
    requires forall a :: a in s && a.Alive? ==> a.incarnation <= newest.incarnation
    ensures ApplyAll(r, all).incarnation == newest.incarnation
  {
    IncarnationOrigin(r, all);
    assert newest in Elements(all);
    var i := ApplyAll(r, all).incarnation;
    assert newest == Alive(newest.incarnation);
    if Alive(i) in all {
      assert Alive(i) in Elements(all);
    }
  }

  /** Claims, each delivered at least once, leave the same record in every order exactly when none of them is
      an ALIVE claim newer than the record, or one such claim is newer than every accusation. */
  lemma OrderIndependentExactly(r: Record, s: set<Mark>)
    ensures (forall d, d' :: Elements(d) == s && Elements(d') == s ==> ApplyAll(r, d) == ApplyAll(r, d'))
      <==> (forall m :: m in s ==> !Newer(m, r)) || (exists m :: Clears(m, r, s))
  {
    if forall m :: m in s ==> !Newer(m, r) {
      forall d, d' | Elements(d) == s && Elements(d') == s
        ensures ApplyAll(r, d) == ApplyAll(r, d')
      {
        StaleAlives(r, s, d);
        StaleAlives(r, s, d');
      }
    } else if c :| Clears(c, r, s) {
      var newest := NewestAlive(s, c);
      forall d, d' | Elements(d) == s && Elements(d') == s
        ensures ApplyAll(r, d) == ApplyAll(r, d')
      {
        Cleared(r, s, c, newest, d);
        Cleared(r, s, c, newest, d');
      }
    } else {
      var m :| m in s && Newer(m, r);
      var d, d' := TwoOrders(r, s, m);
    }
  }

  lemma StaleAlives(r: Record, s: set<Mark>, d: seq<Mark>)
    requires Elements(d) == s && forall m :: m in s ==> !Newer(m, r)
    ensures ApplyAll(r, d) == Accused(r, s)
  {
    assert forall m :: m in d ==> m in Elements(d);
    OnlyAccusations(r, d);
  }

  /** The record then is ALIVE at the newest incarnation claimed. */
  lemma Cleared(r: Record, s: set<Mark>, c: Mark, newest: Mark, d: seq<Mark>)
    requires Elements(d) == s && Clears(c, r, s) && newest in s && newest.Alive?
    requires forall a :: a in s && a.Alive? ==> a.incarnation <= newest.incarnation
    ensures ApplyAll(r, d) == Record(ALIVE, newest.incarnation)
  {
    assert forall m :: m in d <==> m in Elements(d);
    assert newest == Alive(newest.incarnation);
    NewestWins(r, d, newest.incarnation);
  }
}
