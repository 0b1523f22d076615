/**
 Taking the publish lock as the program does it: a connection tests the flag, and clears it in a later
 call. Every connection is a thread of its own, and no lock covers the two calls.
 */
module PublishRace {

  datatype Pc = Ready | Tested | Owner | Refused

  datatype System = System(canPublish: bool, pcs: map<nat, Pc>)

  datatype Event = Test(conn: nat) | Clear(conn: nat) | Leave(conn: nat)

  const Start := System(true, map[])

  function At(s: System, c: nat): Pc {
    if c in s.pcs then s.pcs[c] else Ready
  }

  /** One step of one connection; an event that is not enabled changes nothing. */
  function Step(s: System, e: Event): System {
    match e
    case Test(c) =>
      if At(s, c) != Ready then s else s.(pcs := s.pcs[c := if s.canPublish then Tested else Refused])
    case Clear(c) =>
      if At(s, c) != Tested then s else System(false, s.pcs[c := Owner])
    case Leave(c) =>
      if At(s, c) == Owner then System(true, s.pcs[c := Ready])
      else if At(s, c) == Refused then s.(pcs := s.pcs[c := Ready])
      else s
  }

  function End(s: System, es: seq<Event>): System
    decreases es
  {
    if es == [] then s else Step(End(s, es[..|es| - 1]), es[|es| - 1])
  }

  predicate Holds(p: Pc) {
    p == Tested || p == Owner
  }

  ghost predicate TwoOwners(s: System) {
    exists c, d :: c != d && At(s, c) == Owner && At(s, d) == Owner
  }

  /** Two connections have passed the test. */
  ghost predicate Hazard(s: System) {
    exists c, d :: c != d && Holds(At(s, c)) && Holds(At(s, d))
  }

  ghost predicate Safe(s: System) {
    !Hazard(s) && (s.canPublish <==> forall c :: At(s, c) != Owner)
  }

  /** A connection passes the test while another one is between its test and its clearing of the flag. */
  ghost predicate Races(s: System, e: Event) {
    e.Test? && s.canPublish && At(s, e.conn) == Ready && exists d :: At(s, d) == Tested
  }

  ghost predicate RacesAt(es: seq<Event>, i: nat)
    requires i < |es|
  {
    Races(End(Start, es[..i]), es[i])
  }

  lemma {:induction false} Moves(s: System, e: Event)
    ensures forall d :: d != e.conn ==> At(Step(s, e), d) == At(s, d)
  {
  }

  /** A step leads out of safety exactly when it is such a test. */
  lemma {:induction false} StepSafeIff(s: System, e: Event)
    requires Safe(s)
    ensures Safe(Step(s, e)) <==> !Races(s, e)
    ensures Hazard(Step(s, e)) <==> Races(s, e)
  {
    var t := Step(s, e);
    Moves(s, e);
    if Races(s, e) {
      var d :| At(s, d) == Tested;
      assert Holds(At(t, d)) && Holds(At(t, e.conn));
    } else if Hazard(t) {
      var c, d :| c != d && Holds(At(t, c)) && Holds(At(t, d));
      assert c == e.conn || d == e.conn;
      var other := if c == e.conn then d else c;
      assert Holds(At(s, other)) && Holds(At(t, e.conn));
      assert !Holds(At(s, e.conn));
    }
    if !Races(s, e) {
      FlagFollows(s, e);
    }
  }

  lemma {:induction false} FlagFollows(s: System, e: Event)
    requires Safe(s)
    ensures Step(s, e).canPublish <==> forall c :: At(Step(s, e), c) != Owner
  {
    var t := Step(s, e);
    Moves(s, e);
    if At(t, e.conn) == Owner {
      assert !t.canPublish;
    } else if At(s, e.conn) == Owner {
      assert t.canPublish;
      forall d
        ensures At(t, d) != Owner
      {
        assert d != e.conn ==> !(Holds(At(s, d)) && Holds(At(s, e.conn)));
      }
    } else {
      assert t.canPublish == s.canPublish;
      assert forall d :: At(t, d) == Owner <==> At(s, d) == Owner;
    }
  }

  predicate OnlyClears(es: seq<Event>) {
    forall e | e in es :: e.Clear?
  }

  /** Two owners are in reach without a further test. */
  ghost predicate CanDouble(s: System) {
    exists more :: OnlyClears(more) && TwoOwners(End(s, more))
  }

  lemma {:induction false} ClearsKeepSafe(s: System, more: seq<Event>)
    requires Safe(s) && OnlyClears(more)
    ensures Safe(End(s, more))
    decreases more
  {
    if more != [] {
      var front, e := more[..|more| - 1], more[|more| - 1];
      assert e in more && forall x | x in front :: x in more;
      ClearsKeepSafe(s, front);
      StepSafeIff(End(s, front), e);
    }
  }

  lemma {:induction false} EndOfTwo(s: System, e: Event, f: Event)
    ensures End(s, [e, f]) == Step(Step(s, e), f)
  {
    hide Step;
    assert [e, f][..1] == [e] && [e][..0] == [];
    assert End(s, [e]) == Step(End(s, []), e);
  }

  /** Once two have passed the test, letting both clear the flag makes two owners. */
  lemma {:induction false} HazardDoubles(s: System)
    requires Hazard(s)
    ensures CanDouble(s)
  {
    var c, d :| c != d && Holds(At(s, c)) && Holds(At(s, d));
    var more := [Clear(c), Clear(d)];
    EndOfTwo(s, Clear(c), Clear(d));
    var t := End(s, more);
    Moves(s, Clear(c));
    Moves(Step(s, Clear(c)), Clear(d));
    assert At(t, c) == Owner && At(t, d) == Owner;
    assert OnlyClears(more);
  }

  lemma {:induction false} SafeCannotDouble(s: System)
    requires Safe(s)
    ensures !CanDouble(s)
  {
    if more :| OnlyClears(more) && TwoOwners(End(s, more)) {
      ClearsKeepSafe(s, more);
      OwnersHold(End(s, more));
    }
  }

  lemma {:induction false} OwnersHold(s: System)
    requires TwoOwners(s)
    ensures Hazard(s)
  {
    var c, d :| c != d && At(s, c) == Owner && At(s, d) == Owner;
    assert Holds(At(s, c)) && Holds(At(s, d));
  }

  lemma {:induction false} EndNext(s: System, es: seq<Event>, i: nat)
    requires i < |es|
    ensures End(s, es[..i + 1]) == Step(End(s, es[..i]), es[i])
  {
    assert es[..i + 1][..i] == es[..i];
  }

  /** Without such a test the lock is safe: the flag is down exactly when there is an owner, and one only. */
  lemma {:induction false} RaceFreeIsSafe(es: seq<Event>, i: nat)
    requires i <= |es| && forall k | 0 <= k < i :: !RacesAt(es, k)
    ensures Safe(End(Start, es[..i])) && !TwoOwners(End(Start, es[..i]))
    decreases i
  {
    if i == 0 {
      assert forall c :: At(Start, c) == Ready;
    } else {
      RaceFreeIsSafe(es, i - 1);
      EndNext(Start, es, i - 1);
      assert !RacesAt(es, i - 1);
      StepSafeIff(End(Start, es[..i - 1]), es[i - 1]);
    }
    if TwoOwners(End(Start, es[..i])) {
      OwnersHold(End(Start, es[..i]));
    }
  }

  lemma {:induction false} FirstRace(es: seq<Event>, j: nat) returns (i: nat)
    requires j < |es| && RacesAt(es, j)
    ensures i <= j && RacesAt(es, i) && forall k | 0 <= k < i :: !RacesAt(es, k)
    decreases j
  {
    if k :| 0 <= k < j && RacesAt(es, k) {
      i := FirstRace(es, k);
    } else {
      i := j;
    }
  }

  /**
   Somewhere along a run two owners are in reach exactly when, somewhere along it, a connection passes
   the test before an earlier one has cleared the flag.
   */
  lemma {:induction false} TwoOwnersIff(es: seq<Event>)
    ensures (exists i | 0 <= i <= |es| :: CanDouble(End(Start, es[..i]))) <==>
      exists i | 0 <= i < |es| :: RacesAt(es, i)
  {
    if j :| 0 <= j < |es| && RacesAt(es, j) {
      var i := FirstRace(es, j);
      RaceFreeIsSafe(es, i);
      EndNext(Start, es, i);
      StepSafeIff(End(Start, es[..i]), es[i]);
      HazardDoubles(End(Start, es[..i + 1]));
    } else {
      forall i | 0 <= i <= |es|
        ensures !CanDouble(End(Start, es[..i]))
      {
        RaceFreeIsSafe(es, i);
        SafeCannotDouble(End(Start, es[..i]));
      }
    }
  }

  /** Two tests, and then two clearings. */
  lemma {:induction false} TwoTestsTwoOwners()
    ensures TwoOwners(End(Start, [Test(0), Test(1), Clear(0), Clear(1)]))
  {
    var es := [Test(0), Test(1), Clear(0), Clear(1)];
    EndNext(Start, es, 0);
    EndNext(Start, es, 1);
    EndNext(Start, es, 2);
    EndNext(Start, es, 3);
    assert es[..0] == [] && es[..4] == es;
    var s := End(Start, es);
    assert At(s, 0) == Owner && At(s, 1) == Owner;
  }

  /** A connection that was refused can come again, and has the stream then if it is free. */
  lemma RefusedComesAgain(s: System, c: nat)
    requires At(s, c) == Refused && s.canPublish
    ensures var t := Step(Step(Step(s, Leave(c)), Test(c)), Clear(c));
      At(t, c) == Owner && !t.canPublish && forall d | d != c :: At(t, d) == At(s, d)
  {
  }

  /** Only who was refused or owns the stream leaves, and only an owner gives it back. */
  lemma LeavingIff(s: System, c: nat)
    ensures At(s, c) != Ready ==> (At(Step(s, Leave(c)), c) == Ready <==> At(s, c) == Refused || At(s, c) == Owner)
    ensures Step(s, Leave(c)).canPublish <==> s.canPublish || At(s, c) == Owner
  {
  }
}
