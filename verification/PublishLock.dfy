/**
 The publish lock of a source, and when an idle source may be cleaned up, over every interleaving of
 connections that publish and consumers that come and go.

 Taking the lock is assumed to be one step. The program tests the flag and clears it in two calls with
 no lock around them; module `PublishRace` says exactly when that matters.
 */
module PublishLock {
  import opened SourceSpec

  const ERROR_SYSTEM_STREAM_BUSY := 1028
  const SUCCESS := 0

  /** What the publish handler and the publishing loop return: the code for "busy" comes from the refusal alone. */
  type Code = c: int | c != ERROR_SYSTEM_STREAM_BUSY witness 0

  /** Where a connection stands in its publish service; `owns` records that it took the lock. */
  datatype Pc =
    | Ready
    | Publishing
    | Closing(code: int, owns: bool)
    | Finished

  /** `idleSince` is a history variable: when the current stretch of idleness began. */
  datatype System = System(life: Life, pcs: map<nat, Pc>, consumers: set<nat>, now: nat, idleSince: nat)

  datatype Event =
    | Acquire(conn: nat, handled: Code)
    | EndPublishing(conn: nat, code: Code)
    | Release(conn: nat)
    | Again(conn: nat)
    | Join(consumer: nat)
    | Leave(consumer: nat)
    | Tick(ms: nat)

  function At(s: System, c: nat): Pc {
    if c in s.pcs then s.pcs[c] else Ready
  }

  predicate Idle(s: System) {
    s.life.canPublish && s.consumers == {}
  }

  /** One step of one thread; an event that is not enabled changes nothing. */
  function Act(s: System, e: Event): System {
    match e
    case Acquire(c, handled) =>
      if At(s, c) != Ready then s
      else if !s.life.canPublish then s.(pcs := s.pcs[c := Closing(ERROR_SYSTEM_STREAM_BUSY, false)])
      else
        s.(life := Published(s.life),
           pcs := s.pcs[c := if handled == SUCCESS then Publishing else Closing(handled, true)])
    case EndPublishing(c, code) =>
      if At(s, c) != Publishing then s else s.(pcs := s.pcs[c := Closing(code, true)])
    case Release(c) =>
      if !At(s, c).Closing? then s
      else if At(s, c).code != ERROR_SYSTEM_STREAM_BUSY then
        s.(life := Unpublished(s.life, s.consumers == {}, s.now), pcs := s.pcs[c := Finished])
      else s.(pcs := s.pcs[c := Finished])
    case Again(c) =>
      if At(s, c) != Finished then s else s.(pcs := s.pcs[c := Ready])
    case Join(k) => s.(consumers := s.consumers + {k})
    case Leave(k) =>
      var left := s.consumers - {k};
      s.(consumers := left, life := ConsumerGone(s.life, left == {}, s.now))
    case Tick(ms) => s.(now := s.now + ms)
  }

  /** The step, with the history variable brought up to date. */
  function Step(s: System, e: Event): System {
    var t := Act(s, e);
    if Idle(t) && !Idle(s) then t.(idleSince := t.now) else t
  }

  function Start(now: nat): System {
    System(Born, map[], {}, now, now)
  }

  /** All states of a run, the first one included. */
  function Run(s: System, es: seq<Event>): (r: seq<System>)
    ensures |r| == |es| + 1
    decreases es
  {
    if es == [] then [s] else [s] + Run(Step(s, es[0]), es[1..])
  }

  // ----- ownership -----

  predicate Owns(p: Pc) {
    p == Publishing || (p.Closing? && p.owns)
  }

  ghost predicate LockInv(s: System) {
    && (forall c, d | Owns(At(s, c)) && Owns(At(s, d)) :: c == d)
    && (s.life.canPublish <==> forall c :: !Owns(At(s, c)))
    && (forall c | At(s, c).Closing? :: At(s, c).owns <==> At(s, c).code != ERROR_SYSTEM_STREAM_BUSY)
  }

  lemma {:induction false} StepLockInv(s: System, e: Event)
    requires LockInv(s)
    ensures LockInv(Step(s, e))
  {
    var t := Step(s, e);
    if e.Acquire? || e.EndPublishing? || e.Release? || e.Again? {
      var c := e.conn;
      assert forall d :: At(t, d) == if d == c then At(t, c) else At(s, d);
      if !s.life.canPublish {
        var owner :| Owns(At(s, owner));
        assert owner == c || Owns(At(t, owner));
        assert Owns(At(s, c)) ==> c == owner;
      }
    } else {
      assert forall d :: At(t, d) == At(s, d);
    }
  }

  /**
   In every reachable state the flag is down exactly when one connection, and no second one, holds
   the stream.
   */
  lemma {:induction false} ExactlyOneOwner(s: System, es: seq<Event>, i: nat)
    requires LockInv(s) && i <= |es|
    ensures LockInv(Run(s, es)[i])
    decreases es
  {
    if i > 0 {
      StepLockInv(s, es[0]);
      ExactlyOneOwner(Step(s, es[0]), es[1..], i - 1);
    }
  }

  lemma StartLockInv(now: nat)
    ensures LockInv(Start(now)) && IdleInv(Start(now))
  {
  }

  /** What leaving does, by whether the connection owns the stream. */
  lemma ReleaseStep(s: System, c: nat)
    requires LockInv(s) && At(s, c).Closing?
    ensures var t := Step(s, Release(c));
      && (At(s, c).owns ==> t.life.canPublish && At(t, c) == Finished)
      && (!At(s, c).owns ==> t.life == s.life && forall d | d != c :: At(t, d) == At(s, d))
  {
  }

  /** A connection that was told "busy" leaves without touching the lock or whoever owns it. */
  lemma {:induction false} BusyNeverReleases(now: nat, es: seq<Event>, i: nat, c: nat)
    requires i < |es| && es[i] == Release(c)
    requires At(Run(Start(now), es)[i], c).Closing? && !At(Run(Start(now), es)[i], c).owns
    ensures var s, t := Run(Start(now), es)[i], Run(Start(now), es)[i + 1];
      t.life == s.life && forall d | d != c :: At(t, d) == At(s, d)
  {
    hide Step, LockInv, Start;
    StartLockInv(now);
    ExactlyOneOwner(Start(now), es, i);
    RunStep(Start(now), es, i + 1);
    ReleaseStep(Run(Start(now), es)[i], c);
  }

  /** Every owner that failed or finished gives the lock back when it leaves. */
  lemma {:induction false} OwnersRelease(now: nat, es: seq<Event>, i: nat, c: nat)
    requires i < |es| && es[i] == Release(c)
    requires At(Run(Start(now), es)[i], c).Closing? && At(Run(Start(now), es)[i], c).owns
    ensures var t := Run(Start(now), es)[i + 1]; t.life.canPublish && At(t, c) == Finished
  {
    hide Step, LockInv, Start;
    StartLockInv(now);
    ExactlyOneOwner(Start(now), es, i);
    RunStep(Start(now), es, i + 1);
    ReleaseStep(Run(Start(now), es)[i], c);
  }

  /** A stream that is taken has an owner that gives it back, with whatever code its publishing ends. */
  lemma {:induction false} StreamComesBack(now: nat, es: seq<Event>, i: nat, code: Code) returns (c: nat)
    requires i <= |es| && !Run(Start(now), es)[i].life.canPublish
    ensures var s := Run(Start(now), es)[i];
      Owns(At(s, c)) && Step(Step(s, EndPublishing(c, code)), Release(c)).life.canPublish
  {
    StartLockInv(now);
    ExactlyOneOwner(Start(now), es, i);
    var s := Run(Start(now), es)[i];
    c :| Owns(At(s, c));
    StepLockInv(s, EndPublishing(c, code));
  }

  /** In state `i` of a run a connection takes the free stream and the handler accepts it. */
  predicate TakesAt(ss: seq<System>, es: seq<Event>, i: int, c: nat) {
    0 <= i < |es| && i < |ss| && es[i] == Acquire(c, 0) && At(ss[i], c) == Ready && ss[i].life.canPublish
  }

  /** A connection publishes exactly from when it took the free stream and was accepted until its publishing ends. */
  lemma {:induction false} PublishingIff(now: nat, es: seq<Event>, n: nat, c: nat)
    requires n <= |es|
    ensures var ss := Run(Start(now), es);
      At(ss[n], c) == Publishing <==>
        exists i | 0 <= i < n ::
          TakesAt(ss, es, i, c) && forall j | i < j < n :: !(es[j].EndPublishing? && es[j].conn == c)
    decreases n
  {
    hide Step, Start;
    var ss := Run(Start(now), es);
    RunStep(Start(now), es, n);
    if n == 0 {
      NobodyPublishes(now, c);
    } else {
      PublishingIff(now, es, n - 1, c);
      PublishingStep(ss[n - 1], es[n - 1], c);
      if At(ss[n], c) == Publishing {
        if At(ss[n - 1], c) != Publishing {
          assert TakesAt(ss, es, n - 1, c);
        }
      }
    }
  }

  lemma NobodyPublishes(now: nat, c: nat)
    ensures At(Start(now), c) == Ready
  {
  }

  lemma PublishingStep(s: System, e: Event, c: nat)
    ensures At(Step(s, e), c) == Publishing <==>
      || (At(s, c) == Publishing && !(e.EndPublishing? && e.conn == c))
      || (e == Acquire(c, 0) && At(s, c) == Ready && s.life.canPublish)
  {
  }

  // ----- idleness -----

  predicate IdleInv(s: System) {
    && s.life.dieAt >= -1 && s.life.dieAt <= s.now
    && s.idleSince <= s.now
    && (Idle(s) ==> s.life.dieAt == -1 || s.life.dieAt >= s.idleSince)
  }

  lemma StepIdleInv(s: System, e: Event)
    requires IdleInv(s)
    ensures IdleInv(Step(s, e)) && s.now <= Step(s, e).now
  {
  }

  /** Only consumers that are in the list leave it. */
  predicate LeavesOnce(s: System, e: Event) {
    e.Leave? ==> e.consumer in s.consumers
  }

  /** The clock of an idle source is unset or shows when idleness began. */
  predicate ClockIsRight(s: System) {
    Idle(s) ==> s.life.dieAt == -1 || s.life.dieAt == s.idleSince
  }

  lemma StepClockIsRight(s: System, e: Event)
    requires IdleInv(s) && LeavesOnce(s, e) && ClockIsRight(s)
    ensures ClockIsRight(Step(s, e))
  {
  }

  /** In every run in which only listed consumers leave, an idle source knows when its idleness began. */
  lemma {:induction false} DieAtIsIdleStart(now: nat, es: seq<Event>, n: nat)
    requires n <= |es|
    requires forall k | 0 <= k < n :: LeavesOnce(Run(Start(now), es)[k], es[k])
    ensures ClockIsRight(Run(Start(now), es)[n])
    decreases n
  {
    RunStep(Start(now), es, n);
    if n > 0 {
      DieAtIsIdleStart(now, es, n - 1);
      StartLockInv(now);
      RunIdleInv(Start(now), es, n - 1);
      StepClockIsRight(Run(Start(now), es)[n - 1], es[n - 1]);
    }
  }

  /** From state `i` to state `n` of a run the source was idle without a break. */
  predicate IdleThroughout(ss: seq<System>, i: nat, n: nat) {
    i <= n < |ss| && forall j | i <= j <= n :: Idle(ss[j])
  }

  /** The history variable means what it says: an idle state has been preceded by idle states only, back to then. */
  lemma {:induction false} IdleSinceIsReal(s: System, es: seq<Event>, n: nat) returns (i: nat)
    requires IdleInv(s) && (Idle(s) ==> s.now == s.idleSince)
    requires n <= |es| && Idle(Run(s, es)[n])
    ensures IdleThroughout(Run(s, es), i, n) && Run(s, es)[i].now == Run(s, es)[n].idleSince
    ensures IdleInv(Run(s, es)[n])
    decreases n
  {
    var ss := Run(s, es);
    RunStep(s, es, n);
    RunIdleInv(s, es, n);
    if n == 0 {
      i := 0;
    } else if Idle(ss[n - 1]) {
      i := IdleSinceIsReal(s, es, n - 1);
    } else {
      i := n;
    }
  }

  lemma {:induction false} RunStep(s: System, es: seq<Event>, n: nat)
    requires n <= |es|
    ensures n > 0 ==> Run(s, es)[n] == Step(Run(s, es)[n - 1], es[n - 1])
    ensures Run(s, es)[0] == s
    decreases es
  {
    if n > 1 {
      RunStep(Step(s, es[0]), es[1..], n - 1);
    } else if n == 1 {
      RunStep(Step(s, es[0]), es[1..], 0);
    }
  }

  lemma {:induction false} RunIdleInv(s: System, es: seq<Event>, n: nat)
    requires IdleInv(s) && n <= |es|
    ensures IdleInv(Run(s, es)[n])
    decreases es
  {
    if n > 0 {
      StepIdleInv(s, es[0]);
      RunIdleInv(Step(s, es[0]), es[1..], n - 1);
    }
  }

  /**
   A source is declared expired only after more than thirty seconds without a break in which it had
   neither publisher nor consumer.
   */
  lemma {:induction false} ExpiredMeansIdle(now: nat, es: seq<Event>, n: nat) returns (i: nat)
    requires n <= |es|
    requires var s := Run(Start(now), es)[n]; Expired(s.life, s.consumers == {}, s.now)
    ensures var ss := Run(Start(now), es);
      IdleThroughout(ss, i, n) && ss[n].now - ss[i].now > SOURCE_CLEANUP
  {
    StartLockInv(now);
    i := IdleSinceIsReal(Start(now), es, n);
  }

  /** What one event does to the clock: it is set when idleness begins, and left alone while it lasts. */
  lemma StepClock(s: System, e: Event)
    requires LockInv(s) && LeavesOnce(s, e) && Idle(Step(s, e))
    ensures Step(s, e).life.dieAt == if Idle(s) then s.life.dieAt else Step(s, e).now
  {
  }

  /** The clock moves only when the source is left without consumers, and then to the present. */
  lemma ClockMovesWhenEmpty(s: System, e: Event)
    ensures Step(s, e).life.dieAt != s.life.dieAt ==> Step(s, e).consumers == {} && Step(s, e).life.dieAt == s.now
  {
  }

  /** The clock of an idle source is unset as long as it never was in use, and otherwise shows when it last was. */
  lemma {:induction false} ClockSince(now: nat, es: seq<Event>, n: nat) returns (i: nat)
    requires n <= |es| && Idle(Run(Start(now), es)[n])
    requires forall k | 0 <= k < n :: LeavesOnce(Run(Start(now), es)[k], es[k])
    ensures var ss := Run(Start(now), es);
      && i <= n && IdleThroughout(ss, i, n) && (i > 0 ==> !Idle(ss[i - 1]))
      && ss[n].life.dieAt == if i == 0 then -1 else ss[i].now
    decreases n
  {
    hide Step, LockInv, LeavesOnce;
    var ss := Run(Start(now), es);
    RunStep(Start(now), es, n);
    i := n;
    if n > 0 {
      StartLockInv(now);
      ExactlyOneOwner(Start(now), es, n - 1);
      StepClock(ss[n - 1], es[n - 1]);
      if Idle(ss[n - 1]) {
        i := ClockSince(now, es, n - 1);
      }
    }
  }

  /**
   In every run in which only listed consumers leave: a source is declared expired exactly when it has
   been in use, and for more than thirty seconds since had neither publisher nor consumer.
   */
  lemma ExpiredIff(now: nat, es: seq<Event>, n: nat)
    requires n <= |es| && forall k | 0 <= k < n :: LeavesOnce(Run(Start(now), es)[k], es[k])
    ensures var ss := Run(Start(now), es);
      Expired(ss[n].life, ss[n].consumers == {}, ss[n].now) <==>
        exists i | 0 < i <= n :: !Idle(ss[i - 1]) && IdleThroughout(ss, i, n) && ss[n].now - ss[i].now > 30000
  {
    hide Step, LockInv, LeavesOnce, Start, Run, IdleThroughout;
    var ss := Run(Start(now), es);
    if Idle(ss[n]) {
      var i := ClockSince(now, es, n);
      forall j | 0 < j <= n && !Idle(ss[j - 1]) && IdleThroughout(ss, j, n) ensures i == j {
        OneStart(ss, n, i, j);
      }
    } else {
      forall j: nat ensures IdleThroughout(ss, j, n) ==> Idle(ss[n]) {
        EndIsIdle(ss, j, n);
      }
    }
  }

  lemma OneStart(ss: seq<System>, n: nat, i: nat, j: nat)
    requires IdleThroughout(ss, i, n) && IdleThroughout(ss, j, n)
    requires (i > 0 ==> !Idle(ss[i - 1])) && (j > 0 ==> !Idle(ss[j - 1]))
    ensures i == j
  {
    hide Idle;
  }

  lemma EndIsIdle(ss: seq<System>, i: nat, n: nat)
    requires n < |ss|
    ensures IdleThroughout(ss, i, n) ==> Idle(ss[n])
  {
    hide Idle;
  }
}
