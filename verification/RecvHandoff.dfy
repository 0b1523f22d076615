/**
 The hand-off between the thread that receives a player's messages and the thread that plays to it,
 over every interleaving of their steps.

 The two threads share the message queue, the error code and the stop flag. Each step below reads or
 writes the shared state once, as one line of either loop does.
 */
module RecvHandoff {

  const SUCCESS := 0

  datatype RecvPc =
    | Pull          // about to test the stop flag
    | Test          // about to test whether the pumper is interrupted
    | Receive       // about to receive and queue one message
    | Failing(code: int) // about to raise the stop flag and report the error

  datatype PlayPc =
    | Drain         // about to test the queue, and pump one message if there is one
    | ReadError     // about to read the error code
    | Returned(code: int)

  /** `received` and `pumped` record, in order, what went through the queue. */
  datatype State = State(queue: seq<int>, error: int, stopped: bool, recv: RecvPc, play: PlayPc,
                         received: seq<int>, pumped: seq<int>)

  const Start := State([], SUCCESS, false, Pull, Drain, [], [])

  datatype Event =
    | RecvPull
    | RecvTest
    | RecvMessage(msg: int)
    | RecvError(code: int)
    | RecvReport
    | PlayDrain(processed: int)
    | PlayReadError
    | Stop

  /** One step of one thread; an event that is not enabled changes nothing. */
  function Step(s: State, e: Event): State {
    match e
    case RecvPull =>
      // When the flag is up the loop returns, and its thread calls it again: the flag stays up.
      if s.recv == Pull && !s.stopped then s.(recv := Test) else s
    case RecvTest =>
      if s.recv != Test then s else s.(recv := if s.queue != [] then Pull else Receive)
    case RecvMessage(m) =>
      if s.recv != Receive then s
      else s.(queue := s.queue + [m], received := s.received + [m], recv := Pull)
    case RecvError(code) =>
      if s.recv != Receive || code == SUCCESS then s else s.(stopped := true, recv := Failing(code))
    case RecvReport =>
      if !s.recv.Failing? then s else s.(error := s.recv.code, recv := Pull)
    case PlayDrain(processed) =>
      if s.play != Drain then s
      else if s.queue == [] then s.(play := ReadError)
      else
        s.(queue := s.queue[1..], pumped := s.pumped + [s.queue[0]],
           play := if processed == SUCCESS then Drain else Returned(processed))
    case PlayReadError =>
      if s.play != ReadError then s
      else s.(play := if s.error == SUCCESS then Drain else Returned(s.error))
    case Stop => s.(stopped := true)
  }

  function Run(s: State, es: seq<Event>): State
    decreases es
  {
    if es == [] then s else Run(Step(s, es[0]), es[1..])
  }

  predicate Inv(s: State) {
    && s.received == s.pumped + s.queue
    && |s.queue| <= 1
    && (s.recv == Receive || s.recv.Failing? ==> s.queue == [])
    && (s.recv.Failing? ==> s.recv.code != SUCCESS)
    && (s.recv.Failing? || s.error != SUCCESS ==> s.stopped)
    && (s.error != SUCCESS ==> s.queue == [] && s.recv == Pull)
  }

  lemma StepInv(s: State, e: Event)
    requires Inv(s)
    ensures Inv(Step(s, e))
  {
    if e.PlayDrain? && s.play == Drain && s.queue != [] {
      assert s.queue == [s.queue[0]] + s.queue[1..];
    }
  }

  /**
   In every reachable state at most one message waits, everything received was pumped in order or is
   that message, and once an error is visible nothing waits.
   */
  lemma {:induction false} HandoffSafe(s: State, es: seq<Event>)
    requires Inv(s)
    ensures Inv(Run(s, es))
    decreases es
  {
    if es != [] {
      StepInv(s, es[0]);
      HandoffSafe(Step(s, es[0]), es[1..]);
    }
  }

  /** When the playing loop leaves on an error of the receiving thread, every message received was pumped. */
  lemma ErrorAfterAllPumped(es: seq<Event>)
    requires var s := Run(Start, es); s.play == ReadError && s.error != SUCCESS
    ensures var s := Run(Start, es);
      s.pumped == s.received && Step(s, PlayReadError).play == Returned(s.error)
  {
    HandoffSafe(Start, es);
    var s := Run(Start, es);
    assert s.pumped + [] == s.pumped;
  }

  /** Once an error is visible it stays visible, and nothing more is received, whatever runs. */
  lemma {:induction false} ErrorIsFinal(s: State, es: seq<Event>)
    requires Inv(s) && s.error != SUCCESS
    ensures var t := Run(s, es); t.error == s.error && t.received == s.received
    decreases es
  {
    if es != [] {
      StepInv(s, es[0]);
      ErrorIsFinal(Step(s, es[0]), es[1..]);
    }
  }

  /** While nobody has raised the stop flag, the next message is received and pumped. */
  lemma NextGetsThrough(s: State, m: int)
    requires s.recv == Pull && s.play == Drain && s.queue == [] && !s.stopped
    ensures Run(s, [RecvPull, RecvTest, RecvMessage(m), PlayDrain(0)])
         == s.(received := s.received + [m], pumped := s.pumped + [m])
    ensures Start.recv == Pull && Start.play == Drain && Start.queue == [] && !Start.stopped
  {
    var s1 := s.(recv := Test);
    var s2 := s.(recv := Receive);
    var s3 := s.(queue := [m], received := s.received + [m]);
    assert Step(s, RecvPull) == s1 && Step(s1, RecvTest) == s2 && s.queue + [m] == [m];
    assert Step(s2, RecvMessage(m)) == s3 && [m][1..] == [];
    var s4 := s.(received := s.received + [m], pumped := s.pumped + [m]);
    assert Step(s3, PlayDrain(0)) == s4;
    RunFour(s, RecvPull, RecvTest, RecvMessage(m), PlayDrain(0));
  }

  lemma RunFour(s: State, a: Event, b: Event, c: Event, d: Event)
    ensures Run(s, [a, b, c, d]) == Step(Step(Step(Step(s, a), b), c), d)
  {
    hide Step;
    assert [a, b, c, d][1..] == [b, c, d] && [b, c, d][1..] == [c, d] && [c, d][1..] == [d] && [d][1..] == [];
    assert Run(Step(s, a), [b, c, d]) == Run(Step(Step(s, a), b), [c, d]);
    assert Run(Step(Step(s, a), b), [c, d]) == Run(Step(Step(Step(s, a), b), c), [d]);
  }

  /** Once the stop flag is up at most the message that is being received still comes in. */
  lemma {:induction false} StopEndsReceiving(s: State, es: seq<Event>)
    requires s.stopped
    ensures Run(s, es).stopped
    ensures |Run(s, es).received| <= |s.received| + if s.recv == Test || s.recv == Receive then 1 else 0
    decreases es
  {
    if es != [] {
      StopEndsReceiving(Step(s, es[0]), es[1..]);
    }
  }

  /** The event at which the playing loop leaves with this code: a message it could not process, or the error. */
  predicate LeavesAt(s: State, e: Event, code: int) {
    code != 0 &&
    (|| (e == PlayDrain(code) && s.play == Drain && s.queue != [])
     || (e.PlayReadError? && s.play == ReadError && s.error == code))
  }

  lemma {:induction false} RunLast(s: State, es: seq<Event>)
    requires es != []
    ensures Run(s, es) == Step(Run(s, es[..|es| - 1]), es[|es| - 1])
    decreases es
  {
    hide Step;
    if |es| > 1 {
      RunLast(Step(s, es[0]), es[1..]);
      assert es[1..][..|es| - 2] == es[..|es| - 1][1..];
    } else {
      assert Run(s, es[..0]) == s && Run(Step(s, es[0]), es[1..]) == Step(s, es[0]);
    }
  }

  lemma LeavingStep(s: State, e: Event, code: int)
    ensures Step(s, e).play == Returned(code) <==>
      s.play == Returned(code) || (!s.play.Returned? && LeavesAt(s, e, code))
  {
  }

  /** In state `i` of a run the playing loop leaves with this code. */
  predicate LeftAt(s: State, es: seq<Event>, i: int, code: int) {
    0 <= i < |es| && LeavesAt(Run(s, es[..i]), es[i], code)
  }

  /** The playing loop has left in a run exactly when such an event came, and with its code. */
  lemma {:induction false} LeavesWithReasonIff(s: State, es: seq<Event>, code: int)
    requires !s.play.Returned?
    ensures Run(s, es).play == Returned(code) <==> exists i :: LeftAt(s, es, i, code)
    decreases |es|
  {
    hide Step, LeavesAt;
    if es != [] {
      var front, n := es[..|es| - 1], |es| - 1;
      RunLast(s, es);
      LeavingStep(Run(s, front), es[n], code);
      LeavesWithReasonIff(s, front, code);
      forall i | 0 <= i < n ensures LeftAt(s, front, i, code) <==> LeftAt(s, es, i, code) {
        assert front[..i] == es[..i];
      }
      LeavesBefore(Run(s, front), es[n], code);
      if Run(s, es).play == Returned(code) {
        if Run(s, front).play == Returned(code) {
          var i :| LeftAt(s, front, i, code);
          assert LeftAt(s, es, i, code);
        } else {
          assert LeftAt(s, es, n, code);
        }
      }
    }
  }

  lemma LeavesBefore(s: State, e: Event, code: int)
    ensures LeavesAt(s, e, code) ==> !s.play.Returned?
  {
  }
}
