/** The per-consumer timestamp corrector, and what its FULL form guarantees over whole runs. */
module Jitter {
  import opened Messages

  const MAX_JITTER_MS := 250
  const DEFAULT_FRAME_MS := 10

  datatype Algorithm = Off | Zero | Full

  /** The value of a corrector between two calls. */
  datatype State = State(lastTime: int, lastCorrect: int)

  const Initial := State(0, -1)

  function Max(a: int, b: int): int {
    if a < b then b else a
  }

  /** The step the corrector takes for an input delta: itself, or the default when it jumps. */
  function Delta(d: int): int {
    if d < -MAX_JITTER_MS || d > MAX_JITTER_MS then DEFAULT_FRAME_MS else d
  }

  function Corrected(s: State, m: Message, ag: Algorithm): (State, Message) {
    match ag
    case Off => (s, m)
    case Zero =>
      var base := if s.lastCorrect == -1 then m.timestamp else s.lastCorrect;
      (s.(lastCorrect := base), m.(timestamp := m.timestamp - base))
    case Full =>
      if !m.IsAv() then (s, m.(timestamp := 0))
      else
        var out := Max(0, s.lastCorrect + Delta(m.timestamp - s.lastTime));
        (State(m.timestamp, out), m.(timestamp := out))
  }

  class RtmpJitter {
    var lastPktTime: int
    var lastPktCorrectTime: int

    ghost function View(): State
      reads this
    {
      State(lastPktTime, lastPktCorrectTime)
    }

    constructor ()
      ensures View() == Initial
    {
      lastPktCorrectTime := -1;
      lastPktTime := 0;
    }

    method Correct(msg: Message, ag: Algorithm) returns (fixed: Message)
      modifies this
      ensures (View(), fixed) == Corrected(old(View()), msg, ag)
    {
      fixed := msg;
      if ag != Full {
        if ag == Off {
          return;
        }
        if lastPktCorrectTime == -1 {
          lastPktCorrectTime := msg.timestamp;
        }
        fixed := fixed.(timestamp := fixed.timestamp - lastPktCorrectTime);
        return;
      }
      if !msg.IsAv() {
        fixed := fixed.(timestamp := 0);
        return;
      }
      var time := msg.timestamp;
      var delta := time - lastPktTime;
      if delta < -MAX_JITTER_MS || delta > MAX_JITTER_MS {
        delta := DEFAULT_FRAME_MS;
      }
      lastPktCorrectTime := Max(0, lastPktCorrectTime + delta);
      fixed := fixed.(timestamp := lastPktCorrectTime);
      lastPktTime := time;
    }

    method GetTime() returns (t: int)
      ensures t == View().lastCorrect
    {
      t := lastPktCorrectTime;
    }
  }

  // ----- whole runs -----

  function Run(s: State, ms: seq<Message>, ag: Algorithm): (r: (State, seq<Message>))
    ensures |r.1| == |ms|
    decreases ms
  {
    if ms == [] then (s, [])
    else
      var (s1, out) := Corrected(s, ms[0], ag);
      var (s2, rest) := Run(s1, ms[1..], ag);
      (s2, [out] + rest)
  }

  predicate Nondecreasing(ms: seq<Message>) {
    forall i, j | 0 <= i < j < |ms| && ms[i].IsAv() && ms[j].IsAv() :: ms[i].timestamp <= ms[j].timestamp
  }

  /** `j` is the next audio/video message after `i`. */
  predicate Successive(ms: seq<Message>, i: nat, j: nat) {
    && i < j < |ms| && ms[i].IsAv() && ms[j].IsAv()
    && forall k | i < k < j :: !ms[k].IsAv()
  }

  function FirstAv(ms: seq<Message>): (k: nat)
    ensures k <= |ms|
    ensures k < |ms| ==> ms[k].IsAv()
    ensures forall i | 0 <= i < k :: !ms[i].IsAv()
  {
    if ms == [] || ms[0].IsAv() then 0 else 1 + FirstAv(ms[1..])
  }

  /** Before the first audio/video message the corrector stands still; then it moves by one bounded step. */
  lemma {:induction false} RunToFirstAv(s: State, ms: seq<Message>)
    requires FirstAv(ms) < |ms|
    ensures var k := FirstAv(ms); var out := Run(s, ms, Full).1;
      && out[k].IsAv()
      && out[k].timestamp == Max(0, s.lastCorrect + Delta(ms[k].timestamp - s.lastTime))
      && out[k + 1..] == Run(State(ms[k].timestamp, out[k].timestamp), ms[k + 1..], Full).1
  {
    if !ms[0].IsAv() {
      RunToFirstAv(s, ms[1..]);
      assert ms[1..][FirstAv(ms[1..]) + 1..] == ms[FirstAv(ms) + 1..];
    }
  }

  /**
   FULL over any run, from any state and on any input: the kinds are kept, every audio/video output
   is non-negative, and metadata is stamped zero.
   */
  lemma {:induction false} FullOutputsNonNegative(s: State, ms: seq<Message>, i: nat)
    requires i < |ms|
    ensures var out := Run(s, ms, Full).1[i];
      && out.Body() == ms[i].Body()
      && out.timestamp >= 0
      && (!out.IsAv() ==> out.timestamp == 0)
    decreases ms
  {
    if i > 0 {
      FullOutputsNonNegative(Corrected(s, ms[0], Full).0, ms[1..], i - 1);
    }
  }

  /**
   One successive pair of a FULL run: the output is the previous output plus the accepted step,
   clamped at zero.
   */
  lemma {:induction false} FullSuccessive(s: State, ms: seq<Message>, i: nat, j: nat)
    requires Successive(ms, i, j)
    ensures var out := Run(s, ms, Full).1;
      out[j].timestamp == Max(0, out[i].timestamp + Delta(ms[j].timestamp - ms[i].timestamp))
    ensures var out, d := Run(s, ms, Full).1, ms[j].timestamp - ms[i].timestamp;
      var next := out[i].timestamp + if -250 <= d <= 250 then d else 10;
      out[j].timestamp == if next < 0 then 0 else next
    decreases ms
  {
    var s1 := Corrected(s, ms[0], Full).0;
    if i > 0 {
      FullSuccessive(s1, ms[1..], i - 1, j - 1);
    } else {
      var rest := ms[1..];
      assert forall k | 0 <= k < j - 1 :: !rest[k].IsAv() by {
        forall k | 0 <= k < j - 1 ensures !rest[k].IsAv() {
          assert rest[k] == ms[k + 1];
        }
      }
      assert rest[j - 1].IsAv();
      assert FirstAv(rest) == j - 1;
      RunToFirstAv(s1, rest);
    }
  }

  /** Successive outputs of a FULL run never differ by more than the jitter bound. */
  lemma FullStepBounded(s: State, ms: seq<Message>, i: nat, j: nat)
    requires Successive(ms, i, j)
    ensures var out := Run(s, ms, Full).1;
      -250 <= out[j].timestamp - out[i].timestamp <= 250
  {
    FullSuccessive(s, ms, i, j);
    FullOutputsNonNegative(s, ms, i);
  }

  /**
   FULL is not monotone in general. A pair of successive outputs goes backward exactly when the
   input goes backward by at most the jitter bound and the earlier output was positive.
   */
  lemma FullBackwardIff(s: State, ms: seq<Message>, i: nat, j: nat)
    requires Successive(ms, i, j)
    ensures var out := Run(s, ms, Full).1;
      out[j].timestamp < out[i].timestamp <==>
      -250 <= ms[j].timestamp - ms[i].timestamp < 0 && out[i].timestamp > 0
  {
    FullSuccessive(s, ms, i, j);
    FullOutputsNonNegative(s, ms, i);
  }

  /** Input steps within the bound come out unchanged when they do not go backward. */
  lemma FullKeepsSmallSteps(s: State, ms: seq<Message>, i: nat, j: nat)
    requires Successive(ms, i, j)
    requires 0 <= ms[j].timestamp - ms[i].timestamp <= 250
    ensures var out := Run(s, ms, Full).1;
      out[j].timestamp - out[i].timestamp == ms[j].timestamp - ms[i].timestamp
  {
    FullSuccessive(s, ms, i, j);
    FullOutputsNonNegative(s, ms, i);
  }

  /** A run of nondecreasing inputs gives a run of nondecreasing outputs, whatever jumps it contains. */
  lemma {:induction false} FullMonotone(s: State, ms: seq<Message>)
    requires Nondecreasing(ms)
    ensures Nondecreasing(Run(s, ms, Full).1)
  {
    var out := Run(s, ms, Full).1;
    forall i, j | 0 <= i < j < |out| && out[i].IsAv() && out[j].IsAv()
      ensures out[i].timestamp <= out[j].timestamp
    {
      FullMonotonePair(s, ms, i, j);
    }
  }

  lemma {:induction false} FullMonotonePair(s: State, ms: seq<Message>, i: nat, j: nat)
    requires Nondecreasing(ms)
    requires i < j < |ms|
    requires Run(s, ms, Full).1[i].IsAv() && Run(s, ms, Full).1[j].IsAv()
    ensures Run(s, ms, Full).1[i].timestamp <= Run(s, ms, Full).1[j].timestamp
    decreases j - i
  {
    FullOutputsNonNegative(s, ms, i);
    FullOutputsNonNegative(s, ms, j);
    if k :| i < k < j && ms[k].IsAv() {
      FullOutputsNonNegative(s, ms, k);
      FullMonotonePair(s, ms, i, k);
      FullMonotonePair(s, ms, k, j);
    } else {
      FullSuccessive(s, ms, i, j);
    }
  }

  /**
   Two consumers that join the same stream at different moments, and so stand at different
   corrected times, stay a constant distance apart from their first common packet on.
   */
  lemma {:induction false} FullOffsetConstant(s: State, t: State, ms: seq<Message>, i: nat, j: nat)
    requires Nondecreasing(ms)
    requires i < |ms| && j < |ms| && ms[i].IsAv() && ms[j].IsAv()
    ensures var a := Run(s, ms, Full).1; var b := Run(t, ms, Full).1;
      a[i].timestamp - b[i].timestamp == a[j].timestamp - b[j].timestamp
    decreases if i <= j then j - i else i - j, i > j
  {
    if i > j {
      FullOffsetConstant(s, t, ms, j, i);
    } else if i < j {
      if k :| i < k < j && ms[k].IsAv() {
        FullOffsetConstant(s, t, ms, i, k);
        FullOffsetConstant(s, t, ms, k, j);
      } else {
        FullSuccessive(s, ms, i, j);
        FullSuccessive(t, ms, i, j);
        FullOutputsNonNegative(s, ms, i);
        FullOutputsNonNegative(t, ms, i);
      }
    }
  }

  /**
   ZERO subtracts the first timestamp from every later one, as long as that timestamp is not the
   value -1 that the corrector also uses for "not started".
   */
  lemma {:induction false} ZeroSubtractsFirst(base: int, ms: seq<Message>, i: nat)
    requires base != -1
    requires i < |ms|
    ensures Run(State(0, base), ms, Zero).1[i] == ms[i].(timestamp := ms[i].timestamp - base)
  {
    if i > 0 {
      ZeroSubtractsFirst(base, ms[1..], i - 1);
    }
  }

  lemma ZeroStartsAtZeroIff(ms: seq<Message>)
    requires |ms| > 0
    ensures (forall i | 0 <= i < |ms| :: Run(Initial, ms, Zero).1[i].timestamp == ms[i].timestamp - ms[0].timestamp)
       <==> ms[0].timestamp != -1 || forall i | 0 <= i < |ms| :: ms[i].timestamp == -1
  {
    var out := Run(Initial, ms, Zero).1;
    var first := ms[0].timestamp;
    if first != -1 {
      forall i | 0 <= i < |ms| ensures out[i].timestamp == ms[i].timestamp - first {
        if i > 0 {
          ZeroSubtractsFirst(first, ms[1..], i - 1);
          assert ms[1..][i - 1] == ms[i];
        }
      }
    } else {
      ZeroFromSentinel(ms);
    }
  }

  /** From the sentinel, messages stamped -1 are stamped 0 and leave the corrector unstarted. */
  lemma {:induction false} ZeroFromSentinel(ms: seq<Message>)
    requires |ms| > 0
    ensures var out := Run(Initial, ms, Zero).1;
      (forall i | 0 <= i < |ms| :: out[i].timestamp == ms[i].timestamp + 1)
      <==> forall i | 0 <= i < |ms| :: ms[i].timestamp == -1
  {
    var out := Run(Initial, ms, Zero).1;
    assert out[0].timestamp == 0;
    if ms[0].timestamp == -1 && |ms| > 1 {
      var rest := ms[1..];
      ZeroFromSentinel(rest);
      assert out[1..] == Run(Initial, rest, Zero).1;
      assert forall i | 1 <= i < |ms| :: out[i] == out[1..][i - 1] && ms[i] == rest[i - 1];
    }
  }

  // ----- order under OFF and ZERO -----

  lemma {:induction false} OffChangesNothing(s: State, ms: seq<Message>)
    ensures Run(s, ms, Off).1 == ms
    decreases ms
  {
    if ms != [] {
      OffChangesNothing(s, ms[1..]);
    }
  }

  /** How many messages at the front are stamped -1 and leave ZERO without a base. */
  function Leading(ms: seq<Message>): (k: nat)
    ensures k <= |ms|
    ensures k < |ms| ==> ms[k].timestamp != -1
    ensures forall i | 0 <= i < k :: ms[i].timestamp == -1
  {
    if ms == [] || ms[0].timestamp != -1 then 0 else 1 + Leading(ms[1..])
  }

  lemma {:induction false} ZeroFromLeading(ms: seq<Message>, i: nat)
    requires i < |ms|
    ensures var k := Leading(ms);
      Run(Initial, ms, Zero).1[i] == ms[i].(timestamp := if i < k then 0 else ms[i].timestamp - ms[k].timestamp)
    decreases ms
  {
    if ms[0].timestamp != -1 {
      if i > 0 {
        ZeroSubtractsFirst(ms[0].timestamp, ms[1..], i - 1);
      }
    } else if i > 0 {
      ZeroFromLeading(ms[1..], i - 1);
    }
  }

  /**
   The message that gives ZERO its base may be metadata. Its time is not later than audio/video
   behind it, or no audio/video came before it.
   */
  predicate BaseNotLate(ms: seq<Message>) {
    var k := Leading(ms);
    || (forall i | 0 <= i < k :: !ms[i].IsAv())
    || (forall j | k <= j < |ms| && ms[j].IsAv() :: ms[k].timestamp <= ms[j].timestamp)
  }

  /** ZERO keeps nondecreasing audio/video nondecreasing exactly under that condition. */
  lemma ZeroMonotoneIff(ms: seq<Message>)
    requires Nondecreasing(ms)
    ensures Nondecreasing(Run(Initial, ms, Zero).1) <==> BaseNotLate(ms)
  {
    var k, out := Leading(ms), Run(Initial, ms, Zero).1;
    forall i | 0 <= i < |ms|
      ensures out[i] == ms[i].(timestamp := if i < k then 0 else ms[i].timestamp - ms[k].timestamp)
      ensures out[i].IsAv() <==> ms[i].IsAv()
    {
      ZeroFromLeading(ms, i);
    }
    if !BaseNotLate(ms) {
      var i :| 0 <= i < k && ms[i].IsAv();
      var j :| k <= j < |ms| && ms[j].IsAv() && ms[k].timestamp > ms[j].timestamp;
      assert out[i].timestamp == 0 && out[j].timestamp < 0;
    }
  }

  // ----- one input each -----

  lemma RunFirst(s: State, m: Message, rest: seq<Message>, ag: Algorithm)
    ensures var (s1, out) := Corrected(s, m, ag); Run(s, [m] + rest, ag).1 == [out] + Run(s1, rest, ag).1
  {
    hide Corrected;
    assert ([m] + rest)[1..] == rest;
  }

  lemma RunOfThree(s: State, a: Message, b: Message, c: Message, ag: Algorithm)
    ensures var (s1, x) := Corrected(s, a, ag);
      var (s2, y) := Corrected(s1, b, ag);
      Run(s, [a, b, c], ag).1 == [x, y, Corrected(s2, c, ag).1]
  {
    hide Corrected;
    var s1 := Corrected(s, a, ag).0;
    RunFirst(s, a, [b, c], ag);
    RunFirst(s1, b, [c], ag);
    RunFirst(Corrected(s1, b, ag).0, c, [], ag);
    assert [a] + [b, c] == [a, b, c] && [b] + [c] == [b, c] && [c] + [] == [c];
  }

  /** FULL: audio at 1000, 1010 and 1000 again comes out at 9, 19 and 9. */
  lemma FullCanGoBackward(b: nat)
    ensures var at := t => Message(Audio, b, [], t);
      Run(Initial, [at(1000), at(1010), at(1000)], Full).1 == [at(9), at(19), at(9)]
  {
    RunOfThree(Initial, Message(Audio, b, [], 1000), Message(Audio, b, [], 1010), Message(Audio, b, [], 1000), Full);
  }

  /**
   ZERO: a first message at -1 leaves the corrector without a base, and the next one gives it another.
   A publisher's own times are never negative, but the time of a sub-message of an aggregate can be -1
   when it is not the leading one. So this takes an aggregate, and for a consumer that was there before
   it one whose leading sub-message is neither audio nor video.
   */
  lemma ZeroCanRestart(b: nat)
    ensures var at := t => Message(Audio, b, [], t);
      Run(Initial, [at(-1), at(40), at(80)], Zero).1 == [at(0), at(0), at(40)]
  {
    RunOfThree(Initial, Message(Audio, b, [], -1), Message(Audio, b, [], 40), Message(Audio, b, [], 80), Zero);
  }

  /** ZERO: metadata that gives the base after audio at -1 sends the next audio below zero. */
  lemma ZeroCanGoBackward(b: nat)
    ensures var at := t => Message(Audio, b, [], t);
      Run(Initial, [at(-1), Message(Data, b, [], 100), at(5)], Zero).1 == [at(0), Message(Data, b, [], 0), at(-95)]
  {
    RunOfThree(Initial, Message(Audio, b, [], -1), Message(Data, b, [], 100), Message(Audio, b, [], 5), Zero);
  }
}
