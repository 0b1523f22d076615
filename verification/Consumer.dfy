/** A play client of a source: a timestamp corrector in front of a bounded queue. */
module Consumers {
  import opened Messages
  import opened Jitter
  import MQ = MessageQueues

  datatype ConsumerState = ConsumerState(jitter: State, log: MQ.Ledger, paused: bool)

  /** A message as the source offers it to its consumers, with the atc flag in force. */
  datatype Offer = Offer(m: Message, atc: bool)

  const FreshConsumer := ConsumerState(Initial, MQ.Fresh, false)

  /** The copy that is queued, and the corrector after it. */
  function Fixed(c: ConsumerState, o: Offer, ag: Algorithm): (State, Message) {
    if o.atc then (c.jitter, o.m) else Corrected(c.jitter, o.m, ag)
  }

  function Feed(c: ConsumerState, o: Offer, ag: Algorithm): ConsumerState {
    var (j, fixed) := Fixed(c, o, ag);
    c.(jitter := j, log := MQ.Apply(c.log, MQ.Enqueue(fixed)))
  }

  /** Queueing the offer returns. */
  predicate Takes(c: ConsumerState, o: Offer, ag: Algorithm) {
    MQ.Ends(c.log.q, Fixed(c, o, ag).1)
  }

  /** A queue length that never keeps an enqueue from returning. */
  predicate Bounded(c: ConsumerState) {
    c.log.q.sizeMs >= 0
  }

  lemma BoundedTakes(c: ConsumerState, o: Offer, ag: Algorithm)
    requires Bounded(c)
    ensures Takes(c, o, ag)
  {
  }

  /** Feeding does not change the length. */
  lemma FeedBounded(c: ConsumerState, o: Offer, ag: Algorithm)
    ensures Bounded(Feed(c, o, ag)) <==> Bounded(c)
  {
    hide MQ.Kept, MQ.Dropped;
  }

  lemma {:induction false} FeedAllBounded(c: ConsumerState, os: seq<Offer>, ag: Algorithm)
    ensures Bounded(FeedAll(c, os, ag)) <==> Bounded(c)
    decreases os
  {
    hide Feed, Bounded;
    if os != [] {
      FeedBounded(c, os[0], ag);
      FeedAllBounded(Feed(c, os[0], ag), os[1..], ag);
    }
  }

  function FeedAll(c: ConsumerState, os: seq<Offer>, ag: Algorithm): ConsumerState
    decreases os
  {
    if os == [] then c else FeedAll(Feed(c, os[0], ag), os[1..], ag)
  }

  lemma {:induction false} FeedAllConcat(c: ConsumerState, a: seq<Offer>, b: seq<Offer>, ag: Algorithm)
    ensures FeedAll(c, a + b, ag) == FeedAll(FeedAll(c, a, ag), b, ag)
    decreases a
  {
    if a == [] {
      assert a + b == b;
    } else {
      assert (a + b)[1..] == a[1..] + b;
      FeedAllConcat(Feed(c, a[0], ag), a[1..], b, ag);
    }
  }

  /** How many messages a dump asks the queue for: the requested count, or the whole array. */
  function DumpMax(count: nat, capacity: nat): nat {
    if count == 0 || capacity < count then capacity else count
  }

  class Consumer {
    const jitter: RtmpJitter
    const queue: MQ.MessageQueue
    var paused: bool

    ghost var Repr: set<object>

    ghost predicate Valid()
      reads this, Repr
      ensures Valid() ==> this in Repr
    {
      && this in Repr && jitter in Repr && queue in Repr && queue.msgs in Repr
      && Repr == {this, jitter} + queue.Repr()
      && queue.Valid()
    }

    ghost function View(): ConsumerState
      requires Valid()
      reads this, Repr
    {
      ConsumerState(jitter.View(), queue.View(), paused)
    }

    constructor ()
      ensures Valid() && fresh(Repr) && View() == FreshConsumer
    {
      paused := false;
      jitter := new RtmpJitter();
      queue := new MQ.MessageQueue();
      new;
      Repr := {this, jitter} + queue.Repr();
    }

    method SetQueueSize(ms: int)
      requires Valid()
      modifies Repr
      ensures Valid() && Repr == old(Repr)
      ensures View() == old(View()).(log := MQ.Apply(old(View()).log, MQ.SetSize(ms)))
    {
      queue.SetQueueSize(ms);
    }

    method OnPlayClientPause(isPause: bool)
      requires Valid()
      modifies Repr
      ensures Valid() && Repr == old(Repr) && View() == old(View()).(paused := isPause)
    {
      paused := isPause;
    }

    /** Copies the shared message, corrects the copy unless atc is on, and queues it. */
    method Enqueue(shared: Message, atc: bool, ag: Algorithm)
      requires Valid() && Takes(View(), Offer(shared, atc), ag)
      modifies Repr
      ensures Valid() && fresh(Repr - old(Repr))
      ensures View() == Feed(old(View()), Offer(shared, atc), ag)
    {
      hide MQ.Apply, MQ.Ends, Corrected;
      var msg := shared;
      if !atc {
        msg := jitter.Correct(msg, ag);
      }
      queue.Enqueue(msg);
      Repr := {this, jitter} + queue.Repr();
    }

    /** Hands queued messages to the sender; nothing while the client is paused. */
    method DumpPackets(msgs: array<Message>, wanted: nat) returns (count: nat)
      requires Valid() && msgs !in Repr && msgs.Length > 0
      modifies Repr, msgs
      ensures Valid() && Repr == old(Repr)
      ensures var was := old(View()).log; var max := DumpMax(wanted, msgs.Length);
        if old(paused) then
          count == 0 && View() == old(View())
        else
          && count == MQ.DumpCount(was.q, max)
          && msgs[..count] == was.q.msgs[..count]
          && View() == old(View()).(log := MQ.Apply(was, MQ.Dump(max)))
    {
      var max := if wanted != 0 then (if wanted < msgs.Length then wanted else msgs.Length) else msgs.Length;
      count := 0;
      if paused {
        return;
      }
      count := queue.DumpPackets(max, msgs);
    }
  }

  // ----- what a client is handed over its whole life -----

  datatype Event =
    | Offered(m: Message)
    | Asked(wanted: nat, capacity: nat)
    | Paused(on: bool)
    | Resized(ms: int)

  /** One event at a consumer of a source with these settings. */
  function Step(c: ConsumerState, e: Event, atc: bool, ag: Algorithm): ConsumerState {
    match e
    case Offered(m) => Feed(c, Offer(m, atc), ag)
    case Asked(wanted, capacity) =>
      if c.paused then c else c.(log := MQ.Apply(c.log, MQ.Dump(DumpMax(wanted, capacity))))
    case Paused(on) => c.(paused := on)
    case Resized(ms) => c.(log := MQ.Apply(c.log, MQ.SetSize(ms)))
  }

  function Life(c: ConsumerState, es: seq<Event>, atc: bool, ag: Algorithm): ConsumerState
    decreases es
  {
    if es == [] then c else Life(Step(c, es[0], atc, ag), es[1..], atc, ag)
  }

  /**
   What a client gets when it asks: nothing while it is paused, and otherwise the front of the queue, as
   much as there is, or the array holds, or it asked for, where 0 asks for everything.
   */
  lemma AskedGets(c: ConsumerState, wanted: nat, capacity: nat, atc: bool, ag: Algorithm) returns (n: nat)
    requires capacity > 0
    ensures var c1 := Step(c, Asked(wanted, capacity), atc, ag);
      if c.paused then c1 == c
      else
        && n <= |c.log.q.msgs| && n <= capacity && (wanted > 0 ==> n <= wanted)
        && (n == |c.log.q.msgs| || n == capacity || (wanted > 0 && n == wanted))
        && c1.log.delivered == c.log.delivered + c.log.q.msgs[..n] && c1.log.q.msgs == c.log.q.msgs[n..]
  {
    n := MQ.DumpCount(c.log.q, DumpMax(wanted, capacity));
    if c.log.q.msgs == [] {
      assert c.log.delivered + [] == c.log.delivered;
    }
  }

  /** A consumer starts with nothing, and listening. */
  lemma StartsListening()
    ensures !FreshConsumer.paused && FreshConsumer.log.Output() == []
  {
  }

  function OfferedIn(es: seq<Event>): seq<Message> {
    if es == [] then []
    else if es[0].Offered? then [es[0].m] + OfferedIn(es[1..])
    else OfferedIn(es[1..])
  }

  /** What enters the queue when `ms` is offered to a corrector in this state. */
  function Stamped(s: State, ms: seq<Message>, atc: bool, ag: Algorithm): seq<Message> {
    if atc then ms else Run(s, ms, ag).1
  }

  // ----- the queue keeps the order of what enters it -----

  /** The time of the last audio/video message. */
  function LastTime(s: seq<Message>): Option<int> {
    if s == [] then None
    else if s[|s| - 1].IsAv() then Some(s[|s| - 1].timestamp)
    else LastTime(s[..|s| - 1])
  }

  predicate NotAfter(s: seq<Message>, t: Option<int>) {
    forall m | m in s && m.IsAv() :: t.Some? && m.timestamp <= t.value
  }

  /** Everything handed out or queued is in order, and not after the last message that entered. */
  predicate InOrder(l: MQ.Ledger) {
    var t := LastTime(l.enqueued);
    && (t.Some? ==> l.q.avEnd == t.value)
    && Nondecreasing(l.Output()) && NotAfter(l.Output(), t)
  }

  lemma LastTimeNext(s: seq<Message>, m: Message)
    ensures LastTime(s + [m]) == if m.IsAv() then Some(m.timestamp) else LastTime(s)
  {
    assert (s + [m])[..|s|] == s;
  }

  lemma {:induction false} LastTimeIsOne(s: seq<Message>)
    ensures LastTime(s).Some? ==> exists m :: m in s && m.IsAv() && m.timestamp == LastTime(s).value
  {
    if s != [] {
      if s[|s| - 1].IsAv() {
        assert s[|s| - 1] in s;
      } else {
        LastTimeIsOne(s[..|s| - 1]);
      }
    }
  }

  /** In a nondecreasing sequence the newest audio/video message is not earlier than the last one before. */
  lemma NewestNotEarlier(s: seq<Message>, m: Message)
    requires Nondecreasing(s + [m]) && m.IsAv() && LastTime(s).Some?
    ensures LastTime(s).value <= m.timestamp
  {
    LastTimeIsOne(s);
    var x :| x in s && x.IsAv() && x.timestamp == LastTime(s).value;
    var i :| 0 <= i < |s| && s[i] == x;
    assert (s + [m])[i] == x && (s + [m])[|s|] == m;
  }

  /** Messages of time `t` may follow messages that are not after it. */
  lemma NondecreasingAppend(a: seq<Message>, b: seq<Message>, t: Option<int>)
    requires Nondecreasing(a) && NotAfter(a, t)
    requires forall m | m in b && m.IsAv() :: t == Some(m.timestamp)
    ensures Nondecreasing(a + b) && NotAfter(a + b, t)
  {
    var s := a + b;
    forall i, j | 0 <= i < j < |s| && s[i].IsAv() && s[j].IsAv() ensures s[i].timestamp <= s[j].timestamp {
      assert j < |a| || s[j] in b;
      assert i >= |a| ==> s[i] in b;
      assert i < |a| ==> s[i] in a;
    }
  }

  lemma NondecreasingPrefix(s: seq<Message>, n: nat)
    requires n <= |s| && Nondecreasing(s)
    ensures Nondecreasing(s[..n])
  {
    forall i, j | 0 <= i < j < n && s[..n][i].IsAv() && s[..n][j].IsAv()
      ensures s[..n][i].timestamp <= s[..n][j].timestamp
    {
      assert s[..n][i] == s[i] && s[..n][j] == s[j];
    }
  }

  lemma NotAfterPrefix(a: seq<Message>, b: seq<Message>, t: Option<int>, u: Option<int>)
    requires NotAfter(a + b, t) && (t.Some? ==> u.Some? && t.value <= u.value)
    ensures NotAfter(a, u)
  {
    assert forall m | m in a :: m in a + b;
  }

  /** The headers that shrinking keeps are stamped with the end time. */
  lemma KeptStamps(s: seq<Message>, t: int)
    ensures forall m | m in MQ.Kept(s, t) :: m.IsAv() && m.timestamp == t
    ensures MQ.Kept(s, t) != [] ==> exists m :: m in s && m.IsAv()
  {
    MQ.LastHeaderIsHeader(Video, s);
    MQ.LastHeaderIsHeader(Audio, s);
    hide VideoSh, AudioSh, MQ.LastHeader;
  }

  lemma AppendKeepsOrder(l: MQ.Ledger, m: Message)
    requires InOrder(l) && Nondecreasing(l.enqueued + [m])
    ensures var t := LastTime(l.enqueued + [m]);
      && Nondecreasing(l.Output() + [m]) && NotAfter(l.Output() + [m], t)
      && NotAfter(l.Output(), t)
      && (t.Some? ==> MQ.Appended(l.q, m).avEnd == t.value)
  {
    hide LastTime, Nondecreasing, NotAfter;
    var t := LastTime(l.enqueued + [m]);
    LastTimeNext(l.enqueued, m);
    if m.IsAv() && LastTime(l.enqueued).Some? {
      NewestNotEarlier(l.enqueued, m);
    }
    assert l.Output() + [] == l.Output();
    NotAfterPrefix(l.Output(), [], LastTime(l.enqueued), t);
    NondecreasingAppend(l.Output(), [m], t);
  }

  lemma EnqueueKeepsOrder(l: MQ.Ledger, m: Message)
    requires InOrder(l) && Nondecreasing(l.enqueued + [m])
    ensures InOrder(MQ.Apply(l, MQ.Enqueue(m)))
  {
    AppendKeepsOrder(l, m);
    hide LastTime, Nondecreasing, NotAfter, MQ.Kept, MQ.Dropped, MQ.TooLong;
    var all := l.q.msgs + [m];
    assert l.Output() + [m] == l.delivered + all;
    if MQ.Overflows(l.q, m) {
      ShrinkKeepsOrder(l.delivered, all, LastTime(l.enqueued + [m]), MQ.Appended(l.q, m).avEnd);
    }
  }

  lemma ShrinkKeepsOrder(delivered: seq<Message>, all: seq<Message>, t: Option<int>, end: int)
    requires Nondecreasing(delivered + all) && NotAfter(delivered + all, t) && (t.Some? ==> end == t.value)
    ensures Nondecreasing(delivered + MQ.Kept(all, end)) && NotAfter(delivered + MQ.Kept(all, end), t)
  {
    hide Nondecreasing, NotAfter, MQ.Kept;
    KeptStamps(all, end);
    NondecreasingPrefix(delivered + all, |delivered|);
    assert (delivered + all)[..|delivered|] == delivered;
    NotAfterPrefix(delivered, all, t, t);
    SomeAvHasTime(delivered + all, all, t);
    NondecreasingAppend(delivered, MQ.Kept(all, end), t);
  }

  lemma SomeAvHasTime(s: seq<Message>, part: seq<Message>, t: Option<int>)
    requires NotAfter(s, t) && forall m | m in part :: m in s
    ensures (exists m :: m in part && m.IsAv()) ==> t.Some?
  {
  }

  // ----- whole lives -----

  lemma StampedNothing(s: State, atc: bool, ag: Algorithm)
    ensures Stamped(s, [], atc, ag) == []
  {
  }

  lemma StampedFirst(c: ConsumerState, m: Message, rest: seq<Message>, atc: bool, ag: Algorithm)
    ensures var (j, fixed) := Fixed(c, Offer(m, atc), ag);
      Stamped(c.jitter, [m] + rest, atc, ag) == [fixed] + Stamped(j, rest, atc, ag)
  {
    hide Corrected;
    assert ([m] + rest)[1..] == rest;
  }

  /** What has entered the queue is the stamped form of what was offered. */
  lemma {:induction false} LifeEnqueues(c: ConsumerState, es: seq<Event>, atc: bool, ag: Algorithm)
    ensures Life(c, es, atc, ag).log.enqueued == c.log.enqueued + Stamped(c.jitter, OfferedIn(es), atc, ag)
    decreases es
  {
    hide MQ.Enqueued, MQ.Dropped, MQ.Overflows, Corrected, Stamped;
    if es == [] {
      StampedNothing(c.jitter, atc, ag);
    } else {
      var c1 := Step(c, es[0], atc, ag);
      LifeEnqueues(c1, es[1..], atc, ag);
      if es[0].Offered? {
        var m, rest := es[0].m, OfferedIn(es[1..]);
        var fixed := Fixed(c, Offer(m, atc), ag).1;
        StampedFirst(c, m, rest, atc, ag);
        assert c.log.enqueued + ([fixed] + Stamped(c1.jitter, rest, atc, ag))
            == c.log.enqueued + [fixed] + Stamped(c1.jitter, rest, atc, ag);
      }
    }
  }

  lemma {:induction false} LifeKeepsOrder(c: ConsumerState, es: seq<Event>, atc: bool, ag: Algorithm)
    requires InOrder(c.log) && Nondecreasing(Life(c, es, atc, ag).log.enqueued)
    ensures InOrder(Life(c, es, atc, ag).log)
    decreases es
  {
    hide LastTime, Nondecreasing, NotAfter, MQ.Enqueued, MQ.Dropped, MQ.Overflows, Corrected, Stamped;
    if es != [] {
      var c1 := Step(c, es[0], atc, ag);
      LifeEnqueues(c1, es[1..], atc, ag);
      if es[0].Offered? {
        var last := Life(c, es, atc, ag).log.enqueued;
        NondecreasingPrefix(last, |c1.log.enqueued|);
        assert last[..|c1.log.enqueued|] == c1.log.enqueued;
        EnqueueKeepsOrder(c.log, Fixed(c, Offer(es[0].m, atc), ag).1);
      } else {
        assert c1.log.Output() == c.log.Output() by { QuietKeepsOutput(c, es[0], atc, ag); }
        assert InOrder(c1.log);
      }
      LifeKeepsOrder(c1, es[1..], atc, ag);
    }
  }

  lemma QuietKeepsOutput(c: ConsumerState, e: Event, atc: bool, ag: Algorithm)
    requires !e.Offered?
    ensures var l := Step(c, e, atc, ag).log;
      l.Output() == c.log.Output() && l.enqueued == c.log.enqueued && l.q.avEnd == c.log.q.avEnd
  {
  }

  /** Correction keeps nondecreasing input nondecreasing, for ZERO under its own condition. */
  lemma StampedInOrder(ms: seq<Message>, atc: bool, ag: Algorithm)
    requires Nondecreasing(ms) && (ag == Zero && !atc ==> BaseNotLate(ms))
    ensures Nondecreasing(Stamped(Initial, ms, atc, ag))
  {
    if !atc {
      match ag {
        case Off => OffChangesNothing(Initial, ms);
        case Zero => ZeroMonotoneIff(ms);
        case Full => FullMonotone(Initial, ms);
      }
    }
  }

  /**
   A client of a source that sends nondecreasing audio/video is handed nondecreasing audio/video,
   through every interleaving of offers, dumps, pauses and size changes, however often its queue
   overflowed and re-stamped the kept codec headers, with and without atc and for every correction;
   for ZERO, when the first time other than -1 is not later than audio/video behind it.
   */
  lemma DeliveryMonotone(es: seq<Event>, atc: bool, ag: Algorithm)
    requires Nondecreasing(OfferedIn(es)) && (ag == Zero && !atc ==> BaseNotLate(OfferedIn(es)))
    ensures Nondecreasing(Life(FreshConsumer, es, atc, ag).log.delivered)
  {
    hide Nondecreasing, BaseNotLate, Stamped;
    LifeEnqueues(FreshConsumer, es, atc, ag);
    StampedInOrder(OfferedIn(es), atc, ag);
    assert [] + Stamped(Initial, OfferedIn(es), atc, ag) == Stamped(Initial, OfferedIn(es), atc, ag);
    FreshInOrder();
    LifeKeepsOrder(FreshConsumer, es, atc, ag);
    var log := Life(FreshConsumer, es, atc, ag).log;
    NondecreasingPrefix(log.Output(), |log.delivered|);
    assert log.Output()[..|log.delivered|] == log.delivered;
  }

  lemma FreshInOrder()
    ensures InOrder(FreshConsumer.log)
  {
  }
}
