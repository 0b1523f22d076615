/**
 The bounded queue between the source and one client.

 `Queue` is the value of a queue; `Ledger` adds everything that ever happened to the messages it was
 given. The class at the end of the file is proved against the functions on them.
 */
module MessageQueues {
  import opened Messages
  import opened FastVectors

  datatype Queue = Queue(msgs: seq<Message>, avStart: int, avEnd: int, sizeMs: int)

  predicate IsHeaderOf(k: Kind, m: Message) {
    match k
    case Video => m.IsVideoHeader()
    case Audio => m.IsAudioHeader()
    case Data => false
  }

  /** The most recent codec header of kind `k`. */
  function LastHeader(k: Kind, s: seq<Message>): Option<Message> {
    if s == [] then None
    else if IsHeaderOf(k, s[|s| - 1]) then Some(s[|s| - 1])
    else LastHeader(k, s[..|s| - 1])
  }

  function Stamped(h: Option<Message>, t: int): seq<Message> {
    if h.None? then [] else [h.value.(timestamp := t)]
  }

  /** What shrinking keeps: the last header of each kind, video first, at the current end time. */
  function Kept(s: seq<Message>, t: int): seq<Message> {
    Stamped(LastHeader(Video, s), t) + Stamped(LastHeader(Audio, s), t)
  }

  function Shrunk(q: Queue): Queue {
    Queue(Kept(q.msgs, q.avEnd), q.avEnd, q.avEnd, q.sizeMs)
  }

  /** The queue after the message is appended and before the overflow test. */
  function Appended(q: Queue, m: Message): Queue {
    if m.IsAv() then
      Queue(q.msgs + [m], if q.avStart == -1 then m.timestamp else q.avStart, m.timestamp, q.sizeMs)
    else
      q.(msgs := q.msgs + [m])
  }

  /** What the overflow loop tests. */
  predicate TooLong(q: Queue) {
    q.avEnd - q.avStart > q.sizeMs
  }

  predicate Overflows(q: Queue, m: Message) {
    TooLong(Appended(q, m))
  }

  function Enqueued(q: Queue, m: Message): Queue {
    if Overflows(q, m) then Shrunk(Appended(q, m)) else Appended(q, m)
  }

  function DumpCount(q: Queue, max: nat): nat {
    if max < |q.msgs| then max else |q.msgs|
  }

  function Dumped(q: Queue, max: nat): Queue
    requires q.msgs != [] ==> max > 0
  {
    if q.msgs == [] then q
    else
      var n := DumpCount(q, max);
      q.(msgs := q.msgs[n..], avStart := q.msgs[n - 1].timestamp)
  }

  function Cleared(q: Queue): Queue {
    Queue([], -1, -1, q.sizeMs)
  }

  // ----- the ledger: where every message went -----

  /** The messages of a sequence as a bag, ignoring the timestamps that shrinking rewrites. */
  function Bodies(s: seq<Message>): multiset<Message> {
    if s == [] then multiset{} else Bodies(s[..|s| - 1]) + multiset{s[|s| - 1].Body()}
  }

  /** The message object a header variable owns. */
  function Owned(h: Option<Message>): multiset<Message> {
    if h.None? then multiset{} else multiset{h.value.Body()}
  }

  /** What shrinking frees: every frame, and every header that a later one of its kind replaced. */
  function Dropped(s: seq<Message>): multiset<Message> {
    if s == [] then multiset{}
    else
      Dropped(s[..|s| - 1]) + DroppedFor(s[..|s| - 1], s[|s| - 1])
  }

  /** What the arrival of `m` after `front` sets free: the header it replaces, or else itself. */
  function DroppedFor(front: seq<Message>, m: Message): multiset<Message> {
    if m.IsVideoHeader() then Owned(LastHeader(Video, front))
    else if m.IsAudioHeader() then Owned(LastHeader(Audio, front))
    else multiset{m.Body()}
  }

  datatype Ledger = Ledger(q: Queue, enqueued: seq<Message>, delivered: seq<Message>, freed: multiset<Message>)
  {
    /** Everything the client has been handed and will be handed if nothing more happens. */
    function Output(): seq<Message> {
      delivered + q.msgs
    }
  }

  datatype Op = Enqueue(m: Message) | Dump(max: nat) | SetSize(ms: int) | Clear

  function Apply(l: Ledger, op: Op): Ledger
  {
    match op
    case Enqueue(m) =>
      Ledger(Enqueued(l.q, m), l.enqueued + [m], l.delivered,
             l.freed + if Overflows(l.q, m) then Dropped(l.q.msgs + [m]) else multiset{})
    case Dump(max) =>
      if l.q.msgs == [] || max == 0 then l
      else l.(q := Dumped(l.q, max), delivered := l.delivered + l.q.msgs[..DumpCount(l.q, max)])
    case SetSize(ms) => l.(q := l.q.(sizeMs := ms))
    case Clear => l.(q := Cleared(l.q), freed := l.freed + Bodies(l.q.msgs))
  }

  function Run(l: Ledger, ops: seq<Op>): Ledger
    decreases ops
  {
    if ops == [] then l else Run(Apply(l, ops[0]), ops[1..])
  }

  const Fresh := Ledger(Queue([], -1, -1, 0), [], [], multiset{})

  // ----- ownership -----

  lemma {:induction false} BodiesConcat(a: seq<Message>, b: seq<Message>)
    ensures Bodies(a + b) == Bodies(a) + Bodies(b)
  {
    if b == [] {
      assert a + b == a;
    } else {
      assert (a + b)[..|a + b| - 1] == a + b[..|b| - 1];
      BodiesConcat(a, b[..|b| - 1]);
    }
  }

  /** One round of the shrink loop, given what was freed before the loop. */
  lemma ShrinkStep(s: seq<Message>, i: nat, freed: multiset<Message>)
    requires i < |s|
    ensures LastHeader(Video, s[..i + 1]) == if s[i].IsVideoHeader() then Some(s[i]) else LastHeader(Video, s[..i])
    ensures LastHeader(Audio, s[..i + 1]) == if s[i].IsAudioHeader() then Some(s[i]) else LastHeader(Audio, s[..i])
    ensures freed + Dropped(s[..i + 1]) == freed + Dropped(s[..i]) + DroppedFor(s[..i], s[i])
  {
    assert s[..i + 1][..i] == s[..i];
  }

  lemma KeptBodies(s: seq<Message>, t: int)
    ensures Bodies(Kept(s, t)) == Owned(LastHeader(Video, s)) + Owned(LastHeader(Audio, s))
  {
    var v, a := Stamped(LastHeader(Video, s), t), Stamped(LastHeader(Audio, s), t);
    BodiesConcat(v, a);
    assert v != [] ==> v[..0] == [];
    assert a != [] ==> a[..0] == [];
  }

  lemma Rearrange<T>(all: multiset<T>, v: multiset<T>, a: multiset<T>, d: multiset<T>, m: multiset<T>)
    requires all == v + a + d
    ensures all + m == m + a + (d + v)
    ensures all + m == v + m + (d + a)
    ensures all + m == v + a + (d + m)
  {
  }

  lemma {:induction false} OwnedOrDropped(s: seq<Message>)
    ensures Bodies(s) == Owned(LastHeader(Video, s)) + Owned(LastHeader(Audio, s)) + Dropped(s)
  {
    if s != [] {
      var front, m := s[..|s| - 1], s[|s| - 1];
      OwnedOrDropped(front);
      Rearrange(Bodies(front), Owned(LastHeader(Video, front)), Owned(LastHeader(Audio, front)), Dropped(front),
                multiset{m.Body()});
    }
  }

  /** Shrinking splits the queue: each message is either kept or freed, never both, never neither. */
  lemma ShrinkSplits(s: seq<Message>, t: int)
    ensures Bodies(s) == Bodies(Kept(s, t)) + Dropped(s)
  {
    OwnedOrDropped(s);
    KeptBodies(s, t);
  }

  /** Every message ever enqueued is exactly one of: delivered, still queued, freed. */
  predicate Conserved(l: Ledger) {
    Bodies(l.enqueued) == Bodies(l.delivered) + Bodies(l.q.msgs) + l.freed
  }

  lemma EnqueueConserves(l: Ledger, m: Message)
    requires Conserved(l)
    ensures Conserved(Apply(l, Enqueue(m)))
  {
    hide VideoSh, AudioSh, Kept, Dropped;
    BodiesConcat(l.enqueued, [m]);
    BodiesConcat(l.q.msgs, [m]);
    if Overflows(l.q, m) {
      ShrinkSplits(l.q.msgs + [m], Appended(l.q, m).avEnd);
    }
  }

  lemma DumpConserves(l: Ledger, max: nat)
    requires Conserved(l)
    ensures Conserved(Apply(l, Dump(max)))
  {
    if l.q.msgs != [] && max > 0 {
      var n := DumpCount(l.q, max);
      assert l.q.msgs == l.q.msgs[..n] + l.q.msgs[n..];
      BodiesConcat(l.q.msgs[..n], l.q.msgs[n..]);
      BodiesConcat(l.delivered, l.q.msgs[..n]);
    }
  }

  lemma ClearConserves(l: Ledger)
    requires Conserved(l)
    ensures Conserved(Apply(l, Clear))
  {
    hide VideoSh, AudioSh;
  }

  lemma {:induction false} OwnershipConserved(l: Ledger, ops: seq<Op>)
    requires Conserved(l)
    ensures Conserved(Run(l, ops))
    decreases ops
  {
    hide VideoSh, AudioSh, Bodies, Enqueued, Dropped;
    if ops != [] {
      match ops[0] {
        case Enqueue(m) => EnqueueConserves(l, m);
        case Dump(max) => DumpConserves(l, max);
        case SetSize(_) =>
        case Clear => ClearConserves(l);
      }
      OwnershipConserved(Apply(l, ops[0]), ops[1..]);
    }
  }

  // ----- order -----

  /** No operation of the run shrinks or clears the queue. */
  predicate Lossless(l: Ledger, ops: seq<Op>)
    decreases ops
  {
    ops == [] ||
    (!ops[0].Clear? && (ops[0].Enqueue? ==> !Overflows(l.q, ops[0].m)) && Lossless(Apply(l, ops[0]), ops[1..]))
  }

  /** Without overflow the client gets exactly what was enqueued, in order, timestamps included. */
  lemma {:induction false} LosslessIsFifo(l: Ledger, ops: seq<Op>)
    requires l.Output() == l.enqueued
    requires Lossless(l, ops)
    ensures Run(l, ops).Output() == Run(l, ops).enqueued
    decreases ops
  {
    if ops != [] {
      LosslessIsFifo(Apply(l, ops[0]), ops[1..]);
    }
  }

  // ----- codec headers -----

  function BodyOf(h: Option<Message>): Option<Message> {
    if h.None? then None else Some(h.value.Body())
  }

  /** Each frame of `s` together with the codec header of kind `k` it has to be decoded with. */
  function Governed(k: Kind, s: seq<Message>): multiset<(Message, Option<Message>)> {
    if s == [] then multiset{}
    else
      var front, m := s[..|s| - 1], s[|s| - 1];
      Governed(k, front) +
      if m.IsHeader() then multiset{} else multiset{(m.Body(), BodyOf(LastHeader(k, front)))}
  }

  /**
   What a client sees of the codec headers is what was enqueued: the header in force at the end is
   the same, and no frame is handed out under any header but the one it was enqueued under.
   */
  predicate HeadersAgree(k: Kind, l: Ledger) {
    && BodyOf(LastHeader(k, l.Output())) == BodyOf(LastHeader(k, l.enqueued))
    && Governed(k, l.Output()) <= Governed(k, l.enqueued)
  }

  lemma {:induction false} LastHeaderConcat(k: Kind, a: seq<Message>, b: seq<Message>)
    ensures LastHeader(k, a + b) == if LastHeader(k, b).Some? then LastHeader(k, b) else LastHeader(k, a)
  {
    if b == [] {
      assert a + b == a;
    } else {
      assert (a + b)[..|a + b| - 1] == a + b[..|b| - 1];
      LastHeaderConcat(k, a, b[..|b| - 1]);
    }
  }

  lemma {:induction false} LastHeaderIsHeader(k: Kind, s: seq<Message>)
    ensures var h := LastHeader(k, s); h.Some? ==> h.value in s && IsHeaderOf(k, h.value)
  {
    if s != [] && !IsHeaderOf(k, s[|s| - 1]) {
      LastHeaderIsHeader(k, s[..|s| - 1]);
    }
  }

  lemma LastHeaderStamped(k: Kind, j: Kind, s: seq<Message>, t: int)
    requires j == Video || j == Audio
    ensures BodyOf(LastHeader(k, Stamped(LastHeader(j, s), t)))
         == if k == j then BodyOf(LastHeader(k, s)) else None
  {
    LastHeaderIsHeader(j, s);
    var st := Stamped(LastHeader(j, s), t);
    if st != [] {
      assert st[..0] == [];
    }
  }

  lemma LastHeaderKept(k: Kind, s: seq<Message>, t: int)
    requires k == Video || k == Audio
    ensures BodyOf(LastHeader(k, Kept(s, t))) == BodyOf(LastHeader(k, s))
    ensures forall m | m in Kept(s, t) :: m.IsHeader()
  {
    LastHeaderConcat(k, Stamped(LastHeader(Video, s), t), Stamped(LastHeader(Audio, s), t));
    LastHeaderStamped(k, Video, s, t);
    LastHeaderStamped(k, Audio, s, t);
    LastHeaderIsHeader(Video, s);
    LastHeaderIsHeader(Audio, s);
  }

  lemma {:induction false} GovernedPrefix(k: Kind, a: seq<Message>, b: seq<Message>)
    ensures Governed(k, a) <= Governed(k, a + b)
    ensures (forall m | m in b :: m.IsHeader()) ==> Governed(k, a) == Governed(k, a + b)
  {
    if b == [] {
      assert a + b == a;
    } else {
      var front := b[..|b| - 1];
      assert (a + b)[..|a + b| - 1] == a + front;
      assert b[|b| - 1] in b && forall m | m in front :: m in b;
      GovernedPrefix(k, a, front);
    }
  }

  /** Appending one message extends both sides of the agreement in the same way. */
  lemma GovernedSnoc(k: Kind, s: seq<Message>, m: Message)
    ensures Governed(k, s + [m]) == Governed(k, s) +
            if m.IsHeader() then multiset{} else multiset{(m.Body(), BodyOf(LastHeader(k, s)))}
    ensures LastHeader(k, s + [m]) == if IsHeaderOf(k, m) then Some(m) else LastHeader(k, s)
  {
    assert (s + [m])[..|s + [m]| - 1] == s;
  }

  /** Appending a message on both sides keeps the agreement. */
  lemma AppendKeepsHeaders(k: Kind, out: seq<Message>, enqueued: seq<Message>, m: Message)
    requires BodyOf(LastHeader(k, out)) == BodyOf(LastHeader(k, enqueued)) && Governed(k, out) <= Governed(k, enqueued)
    ensures BodyOf(LastHeader(k, out + [m])) == BodyOf(LastHeader(k, enqueued + [m]))
    ensures Governed(k, out + [m]) <= Governed(k, enqueued + [m])
  {
    hide Governed, LastHeader, IsHeaderOf;
    GovernedSnoc(k, enqueued, m);
    GovernedSnoc(k, out, m);
  }

  /** Shrinking what is queued loses no header in force and puts no frame under another one. */
  lemma ShrinkKeepsHeaders(k: Kind, delivered: seq<Message>, all: seq<Message>, t: int)
    requires k == Video || k == Audio
    ensures BodyOf(LastHeader(k, delivered + Kept(all, t))) == BodyOf(LastHeader(k, delivered + all))
    ensures Governed(k, delivered + Kept(all, t)) <= Governed(k, delivered + all)
  {
    hide Governed, LastHeader, Kept;
    var kept := Kept(all, t);
    LastHeaderKept(k, all, t);
    LastHeaderConcat(k, delivered, kept);
    LastHeaderConcat(k, delivered, all);
    GovernedPrefix(k, delivered, kept);
    GovernedPrefix(k, delivered, all);
  }

  lemma EnqueueKeepsHeaders(k: Kind, l: Ledger, m: Message)
    requires k == Video || k == Audio
    requires HeadersAgree(k, l)
    ensures HeadersAgree(k, Apply(l, Enqueue(m)))
  {
    hide Governed, LastHeader, Kept;
    var l1 := Apply(l, Enqueue(m));
    var all := l.q.msgs + [m];
    AppendKeepsHeaders(k, l.Output(), l.enqueued, m);
    assert l.Output() + [m] == l.delivered + all;
    if Overflows(l.q, m) {
      ShrinkKeepsHeaders(k, l.delivered, all, l1.q.avEnd);
    }
  }

  /**
   Codec headers survive overflow: in every run of enqueues and dumps, however often the queue
   shrank, the output agrees with the input on the codec headers of both kinds.
   */
  lemma {:induction false} HeadersSurvive(k: Kind, l: Ledger, ops: seq<Op>)
    requires k == Video || k == Audio
    requires HeadersAgree(k, l)
    requires forall op | op in ops :: !op.Clear?
    ensures HeadersAgree(k, Run(l, ops))
    decreases ops
  {
    if ops != [] {
      var l1 := Apply(l, ops[0]);
      assert ops[0] in ops;
      assert HeadersAgree(k, l1) by {
        match ops[0]
        case Enqueue(m) => EnqueueKeepsHeaders(k, l, m);
        case Dump(max) => assert l1.Output() == l.Output();
        case SetSize(_) =>
        case Clear =>
      }
      HeadersSurvive(k, l1, ops[1..]);
    }
  }

  /** The consequence read off the queue: the last header enqueued was handed out or is still queued. */
  lemma LastHeaderNotLost(k: Kind, ops: seq<Op>)
    requires k == Video || k == Audio
    requires forall op | op in ops :: !op.Clear?
    requires LastHeader(k, Run(Fresh, ops).enqueued).Some?
    ensures var l := Run(Fresh, ops);
      var h := LastHeader(k, l.enqueued).value.Body();
      exists m :: (m in l.delivered || m in l.q.msgs) && m.Body() == h
  {
    HeadersSurvive(k, Fresh, ops);
    var l := Run(Fresh, ops);
    LastHeaderIsHeader(k, l.Output());
    var m := LastHeader(k, l.Output()).value;
    assert m in l.delivered || m in l.q.msgs;
  }

  // ----- when a queue overflows -----

  function EnqueueAll(q: Queue, ms: seq<Message>): Queue
    decreases ms
  {
    if ms == [] then q else EnqueueAll(Enqueued(q, ms[0]), ms[1..])
  }

  /** None of these messages makes the queue shrink. */
  predicate Fits(q: Queue, ms: seq<Message>)
    decreases ms
  {
    ms != [] ==> !Overflows(q, ms[0]) && Fits(Enqueued(q, ms[0]), ms[1..])
  }

  lemma {:induction false} FittingKeepsStart(q: Queue, ms: seq<Message>)
    requires Fits(q, ms) && q.avStart != -1
    ensures EnqueueAll(q, ms).avStart == q.avStart && EnqueueAll(q, ms).sizeMs == q.sizeMs
    decreases ms
  {
    if ms != [] {
      FittingKeepsStart(Enqueued(q, ms[0]), ms[1..]);
    }
  }

  lemma OverflowsFrom(q: Queue, ms: seq<Message>, m: Message)
    requires Fits(q, ms) && q.avStart != -1 && m.IsAv()
    ensures Overflows(EnqueueAll(q, ms), m) <==> m.timestamp - q.avStart > q.sizeMs
  {
    FittingKeepsStart(q, ms);
  }

  /**
   When a queue overflows, in milliseconds of the stream: the time is counted from the first audio or
   video it was given, or from the last message handed out, or from where it overflowed last.
   */
  lemma OverflowsIff(size: int, first: Message, ms: seq<Message>, m: Message)
    requires size >= 0 && first.IsAv() && first.timestamp != -1 && m.IsAv()
    requires Fits(Enqueued(Queue([], -1, -1, size), first), ms)
    ensures Overflows(EnqueueAll(Enqueued(Queue([], -1, -1, size), first), ms), m) <==>
      m.timestamp - first.timestamp > size
  {
    OverflowsFrom(Enqueued(Queue([], -1, -1, size), first), ms, m);
  }

  lemma OverflowsAfterDumpIff(q: Queue, max: nat, ms: seq<Message>, m: Message)
    requires q.msgs != [] && max > 0 && m.IsAv()
    requires q.msgs[DumpCount(q, max) - 1].timestamp != -1 && Fits(Dumped(q, max), ms)
    ensures Overflows(EnqueueAll(Dumped(q, max), ms), m) <==>
      m.timestamp - q.msgs[DumpCount(q, max) - 1].timestamp > q.sizeMs
  {
    OverflowsFrom(Dumped(q, max), ms, m);
  }

  /** A queue that was cleared, or never given a length or a message, counts anew; metadata does not count. */
  lemma OverflowsAfterClearIff(q: Queue, first: Message, ms: seq<Message>, m: Message)
    requires first.IsAv() && first.timestamp != -1 && m.IsAv() && q.sizeMs >= 0
    requires Fits(Enqueued(Cleared(q), first), ms)
    ensures Overflows(EnqueueAll(Enqueued(Cleared(q), first), ms), m) <==> m.timestamp - first.timestamp > q.sizeMs
    ensures forall data: Message | data.kind.Data? :: !Overflows(Cleared(q), data)
    ensures Overflows(Enqueued(Fresh.q, first), m) <==> m.timestamp > first.timestamp
  {
    OverflowsFrom(Enqueued(Cleared(q), first), ms, m);
  }

  /** An overflow leaves nothing but codec headers, at most one of each kind, at the time it happened. */
  lemma OverflowsAfterOverflowIff(q: Queue, last: Message, ms: seq<Message>, m: Message)
    requires last.IsAv() && last.timestamp != -1 && m.IsAv() && Overflows(q, last) && Fits(Enqueued(q, last), ms)
    ensures Overflows(EnqueueAll(Enqueued(q, last), ms), m) <==> m.timestamp - last.timestamp > q.sizeMs
    ensures var left := Enqueued(q, last).msgs;
      && |left| <= 2 && (forall h | h in left :: h.IsHeader() && h.timestamp == last.timestamp)
      && (|left| == 2 ==> left[0].IsVideoHeader() && left[1].IsAudioHeader())
  {
    OverflowsFrom(Enqueued(q, last), ms, m);
    LastHeaderIsHeader(Video, q.msgs + [last]);
    LastHeaderIsHeader(Audio, q.msgs + [last]);
    hide LastHeader;
  }

  // ----- whether the overflow loop ends -----

  /** The queue after `n` rounds of the overflow loop. */
  function Rounds(q: Queue, n: nat): Queue {
    if n == 0 then q else Shrunk(Rounds(q, n - 1))
  }

  /** A caller can read off the queue whether enqueueing returns. */
  predicate Ends(q: Queue, m: Message) {
    q.sizeMs >= 0 || !Overflows(q, m)
  }

  /** After one round and after any number of them, the loop goes on exactly when the size is negative. */
  lemma {:induction false} RoundsTooLongIff(q: Queue, n: nat)
    requires n > 0
    ensures TooLong(Rounds(q, n)) <==> q.sizeMs < 0
  {
    RoundsMeet(q, n);
  }

  lemma {:induction false} RoundsMeet(q: Queue, n: nat)
    requires n > 0
    ensures Rounds(q, n).avStart == Rounds(q, n).avEnd == q.avEnd && Rounds(q, n).sizeMs == q.sizeMs
  {
    hide Kept;
    if n > 1 {
      RoundsMeet(q, n - 1);
    }
  }

  /** The overflow loop ends exactly when the size is not negative or the message does not overflow. */
  lemma LoopEndsIff(q: Queue, m: Message)
    ensures (exists n :: !TooLong(Rounds(Appended(q, m), n))) <==> Ends(q, m)
  {
    hide Appended, TooLong;
    var q1 := Appended(q, m);
    assert q1.sizeMs == q.sizeMs by { AppendedSize(q, m); }
    if n :| !TooLong(Rounds(q1, n)) {
      if n > 0 {
        RoundsTooLongIff(q1, n);
      }
    }
    if q.sizeMs >= 0 {
      RoundsTooLongIff(q1, 1);
    } else {
      assert Rounds(q1, 0) == q1;
    }
  }

  lemma AppendedSize(q: Queue, m: Message)
    ensures Appended(q, m).sizeMs == q.sizeMs
  {
  }

  /** With a negative size the first message a queue is given never returns. */
  lemma FirstMessageNeverEnds(ms: int, m: Message, n: nat)
    requires ms < 0
    ensures TooLong(Rounds(Appended(Apply(Fresh, SetSize(ms)).q, m), n))
  {
    hide Kept;
    if n > 0 {
      AppendedSize(Apply(Fresh, SetSize(ms)).q, m);
      RoundsTooLongIff(Appended(Apply(Fresh, SetSize(ms)).q, m), n);
    }
  }

  /** A queue length of -1 in the configuration, and any message. */
  lemma MinusOneSecondNeverEnds(m: Message)
    ensures !Ends(Queue([], -1, -1, -1000), m)
    ensures forall n: nat :: TooLong(Rounds(Appended(Queue([], -1, -1, -1000), m), n))
  {
    hide Rounds, TooLong;
    forall n: nat
      ensures TooLong(Rounds(Appended(Queue([], -1, -1, -1000), m), n))
    {
      FirstMessageNeverEnds(-1000, m, n);
    }
    LoopEndsIff(Queue([], -1, -1, -1000), m);
  }

  // ----- the class -----

  class MessageQueue {
    const msgs: FastVector<Message>
    var avStartTime: int
    var avEndTime: int
    var queueSizeMs: int
    ghost var enqueued: seq<Message>
    ghost var delivered: seq<Message>
    ghost var freed: multiset<Message>

    ghost function Repr(): set<object>
      reads this, msgs
    {
      {this, msgs, msgs.msgs}
    }

    ghost predicate Valid()
      reads this, msgs
    {
      msgs.Valid()
    }

    ghost function Value(): Queue
      requires Valid()
      reads this, msgs, msgs.msgs
    {
      Queue(msgs.Contents(), avStartTime, avEndTime, queueSizeMs)
    }

    ghost function View(): Ledger
      requires Valid()
      reads this, msgs, msgs.msgs
    {
      Ledger(Value(), enqueued, delivered, freed)
    }

    constructor ()
      ensures Valid() && fresh(Repr()) && View() == Fresh
    {
      msgs := new FastVector();
      queueSizeMs := 0;
      avStartTime := -1;
      avEndTime := -1;
      enqueued, delivered, freed := [], [], multiset{};
    }

    method Size() returns (n: nat)
      requires Valid()
      ensures n == |Value().msgs|
    {
      n := msgs.Size();
    }

    method SetQueueSize(ms: int)
      requires Valid()
      modifies this
      ensures Valid() && View() == Apply(old(View()), SetSize(ms))
    {
      queueSizeMs := ms;
    }

    /** Requires what the overflow loop needs to end. */
    method Enqueue(msg: Message)
      requires Valid() && Ends(Value(), msg)
      modifies Repr()
      ensures Valid() && fresh(Repr() - old(Repr()))
      ensures View() == Apply(old(View()), Op.Enqueue(msg))
    {
      hide Kept, Dropped;
      if msg.IsAv() {
        if avStartTime == -1 {
          avStartTime := msg.timestamp;
        }
        avEndTime := msg.timestamp;
      }
      msgs.PushBack(msg);
      enqueued := enqueued + [msg];
      ghost var q1 := Appended(old(Value()), msg);
      ghost var shrunk := false;
      while avEndTime - avStartTime > queueSizeMs
        invariant Valid() && fresh(Repr() - old(Repr()))
        invariant enqueued == old(enqueued) + [msg] && delivered == old(delivered)
        invariant Value() == if shrunk then Shrunk(q1) else q1
        invariant freed == old(freed) + if shrunk then Dropped(q1.msgs) else multiset{}
        invariant shrunk ==> Overflows(old(Value()), msg)
        decreases avEndTime - avStartTime
      {
        Shrink();
        shrunk := true;
      }
    }

    /** The loop of `DumpPackets`: copies the first `count` messages into the caller's array. */
    method CopyOut(count: nat, pmsgs: array<Message>)
      requires Valid() && pmsgs !in Repr() && count <= |Value().msgs| && count <= pmsgs.Length
      modifies pmsgs
      ensures pmsgs[..count] == Value().msgs[..count] && pmsgs[count..] == old(pmsgs[count..])
    {
      var i := 0;
      while i < count
        invariant 0 <= i <= count
        invariant pmsgs[..i] == msgs.Contents()[..i] && pmsgs[count..] == old(pmsgs[count..])
      {
        pmsgs[i] := msgs.msgs[i];
        i := i + 1;
      }
    }

    /** Hands over at most `maxCount` messages from the front. */
    method DumpPackets(maxCount: nat, pmsgs: array<Message>) returns (count: nat)
      requires Valid() && pmsgs !in Repr()
      requires Value().msgs != [] ==> maxCount > 0
      requires DumpCount(Value(), maxCount) <= pmsgs.Length
      modifies Repr(), pmsgs
      ensures Valid() && Repr() == old(Repr())
      ensures count == DumpCount(old(Value()), maxCount)
      ensures pmsgs[..count] == old(Value()).msgs[..count] && pmsgs[count..] == old(pmsgs[count..])
      ensures View() == Apply(old(View()), Dump(maxCount))
    {
      hide Bodies, Dropped, Enqueued, Overflows;
      count := 0;
      var nbMsgs := msgs.Size();
      if nbMsgs <= 0 {
        return;
      }
      count := if maxCount < nbMsgs then maxCount else nbMsgs;
      CopyOut(count, pmsgs);
      var last := msgs.msgs[count - 1];
      avStartTime := last.timestamp;
      delivered := delivered + msgs.Contents()[..count];
      if count >= nbMsgs {
        msgs.Clear();
      } else {
        msgs.Erase(0, count);
      }
    }

    /** The loop of `Shrink`: frees every message but the last sequence header of each kind. */
    method FreeAllButHeaders() returns (videoSh: Option<Message>, audioSh: Option<Message>)
      requires Valid()
      modifies this`freed
      ensures videoSh == LastHeader(Video, Value().msgs) && audioSh == LastHeader(Audio, Value().msgs)
      ensures freed == old(freed) + Dropped(Value().msgs)
    {
      videoSh, audioSh := None, None;
      ghost var was := msgs.Contents();
      assert was[..0] == [] && Dropped([]) == multiset{};
      hide LastHeader, Dropped;
      var i := 0;
      while i < msgs.count
        invariant 0 <= i <= |was|
        invariant videoSh == LastHeader(Video, was[..i]) && audioSh == LastHeader(Audio, was[..i])
        invariant freed == old(freed) + Dropped(was[..i])
      {
        var msg := msgs.At(i);
        ShrinkStep(was, i, old(freed));
        ghost var before := freed;
        if msg.IsVideoHeader() {
          freed := freed + Owned(videoSh);
          videoSh := Some(msg);
        } else if msg.IsAudioHeader() {
          freed := freed + Owned(audioSh);
          audioSh := Some(msg);
        } else {
          freed := freed + multiset{msg.Body()};
        }
        assert freed == before + DroppedFor(was[..i], msg);
        i := i + 1;
      }
      assert was[..i] == was;
    }

    method Shrink()
      requires Valid()
      modifies Repr()
      ensures Valid() && fresh(Repr() - old(Repr()))
      ensures Value() == Shrunk(old(Value())) && freed == old(freed) + Dropped(old(Value()).msgs)
      ensures unchanged(`enqueued) && unchanged(`delivered)
    {
      hide LastHeader, Dropped;
      var videoSh, audioSh := FreeAllButHeaders();
      msgs.Clear();
      avStartTime := avEndTime;
      if videoSh.Some? {
        msgs.PushBack(videoSh.value.(timestamp := avEndTime));
      }
      if audioSh.Some? {
        msgs.PushBack(audioSh.value.(timestamp := avEndTime));
      }
      assert Value().msgs == Kept(old(Value()).msgs, avEndTime);
    }

    method Clear()
      requires Valid()
      modifies Repr()
      ensures Valid() && Repr() == old(Repr())
      ensures View() == Apply(old(View()), Op.Clear)
    {
      ghost var released := msgs.Free();
      freed := freed + Bodies(released);
      msgs.Clear();
      avStartTime := -1;
      avEndTime := -1;
    }
  }
}
