/** The reorder queue of mix_correct: a merge of the audio and the video stream by timestamp. */
module MixQueues {
  import opened Messages

  const PURE_AV := 10

  datatype Mix = Mix(msgs: seq<Message>, videos: nat, audios: nat)

  const EmptyMix := Mix([], 0, 0)

  /** A multimap keeps equal keys in insertion order: a message goes behind those not later than it. */
  function Insert(s: seq<Message>, m: Message): seq<Message> {
    if s == [] || s[|s| - 1].timestamp <= m.timestamp then s + [m]
    else Insert(s[..|s| - 1], m) + [s[|s| - 1]]
  }

  function Pushed(x: Mix, m: Message): Mix {
    var s := Insert(x.msgs, m);
    if m.kind.Video? then Mix(s, x.videos + 1, x.audios) else Mix(s, x.videos, x.audios + 1)
  }

  predicate Both(x: Mix) {
    x.videos >= 1 && x.audios >= 1
  }

  predicate MixOk(x: Mix) {
    || (x.videos >= PURE_AV && x.audios == 0)
    || (x.audios >= PURE_AV && x.videos == 0)
    || Both(x)
  }

  /** The counters tell how many videos, and how many others, are queued. */
  predicate Counted(x: Mix) {
    x.videos == |Filter(IsVideo, x.msgs)| && x.audios == |Filter(IsOther, x.msgs)|
  }

  predicate IsVideo(m: Message) { m.kind.Video? }
  predicate IsOther(m: Message) { !m.kind.Video? }

  lemma {:induction false} CountsAddUp(s: seq<Message>)
    ensures |Filter(IsVideo, s)| + |Filter(IsOther, s)| == |s|
  {
    if s != [] {
      CountsAddUp(s[..|s| - 1]);
    }
  }

  function Popped(x: Mix): (r: (Mix, Option<Message>))
    requires MixOk(x) ==> x.msgs != []
    requires MixOk(x) ==> if x.msgs[0].kind.Video? then x.videos > 0 else x.audios > 0
  {
    if !MixOk(x) then (x, None)
    else
      var m := x.msgs[0];
      (if m.kind.Video? then Mix(x.msgs[1..], x.videos - 1, x.audios) else Mix(x.msgs[1..], x.videos, x.audios - 1),
       Some(m))
  }

  lemma FilterFront(p: Message -> bool, s: seq<Message>)
    requires s != []
    ensures Filter(p, s) == (if p(s[0]) then [s[0]] else []) + Filter(p, s[1..])
  {
    assert s == [s[0]] + s[1..];
    assert [s[0]][..0] == [];
    FilterConcat(p, [s[0]], s[1..]);
  }

  lemma CountedCanPop(x: Mix)
    requires Counted(x)
    ensures MixOk(x) ==> x.msgs != []
    ensures x.msgs != [] ==> if x.msgs[0].kind.Video? then x.videos > 0 else x.audios > 0
  {
    CountsAddUp(x.msgs);
    if x.msgs != [] {
      FilterFront(IsVideo, x.msgs);
      FilterFront(IsOther, x.msgs);
    }
  }

  lemma FilterSnoc(p: Message -> bool, s: seq<Message>, m: Message)
    ensures Filter(p, s + [m]) == Filter(p, s) + if p(m) then [m] else []
  {
    assert (s + [m])[..|s|] == s;
  }

  lemma {:induction false} InsertCounts(s: seq<Message>, m: Message)
    ensures |Filter(IsVideo, Insert(s, m))| == |Filter(IsVideo, s)| + if IsVideo(m) then 1 else 0
    ensures |Filter(IsOther, Insert(s, m))| == |Filter(IsOther, s)| + if IsOther(m) then 1 else 0
    ensures |Insert(s, m)| == |s| + 1
    ensures multiset(Insert(s, m)) == multiset(s) + multiset{m}
  {
    hide Filter, IsVideo, IsOther;
    if s == [] || s[|s| - 1].timestamp <= m.timestamp {
      FilterSnoc(IsVideo, s, m);
      FilterSnoc(IsOther, s, m);
      OneKind(m);
    } else {
      var front, last := s[..|s| - 1], s[|s| - 1];
      InsertCounts(front, m);
      FilterSnoc(IsVideo, Insert(front, m), last);
      FilterSnoc(IsOther, Insert(front, m), last);
      FilterSnoc(IsVideo, front, last);
      FilterSnoc(IsOther, front, last);
      assert s == front + [last];
    }
  }

  lemma OneKind(m: Message)
    ensures IsVideo(m) <==> !IsOther(m)
  {
  }

  lemma PushedCounted(x: Mix, m: Message)
    requires Counted(x)
    ensures Counted(Pushed(x, m))
  {
    InsertCounts(x.msgs, m);
  }

  lemma PoppedCounted(x: Mix)
    requires Counted(x)
    ensures MixOk(x) ==> x.msgs != []
    ensures MixOk(x) ==> if x.msgs[0].kind.Video? then x.videos > 0 else x.audios > 0
    ensures Counted(Popped(x).0)
  {
    CountedCanPop(x);
    if MixOk(x) {
      FilterFront(IsVideo, x.msgs);
      FilterFront(IsOther, x.msgs);
    }
  }

  class MixQueue {
    var nbVideos: nat
    var nbAudios: nat
    var msgs: seq<Message>

    ghost function View(): Mix
      reads this
    {
      Mix(msgs, nbVideos, nbAudios)
    }

    ghost predicate Valid()
      reads this
    {
      Counted(View())
    }

    constructor ()
      ensures Valid() && View() == EmptyMix
    {
      nbVideos := 0;
      nbAudios := 0;
      msgs := [];
    }

    method Clear()
      modifies this
      ensures Valid() && View() == EmptyMix
    {
      msgs := [];
      nbVideos := 0;
      nbAudios := 0;
    }

    method Push(msg: Message)
      requires Valid()
      modifies this
      ensures Valid() && View() == Pushed(old(View()), msg)
    {
      PushedCounted(View(), msg);
      msgs := Insert(msgs, msg);
      if msg.kind.Video? {
        nbVideos := nbVideos + 1;
      } else {
        nbAudios := nbAudios + 1;
      }
    }

    method Pop() returns (msg: Option<Message>)
      requires Valid()
      modifies this
      ensures Valid() && Counted(old(View()))
      ensures MixOk(old(View())) ==>
        (old(msgs) != [] && if old(msgs)[0].kind.Video? then old(nbVideos) > 0 else old(nbAudios) > 0)
      ensures (View(), msg) == Popped(old(View()))
    {
      PoppedCounted(View());
      var mixOk := false;
      if nbVideos >= PURE_AV && nbAudios == 0 {
        mixOk := true;
      }
      if nbAudios >= PURE_AV && nbVideos == 0 {
        mixOk := true;
      }
      if nbVideos >= 1 && nbAudios >= 1 {
        mixOk := true;
      }
      if !mixOk {
        return None;
      }
      var first := msgs[0];
      msgs := msgs[1..];
      if first.kind.Video? {
        nbVideos := nbVideos - 1;
      } else {
        nbAudios := nbAudios - 1;
      }
      msg := Some(first);
    }
  }

  // ----- whole runs of "push one, pop at most one" -----

  /** A run between two publishes: what is queued, what went in, what came out. */
  datatype Trace = Trace(mix: Mix, pushed: seq<Message>, popped: seq<Message>)
  {
    /** What came out, followed by what waits. */
    function Out(): seq<Message> {
      popped + mix.msgs
    }
  }

  const Start := Trace(EmptyMix, [], [])

  function PushIn(t: Trace, m: Message): (r: Trace)
    requires Counted(t.mix)
    ensures Counted(r.mix)
  {
    PushedCounted(t.mix, m);
    Trace(Pushed(t.mix, m), t.pushed + [m], t.popped)
  }

  function PopOut(t: Trace): (r: Trace)
    requires Counted(t.mix)
    ensures Counted(r.mix)
  {
    PoppedCounted(t.mix);
    var (x, out) := Popped(t.mix);
    Trace(x, t.pushed, if out.None? then t.popped else t.popped + [out.value])
  }

  /** The calls of on_audio and on_video with mix_correct, one message after the other. */
  function Run(t: Trace, ms: seq<Message>): (r: Trace)
    requires Counted(t.mix)
    ensures Counted(r.mix)
    decreases ms
  {
    if ms == [] then t else Run(PopOut(PushIn(t, ms[0])), ms[1..])
  }

  /** Between two calls at most nine messages wait. */
  lemma {:induction false} BoundedReordering(t: Trace, ms: seq<Message>)
    requires Counted(t.mix) && |t.mix.msgs| < 10
    ensures |Run(t, ms).mix.msgs| < 10
    decreases ms
  {
    hide Filter, Insert;
    if ms != [] {
      InsertCounts(t.mix.msgs, ms[0]);
      CountsAddUp(PushIn(t, ms[0]).mix.msgs);
      BoundedReordering(PopOut(PushIn(t, ms[0])), ms[1..]);
    }
  }

  /** Popping only moves the boundary between what came out and what waits. */
  lemma PopKeepsOut(t: Trace)
    requires Counted(t.mix)
    ensures PopOut(t).Out() == t.Out() && PopOut(t).pushed == t.pushed
  {
    hide Counted;
    PoppedCounted(t.mix);
  }

  predicate Conserves(t: Trace) {
    multiset(t.Out()) == multiset(t.pushed)
  }

  lemma PushConserves(t: Trace, m: Message)
    requires Counted(t.mix) && Conserves(t)
    ensures Conserves(PushIn(t, m))
  {
    hide Counted, Insert;
    InsertCounts(t.mix.msgs, m);
  }

  lemma {:induction false} RunPushed(t: Trace, ms: seq<Message>)
    requires Counted(t.mix)
    ensures Run(t, ms).pushed == t.pushed + ms
    decreases ms
  {
    hide Counted, Pushed, PopOut;
    if ms != [] {
      PopKeepsOut(PushIn(t, ms[0]));
      RunPushed(PopOut(PushIn(t, ms[0])), ms[1..]);
      assert t.pushed + [ms[0]] + ms[1..] == t.pushed + ms;
    }
  }

  /** Nothing is lost or duplicated, whatever the timestamps. */
  lemma {:induction false} RunConserves(t: Trace, ms: seq<Message>)
    requires Counted(t.mix) && Conserves(t)
    ensures Conserves(Run(t, ms))
    decreases ms
  {
    hide PushIn, PopOut, Counted;
    if ms != [] {
      PushConserves(t, ms[0]);
      PopKeepsOut(PushIn(t, ms[0]));
      RunConserves(PopOut(PushIn(t, ms[0])), ms[1..]);
    }
  }

  predicate SortedByTime(s: seq<Message>) {
    forall i, j | 0 <= i < j < |s| :: s[i].timestamp <= s[j].timestamp
  }

  lemma InsertMember(s: seq<Message>, m: Message, x: Message)
    ensures x in Insert(s, m) <==> x in s || x == m
  {
    hide Insert;
    InsertCounts(s, m);
    assert x in Insert(s, m) <==> x in multiset(Insert(s, m));
  }

  lemma {:induction false} InsertSorted(s: seq<Message>, m: Message)
    requires SortedByTime(s)
    ensures SortedByTime(Insert(s, m))
  {
    if s != [] && m.timestamp < s[|s| - 1].timestamp {
      var front, last := s[..|s| - 1], s[|s| - 1];
      InsertSorted(front, m);
      var r := Insert(front, m);
      forall i | 0 <= i < |r| ensures r[i].timestamp <= last.timestamp {
        InsertMember(front, m, r[i]);
      }
    }
  }

  /** Inserting keeps the order inside a kind when the new message is not earlier than its own kind. */
  lemma {:induction false} InsertFilter(p: Message -> bool, s: seq<Message>, m: Message)
    requires p(m) ==> forall x | x in s && p(x) :: x.timestamp <= m.timestamp
    ensures Filter(p, Insert(s, m)) == Filter(p, s) + if p(m) then [m] else []
  {
    hide Filter;
    if s == [] || s[|s| - 1].timestamp <= m.timestamp {
      FilterSnoc(p, s, m);
    } else {
      var front, last := s[..|s| - 1], s[|s| - 1];
      assert s == front + [last] && last in s;
      InsertFilter(p, front, m);
      FilterSnoc(p, front, last);
      FilterSnoc(p, Insert(front, m), last);
    }
  }

  predicate KindSorted(p: Message -> bool, s: seq<Message>) {
    SortedByTime(Filter(p, s))
  }

  lemma {:induction false} FilterMember(p: Message -> bool, s: seq<Message>, m: Message)
    ensures m in Filter(p, s) <==> m in s && p(m)
  {
    if s != [] {
      FilterMember(p, s[..|s| - 1], m);
      assert s == s[..|s| - 1] + [s[|s| - 1]];
    }
  }

  lemma KindSortedPrefix(p: Message -> bool, a: seq<Message>, b: seq<Message>)
    requires KindSorted(p, a + b)
    ensures KindSorted(p, a)
  {
    FilterConcat(p, a, b);
    var f, g := Filter(p, a), Filter(p, a + b);
    assert forall i | 0 <= i < |f| :: f[i] == g[i];
  }

  /** In a stream sorted within kind `p`, a newly arrived `m` of that kind is not the earlier one. */
  lemma NewestOfKind(p: Message -> bool, s: seq<Message>, m: Message, y: Message)
    requires KindSorted(p, s + [m]) && p(m)
    requires y in s && p(y)
    ensures y.timestamp <= m.timestamp
  {
    FilterMember(p, s, y);
    FilterSnoc(p, s, m);
    var f, g := Filter(p, s), Filter(p, s + [m]);
    var i :| 0 <= i < |f| && f[i] == y;
    assert g[i] == y && g[|f|] == m;
  }

  /** The messages of a kind leave, or wait, in the order they came. */
  predicate KindInOrder(p: Message -> bool, t: Trace) {
    Filter(p, t.Out()) == Filter(p, t.pushed)
  }

  /** What waits has been pushed. */
  lemma QueuedWasPushed(p: Message -> bool, t: Trace, y: Message)
    requires KindInOrder(p, t) && y in t.mix.msgs && p(y)
    ensures y in t.pushed
  {
    FilterMember(p, t.Out(), y);
    FilterMember(p, t.pushed, y);
  }

  lemma PushKindInOrder(p: Message -> bool, t: Trace, m: Message)
    requires Counted(t.mix)
    requires KindInOrder(p, t) && KindSorted(p, t.pushed + [m])
    ensures KindInOrder(p, PushIn(t, m))
  {
    hide Counted, SortedByTime, Insert;
    if p(m) {
      forall y | y in t.mix.msgs && p(y) ensures y.timestamp <= m.timestamp {
        QueuedWasPushed(p, t, y);
        NewestOfKind(p, t.pushed, m, y);
      }
    }
    InsertFilter(p, t.mix.msgs, m);
    FilterSnoc(p, t.pushed, m);
    FilterConcat(p, t.popped, t.mix.msgs);
    FilterConcat(p, t.popped, Insert(t.mix.msgs, m));
  }

  /**
   Per-kind order: if the messages of a kind come with nondecreasing timestamps, the queue never
   reorders, loses or duplicates them, in any run.
   */
  lemma {:induction false} KindOrderPreserved(p: Message -> bool, t: Trace, ms: seq<Message>)
    requires Counted(t.mix)
    requires KindInOrder(p, t) && KindSorted(p, t.pushed + ms)
    ensures KindInOrder(p, Run(t, ms))
    decreases ms
  {
    hide Counted, SortedByTime, Insert, Popped, Filter;
    if ms != [] {
      assert t.pushed + ms == (t.pushed + [ms[0]]) + ms[1..];
      KindSortedPrefix(p, t.pushed + [ms[0]], ms[1..]);
      PushKindInOrder(p, t, ms[0]);
      PopKeepsOut(PushIn(t, ms[0]));
      KindOrderPreserved(p, PopOut(PushIn(t, ms[0])), ms[1..]);
    }
  }

  /** Every pop of the run found both kinds queued. */
  predicate PopsFindBoth(t: Trace, ms: seq<Message>)
    requires Counted(t.mix)
    decreases ms
  {
    ms == [] ||
    var t1 := PushIn(t, ms[0]);
    (MixOk(t1.mix) ==> Both(t1.mix)) && PopsFindBoth(PopOut(t1), ms[1..])
  }

  /** Everything that came out is in order, and nothing that waits is earlier. */
  predicate Merged(t: Trace) {
    SortedByTime(t.Out())
  }

  /** No message of kind `p` can still arrive that is earlier than what came out. */
  predicate Settled(p: Message -> bool, t: Trace) {
    forall y | y in t.popped :: exists x :: x in t.pushed && p(x) && y.timestamp <= x.timestamp
  }

  lemma PushMerged(t: Trace, m: Message)
    requires Counted(t.mix) && Merged(t)
    requires Settled(IsVideo, t) && Settled(IsOther, t)
    requires KindSorted(IsVideo, t.pushed + [m]) && KindSorted(IsOther, t.pushed + [m])
    ensures Merged(PushIn(t, m))
  {
    hide Counted, Insert, KindSorted;
    var q, q1 := t.mix.msgs, Insert(t.mix.msgs, m);
    var p := if m.kind.Video? then IsVideo else IsOther;
    assert SortedByTime(q) by {
      assert forall i | 0 <= i < |q| :: q[i] == t.Out()[|t.popped| + i];
    }
    InsertSorted(q, m);
    forall i, j | 0 <= i < |t.popped| && 0 <= j < |q1| ensures t.popped[i].timestamp <= q1[j].timestamp {
      InsertMember(q, m, q1[j]);
      if q1[j] in q {
        var k :| 0 <= k < |q| && q[k] == q1[j];
        assert t.Out()[i] == t.popped[i] && t.Out()[|t.popped| + k] == q[k];
      } else {
        assert t.popped[i] in t.popped;
        var x :| x in t.pushed && p(x) && t.popped[i].timestamp <= x.timestamp;
        NewestOfKind(p, t.pushed, m, x);
      }
    }
    forall i, j | 0 <= i < j < |t.popped| ensures t.popped[i].timestamp <= t.popped[j].timestamp {
      assert t.Out()[i] == t.popped[i] && t.Out()[j] == t.popped[j];
    }
  }

  /** A pop that found both kinds queued leaves neither stream able to come in earlier. */
  lemma PopSettled(p: Message -> bool, t: Trace)
    requires p == IsVideo || p == IsOther
    requires Counted(t.mix) && Merged(t)
    requires Settled(p, t) && KindInOrder(p, t)
    requires MixOk(t.mix) ==> Both(t.mix)
    ensures Settled(p, PopOut(t))
  {
    PoppedCounted(t.mix);
    if MixOk(t.mix) {
      var q := t.mix.msgs;
      var x := Filter(p, q)[0];
      FilterMember(p, q, x);
      QueuedWasPushed(p, t, x);
      var k :| 0 <= k < |q| && q[k] == x;
      assert t.Out()[|t.popped|] == q[0] && t.Out()[|t.popped| + k] == x;
    }
  }

  lemma PushSettled(p: Message -> bool, t: Trace, m: Message)
    requires Counted(t.mix) && Settled(p, t)
    ensures Settled(p, PushIn(t, m))
  {
    hide Counted, Pushed;
    forall y | y in t.popped ensures exists x :: x in t.pushed + [m] && p(x) && y.timestamp <= x.timestamp {
      var x :| x in t.pushed && p(x) && y.timestamp <= x.timestamp;
      assert x in t.pushed + [m];
    }
  }

  lemma {:induction false} MergeFrom(t: Trace, ms: seq<Message>)
    requires Counted(t.mix) && Merged(t)
    requires Settled(IsVideo, t) && Settled(IsOther, t)
    requires KindInOrder(IsVideo, t) && KindInOrder(IsOther, t)
    requires KindSorted(IsVideo, t.pushed + ms) && KindSorted(IsOther, t.pushed + ms)
    requires PopsFindBoth(t, ms)
    ensures Merged(Run(t, ms))
    decreases ms
  {
    hide Counted, SortedByTime, Insert, Popped, Filter, Settled, KindSorted;
    if ms != [] {
      var t1 := PushIn(t, ms[0]);
      assert t.pushed + ms == (t.pushed + [ms[0]]) + ms[1..];
      KindSortedPrefix(IsVideo, t.pushed + [ms[0]], ms[1..]);
      KindSortedPrefix(IsOther, t.pushed + [ms[0]], ms[1..]);
      PushMerged(t, ms[0]);
      PushSettled(IsVideo, t, ms[0]);
      PushSettled(IsOther, t, ms[0]);
      PushKindInOrder(IsVideo, t, ms[0]);
      PushKindInOrder(IsOther, t, ms[0]);
      PopKeepsOut(t1);
      PopSettled(IsVideo, t1);
      PopSettled(IsOther, t1);
      MergeFrom(PopOut(t1), ms[1..]);
    }
  }

  /**
   Merge correctness: fed two streams that are each in order, and as long as every pop found both
   kinds queued, the queue hands out a sorted sequence that, with what still waits, is the input.
   */
  lemma MergeCorrect(ms: seq<Message>)
    requires KindSorted(IsVideo, ms) && KindSorted(IsOther, ms)
    requires PopsFindBoth(Start, ms)
    ensures var out := Run(Start, ms).Out();
      && SortedByTime(out)
      && multiset(out) == multiset(ms)
      && Filter(IsVideo, out) == Filter(IsVideo, ms)
      && Filter(IsOther, out) == Filter(IsOther, ms)
  {
    assert Start.pushed + ms == ms && Start.Out() == Start.pushed && Counted(Start.mix);
    hide Filter, PopsFindBoth;
    RunPushed(Start, ms);
    MergeFrom(Start, ms);
    RunConserves(Start, ms);
    KindOrderPreserved(IsVideo, Start, ms);
    KindOrderPreserved(IsOther, Start, ms);
  }

  // ----- when a message is handed out -----

  lemma SomeOfKind(p: Message -> bool, s: seq<Message>)
    ensures Filter(p, s) != [] <==> exists m | m in s :: p(m)
  {
    if Filter(p, s) != [] {
      FilterMember(p, s, Filter(p, s)[0]);
    }
    forall m | m in s && p(m) ensures m in Filter(p, s) {
      FilterMember(p, s, m);
    }
  }

  /** A message is handed out when there is audio and video, or ten of one kind; a lone one waits for the other. */
  lemma HandsOutIff(x: Mix)
    requires Counted(x)
    ensures MixOk(x) ==> x.msgs != []
    ensures MixOk(x) ==> if x.msgs[0].kind.Video? then x.videos > 0 else x.audios > 0
    ensures Popped(x).1.Some? <==>
      |x.msgs| >= 10 || ((exists v | v in x.msgs :: v.kind.Video?) && exists a | a in x.msgs :: !a.kind.Video?)
  {
    CountedCanPop(x);
    CountsAddUp(x.msgs);
    SomeOfKind(IsVideo, x.msgs);
    SomeOfKind(IsOther, x.msgs);
  }
}
