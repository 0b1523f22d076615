/** Properties of a source over whole runs of events, and of the client that joins in the middle. */
module SourceRuns {
  import opened Messages
  import opened GopCaches
  import opened Consumers
  import opened Aggregates
  import opened SourceSpec
  import X = MixQueues

  datatype Event =
    | Media(m: Message, env: Env)
    | MetaData(atc: bool, encoded: Encoded, env: Env)
    | Publish
    | Unpublish
    | SetCache(on: bool)
    | Join

  predicate WellFormed(e: Event) {
    && (e.Media? ==> e.m.IsAv())
    && (e.MetaData? && e.encoded.As? ==> e.encoded.m.kind.Data?)
  }

  function Step(c: Core, e: Event): (r: Outcome)
    requires Valid(c)
    ensures Valid(r.core)
  {
    match e
    case Media(m, env) => OnMedia(c, m, env)
    case MetaData(atc, encoded, env) => OnMetaData(c, atc, encoded, env)
    case Publish => Outcome(c.(mix := X.EmptyMix), [], SUCCESS)
    case Unpublish => Outcome(c.(gop := Cleared(c.gop)), [], SUCCESS)
    case SetCache(on) => Outcome(c.(gop := Set(c.gop, on)), [], SUCCESS)
    case Join => Outcome(Joined(c), [], SUCCESS)
  }

  /** The core after a run, and everything the run offered to every consumer present. */
  function Run(c: Core, es: seq<Event>): (r: (Core, seq<Offer>))
    requires Valid(c)
    ensures Valid(r.0)
    decreases es
  {
    if es == [] then (c, [])
    else
      var r := Step(c, es[0]);
      var more := Run(r.core, es[1..]);
      (more.0, r.out + more.1)
  }

  lemma {:induction false} RunConcat(c: Core, a: seq<Event>, b: seq<Event>)
    requires Valid(c)
    ensures Run(c, a + b).0 == Run(Run(c, a).0, b).0
    ensures Run(c, a + b).1 == Run(c, a).1 + Run(Run(c, a).0, b).1
    decreases a
  {
    hide X.Counted, Step;
    if a == [] {
      assert a + b == b;
    } else {
      assert (a + b)[1..] == a[1..] + b;
      var r := Step(c, a[0]);
      RunConcat(r.core, a[1..], b);
      var r1 := Run(r.core, a[1..]);
      assert r.out + (r1.1 + Run(r1.0, b).1) == r.out + r1.1 + Run(r1.0, b).1;
    }
  }

  function MessagesOf(os: seq<Offer>): (ms: seq<Message>)
    ensures |ms| == |os|
  {
    if os == [] then [] else MessagesOf(os[..|os| - 1]) + [os[|os| - 1].m]
  }

  lemma {:induction false} MessagesConcat(a: seq<Offer>, b: seq<Offer>)
    ensures MessagesOf(a + b) == MessagesOf(a) + MessagesOf(b)
  {
    if b == [] {
      assert a + b == a;
    } else {
      assert (a + b)[..|a + b| - 1] == a + b[..|b| - 1];
      MessagesConcat(a, b[..|b| - 1]);
    }
  }

  // ----- aggregates as runs -----

  /** The audio and video sub-messages, in order, each with its rebased timestamp and surroundings. */
  function SubEvents(ts: seq<Sub>, times: seq<int>, env: seq<Env>, k: nat): seq<Event>
    requires |times| == |ts|
    decreases ts
  {
    if ts == [] then []
    else
      (if ts[0].IsAv() then [Media(SubMessage(ts[0], times[0], EnvAt(env, k)), EnvAt(env, k))] else [])
      + SubEvents(ts[1..], times[1..], env, k + 1)
  }

  /** The dispatch of sub-messages is a run of their events, cut off after the first that fails. */
  lemma {:induction false} SubsAreRun(c: Core, header: int, delta: int, ts: seq<Sub>, env: seq<Env>, k: nat)
      returns (n: nat)
    requires Valid(c)
    ensures var es := SubEvents(ts, Rebased(header, delta, ts), env, k);
      var r := OnSubs(c, header, delta, ts, env, k);
      && n <= |es| && (r.core, r.out) == Run(c, es[..n])
      && (r.ret == SUCCESS ==> n == |es|)
    decreases ts
  {
    hide X.Counted, Run, Step, OnSub, EnvAt;
    if ts == [] {
      n := 0;
      RunNothing(c);
    } else {
      var times := Rebased(header, delta, ts);
      var d := NextDelta(header, delta, ts[0]);
      var e, r := EnvAt(env, k), OnSub(c, ts[0], ts[0].time + d, EnvAt(env, k));
      var es := SubEvents(ts, times, env, k);
      var rest := SubEvents(ts[1..], times[1..], env, k + 1);
      assert times[1..] == Rebased(header, d, ts[1..]) && times[0] == ts[0].time + d;
      if !ts[0].IsAv() {
        SubIgnored(c, ts[0], times[0], e);
        n := SubsAreRun(c, header, d, ts[1..], env, k + 1);
        assert es == rest;
        assert r.out + Run(c, rest[..n]).1 == Run(c, rest[..n]).1;
      } else {
        var ev := Media(SubMessage(ts[0], times[0], e), e);
        SubIsStep(c, ts[0], times[0], e);
        assert es == [ev] + rest;
        if r.ret != SUCCESS {
          n := 1;
          RunCons(c, ev, []);
          RunNothing(r.core);
          assert es[..1] == [ev] + [] && r.out + [] == r.out;
        } else {
          var n1 := SubsAreRun(r.core, header, d, ts[1..], env, k + 1);
          n := n1 + 1;
          RunCons(c, ev, rest[..n1]);
          assert es[..n] == [ev] + rest[..n1];
        }
      }
    }
  }

  lemma RunNothing(c: Core)
    requires Valid(c)
    ensures Run(c, []) == (c, [])
  {
  }

  lemma RunCons(c: Core, e: Event, es: seq<Event>)
    requires Valid(c)
    ensures Run(c, [e] + es) == (Run(Step(c, e).core, es).0, Step(c, e).out + Run(Step(c, e).core, es).1)
  {
    hide X.Counted, Step;
    assert ([e] + es)[1..] == es;
  }

  lemma SubIsStep(c: Core, sub: Sub, timestamp: int, env: Env)
    requires Valid(c) && sub.IsAv()
    ensures OnSub(c, sub, timestamp, env) == Step(c, Media(SubMessage(sub, timestamp, env), env))
  {
    hide X.Counted, OnMedia;
  }

  lemma SubIgnored(c: Core, sub: Sub, timestamp: int, env: Env)
    requires Valid(c) && !sub.IsAv()
    ensures OnSub(c, sub, timestamp, env) == Outcome(c, [], SUCCESS)
  {
    hide X.Counted, OnMedia;
  }

  /**
   Receiving the encoding of any sub-messages does exactly what receiving the audio and video ones
   of them one by one would do, at the rebased times, when every one of those calls succeeds.
   */
  lemma AggregateOfEncoded(c: Core, header: int, ts: seq<Sub>, env: seq<Env>)
    requires Valid(c) && ts != []
    requires forall t | t in ts :: Encodable(t)
    requires OnSubs(c, header, -1, ts, env, 0).ret == SUCCESS
    ensures var r := OnAggregate(c, header, EncodeAll(ts), env);
      && (r.core, r.out) == Run(c, SubEvents(ts, Rebased(header, -1, ts), env, 0))
      && r.ret == SUCCESS
  {
    hide X.Counted, OnSubs, Run, IsTag, U24;
    DecodeEncode(ts);
    var n := SubsAreRun(c, header, -1, ts, env, 0);
    var es := SubEvents(ts, Rebased(header, -1, ts), env, 0);
    assert es[..n] == es;
    assert EncodeAll(ts) != [] by {
      assert |Encode(ts[0])| > 0;
    }
  }

  /**
   On any payload: what is processed is a run of the complete sub-messages at its front, all of them
   unless one fails, and the call succeeds exactly when none failed and nothing was left over.
   */
  lemma AggregateOnAnyBytes(c: Core, header: int, payload: seq<byte>, env: seq<Env>) returns (n: nat)
    requires Valid(c) && payload != []
    ensures var ts := Tags(payload);
      var es := SubEvents(ts, Rebased(header, -1, ts), env, 0);
      var r := OnAggregate(c, header, payload, env);
      var failed := OnSubs(c, header, -1, ts, env, 0).ret != SUCCESS;
      && n <= |es| && (r.core, r.out) == Run(c, es[..n])
      && (!failed ==> n == |es|)
      && (r.ret == SUCCESS <==> !failed && Leftover(payload) == [])
  {
    hide X.Counted, OnSubs, Run, HasTag, Tags, Leftover, SubEvents;
    n := SubsAreRun(c, header, -1, Tags(payload), env, 0);
  }

  // ----- the late joiner -----

  /** A message the group-of-pictures cache may hold: audio or H.264 video, and no codec header. */
  predicate IsFrame(m: Message) {
    match m.kind
    case Audio => !AudioSh(m.payload)
    case Video => H264(m.payload) && !VideoSh(m.payload)
    case Data => false
  }

  /** The frames among what was offered. */
  function Frames(os: seq<Offer>): seq<Message> {
    Filter(IsFrame, MessagesOf(os))
  }

  lemma FramesConcat(a: seq<Offer>, b: seq<Offer>)
    ensures Frames(a + b) == Frames(a) + Frames(b)
  {
    MessagesConcat(a, b);
    FilterConcat(IsFrame, MessagesOf(a), MessagesOf(b));
  }

  lemma FramesOfOne(m: Message, atc: bool)
    ensures Frames([Offer(m, atc)]) == if IsFrame(m) then [m] else []
  {
    assert [Offer(m, atc)][..0] == [] && [m][..0] == [];
    assert MessagesOf([Offer(m, atc)]) == [m];
    assert Filter(IsFrame, [m]) == Filter(IsFrame, []) + if IsFrame(m) then [m] else [];
  }

  /** The cache is where the offered frames end: a client that gets it misses nothing from there on. */
  predicate GapFree(c: Core, frames: seq<Message>) {
    IsSuffix(c.gop.cache, frames) && Consistent(c.gop)
  }

  lemma CachedSuffix(g: Gop, frames: seq<Message>, m: Message)
    requires Consistent(g) && IsSuffix(g.cache, frames) && Cacheable(m)
    ensures IsSuffix(Cached(g, m).cache, frames + [m]) && Consistent(Cached(g, m))
  {
    hide Cached, Consistent;
    CachedConsistent(g, m);
    CachedShape(g, m);
    SuffixStep(g.cache, frames, m);
  }

  /**
   The one way to lose a frame for late joiners: the first audio of a stream is AAC and ends before
   its packet type, and a group of pictures is already cached. The message has been offered to the
   consumers by then, but does not reach the cache.
   */
  predicate LosesFrame(c: Core, m: Message) {
    && m.kind.Audio? && AudioRejected(m.payload)
    && c.meta.audio.None?
    && c.gop.cache != []
  }

  lemma AudioOnFrames(c: Core, m: Message, env: Env)
    requires m.kind.Audio?
    ensures var r := AudioImp(c, m, env);
      && Frames(r.out) == (if IsFrame(m) then [m] else [])
      && r.core.gop ==
           if IsFrame(m) && !(c.meta.audio.None? && AudioRejected(m.payload)) then Cached(c.gop, m) else c.gop
  {
    hide Cached, Frames, Repeats, At, AudioFormat, AudioRejected, AudioSh, H264, VideoSh;
    NoFrames();
    FramesOfOne(m, c.atc);
    AudioFormatFacts(m.payload, env);
  }

  lemma VideoOnFrames(c: Core, m: Message, env: Env)
    requires m.kind.Video?
    ensures var r := VideoImp(c, m, env);
      && Frames(r.out) == (if IsFrame(m) then [m] else [])
      && r.core.gop == if IsFrame(m) then Cached(c.gop, m) else c.gop
  {
    assert !Cacheable(m) ==> Cached(c.gop, m) == c.gop;
    hide Cached, Frames, Repeats, At, H264;
    NoFrames();
    FramesOfOne(m, c.atc);
  }

  /** What one processed message does to the cache and to the frames offered. */
  lemma ImpOnFrames(c: Core, m: Message, env: Env)
    requires m.IsAv()
    ensures var r := Imp(c, m, env);
      && Frames(r.out) == (if IsFrame(m) then [m] else [])
      && r.core.gop == if m.kind.Audio? && IsFrame(m) && c.meta.audio.None? && AudioRejected(m.payload) then c.gop
                       else if IsFrame(m) then Cached(c.gop, m) else c.gop
  {
    hide AudioImp, VideoImp, Frames, IsFrame, Cached;
    if m.kind.Audio? {
      AudioOnFrames(c, m, env);
    } else {
      VideoOnFrames(c, m, env);
    }
  }

  /** The frames offered stay contiguous with the cache exactly when no frame was lost. */
  lemma ImpGapIff(c: Core, m: Message, env: Env, frames: seq<Message>)
    requires m.IsAv() && GapFree(c, frames)
    ensures var r := Imp(c, m, env);
      GapFree(r.core, frames + Frames(r.out)) <==> !LosesFrame(c, m)
  {
    AudioFormatFacts(m.payload, env);
    hide H264, AudioSh, AudioRejected, VideoSh, Keyframe, Imp, Frames, Cached;
    ImpOnFrames(c, m, env);
    ConsistentShape(c.gop);
    if IsFrame(m) {
      CachedSuffix(c.gop, frames, m);
      if LosesFrame(c, m) {
        var cache, f1 := c.gop.cache, frames + [m];
        if IsSuffix(cache, f1) {
          ShiftedSuffix(cache, frames, m);
        }
      }
    } else {
      assert frames + [] == frames;
    }
  }

  lemma SuffixShorter(c: seq<Message>, s: seq<Message>)
    requires c != [] && IsSuffix(c, s)
    ensures s != [] && s[|s| - 1] == c[|c| - 1]
    ensures IsSuffix(c[..|c| - 1], s[..|s| - 1])
  {
    assert s[|s| - |c|..][..|c| - 1] == s[..|s| - 1][|s| - |c|..];
  }

  /** A run that ends both `frames` and `frames + [m]` consists of `m` alone. */
  lemma {:induction false} ShiftedSuffix(c: seq<Message>, frames: seq<Message>, m: Message)
    requires c != [] && IsSuffix(c, frames) && IsSuffix(c, frames + [m])
    ensures c[0] == m
    decreases |c|
  {
    SuffixShorter(c, frames);
    SuffixShorter(c, frames + [m]);
    hide IsSuffix;
    var f, front := frames[..|frames| - 1], c[..|c| - 1];
    assert (frames + [m])[..|frames + [m]| - 1] == frames && f + [m] == frames;
    if |c| > 1 {
      ShiftedSuffix(front, f, m);
    }
  }

  predicate OnlyAv(c: Core) {
    forall m | m in c.mix.msgs :: m.IsAv()
  }

  predicate Healthy(c: Core) {
    Valid(c) && OnlyAv(c)
  }

  lemma HandedOnIsAv(c: Core, m: Message)
    requires Healthy(c) && m.IsAv()
    ensures var (c1, next) := HandedOn(c, m);
      && Healthy(c1) && c1.gop == c.gop && c1.meta == c.meta && c1.atc == c.atc
      && (next.Some? ==> next.value.IsAv())
  {
    hide X.Counted, X.Insert;
    forall x | x in X.Insert(c.mix.msgs, m) ensures x.IsAv() {
      X.InsertMember(c.mix.msgs, m, x);
    }
    if c.mixCorrect {
      X.PushedCounted(c.mix, m);
      X.PoppedCounted(X.Pushed(c.mix, m));
    }
  }

  /** The event makes a late joiner miss a frame. */
  predicate LosesAt(c: Core, e: Event)
    requires Valid(c)
  {
    && e.Media? && (e.m.kind.Video? ==> Acceptable(e.m.payload))
    && var (c1, next) := HandedOn(c, e.m);
       next.Some? && LosesFrame(c1, next.value)
  }

  lemma StepGapIff(c: Core, e: Event, frames: seq<Message>)
    requires Healthy(c) && WellFormed(e) && GapFree(c, frames)
    ensures Healthy(Step(c, e).core)
    ensures GapFree(Step(c, e).core, frames + Frames(Step(c, e).out)) <==> !LosesAt(c, e)
  {
    hide X.Counted, Imp, LosesFrame, Acceptable, HandedOn, OnMedia, Frames, LosesAt, GapFree;
    match e
    case Media(m, env) => MediaGapIff(c, m, env, frames);
    case _ => SilentGapIff(c, e, frames);
  }

  lemma NoFrames()
    ensures Frames([]) == []
  {
  }

  lemma MediaGapIff(c: Core, m: Message, env: Env, frames: seq<Message>)
    requires Healthy(c) && m.IsAv() && GapFree(c, frames)
    ensures Healthy(OnMedia(c, m, env).core)
    ensures GapFree(OnMedia(c, m, env).core, frames + Frames(OnMedia(c, m, env).out)) <==> !LosesAt(c, Media(m, env))
  {
    hide X.Counted, Imp, LosesFrame, Acceptable, HandedOn, Frames;
    NoFrames();
    assert frames + [] == frames;
    if !(m.kind.Video? && !Acceptable(m.payload)) {
      HandedOnIsAv(c, m);
      var (c1, next) := HandedOn(c, m);
      if next.Some? {
        ImpGapIff(c1, next.value, env, frames);
        ImpKeepsMix(c1, next.value, env);
      }
    }
  }

  lemma SilentGapIff(c: Core, e: Event, frames: seq<Message>)
    requires Healthy(c) && WellFormed(e) && GapFree(c, frames) && !e.Media?
    ensures Healthy(Step(c, e).core)
    ensures GapFree(Step(c, e).core, frames + Frames(Step(c, e).out)) && !LosesAt(c, e)
  {
    hide X.Counted, Frames;
    NoFrames();
    assert frames + [] == frames;
    if e.MetaData? {
      MetaDataNoFrames(c, e.atc, e.encoded, e.env);
    }
  }

  /** Every event keeps the mix queue in order and free of metadata. */
  lemma StepHealthy(c: Core, e: Event)
    requires Healthy(c) && WellFormed(e)
    ensures Healthy(Step(c, e).core)
  {
    hide X.Counted, Imp, Acceptable, HandedOn;
    if e.Media? && !(e.m.kind.Video? && !Acceptable(e.m.payload)) {
      HandedOnIsAv(c, e.m);
      var (c1, next) := HandedOn(c, e.m);
      if next.Some? {
        ImpKeepsMix(c1, next.value, e.env);
      }
    }
  }

  lemma ImpKeepsMix(c: Core, m: Message, env: Env)
    ensures Imp(c, m, env).core.mix == c.mix
  {
  }

  lemma MetaDataNoFrames(c: Core, atc: bool, encoded: Encoded, env: Env)
    ensures encoded.As? && encoded.m.kind.Data? ==> Frames(OnMetaData(c, atc, encoded, env).out) == []
  {
    if encoded.As? {
      FramesOfOne(encoded.m, atc);
    }
  }
}
