/**
 What a consumer that joins late is given of the stream, over whole lives of a source: when the frames
 are contiguous, under which codec headers they stand, and what a dispatch during the join does.
 */
module LateJoins {
  import opened Messages
  import opened GopCaches
  import opened Aggregates
  import C = Consumers
  import opened SourceSpec
  import opened SourceRuns
  import X = MixQueues
  import MQ = MessageQueues

  // ----- how a gap opens and closes -----

  /** The frame a call hands on to the cache, if any. */
  function FrameAt(c: Core, e: Event): Option<Message>
    requires Valid(c)
  {
    if e.Media? && (e.m.kind.Video? ==> Acceptable(e.m.payload)) then
      var next := HandedOn(c, e.m).1;
      if next.Some? && IsFrame(next.value) then next else None
    else None
  }

  /** The event starts the cache anew: it is emptied, or restarts at a keyframe. */
  predicate Restarts(c: Core, e: Event)
    requires Valid(c)
  {
    || e.Unpublish?
    || (e.SetCache? && !e.on)
    || (var f := FrameAt(c, e);
        f.Some? && (IsKeyframe(f.value) || (f.value.kind.Audio? && c.gop.audiosAfterVideo == PURE_AUDIO_GUESS_COUNT)))
  }

  /** Whether a gap is open after an event. */
  predicate GapStays(c: Core, e: Event, gap: bool)
    requires Valid(c)
  {
    LosesAt(c, e) || (gap && !Restarts(c, e))
  }

  /** Whether a run leaves a gap: the last loss has not been followed by a fresh start of the cache. */
  predicate GapAfter(c: Core, es: seq<Event>, gap: bool)
    requires Valid(c)
    decreases es
  {
    if es == [] then gap
    else GapAfter(Step(c, es[0]).core, es[1..], GapStays(c, es[0], gap))
  }

  /** Where the gap is: `early` and `late` are cached, `lost` stands between them in the stream and is not. */
  datatype Break = Break(before: seq<Message>, early: seq<Message>, lost: Message, late: seq<Message>)

  predicate BrokenBy(c: Core, frames: seq<Message>, b: Break) {
    && c.gop.cache == b.early + b.late && b.early != []
    && frames == b.before + [b.lost] + b.late
    && IsSuffix(b.early, b.before) && b.lost.kind.Audio?
  }

  /** A lost frame has left its trace as the cached audio, so no second one can be lost. */
  predicate Broken(c: Core, frames: seq<Message>, b: Break) {
    BrokenBy(c, frames, b) && c.meta.audio.Some? && Consistent(c.gop)
  }

  // ----- frames without their times -----

  function BodiesOf(s: seq<Message>): (r: seq<Message>)
    ensures |r| == |s|
    ensures forall i | 0 <= i < |s| :: r[i] == s[i].Body()
  {
    seq(|s|, i requires 0 <= i < |s| => s[i].Body())
  }

  lemma BodiesConcat(a: seq<Message>, b: seq<Message>)
    ensures BodiesOf(a + b) == BodiesOf(a) + BodiesOf(b)
  {
  }

  lemma BodiesSuffix(a: seq<Message>, b: seq<Message>)
    requires IsSuffix(a, b)
    ensures IsSuffix(BodiesOf(a), BodiesOf(b))
  {
    assert BodiesOf(b)[|b| - |a|..] == BodiesOf(b[|b| - |a|..]);
  }

  /** What is appended to both sides cancels out. */
  lemma SuffixExtendsIff(a: seq<Message>, b: seq<Message>, more: seq<Message>)
    ensures IsSuffix(a + more, b + more) <==> IsSuffix(a, b)
  {
    if |a| <= |b| {
      assert (b + more)[|b| - |a|..] == b[|b| - |a|..] + more;
      assert (a + more)[..|a|] == a && (b[|b| - |a|..] + more)[..|a|] == b[|b| - |a|..];
    }
  }

  /** Across a gap the cache is no end of the stream, not even up to times: it starts with a video. */
  lemma BrokenIsNoSuffix(c: Core, frames: seq<Message>, b: Break)
    requires Broken(c, frames, b)
    ensures !IsSuffix(BodiesOf(c.gop.cache), BodiesOf(frames))
  {
    ConsistentShape(c.gop);
    assert c.gop.cache[0] == b.early[0];
    var early, before, late := BodiesOf(b.early), BodiesOf(b.before), BodiesOf(b.late);
    BodiesConcat(b.early, b.late);
    BodiesConcat(b.before + [b.lost], b.late);
    BodiesConcat(b.before, [b.lost]);
    assert BodiesOf([b.lost]) == [b.lost.Body()];
    BodiesSuffix(b.early, b.before);
    hide IsSuffix, Consistent;
    SuffixExtendsIff(early, before + [b.lost.Body()], late);
    if IsSuffix(early, before + [b.lost.Body()]) {
      ShiftedSuffix(early, before, b.lost.Body());
    }
  }

  // ----- one event -----

  lemma ImpKeepsAudio(c: Core, m: Message, env: Env)
    ensures c.meta.audio.Some? ==> Imp(c, m, env).core.meta.audio.Some?
    ensures m.kind.Audio? ==> Imp(c, m, env).core.meta.audio.Some?
  {
    hide VideoSh, AudioSh, AudioFormat, Cached, Repeats;
  }

  lemma StepKeepsAudio(c: Core, e: Event)
    requires Healthy(c) && WellFormed(e)
    ensures c.meta.audio.Some? || LosesAt(c, e) ==> Step(c, e).core.meta.audio.Some?
  {
    hide X.Counted, Imp, Acceptable, HandedOn;
    if e.Media? && !(e.m.kind.Video? && !Acceptable(e.m.payload)) {
      HandedOnIsAv(c, e.m);
      var (c1, next) := HandedOn(c, e.m);
      if next.Some? {
        ImpKeepsAudio(c1, next.value, e.env);
      }
    }
  }

  /** What an event that loses no frame does to the cache and to the frames offered. */
  lemma StepOnFrames(c: Core, e: Event)
    requires Healthy(c) && WellFormed(e) && Consistent(c.gop) && !LosesAt(c, e)
    ensures var r, f := Step(c, e), FrameAt(c, e);
      && Frames(r.out) == (if f.Some? then [f.value] else [])
      && (f.Some? ==> r.core.gop == Cached(c.gop, f.value) && f.value.IsAv() && Cacheable(f.value))
      && (f.None? && !e.Unpublish? && !e.SetCache? ==> r.core.gop == c.gop)
  {
    NoFrames();
    hide X.Counted, Imp, Acceptable, HandedOn, Frames, Cached, Consistent;
    if e.MetaData? {
      MetaDataNoFrames(c, e.atc, e.encoded, e.env);
    } else if e.Media? && !(e.m.kind.Video? && !Acceptable(e.m.payload)) {
      HandedOnIsAv(c, e.m);
      var (c1, next) := HandedOn(c, e.m);
      if next.Some? {
        ImpOnFrames(c1, next.value, e.env);
        FrameIsCacheable(next.value);
        AudioStaysOut(c1.gop, next.value);
      }
    }
  }

  lemma AudioStaysOut(g: Gop, m: Message)
    requires Consistent(g)
    ensures m.kind.Audio? && g.cache == [] ==> Cached(g, m) == g
  {
    ConsistentShape(g);
  }

  lemma NoSecondLoss(c: Core, e: Event)
    requires Healthy(c) && WellFormed(e) && c.meta.audio.Some?
    ensures !LosesAt(c, e)
  {
    hide X.Counted, HandedOn;
    if e.Media? {
      HandedOnIsAv(c, e.m);
    }
  }

  lemma FrameIsCacheable(m: Message)
    ensures IsFrame(m) ==> Cacheable(m)
  {
    hide H264, AudioSh, VideoSh;
  }

  /** A frame is appended, unless it starts the cache anew or nothing can be appended to. */
  lemma CachedByRestart(g: Gop, m: Message)
    requires Consistent(g) && Cacheable(m) && m.IsAv()
    ensures var cache := Cached(g, m).cache;
      if Again(g, m) then cache == [] || cache == [m] else cache == g.cache + [m] || (cache == [] && g.cache == [])
  {
    hide H264, Keyframe, Playable, TrailingAudios, VideoCount;
    ConsistentShape(g);
    assert [] + [m] == [m];
  }

  /** What an event that loses no frame leaves in the cache: the frame it offered behind the old content, or alone. */
  lemma StepCache(c: Core, e: Event)
    requires Healthy(c) && WellFormed(e) && Consistent(c.gop) && !LosesAt(c, e)
    ensures var r := Step(c, e); var cache, f := r.core.gop.cache, Frames(r.out);
      && Consistent(r.core.gop)
      && (if Restarts(c, e) then cache == [] || cache == f
          else cache == c.gop.cache + f || (cache == [] && c.gop.cache == []))
  {
    hide X.Counted, OnlyAv, WellFormed, Step, Frames, Consistent, FrameAt, Restarts, Cached, LosesAt, Cacheable;
    StepOnFrames(c, e);
    var f := FrameAt(c, e);
    if f.Some? {
      CachedByRestart(c.gop, f.value);
      CachedConsistent(c.gop, f.value);
      RestartsAtFrame(c, e);
    } else {
      QuietStep(c, e);
      assert c.gop.cache + [] == c.gop.cache;
    }
  }

  /** Which frames start the cache anew. */
  predicate Again(g: Gop, m: Message) {
    IsKeyframe(m) || (m.kind.Audio? && g.audiosAfterVideo == PURE_AUDIO_GUESS_COUNT)
  }

  lemma RestartsAtFrame(c: Core, e: Event)
    requires Valid(c) && FrameAt(c, e).Some?
    ensures Restarts(c, e) <==> Again(c.gop, FrameAt(c, e).value)
  {
    hide X.Counted, HandedOn, IsFrame, Acceptable, IsKeyframe;
  }

  lemma QuietStep(c: Core, e: Event)
    requires Healthy(c) && WellFormed(e) && Consistent(c.gop) && !LosesAt(c, e) && FrameAt(c, e).None?
    ensures var g := Step(c, e).core.gop;
      Consistent(g) && g.cache == if Restarts(c, e) then [] else c.gop.cache
  {
    StepOnFrames(c, e);
    hide X.Counted, OnlyAv, OnMedia, Frames, FrameAt, LosesAt, Consistent;
    EmptyIsConsistent(Cleared(c.gop));
    EmptyIsConsistent(Cleared(c.gop).(enabled := false));
    EnabledStaysConsistent(c.gop);
  }

  lemma EmptyIsConsistent(g: Gop)
    requires g == Cleared(g)
    ensures Consistent(g)
  {
  }

  lemma EnabledStaysConsistent(g: Gop)
    requires Consistent(g)
    ensures Consistent(Set(g, true))
  {
    hide VideoCount, TrailingAudios, Playable;
  }

  /** Where the gap is after a frame that is appended to the cache. */
  function Later(b: Break, more: seq<Message>): Break {
    b.(late := b.late + more)
  }

  lemma BreakGrows(c: Core, c1: Core, frames: seq<Message>, b: Break, more: seq<Message>)
    requires BrokenBy(c, frames, b) && c1.gop.cache == c.gop.cache + more
    ensures BrokenBy(c1, frames + more, Later(b, more))
  {
    hide IsSuffix;
    assert b.early + (b.late + more) == b.early + b.late + more;
    assert b.before + [b.lost] + (b.late + more) == b.before + [b.lost] + b.late + more;
  }

  /** An event that does not start the cache anew leaves the gap where it is. */
  lemma BrokenStays(c: Core, e: Event, frames: seq<Message>, b: Break)
    requires Healthy(c) && WellFormed(e) && Broken(c, frames, b) && !Restarts(c, e)
    ensures Broken(Step(c, e).core, frames + Frames(Step(c, e).out), Later(b, Frames(Step(c, e).out)))
  {
    hide OnlyAv, X.Counted, WellFormed, Step, Frames, Consistent, Restarts, LosesAt;
    StepKeepsAudio(c, e);
    NoSecondLoss(c, e);
    StepCache(c, e);
    BreakGrows(c, Step(c, e).core, frames, b, Frames(Step(c, e).out));
  }

  /** A fresh start of the cache closes the gap. */
  lemma BrokenHeals(c: Core, e: Event, frames: seq<Message>, b: Break)
    requires Healthy(c) && WellFormed(e) && Broken(c, frames, b) && Restarts(c, e)
    ensures GapFree(Step(c, e).core, frames + Frames(Step(c, e).out))
  {
    hide OnlyAv, X.Counted, WellFormed, Step, Frames, Consistent, Restarts, LosesAt;
    NoSecondLoss(c, e);
    StepCache(c, e);
    var f := Frames(Step(c, e).out);
    assert (frames + f)[|frames|..] == f && (frames + f)[|frames + f|..] == [];
  }

  /** A loss opens a gap behind what is cached. */
  lemma LossBreaks(c: Core, e: Event, frames: seq<Message>) returns (b: Break)
    requires Healthy(c) && WellFormed(e) && GapFree(c, frames) && LosesAt(c, e)
    ensures Broken(Step(c, e).core, frames + Frames(Step(c, e).out), b)
  {
    StepKeepsAudio(c, e);
    var (c1, next) := HandedOn(c, e.m);
    HandedOnIsAv(c, e.m);
    hide X.Counted, Imp, Acceptable, HandedOn, Frames, Consistent;
    ImpOnFrames(c1, next.value, e.env);
    AudioFormatFacts(next.value.payload, e.env);
    b := Break(frames, c.gop.cache, next.value, []);
    assert c.gop.cache + [] == c.gop.cache;
    assert frames + [next.value] + [] == frames + [next.value];
  }

  // ----- runs -----

  /** What a source knows of its cache: that no gap is open, or where it is. */
  predicate Traced(c: Core, frames: seq<Message>, gap: bool, b: Break) {
    Healthy(c) && if gap then Broken(c, frames, b) else GapFree(c, frames)
  }

  lemma StepTraced(c: Core, e: Event, frames: seq<Message>, gap: bool, b: Break) returns (b1: Break)
    requires Traced(c, frames, gap, b) && WellFormed(e)
    ensures Traced(Step(c, e).core, frames + Frames(Step(c, e).out), GapStays(c, e, gap), b1)
    ensures gap ==> !LosesAt(c, e)
  {
    hide OnlyAv, Step, LosesAt, Restarts, Frames, IsSuffix, Consistent, X.Counted, WellFormed;
    b1 := b;
    StepHealthy(c, e);
    if gap {
      NoSecondLoss(c, e);
      if Restarts(c, e) {
        BrokenHeals(c, e, frames, b);
      } else {
        BrokenStays(c, e, frames, b);
        b1 := Later(b, Frames(Step(c, e).out));
      }
    } else {
      StepGapIff(c, e, frames);
      if LosesAt(c, e) {
        b1 := LossBreaks(c, e, frames);
      }
    }
  }

  lemma TracedSuffix(c: Core, frames: seq<Message>, gap: bool, b: Break)
    requires Traced(c, frames, gap, b)
    ensures IsSuffix(c.gop.cache, frames) <==> !gap
    ensures IsSuffix(BodiesOf(c.gop.cache), BodiesOf(frames)) <==> !gap
    ensures forall m | m in c.gop.cache :: m in frames
  {
    hide OnlyAv, IsSuffix, Consistent, BodiesOf, X.Counted;
    if gap {
      BrokenIsNoSuffix(c, frames, b);
      SuffixOfBodies(c.gop.cache, frames);
      CacheOfBroken(c, frames, b);
    } else {
      BodiesSuffix(c.gop.cache, frames);
      SuffixMembers(c.gop.cache, frames);
    }
  }

  /** After any run: the cache is an end of the frames offered, up to times too, exactly when no gap is open. */
  lemma {:induction false} RunGapIff(c: Core, es: seq<Event>, frames: seq<Message>, gap: bool, b: Break)
    requires Traced(c, frames, gap, b) && forall e | e in es :: WellFormed(e)
    ensures var (c1, out) := Run(c, es); var all := frames + Frames(out);
      && Healthy(c1) && Consistent(c1.gop)
      && (IsSuffix(c1.gop.cache, all) <==> !GapAfter(c, es, gap))
      && (IsSuffix(BodiesOf(c1.gop.cache), BodiesOf(all)) <==> !GapAfter(c, es, gap))
      && forall m | m in c1.gop.cache :: m in all
    decreases es
  {
    hide OnlyAv, Step, GapStays, Frames, IsSuffix, Consistent, BodiesOf, X.Counted, WellFormed;
    if es == [] {
      NoFrames();
      assert frames + [] == frames;
      TracedSuffix(c, frames, gap, b);
    } else {
      var e, r := es[0], Step(c, es[0]);
      assert e in es;
      var b1 := StepTraced(c, e, frames, gap, b);
      hide Traced;
      var more := Run(r.core, es[1..]).1;
      RunGapIff(r.core, es[1..], frames + Frames(r.out), GapStays(c, e, gap), b1);
      FramesConcat(r.out, more);
      assert frames + Frames(r.out) + Frames(more) == frames + Frames(r.out + more);
    }
  }

  lemma SuffixOfBodies(a: seq<Message>, b: seq<Message>)
    ensures IsSuffix(a, b) ==> IsSuffix(BodiesOf(a), BodiesOf(b))
  {
    if IsSuffix(a, b) {
      BodiesSuffix(a, b);
    }
  }

  lemma SuffixMembers(a: seq<Message>, b: seq<Message>)
    requires IsSuffix(a, b)
    ensures forall m | m in a :: m in b
  {
  }

  lemma CacheOfBroken(c: Core, frames: seq<Message>, b: Break)
    requires Broken(c, frames, b)
    ensures forall m | m in c.gop.cache :: m in frames
  {
    SuffixMembers(b.early, b.before);
    hide IsSuffix, Consistent;
  }

  // ----- the late joiner -----

  /** The cache holds frames only, so the frames a consumer is given from it are the cache. */
  lemma FramesOfCache(cache: seq<Message>, past: seq<C.Offer>, atc: bool)
    requires forall m | m in cache :: m in Frames(past)
    ensures Frames(Offers(cache, atc)) == cache
  {
    forall m | m in cache ensures IsFrame(m) {
      X.FilterMember(IsFrame, MessagesOf(past), m);
    }
    OffersOfFrames(cache, atc);
  }

  lemma {:induction false} OffersOfFrames(ms: seq<Message>, atc: bool)
    requires forall m | m in ms :: IsFrame(m)
    ensures Frames(Offers(ms, atc)) == ms
  {
    hide IsFrame;
    if ms == [] {
      NoFrames();
    } else {
      OffersOfFrames(ms[1..], atc);
      FramesConcat([C.Offer(ms[0], atc)], Offers(ms[1..], atc));
      FramesOfOne(ms[0], atc);
      assert ms[0] in ms;
    }
  }

  /** A source as it is created. */
  predicate Fresh(c: Core) {
    Healthy(c) && c.gop == Cleared(c.gop)
  }

  lemma StartsGapFree(c: Core)
    requires c.gop == Cleared(c.gop)
    ensures GapFree(c, [])
  {
  }

  lemma FirstOffer(ms: seq<Message>, atc: bool)
    ensures ms != [] ==> Offers(ms, atc) != [] && Offers(ms, atc)[0].m == ms[0]
  {
  }

  /** The facts about the run before the join. */
  lemma CacheAtJoin(c: Core, before: seq<Event>)
    requires Fresh(c) && forall e | e in before :: WellFormed(e)
    ensures var (c1, past) := Run(c, before);
      && Healthy(c1) && Consistent(c1.gop)
      && (IsSuffix(c1.gop.cache, Frames(past)) <==> !GapAfter(c, before, false))
      && (IsSuffix(BodiesOf(c1.gop.cache), BodiesOf(Frames(past))) <==> !GapAfter(c, before, false))
      && Frames(Offers(c1.gop.cache, c1.atc)) == c1.gop.cache
  {
    hide OnlyAv, X.Counted, Run, GapAfter, Frames, Offers, IsSuffix, Consistent, BodiesOf;
    StartsGapFree(c);
    RunGapIff(c, before, [], false, Break([], [], Message(Audio, 0, [], 0), []));
    var (c1, past) := Run(c, before);
    assert [] + Frames(past) == Frames(past);
    FramesOfCache(c1.gop.cache, past, c1.atc);
  }

  /**
   A consumer that joins after any run `before` is given the cached metadata, audio header and video
   header, in this order, and then what is cached, which starts with a video, and what comes live through
   any run `after`. The frames of these two are a contiguous end of all frames the source ever offered,
   exactly when no gap is open at the join.
   */
  lemma LateJoinerSeesNoGapIff(c: Core, before: seq<Event>, after: seq<Event>)
    requires Fresh(c) && forall e | e in before :: WellFormed(e)
    ensures var (c1, past) := Run(c, before);
      var live := Run(Joined(c1), after).1;
      var tail := Offers(c1.gop.cache, c1.atc) + live;
      && Opening(c1, true, true, true) + live == Dumps(Joined(c1).meta, c1.atc, true, true) + tail
      && (c1.gop.cache != [] ==> tail[0].m.kind.Video?)
      && (IsSuffix(Frames(tail), Frames(past + live)) <==> !GapAfter(c, before, false))
  {
    hide OnlyAv, X.Counted, Run, GapAfter, GapStays, Dumps, IsFrame, Frames, Offers, IsSuffix, Consistent, BodiesOf;
    CacheAtJoin(c, before);
    var (c1, past) := Run(c, before);
    var live := Run(Joined(c1), after).1;
    var cached := Offers(c1.gop.cache, c1.atc);
    FramesConcat(cached, live);
    FramesConcat(past, live);
    SuffixExtendsIff(c1.gop.cache, Frames(past), Frames(live));
    ConsistentShape(c1.gop);
    FirstOffer(c1.gop.cache, c1.atc);
    assert Dumps(Joined(c1).meta, c1.atc, true, true) + cached + live
        == Dumps(Joined(c1).meta, c1.atc, true, true) + (cached + live);
  }

  // ----- the times of what is dumped -----

  /** No offer has an earlier time than the one in front of it. */
  predicate InTime(os: seq<C.Offer>) {
    forall i, j | 0 <= i < j < |os| :: os[i].m.timestamp <= os[j].m.timestamp
  }

  lemma DumpedAtStart(c: Core, ds: bool, dm: bool)
    requires c.atc && c.gop.cache != []
    ensures forall o | o in Dumps(Joined(c).meta, c.atc, dm, ds) :: o.m.timestamp == c.gop.cache[0].timestamp
  {
  }

  lemma InTimeConcat(front: seq<C.Offer>, back: seq<C.Offer>, t: int)
    requires (forall o | o in front :: o.m.timestamp == t) && (back != [] ==> back[0].m.timestamp == t)
    ensures forall i | 0 <= i < |front| :: (front + back)[i].m.timestamp == t
    ensures InTime(back) ==> InTime(front + back)
  {
    forall i | 0 <= i < |front| ensures front[i].m.timestamp == t {
      assert front[i] in front;
    }
  }

  /**
   With atc, what stands in front of the cached pictures carries the time of the first of them, so the
   whole opening is in order when the pictures are. Everything in it is marked with the atc of the source.
   */
  lemma OpeningIsInTime(c: Core, ds: bool, dm: bool, dg: bool)
    requires c.atc && c.gop.cache != []
    ensures var os, n := Opening(c, ds, dm, dg), |Opening(c, ds, dm, false)|;
      && n <= |os| && os[n..] == (if dg then Offers(c.gop.cache, true) else [])
      && (forall o | o in os :: o.atc)
      && (forall i | 0 <= i < n :: os[i].m.timestamp == c.gop.cache[0].timestamp)
      && (InTime(Offers(c.gop.cache, true)) ==> InTime(os))
  {
    hide Opening, InTime, Offers;
    var front, back := Opening(c, ds, dm, false), if dg then Offers(c.gop.cache, true) else [];
    OpeningSplit(c, ds, dm, dg);
    FirstOffer(c.gop.cache, true);
    MarkedOffers(c.gop.cache);
    InTimeConcat(front, back, c.gop.cache[0].timestamp);
    NothingInTime();
  }

  lemma MarkedOffers(cache: seq<Message>)
    ensures forall o | o in Offers(cache, true) :: o.atc
  {
  }

  lemma OpeningSplit(c: Core, ds: bool, dm: bool, dg: bool)
    requires c.atc && c.gop.cache != []
    ensures Opening(c, ds, dm, dg) == Opening(c, ds, dm, false) + if dg then Offers(c.gop.cache, true) else []
    ensures forall o | o in Opening(c, ds, dm, false) :: o.atc && o.m.timestamp == c.gop.cache[0].timestamp
  {
    DumpedAtStart(c, ds, dm);
    MarkedAtc(Joined(c).meta, dm, ds);
    hide Dumps, Joined, Offers;
    var front := Dumps(Joined(c).meta, c.atc, dm, ds);
    assert front + [] == front;
  }

  lemma NothingInTime()
    ensures InTime([])
  {
  }

  lemma MarkedAtc(meta: Meta, dm: bool, ds: bool)
    ensures forall o | o in Dumps(meta, true, dm, ds) :: o.atc
  {
  }

  function Listed(m: Option<Message>): seq<Message> {
    if m.Some? then [m.value] else []
  }

  /** Without atc, or without pictures: metadata, audio header and video header as they are cached. */
  lemma OpeningAsCached(c: Core)
    requires !c.atc || c.gop.cache == []
    ensures MessagesOf(Opening(c, true, true, true)) ==
      Listed(c.meta.data) + Listed(c.meta.audio) + Listed(c.meta.video) + c.gop.cache
  {
    hide MessagesOf, Dumps;
    OpeningMessages(c.meta, c.atc, c.gop.cache);
  }

  lemma OpeningMessages(meta: Meta, atc: bool, cache: seq<Message>)
    ensures MessagesOf(Dumps(meta, atc, true, true) + Offers(cache, atc)) ==
      Listed(meta.data) + Listed(meta.audio) + Listed(meta.video) + cache
  {
    hide MessagesOf, Offers, AsOffer;
    var data, ash, vsh := AsOffer(meta.data, atc), AsOffer(meta.audio, atc), AsOffer(meta.video, atc);
    assert Dumps(meta, atc, true, true) == data + ash + vsh by {
      assert data + (ash + vsh) == data + ash + vsh;
    }
    MessagesConcat(data + ash + vsh, Offers(cache, atc));
    MessagesConcat(data + ash, vsh);
    MessagesConcat(data, ash);
    MessagesOfOption(meta.data, atc);
    MessagesOfOption(meta.audio, atc);
    MessagesOfOption(meta.video, atc);
    MessagesOfOffers(cache, atc);
  }

  lemma MessagesOfOption(m: Option<Message>, atc: bool)
    ensures MessagesOf(AsOffer(m, atc)) == Listed(m)
  {
    if m.Some? {
      assert [C.Offer(m.value, atc)][..0] == [];
    }
  }

  lemma {:induction false} MessagesOfOffers(ms: seq<Message>, atc: bool)
    ensures MessagesOf(Offers(ms, atc)) == ms
  {
    if ms != [] {
      MessagesOfOffers(ms[1..], atc);
      MessagesConcat([C.Offer(ms[0], atc)], Offers(ms[1..], atc));
      MessagesOfOption(Some(ms[0]), atc);
    }
  }

  // ----- one message on the direct way -----

  function Restamped(m: Option<Message>, t: int): Option<Message> {
    match m
    case None => None
    case Some(x) => Some(Message(x.kind, x.block, x.payload, t))
  }

  /**
   With atc an audio moves the cached audio header and the metadata to its own time, and a video the
   video header and the metadata; without it nothing cached moves. A first audio takes the header's place.
   */
  lemma FrameMovesHeaders(c: Core, m: Message, env: Env)
    requires Valid(c) && !c.mixCorrect && m.IsAv() && !m.IsHeader() && (m.kind.Video? ==> Acceptable(m.payload))
    requires m.kind.Audio? && c.meta.audio.None? ==> !AudioRejected(m.payload)
    ensures var meta := Step(c, Media(m, env)).core.meta;
      && meta.data == (if c.atc then Restamped(c.meta.data, m.timestamp) else c.meta.data)
      && meta.video == (if c.atc && m.kind.Video? then Restamped(c.meta.video, m.timestamp) else c.meta.video)
      && meta.audio ==
           if m.kind.Audio? && c.meta.audio.None? then Some(m)
           else if c.atc && m.kind.Audio? then Restamped(c.meta.audio, m.timestamp)
           else c.meta.audio
  {
    DirectStep(c, m, env);
    AudioFormatFacts(m.payload, env);
    hide X.Counted, Step, Acceptable, Cached, AudioFormat, AudioSh, VideoSh, AudioRejected;
  }

  /** The code of a call is what the parser says of a header, or 3001 for a first audio it refuses. */
  lemma MediaCode(c: Core, m: Message, env: Env)
    requires Valid(c) && !c.mixCorrect && m.IsAv() && (m.kind.Video? ==> Acceptable(m.payload))
    ensures Step(c, Media(m, env)).ret ==
      if m.IsHeader() then env.format
      else if m.kind.Audio? && c.meta.audio.None? && AudioRejected(m.payload) then 3001
      else 0
  {
    DirectStep(c, m, env);
    if !AudioSh(m.payload) {
      FirstAudioRefusedIff(m.payload);
    }
    hide X.Counted, Step, Acceptable, Cached, FirstAudio, AudioSh, VideoSh, AudioRejected;
  }

  /** Every header replaces the cached one of its kind, whatever comes of it, and leaves the pictures. */
  lemma HeaderIsCached(c: Core, m: Message, env: Env)
    requires Valid(c) && !c.mixCorrect && m.IsHeader() && (m.kind.Video? ==> Acceptable(m.payload))
    ensures var c1 := Step(c, Media(m, env)).core;
      && c1.gop == c.gop && c1.meta.data == c.meta.data
      && c1.meta.audio == (if m.kind.Audio? then Some(m) else c.meta.audio)
      && c1.meta.video == (if m.kind.Video? then Some(m) else c.meta.video)
  {
    DirectStep(c, m, env);
    hide X.Counted, Step, Acceptable, Cached, AudioFormat, AudioSh, VideoSh;
  }

  /** A video in another codec is offered and not cached; one with a head nobody knows is dropped at once. */
  lemma OtherVideo(c: Core, m: Message, env: Env)
    requires Valid(c) && m.kind.Video? && !H264(m.payload)
    ensures !Acceptable(m.payload) ==> Step(c, Media(m, env)) == Outcome(c, [], 0)
    ensures Acceptable(m.payload) && !c.mixCorrect ==>
      var r := Step(c, Media(m, env)); r.out == [C.Offer(m, c.atc)] && r.core.gop == c.gop && r.ret == 0
  {
    hide X.Counted, Acceptable, H264, HandedOn;
    if Acceptable(m.payload) && !c.mixCorrect {
      DirectStep(c, m, env);
      NotH264(m);
    }
  }

  lemma NotH264(m: Message)
    requires m.kind.Video? && !H264(m.payload)
    ensures !VideoSh(m.payload) && !Cacheable(m)
  {
  }

  // ----- the way through the reorder queue -----

  /** These messages, one call each. */
  function Calls(ms: seq<Message>, env: Env): (es: seq<Event>)
    ensures |es| == |ms|
  {
    if ms == [] then [] else [Media(ms[0], env)] + Calls(ms[1..], env)
  }

  /** One call with the reorder queue on: the frame it lets go is offered, and the queue is left as it leaves it. */
  lemma MixedStep(c: Core, t: X.Trace, m: Message, env: Env)
    requires Healthy(c) && c.mixCorrect && t.mix == c.mix && m.IsAv() && (m.kind.Video? ==> Acceptable(m.payload))
    ensures var r, u := Step(c, Media(m, env)), X.PopOut(X.PushIn(t, m));
      && Healthy(r.core) && r.core.mixCorrect && r.core.mix == u.mix
      && Filter(IsFrame, u.popped) == Filter(IsFrame, t.popped) + Frames(r.out)
  {
    StepHealthy(c, Media(m, env));
    HandedOnIsAv(c, m);
    NoFrames();
    X.PushedCounted(c.mix, m);
    X.PoppedCounted(X.Pushed(c.mix, m));
    hide X.Counted, X.Pushed, X.MixOk, Imp, Acceptable, OnlyAv, Frames, IsFrame, Filter;
    var (c1, next) := HandedOn(c, m);
    var popped := X.Popped(X.Pushed(c.mix, m)).1;
    assert next == popped;
    if next.Some? {
      ImpOnFrames(c1, next.value, env);
      ImpKeepsMixCorrect(c1, next.value, env);
      X.FilterSnoc(IsFrame, t.popped, next.value);
    }
    assert Filter(IsFrame, t.popped) + [] == Filter(IsFrame, t.popped);
  }

  lemma ImpKeepsMixCorrect(c: Core, m: Message, env: Env)
    ensures Imp(c, m, env).core.mix == c.mix && Imp(c, m, env).core.mixCorrect == c.mixCorrect
  {
    hide VideoSh, AudioSh, AudioFormat, Cached, Repeats;
  }

  /** With the reorder queue on, consumers are offered the frames that the queue lets go, in its order. */
  lemma {:induction false} MixedFrames(c: Core, t: X.Trace, ms: seq<Message>, env: Env)
    requires Healthy(c) && c.mixCorrect && t.mix == c.mix
    requires forall m | m in ms :: m.IsAv() && (m.kind.Video? ==> Acceptable(m.payload))
    ensures var (c1, out) := Run(c, Calls(ms, env));
      && c1.mix == X.Run(t, ms).mix
      && Filter(IsFrame, X.Run(t, ms).popped) == Filter(IsFrame, t.popped) + Frames(out)
    decreases ms
  {
    hide X.Counted, OnlyAv, Step, Acceptable, X.PushIn, X.PopOut, Frames, Filter;
    if ms == [] {
      NoFrames();
      assert Filter(IsFrame, t.popped) + [] == Filter(IsFrame, t.popped);
    } else {
      assert ms[0] in ms && forall m | m in ms[1..] :: m in ms;
      var r := Step(c, Media(ms[0], env));
      MixedStep(c, t, ms[0], env);
      MixedFrames(r.core, X.PopOut(X.PushIn(t, ms[0])), ms[1..], env);
      assert Calls(ms, env)[1..] == Calls(ms[1..], env);
      FramesConcat(r.out, Run(r.core, Calls(ms[1..], env)).1);
    }
  }

  // ----- a dispatch during the join -----

  predicate Distinct(s: seq<Message>) {
    forall i, j | 0 <= i < j < |s| :: s[i] != s[j]
  }

  lemma LastRepeats(past: seq<Message>, mid: seq<Message>, cache: seq<Message>)
    requires mid != [] && cache != [] && IsSuffix(mid + cache, past + mid)
    ensures var all := past + mid; |cache| < |all| && all[|all| - 1 - |cache|] == all[|all| - 1]
  {
    var all, given := past + mid, mid + cache;
    assert all[|all| - |given|..][|mid| - 1] == given[|mid| - 1] == mid[|mid| - 1];
  }

  /** What was given live is not given again with the cache, when there is nothing to repeat. */
  lemma RepeatedIff(past: seq<Message>, mid: seq<Message>, cache: seq<Message>)
    requires Distinct(past + mid)
    ensures IsSuffix(mid + cache, past + mid) <==> cache == [] || (mid == [] && IsSuffix(cache, past))
  {
    if cache == [] {
      assert mid + cache == mid && (past + mid)[|past|..] == mid;
    } else if mid == [] {
      assert mid + cache == cache && past + mid == past;
    } else if IsSuffix(mid + cache, past + mid) {
      LastRepeats(past, mid, cache);
    }
  }

  /**
   A consumer is listed first and filled afterwards. When the run `mid` falls between the two, the
   consumer has what it offers already, and is then given the cache in which the same frames may be.
   The frames it is given, the dumped headers aside, are in order and contiguous exactly when nothing
   is cached by then, or no frame came between and no gap is open. Frames are told apart by their
   payload block, their time and their bytes.
   */
  lemma TwoStepJoinIff(c: Core, before: seq<Event>, mid: seq<Event>, after: seq<Event>)
    requires Fresh(c) && forall e | e in before + mid :: WellFormed(e)
    requires Distinct(Frames(Run(c, before + mid).1))
    ensures var (c1, past) := Run(c, before);
      var (c2, between) := Run(c1, mid);
      var live := Run(Joined(c2), after).1;
      var given := between + Offers(c2.gop.cache, c2.atc) + live;
      IsSuffix(Frames(given), Frames(past + between + live)) <==>
        c2.gop.cache == [] || (Frames(between) == [] && !GapAfter(c, before + mid, false))
  {
    hide OnlyAv, X.Counted, Run, GapAfter, GapStays, Dumps, Frames, Offers, IsSuffix, Consistent, BodiesOf, WellFormed,
         Distinct;
    CacheAtJoin(c, before + mid);
    RunConcat(c, before, mid);
    var (c1, past) := Run(c, before);
    var (c2, between) := Run(c1, mid);
    var live := Run(Joined(c2), after).1;
    var cached := Offers(c2.gop.cache, c2.atc);
    FramesConcat(between + cached, live);
    FramesConcat(between, cached);
    FramesConcat(past + between, live);
    FramesConcat(past, between);
    SuffixExtendsIff(Frames(between) + c2.gop.cache, Frames(past) + Frames(between), Frames(live));
    RepeatedIff(Frames(past), Frames(between), c2.gop.cache);
    assert Frames(between) == [] ==> Frames(past) + Frames(between) == Frames(past);
  }

  // ----- whether the dump is part of it -----

  /** The cached messages are of the kinds they are cached as; only the audio need not be a codec header. */
  predicate MetaOk(c: Core) {
    && (c.meta.data.Some? ==> c.meta.data.value.kind.Data?)
    && (c.meta.video.Some? ==> c.meta.video.value.kind.Video? && VideoSh(c.meta.video.value.payload))
    && (c.meta.audio.Some? ==> c.meta.audio.value.kind.Audio?)
  }

  lemma ImpMetaOk(c: Core, m: Message, env: Env)
    requires MetaOk(c) && m.IsAv()
    ensures MetaOk(Imp(c, m, env).core)
  {
    hide VideoSh, AudioSh, AudioFormat, Cached, Repeats;
  }

  lemma StepMetaOk(c: Core, e: Event)
    requires Healthy(c) && WellFormed(e) && MetaOk(c)
    ensures MetaOk(Step(c, e).core)
  {
    hide X.Counted, Imp, VideoSh, Acceptable, HandedOn;
    if e.Media? && !(e.m.kind.Video? && !Acceptable(e.m.payload)) {
      HandedOnIsAv(c, e.m);
      var (c1, next) := HandedOn(c, e.m);
      if next.Some? {
        ImpMetaOk(c1, next.value, e.env);
      }
    }
  }

  lemma {:induction false} RunMetaOk(c: Core, es: seq<Event>)
    requires Healthy(c) && MetaOk(c) && forall e | e in es :: WellFormed(e)
    ensures MetaOk(Run(c, es).0)
    decreases es
  {
    hide OnlyAv, Step, MetaOk, X.Counted;
    if es != [] {
      assert es[0] in es;
      StepHealthy(c, es[0]);
      StepMetaOk(c, es[0]);
      RunMetaOk(Step(c, es[0]).core, es[1..]);
    }
  }

  /** The frame a consumer is given among the cached headers: the cached audio, when it is none. */
  function StrayAudio(meta: Meta): seq<Message> {
    if meta.audio.Some? && !AudioSh(meta.audio.value.payload) then [meta.audio.value] else []
  }

  lemma FramesOfOption(m: Option<Message>, atc: bool)
    ensures Frames(AsOffer(m, atc)) == if m.Some? && IsFrame(m.value) then [m.value] else []
  {
    hide Frames, IsFrame;
    NoFrames();
    if m.Some? {
      FramesOfOne(m.value, atc);
    }
  }

  lemma MetaFrames(c: Core)
    requires MetaOk(c)
    ensures c.meta.data.Some? ==> !IsFrame(c.meta.data.value)
    ensures c.meta.video.Some? ==> !IsFrame(c.meta.video.value)
    ensures c.meta.audio.Some? ==> (IsFrame(c.meta.audio.value) <==> !AudioSh(c.meta.audio.value.payload))
  {
    hide AudioSh, VideoSh, H264;
  }

  lemma FramesOfDumps(c: Core)
    requires MetaOk(c)
    ensures Frames(Dumps(c.meta, c.atc, true, true)) == StrayAudio(c.meta)
  {
    hide Frames, IsFrame, AudioSh, MetaOk, AsOffer;
    var data, ash, vsh := AsOffer(c.meta.data, c.atc), AsOffer(c.meta.audio, c.atc), AsOffer(c.meta.video, c.atc);
    MetaFrames(c);
    FramesConcat(data, ash);
    FramesConcat(data + ash, vsh);
    FramesOfOption(c.meta.data, c.atc);
    FramesOfOption(c.meta.audio, c.atc);
    FramesOfOption(c.meta.video, c.atc);
    assert Dumps(c.meta, c.atc, true, true) == data + ash + vsh;
    assert [] + StrayAudio(c.meta) + [] == StrayAudio(c.meta);
  }

  lemma SuffixCons(a: Message, t: seq<Message>, all: seq<Message>)
    requires IsSuffix(t, all)
    ensures IsSuffix([a] + t, all) <==> |t| < |all| && all[|all| - |t| - 1] == a
  {
    if |t| < |all| {
      var k := |all| - |t|;
      assert all[k - 1..] == [all[k - 1]] + all[k..];
      assert ([a] + t)[0] == a && ([a] + t)[1..] == t;
    }
  }

  lemma JoinedMetaOk(c: Core)
    requires MetaOk(c)
    ensures MetaOk(Joined(c))
  {
    hide VideoSh;
  }

  lemma StrayBody(c: Core)
    ensures BodiesOf(StrayAudio(Joined(c).meta)) == BodiesOf(StrayAudio(c.meta))
  {
    hide AudioSh;
  }

  /**
   Everything a late joiner is given, the dumped headers included, is contiguous up to times, exactly
   when no gap is open, and the cached audio is a codec header, or is the very frame in front of the
   cached pictures, or there is none. A stream whose audio is not AAC has its first audio in that place.
   */
  lemma OpeningContiguousIff(c: Core, before: seq<Event>, after: seq<Event>)
    requires Fresh(c) && MetaOk(c) && forall e | e in before :: WellFormed(e)
    ensures var (c1, past) := Run(c, before);
      var live := Run(Joined(c1), after).1;
      var given := BodiesOf(Frames(Opening(c1, true, true, true) + live));
      var cache, frames, stray := c1.gop.cache, Frames(past), StrayAudio(c1.meta);
      IsSuffix(given, BodiesOf(Frames(past + live))) <==>
        && !GapAfter(c, before, false)
        && (stray == [] ||
            (|cache| < |frames| && frames[|frames| - |cache| - 1].Body() == stray[0].Body()))
  {
    hide OnlyAv, X.Counted, Run, GapAfter, GapStays, Dumps, Frames, Offers, IsSuffix, MetaOk, Consistent, StrayAudio;
    CacheAtJoin(c, before);
    RunMetaOk(c, before);
    var (c1, past) := Run(c, before);
    JoinedMetaOk(c1);
    FramesOfDumps(Joined(c1));
    var live := Run(Joined(c1), after).1;
    var cached := Offers(c1.gop.cache, c1.atc);
    FramesConcat(Dumps(Joined(c1).meta, c1.atc, true, true) + cached, live);
    FramesConcat(Dumps(Joined(c1).meta, c1.atc, true, true), cached);
    FramesConcat(past, live);
    var stray, cache, frames := StrayAudio(Joined(c1).meta), c1.gop.cache, Frames(past);
    StrayBody(c1);
    BodiesConcat(stray + cache, Frames(live));
    BodiesConcat(stray, cache);
    BodiesConcat(frames, Frames(live));
    SuffixExtendsIff(BodiesOf(stray) + BodiesOf(cache), BodiesOf(frames), BodiesOf(Frames(live)));
    StrayIsOne(Joined(c1).meta);
    StrayInFront(BodiesOf(stray), BodiesOf(cache), BodiesOf(frames));
  }

  lemma StrayIsOne(meta: Meta)
    ensures |StrayAudio(meta)| <= 1
  {
  }

  lemma StrayInFront(stray: seq<Message>, t: seq<Message>, all: seq<Message>)
    requires |stray| <= 1
    ensures IsSuffix(stray + t, all) <==>
      IsSuffix(t, all) && (stray == [] || (|t| < |all| && all[|all| - |t| - 1] == stray[0]))
  {
    if stray == [] {
      assert stray + t == t;
    } else {
      assert stray == [stray[0]];
      if IsSuffix(stray + t, all) {
        assert all[|all| - |t|..] == (stray + t)[1..] == t;
      }
      if IsSuffix(t, all) {
        SuffixCons(stray[0], t, all);
      }
    }
  }

  /** MP3 twice and then a keyframe: a late joiner is given the first audio, misses the second, and gets the picture. */
  lemma DumpCanBeStray()
    ensures var c := Core(false, false, FreshGop, Meta(None, None, None), X.EmptyMix);
      var env := Env(false, SUCCESS, 0);
      var a, b := Message(Audio, 0, [0x2F, 0], 0), Message(Audio, 1, [0x2F, 0], 26);
      var key := Message(Video, 2, [0x17, 1], 40);
      var c1 := Step(Step(Step(c, Media(a, env)).core, Media(b, env)).core, Media(key, env)).core;
      c1.gop.cache == [key] && StrayAudio(Joined(c1).meta) == [a]
  {
    var c := Core(false, false, FreshGop, Meta(None, None, None), X.EmptyMix);
    var env := Env(false, SUCCESS, 0);
    var a, b := Message(Audio, 0, [0x2F, 0], 0), Message(Audio, 1, [0x2F, 0], 26);
    var key := Message(Video, 2, [0x17, 1], 40);
    assert IsFrame(a) && IsFrame(b) && IsFrame(key) && Acceptable(key.payload) && !AudioRejected(a.payload);
    assert Cached(FreshGop, a) == FreshGop && Cached(FreshGop, b) == FreshGop && Cached(FreshGop, key).cache == [key];
    assert !AudioSh(a.payload) && !AudioSh(b.payload) && !VideoSh(key.payload);
    AudioFormatFacts(a.payload, env);
    hide AudioSh, VideoSh, Acceptable, AudioRejected, AudioFormat, Cached, Frames, X.Counted, Step;
    DirectStep(c, a, env);
    var c1 := Imp(c, a, env).core;
    DirectStep(c1, b, env);
    var c2 := Imp(c1, b, env).core;
    DirectStep(c2, key, env);
  }

  lemma MissesAudio(c: Core, key: Message, aac: Message, env: Env)
    requires Valid(c) && !c.mixCorrect && c.meta.audio.None? && c.gop == FreshGop
    requires key.kind.Video? && Acceptable(key.payload) && IsFrame(key) && IsKeyframe(key)
    requires aac.kind.Audio? && AudioRejected(aac.payload) && IsFrame(aac)
    ensures var r0 := Step(c, Media(key, env));
      var r1 := Step(r0.core, Media(aac, env));
      Frames(r0.out) + Frames(r1.out) == [key, aac] && r1.core.gop.cache == [key]
  {
    KeyframeAlone(key);
    hide AudioSh, VideoSh, Acceptable, AudioRejected, IsFrame, IsKeyframe, Cached, Frames, X.Counted, Imp, Step;
    DirectStep(c, key, env);
    ImpOnFrames(c, key, env);
    VideoKeepsAudioMeta(c, key, env);
    var c1 := Imp(c, key, env).core;
    DirectStep(c1, aac, env);
    ImpOnFrames(c1, aac, env);
    assert [key] + [aac] == [key, aac];
  }

  lemma KeyframeAlone(key: Message)
    requires IsKeyframe(key) && Cacheable(key)
    ensures Cached(FreshGop, key).cache == [key]
  {
  }

  /** How a gap opens: behind a keyframe, the first audio is AAC and ends before its packet type. */
  lemma LateJoinerCanMissAudio()
    ensures var c := Core(false, false, FreshGop, Meta(None, None, None), X.EmptyMix);
      var env := Env(false, SUCCESS, 0);
      var key := Message(Video, 0, [0x17, 1], 0);
      var aac := Message(Audio, 1, [0xAF], 0);
      var r0 := Step(c, Media(key, env));
      var r1 := Step(r0.core, Media(aac, env));
      && Frames(r0.out) + Frames(r1.out) == [key, aac]
      && r1.core.gop.cache == [key]
  {
    hide Frames, Step;
    var c := Core(false, false, FreshGop, Meta(None, None, None), X.EmptyMix);
    MissesAudio(c, Message(Video, 0, [0x17, 1], 0), Message(Audio, 1, [0xAF], 0), Env(false, SUCCESS, 0));
  }

  lemma DirectStep(c: Core, m: Message, env: Env)
    requires Valid(c) && !c.mixCorrect && (m.kind.Video? ==> Acceptable(m.payload))
    ensures Step(c, Media(m, env)) == Imp(c, m, env)
  {
    hide X.Counted, Imp, Acceptable;
  }

  lemma VideoKeepsAudioMeta(c: Core, m: Message, env: Env)
    requires m.kind.Video?
    ensures var c1 := Imp(c, m, env).core; c1.meta.audio == c.meta.audio && c1.mixCorrect == c.mixCorrect
  {
  }
}
