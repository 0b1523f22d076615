/**
 Under which codec headers a consumer that joins late is given its frames. The source keeps the last
 header of each kind and the current pictures apart, so a header that comes in the middle of a group
 of pictures is put in front of pictures it was not sent for.
 */
module JoinHeaders {
  import opened Messages
  import opened GopCaches
  import opened Aggregates
  import opened SourceSpec
  import opened SourceRuns
  import opened LateJoins
  import C = Consumers
  import X = MixQueues
  import MQ = MessageQueues

  /** A frame and the bytes of the header of its kind that a client has got last when the frame comes. */
  datatype Framed = Framed(m: Message, header: Option<seq<byte>>)

  /** The bytes of the last header of kind `k`. */
  function HeaderIn(k: Kind, s: seq<Message>): Option<seq<byte>> {
    var h := MQ.LastHeader(k, s);
    if h.None? then None else Some(h.value.payload)
  }

  /** The frames of `s` as a client gets them that has got `before` already. */
  function Shown(before: seq<Message>, s: seq<Message>): seq<Framed> {
    if s == [] then []
    else
      var front, m := s[..|s| - 1], s[|s| - 1];
      Shown(before, front) + if IsFrame(m) then [Framed(m, HeaderIn(m.kind, before + front))] else []
  }

  function FramesIn(fs: seq<Framed>): (r: seq<Message>)
    ensures |r| == |fs|
    ensures forall i | 0 <= i < |fs| :: r[i] == fs[i].m
  {
    seq(|fs|, i requires 0 <= i < |fs| => fs[i].m)
  }

  lemma FramesInConcat(a: seq<Framed>, b: seq<Framed>)
    ensures FramesIn(a + b) == FramesIn(a) + FramesIn(b)
  {
  }

  predicate Ends(small: seq<Framed>, big: seq<Framed>) {
    |small| <= |big| && big[|big| - |small|..] == small
  }

  lemma {:induction false} ShownFrames(before: seq<Message>, s: seq<Message>)
    ensures FramesIn(Shown(before, s)) == Filter(IsFrame, s)
  {
    hide IsFrame, HeaderIn;
    if s != [] {
      ShownFrames(before, s[..|s| - 1]);
    }
  }

  lemma {:induction false} ShownConcat(before: seq<Message>, a: seq<Message>, b: seq<Message>)
    ensures Shown(before, a + b) == Shown(before, a) + Shown(before + a, b)
  {
    hide IsFrame, HeaderIn;
    if b == [] {
      assert a + b == a;
    } else {
      var front := b[..|b| - 1];
      assert (a + b)[..|a + b| - 1] == a + front;
      assert before + (a + front) == before + a + front;
      ShownConcat(before, a, front);
    }
  }

  lemma HeaderInConcat(k: Kind, a: seq<Message>, b: seq<Message>)
    ensures HeaderIn(k, a + b) == if HeaderIn(k, b).Some? then HeaderIn(k, b) else HeaderIn(k, a)
  {
    MQ.LastHeaderConcat(k, a, b);
  }

  // ----- what comes live -----

  /** A frame of kind `k` comes before any header of that kind. */
  predicate Bare(k: Kind, s: seq<Message>) {
    s != [] &&
    (Bare(k, s[..|s| - 1])
     || (IsFrame(s[|s| - 1]) && s[|s| - 1].kind == k && HeaderIn(k, s[..|s| - 1]).None?))
  }

  /** Two clients are shown the same exactly when they differ only in headers that nothing stands under. */
  lemma {:induction false} ShownSameIff(a: seq<Message>, b: seq<Message>, s: seq<Message>)
    ensures Shown(a, s) == Shown(b, s) <==>
      forall k: Kind :: Bare(k, s) ==> HeaderIn(k, a) == HeaderIn(k, b)
  {
    hide IsFrame, HeaderIn;
    if s != [] {
      var front, m := s[..|s| - 1], s[|s| - 1];
      ShownSameIff(a, b, front);
      ShownFrames(a, front);
      ShownFrames(b, front);
      HeaderInConcat(m.kind, a, front);
      HeaderInConcat(m.kind, b, front);
      var x, y := Shown(a, front), Shown(b, front);
      assert |x| == |FramesIn(x)| == |FramesIn(y)| == |y|;
      assert Shown(a, s)[..|x|] == x && Shown(b, s)[..|x|] == y;
      assert Shown(a, s) == Shown(b, s) ==> Shown(a, s)[|x|..] == Shown(b, s)[|x|..];
      assert forall k :: Bare(k, front) ==> Bare(k, s);
      assert Bare(m.kind, s) <==> Bare(m.kind, front) || (IsFrame(m) && HeaderIn(m.kind, front).None?);
    }
  }

  // ----- what is cached -----

  /** What a frame stands under. */
  datatype Stand = Stand(kind: Kind, header: Option<seq<byte>>)

  function StandsOf(fs: seq<Framed>): set<Stand> {
    set f | f in fs :: Stand(f.m.kind, f.header)
  }

  /** The last `n` frames. */
  function Last(fs: seq<Framed>, n: nat): seq<Framed> {
    if n <= |fs| then fs[|fs| - n..] else fs
  }

  /** The headers that the cached frames were sent under, after an event, when `sent` had been sent before it. */
  function UnderNext(c: Core, e: Event, sent: seq<Message>, under: set<Stand>): set<Stand>
    requires Valid(c)
  {
    if Step(c, e).core.gop.cache == [] then {}
    else
      var f := FrameAt(c, e);
      (if Restarts(c, e) then {} else under)
      + if f.None? then {} else {Stand(f.value.kind, HeaderIn(f.value.kind, sent))}
  }

  function Under(c: Core, es: seq<Event>, sent: seq<Message>, under: set<Stand>): set<Stand>
    requires Valid(c)
    decreases es
  {
    if es == [] then under
    else Under(Step(c, es[0]).core, es[1..], sent + MessagesOf(Step(c, es[0]).out), UnderNext(c, es[0], sent, under))
  }

  /** Without a gap, `under` is what the cached frames stand under among all that were sent. */
  predicate Known(c: Core, sent: seq<Message>, gap: bool, under: set<Stand>) {
    !gap ==> under == StandsOf(Last(Shown([], sent), |c.gop.cache|))
  }

  lemma StepOut(c: Core, e: Event)
    requires Valid(c)
    ensures |MessagesOf(Step(c, e).out)| <= 1
  {
    hide X.Counted, Acceptable, HandedOn, Cached, VideoSh, AudioSh, AudioFormat, Repeats, MessagesOf;
  }

  lemma ShownOne(before: seq<Message>, s: seq<Message>)
    requires |s| <= 1
    ensures Shown(before, s) == if Filter(IsFrame, s) == [] then [] else [Framed(s[0], HeaderIn(s[0].kind, before))]
    ensures Filter(IsFrame, s) != [] ==> Filter(IsFrame, s) == s
  {
    hide IsFrame, HeaderIn;
    ShownFrames(before, s);
    if s != [] {
      assert s[..0] == [] && s == [s[0]] && before + [] == before;
    }
  }

  lemma StandsGrow(fs: seq<Framed>, more: seq<Framed>, n: nat)
    requires n <= |fs|
    ensures StandsOf(Last(fs + more, n + |more|)) == StandsOf(Last(fs, n)) + StandsOf(more)
    ensures Last(fs + more, |more|) == more && StandsOf([]) == {} && Last(fs + more, 0) == []
    ensures forall f :: StandsOf([f]) == {Stand(f.m.kind, f.header)}
  {
    assert Last(fs + more, n + |more|) == Last(fs, n) + more;
  }

  /** What an event adds to what is shown. */
  function Adds(c: Core, e: Event, sent: seq<Message>): seq<Framed>
    requires Valid(c)
  {
    var f := FrameAt(c, e);
    if f.None? then [] else [Framed(f.value, HeaderIn(f.value.kind, sent))]
  }

  lemma StepShown(c: Core, e: Event, sent: seq<Message>)
    requires Healthy(c) && WellFormed(e) && Consistent(c.gop) && !LosesAt(c, e)
    ensures Shown([], sent + MessagesOf(Step(c, e).out)) == Shown([], sent) + Adds(c, e, sent)
    ensures |Frames(Step(c, e).out)| == |Adds(c, e, sent)|
  {
    StepOnFrames(c, e);
    hide OnlyAv, X.Counted, WellFormed, Step, Consistent, LosesAt, FrameAt, IsFrame, Shown, HeaderIn, Filter,
         MessagesOf, Cached, Cacheable;
    var out := MessagesOf(Step(c, e).out);
    StepOut(c, e);
    ShownConcat([], sent, out);
    assert [] + sent == sent;
    ShownOne(sent, out);
  }

  lemma CacheWithin(c: Core, sent: seq<Message>, b: Break)
    requires Traced(c, Filter(IsFrame, sent), false, b)
    ensures |c.gop.cache| <= |Shown([], sent)|
  {
    ShownFrames([], sent);
    hide Consistent, OnlyAv;
  }

  lemma TracedConsistent(c: Core, frames: seq<Message>, gap: bool, b: Break)
    requires Traced(c, frames, gap, b)
    ensures Healthy(c) && Consistent(c.gop)
  {
    hide Consistent;
  }

  lemma StepKnown(c: Core, e: Event, sent: seq<Message>, gap: bool, b: Break, under: set<Stand>)
    requires Traced(c, Filter(IsFrame, sent), gap, b) && WellFormed(e) && Known(c, sent, gap, under)
    ensures Known(Step(c, e).core, sent + MessagesOf(Step(c, e).out), GapStays(c, e, gap), UnderNext(c, e, sent, under))
  {
    hide OnlyAv, X.Counted, WellFormed, Step, Consistent, Restarts, LosesAt, FrameAt, IsFrame, Shown, HeaderIn,
         StandsOf, Last, Filter, MessagesOf, Traced, Frames;
    TracedConsistent(c, Filter(IsFrame, sent), gap, b);
    if !GapStays(c, e, gap) {
      StepCache(c, e);
      StepShown(c, e, sent);
      var fs, more := Shown([], sent), Adds(c, e, sent);
      StandsGrow(fs, more, 0);
      if !Restarts(c, e) {
        CacheWithin(c, sent, b);
        StandsGrow(fs, more, |c.gop.cache|);
      }
    }
  }

  lemma {:induction false} RunKnown(c: Core, es: seq<Event>, sent: seq<Message>, gap: bool, b: Break, under: set<Stand>)
    requires Traced(c, Filter(IsFrame, sent), gap, b) && Known(c, sent, gap, under)
    requires forall e | e in es :: WellFormed(e)
    ensures var (c1, out) := Run(c, es);
      Known(c1, sent + MessagesOf(out), GapAfter(c, es, gap), Under(c, es, sent, under))
    decreases es
  {
    hide OnlyAv, X.Counted, WellFormed, Step, GapStays, Known, UnderNext, Frames, Filter, MessagesOf;
    if es == [] {
      NoMessages();
      assert sent + [] == sent;
    } else {
      var e, r := es[0], Step(c, es[0]);
      assert e in es;
      var b1 := StepTraced(c, e, Filter(IsFrame, sent), gap, b);
      StepKnown(c, e, sent, gap, b, under);
      FramesOfSent(sent, r.out);
      hide Traced;
      var more := Run(r.core, es[1..]).1;
      RunKnown(r.core, es[1..], sent + MessagesOf(r.out), GapStays(c, e, gap), b1, UnderNext(c, e, sent, under));
      MessagesConcat(r.out, more);
      assert sent + MessagesOf(r.out) + MessagesOf(more) == sent + MessagesOf(r.out + more);
    }
  }

  lemma NoMessages()
    ensures MessagesOf([]) == []
  {
  }

  lemma FramesOfSent(sent: seq<Message>, out: seq<C.Offer>)
    ensures Filter(IsFrame, sent + MessagesOf(out)) == Filter(IsFrame, sent) + Frames(out)
  {
    FilterConcat(IsFrame, sent, MessagesOf(out));
  }

  // ----- the late joiner -----

  lemma {:induction false} ShownFramesOnly(before: seq<Message>, s: seq<Message>)
    requires forall m | m in s :: IsFrame(m)
    ensures |Shown(before, s)| == |s|
    ensures forall i | 0 <= i < |s| :: Shown(before, s)[i] == Framed(s[i], HeaderIn(s[i].kind, before))
    ensures forall k :: HeaderIn(k, before + s) == HeaderIn(k, before)
  {
    hide IsFrame;
    if s == [] {
      assert before + s == before;
    } else {
      var front, m := s[..|s| - 1], s[|s| - 1];
      assert m in s;
      FrameIsNoHeader(m);
      ShownFramesOnly(before, front);
      assert (before + s)[..|before + s| - 1] == before + front;
    }
  }

  lemma FrameIsNoHeader(m: Message)
    requires IsFrame(m)
    ensures forall k :: !MQ.IsHeaderOf(k, m)
  {
  }

  lemma EndsExtendsIff(a: seq<Framed>, b: seq<Framed>, x: seq<Framed>, y: seq<Framed>)
    requires |x| == |y|
    ensures Ends(a + x, b + y) <==> Ends(a, b) && x == y
  {
    if |a| <= |b| {
      assert (b + y)[|b| - |a|..] == b[|b| - |a|..] + y;
      assert (a + x)[..|a|] == a && (a + x)[|a|..] == x;
      assert (b[|b| - |a|..] + y)[..|a|] == b[|b| - |a|..] && (b[|b| - |a|..] + y)[|a|..] == y;
    }
  }

  /** Every frame that the set speaks of stands under the header that `dumped` ends with. */
  predicate AllUnder(under: set<Stand>, dumped: seq<Message>) {
    forall s | s in under :: s.header == HeaderIn(s.kind, dumped)
  }

  lemma SameByStands(dumped: seq<Message>, cache: seq<Message>, shown: seq<Framed>, last: seq<Framed>)
    requires |shown| == |cache| == |last|
    requires forall i | 0 <= i < |cache| :: shown[i] == Framed(cache[i], HeaderIn(cache[i].kind, dumped))
    ensures last == shown <==> FramesIn(last) == cache && AllUnder(StandsOf(last), dumped)
  {
    hide HeaderIn;
    if FramesIn(last) == cache && AllUnder(StandsOf(last), dumped) {
      forall i | 0 <= i < |cache| ensures last[i] == shown[i] {
        assert Stand(last[i].m.kind, last[i].header) in StandsOf(last);
        assert FramesIn(last)[i] == cache[i];
      }
    }
  }

  lemma EndsIsLast(shown: seq<Framed>, cache: seq<Message>, fs: seq<Framed>)
    requires |shown| == |cache|
    ensures Ends(shown, fs) <==> |cache| <= |fs| && Last(fs, |cache|) == shown
    ensures IsSuffix(cache, FramesIn(fs)) <==> |cache| <= |fs| && FramesIn(Last(fs, |cache|)) == cache
  {
    if |cache| <= |fs| {
      assert FramesIn(fs)[|fs| - |cache|..] == FramesIn(Last(fs, |cache|));
    }
  }

  lemma EndsByStands(dumped: seq<Message>, cache: seq<Message>, fs: seq<Framed>)
    requires forall m | m in cache :: IsFrame(m)
    ensures Ends(Shown(dumped, cache), fs) <==>
      IsSuffix(cache, FramesIn(fs)) && AllUnder(StandsOf(Last(fs, |cache|)), dumped)
  {
    hide IsFrame, HeaderIn, Shown, AllUnder, StandsOf, Ends, IsSuffix, FramesIn;
    ShownFramesOnly(dumped, cache);
    var shown := Shown(dumped, cache);
    EndsIsLast(shown, cache, fs);
    if |cache| <= |fs| {
      SameByStands(dumped, cache, shown, Last(fs, |cache|));
    }
  }

  /** After any run: what the cache is shown as to a client that has got `dumped`. */
  lemma CacheShownIff(c: Core, before: seq<Event>, dumped: seq<Message>)
    requires Fresh(c) && forall e | e in before :: WellFormed(e)
    ensures var (c1, past) := Run(c, before);
      Ends(Shown(dumped, c1.gop.cache), Shown([], MessagesOf(past))) <==>
        !GapAfter(c, before, false) && AllUnder(Under(c, before, [], {}), dumped)
  {
    hide OnlyAv, X.Counted, WellFormed, Run, GapAfter, IsSuffix, Consistent, BodiesOf, IsFrame, Shown, Ends, Under,
         StandsOf, Last, AllUnder, Offers;
    var (c1, past) := Run(c, before);
    var b := Break([], [], Message(Audio, 0, [], 0), []);
    StartsGapFree(c);
    StartsKnown(c);
    RunGapIff(c, before, [], false, b);
    RunKnown(c, before, [], false, b, {});
    assert [] + Frames(past) == Frames(past) && [] + MessagesOf(past) == MessagesOf(past);
    ShownFrames([], MessagesOf(past));
    CachedAreFrames(c1.gop.cache, past);
    EndsByStands(dumped, c1.gop.cache, Shown([], MessagesOf(past)));
  }

  lemma StartsKnown(c: Core)
    requires c.gop == Cleared(c.gop)
    ensures Filter(IsFrame, []) == [] && Known(c, [], false, {})
  {
  }

  lemma CachedAreFrames(cache: seq<Message>, past: seq<C.Offer>)
    requires forall m | m in cache :: m in Frames(past)
    ensures forall m | m in cache :: IsFrame(m)
  {
    forall m | m in cache ensures IsFrame(m) {
      X.FilterMember(IsFrame, MessagesOf(past), m);
    }
  }

  /**
   A consumer that joins after any run `before` gets the cached headers, then what is cached, then what
   comes live through any run `after`. It is shown an end of what others were shown, each frame under
   the header it was sent under, exactly when no gap is open, every cached frame was sent under the
   header of its kind that is cached now, and the headers cached now are those that went out last, as
   far as a live frame comes before the next one.
   */
  lemma JoinerSeesSentHeadersIff(c: Core, before: seq<Event>, after: seq<Event>)
    requires Fresh(c) && forall e | e in before :: WellFormed(e)
    ensures var (c1, past) := Run(c, before);
      var live := MessagesOf(Run(Joined(c1), after).1);
      var dumped, sent := MessagesOf(Dumps(Joined(c1).meta, c1.atc, true, true)), MessagesOf(past);
      Ends(Shown(dumped, c1.gop.cache + live), Shown([], sent + live)) <==>
        && !GapAfter(c, before, false)
        && AllUnder(Under(c, before, [], {}), dumped)
        && forall k :: Bare(k, live) ==> HeaderIn(k, dumped) == HeaderIn(k, sent)
  {
    hide OnlyAv, X.Counted, WellFormed, Run, GapAfter, GapStays, IsSuffix, Consistent, BodiesOf, IsFrame, Shown, Ends,
         Under, AllUnder, MessagesOf, Dumps, Bare, HeaderIn, Offers;
    var (c1, past) := Run(c, before);
    var live := MessagesOf(Run(Joined(c1), after).1);
    var dumped, sent, cache := MessagesOf(Dumps(Joined(c1).meta, c1.atc, true, true)), MessagesOf(past), c1.gop.cache;
    CacheShownIff(c, before, dumped);
    CacheIsFrames(c, before);
    ShownFramesOnly(dumped, cache);
    ShownConcat(dumped, cache, live);
    ShownConcat([], sent, live);
    assert [] + sent == sent;
    ShownFrames(dumped + cache, live);
    ShownFrames(sent, live);
    EndsExtendsIff(Shown(dumped, cache), Shown([], sent), Shown(dumped + cache, live), Shown(sent, live));
    ShownSameIff(dumped + cache, sent, live);
  }

  lemma CacheIsFrames(c: Core, before: seq<Event>)
    requires Fresh(c) && forall e | e in before :: WellFormed(e)
    ensures forall m | m in Run(c, before).0.gop.cache :: IsFrame(m)
  {
    hide OnlyAv, X.Counted, WellFormed, Run, GapAfter, IsSuffix, Consistent, BodiesOf, IsFrame;
    StartsGapFree(c);
    RunGapIff(c, before, [], false, Break([], [], Message(Audio, 0, [], 0), []));
    var (c1, past) := Run(c, before);
    assert [] + Frames(past) == Frames(past);
    CachedAreFrames(c1.gop.cache, past);
  }

  // ----- the cached headers and those that went out -----

  /** The bytes of a cached header; what is cached as the audio header need not be one. */
  function HeaderBytes(k: Kind, m: Option<Message>): Option<seq<byte>> {
    if m.Some? && MQ.IsHeaderOf(k, m.value) then Some(m.value.payload) else None
  }

  /** The event has a video header refused by the codec parser: it is cached, and goes out to nobody. */
  predicate RefusesVideoHeader(c: Core, e: Event)
    requires Valid(c)
  {
    && e.Media? && (e.m.kind.Video? ==> Acceptable(e.m.payload))
    && var next := HandedOn(c, e.m).1;
       next.Some? && next.value.IsVideoHeader() && e.env.format != SUCCESS
  }

  predicate NeverRefuses(c: Core, es: seq<Event>)
    requires Valid(c)
    decreases es
  {
    es != [] ==> !RefusesVideoHeader(c, es[0]) && NeverRefuses(Step(c, es[0]).core, es[1..])
  }

  predicate AudioAgrees(c: Core, sent: seq<Message>) {
    HeaderIn(Audio, sent) == HeaderBytes(Audio, c.meta.audio)
  }

  predicate VideoAgrees(c: Core, sent: seq<Message>) {
    HeaderIn(Video, sent) == HeaderBytes(Video, c.meta.video)
  }

  lemma HeaderInSnoc(k: Kind, sent: seq<Message>, m: Message)
    ensures HeaderIn(k, sent + [m]) == if MQ.IsHeaderOf(k, m) then Some(m.payload) else HeaderIn(k, sent)
  {
    hide MQ.IsHeaderOf;
    assert (sent + [m])[..|sent + [m]| - 1] == sent;
  }

  lemma OfferedOne(m: Message, atc: bool)
    ensures MessagesOf([C.Offer(m, atc)]) == [m]
  {
    assert [C.Offer(m, atc)][..0] == [];
  }

  lemma ImpAgrees(c: Core, m: Message, env: Env, sent: seq<Message>)
    requires m.IsAv() && MetaOk(c)
    ensures var r := Imp(c, m, env); var all := sent + MessagesOf(r.out);
      && (AudioAgrees(c, sent) ==> AudioAgrees(r.core, all))
      && (VideoAgrees(c, sent) && !(m.IsVideoHeader() && env.format != SUCCESS) ==> VideoAgrees(r.core, all))
  {
    NoMessages();
    hide VideoSh, AudioSh, AudioFormat, Cached, HeaderIn, MessagesOf;
    HeaderInSnoc(Audio, sent, m);
    HeaderInSnoc(Video, sent, m);
    OfferedOne(m, c.atc);
    assert sent + [] == sent;
  }

  lemma StepAgrees(c: Core, e: Event, sent: seq<Message>)
    requires Healthy(c) && WellFormed(e) && MetaOk(c)
    ensures var r := Step(c, e); var all := sent + MessagesOf(r.out);
      && (AudioAgrees(c, sent) ==> AudioAgrees(r.core, all))
      && (VideoAgrees(c, sent) && !RefusesVideoHeader(c, e) ==> VideoAgrees(r.core, all))
  {
    NoMessages();
    hide X.Counted, OnlyAv, Imp, Acceptable, HandedOn, VideoSh, HeaderIn, MessagesOf;
    assert sent + [] == sent;
    if e.MetaData? {
      if e.encoded.As? {
        OfferedOne(e.encoded.m, e.atc);
        HeaderInSnoc(Audio, sent, e.encoded.m);
        HeaderInSnoc(Video, sent, e.encoded.m);
      }
    } else if e.Media? && !(e.m.kind.Video? && !Acceptable(e.m.payload)) {
      HandedOnIsAv(c, e.m);
      var (c1, next) := HandedOn(c, e.m);
      if next.Some? {
        ImpAgrees(c1, next.value, e.env, sent);
      }
    }
  }

  lemma {:induction false} RunAgrees(c: Core, es: seq<Event>, sent: seq<Message>)
    requires Healthy(c) && MetaOk(c) && forall e | e in es :: WellFormed(e)
    ensures var (c1, out) := Run(c, es); var all := sent + MessagesOf(out);
      && (AudioAgrees(c, sent) ==> AudioAgrees(c1, all))
      && (VideoAgrees(c, sent) && NeverRefuses(c, es) ==> VideoAgrees(c1, all))
    decreases es
  {
    hide OnlyAv, X.Counted, WellFormed, Step, MetaOk, AudioAgrees, VideoAgrees, RefusesVideoHeader, MessagesOf;
    if es == [] {
      NoMessages();
      assert sent + [] == sent;
    } else {
      var e, r := es[0], Step(c, es[0]);
      assert e in es;
      StepHealthy(c, e);
      StepMetaOk(c, e);
      StepAgrees(c, e, sent);
      var more := Run(r.core, es[1..]).1;
      RunAgrees(r.core, es[1..], sent + MessagesOf(r.out));
      MessagesConcat(r.out, more);
      assert sent + MessagesOf(r.out) + MessagesOf(more) == sent + MessagesOf(r.out + more);
    }
  }

  lemma HeaderInThree(k: Kind, a: Option<Message>, b: Option<Message>, c: Option<Message>, atc: bool)
    ensures HeaderIn(k, MessagesOf(AsOffer(a, atc) + AsOffer(b, atc) + AsOffer(c, atc))) ==
      if HeaderBytes(k, c).Some? then HeaderBytes(k, c)
      else if HeaderBytes(k, b).Some? then HeaderBytes(k, b)
      else HeaderBytes(k, a)
  {
    hide HeaderIn, HeaderBytes, MessagesOf, AsOffer;
    var x, y, z := AsOffer(a, atc), AsOffer(b, atc), AsOffer(c, atc);
    HeadersOfOne(a, atc);
    HeadersOfOne(b, atc);
    HeadersOfOne(c, atc);
    MessagesConcat(x, y);
    MessagesConcat(x + y, z);
    HeaderInConcat(k, MessagesOf(x), MessagesOf(y));
    HeaderInConcat(k, MessagesOf(x + y), MessagesOf(z));
  }

  /** What the dumped messages give as headers is what is cached as headers. */
  lemma HeadersOfDumps(c: Core)
    requires MetaOk(c)
    ensures var dumped := MessagesOf(Dumps(Joined(c).meta, c.atc, true, true));
      && HeaderIn(Audio, dumped) == HeaderBytes(Audio, c.meta.audio)
      && HeaderIn(Video, dumped) == HeaderBytes(Video, c.meta.video)
  {
    hide AudioSh, VideoSh, HeaderIn, MessagesOf, AsOffer;
    var meta := Joined(c).meta;
    assert Dumps(meta, c.atc, true, true) ==
      AsOffer(meta.data, c.atc) + AsOffer(meta.audio, c.atc) + AsOffer(meta.video, c.atc);
    HeaderInThree(Audio, meta.data, meta.audio, meta.video, c.atc);
    HeaderInThree(Video, meta.data, meta.audio, meta.video, c.atc);
  }

  lemma HeadersOfOne(m: Option<Message>, atc: bool)
    ensures forall k :: HeaderIn(k, MessagesOf(AsOffer(m, atc))) == HeaderBytes(k, m)
  {
    hide MQ.IsHeaderOf;
    NoMessages();
    if m.Some? {
      OfferedOne(m.value, atc);
      forall k ensures HeaderIn(k, [m.value]) == HeaderBytes(k, m) {
        HeaderInSnoc(k, [], m.value);
        assert [] + [m.value] == [m.value];
      }
    }
  }

  lemma NothingAgrees(c: Core)
    requires c.meta == Meta(None, None, None)
    ensures AudioAgrees(c, []) && VideoAgrees(c, [])
  {
  }

  /**
   A late joiner is dumped the audio header that went out last, always; and the video header that went
   out last, unless the codec parser refused one.
   */
  lemma DumpedWentOutLast(c: Core, before: seq<Event>)
    requires Fresh(c) && c.meta == Meta(None, None, None) && forall e | e in before :: WellFormed(e)
    ensures var (c1, past) := Run(c, before);
      var dumped, sent := MessagesOf(Dumps(Joined(c1).meta, c1.atc, true, true)), MessagesOf(past);
      && HeaderIn(Audio, dumped) == HeaderIn(Audio, sent)
      && (NeverRefuses(c, before) ==> HeaderIn(Video, dumped) == HeaderIn(Video, sent))
  {
    hide OnlyAv, X.Counted, WellFormed, Run, MessagesOf, Dumps, HeaderIn, HeaderBytes, NeverRefuses;
    NothingAgrees(c);
    RunAgrees(c, before, []);
    RunMetaOk(c, before);
    var (c1, past) := Run(c, before);
    HeadersOfDumps(c1);
    assert [] + MessagesOf(past) == MessagesOf(past);
  }

  // ----- repeated headers -----

  /**
   With the reorder queue off, an audio header is held back exactly when headers are to be reduced and
   the last one that went out has the same bytes; otherwise it goes out as it is.
   */
  lemma AudioHeaderHeldBackIff(c: Core, before: seq<Event>, m: Message, env: Env)
    requires Fresh(c) && c.meta == Meta(None, None, None) && forall e | e in before :: WellFormed(e)
    requires !Run(c, before).0.mixCorrect && m.IsAudioHeader()
    ensures var (c1, past) := Run(c, before);
      Step(c1, Media(m, env)).out ==
        if env.reduce && HeaderIn(Audio, MessagesOf(past)) == Some(m.payload) then [] else [C.Offer(m, c1.atc)]
  {
    hide OnlyAv, X.Counted, WellFormed, Run, MessagesOf, HeaderIn, AudioSh, AudioFormat, VideoSh, Cached, Step;
    NothingAgrees(c);
    RunAgrees(c, before, []);
    RunMetaOk(c, before);
    var (c1, past) := Run(c, before);
    assert [] + MessagesOf(past) == MessagesOf(past);
    DirectStep(c1, m, env);
  }

  /** The same for video, where a header that the parser refuses is held back too. */
  lemma VideoHeaderHeldBackIff(c: Core, before: seq<Event>, m: Message, env: Env)
    requires Fresh(c) && c.meta == Meta(None, None, None) && forall e | e in before :: WellFormed(e)
    requires !Run(c, before).0.mixCorrect && m.IsVideoHeader() && NeverRefuses(c, before)
    ensures var (c1, past) := Run(c, before);
      Step(c1, Media(m, env)).out ==
        if env.format != SUCCESS || (env.reduce && HeaderIn(Video, MessagesOf(past)) == Some(m.payload)) then []
        else [C.Offer(m, c1.atc)]
  {
    assert Acceptable(m.payload);
    hide OnlyAv, X.Counted, WellFormed, Run, MessagesOf, HeaderIn, AudioSh, AudioFormat, VideoSh, Cached, Step,
         Acceptable, NeverRefuses;
    NothingAgrees(c);
    RunAgrees(c, before, []);
    RunMetaOk(c, before);
    var (c1, past) := Run(c, before);
    assert [] + MessagesOf(past) == MessagesOf(past);
    DirectStep(c1, m, env);
  }

  /** Metadata is cached and sets the atc of the source, and is held back exactly when headers are to be reduced. */
  lemma MetaDataHeldBackIff(c: Core, atc: bool, m: Message, env: Env)
    requires Valid(c)
    ensures var r := Step(c, MetaData(atc, As(m), env));
      && r.core.meta.data == Some(m) && r.core.atc == atc && r.ret == 0
      && r.out == if env.reduce then [] else [C.Offer(m, atc)]
    ensures Step(c, MetaData(atc, Empty, env)) == Outcome(c.(atc := atc), [], 0)
    ensures forall code :: Step(c, MetaData(atc, Failed(code), env)) == Outcome(c.(atc := atc), [], code)
  {
    hide X.Counted;
  }

  // ----- two streams on which a late joiner is shown something else -----

  const Created := Core(false, false, FreshGop, Meta(None, None, None), X.EmptyMix)

  lemma HeaderStep(c: Core, m: Message, env: Env)
    requires Valid(c) && !c.mixCorrect && !env.reduce && m.IsVideoHeader() && Acceptable(m.payload)
    ensures Step(c, Media(m, env)) ==
      var out := if env.format == SUCCESS then [C.Offer(m, c.atc)] else [];
      Outcome(c.(meta := c.meta.(video := Some(m))), out, env.format)
  {
    hide X.Counted, Acceptable, VideoSh, Step;
    DirectStep(c, m, env);
  }

  lemma PictureStep(c: Core, m: Message, env: Env)
    requires Valid(c) && !c.mixCorrect && !c.atc && m.kind.Video? && IsFrame(m) && Acceptable(m.payload)
    ensures Step(c, Media(m, env)) == Outcome(c.(gop := Cached(c.gop, m)), [C.Offer(m, false)], SUCCESS)
  {
    hide X.Counted, Acceptable, VideoSh, Step, Cached;
    DirectStep(c, m, env);
  }

  lemma ShownPicture(before: seq<Message>, header: Message, key: Message, rest: seq<Message>)
    requires header.IsVideoHeader() && key.kind.Video? && IsFrame(key) && forall m | m in rest :: !IsFrame(m)
    ensures Shown(before, [header, key] + rest) == [Framed(key, Some(header.payload))]
    ensures Shown([header], [key]) == [Framed(key, Some(header.payload))]
  {
    hide VideoSh, HeaderIn;
    FrameIsNoHeader(key);
    ShownConcat(before, [header, key], rest);
    ShownNothing(before + [header, key], rest);
    ShownConcat(before, [header], [key]);
    assert [header] + [key] == [header, key];
    ShownNothing(before, [header]);
    HeaderInSnoc(Video, before, header);
    HeaderInSnoc(Video, [], header);
    assert [] + [header] == [header];
    FramesOfOne(key, false);
    OfferedOne(key, false);
    ShownOne(before + [header], [key]);
    ShownOne([header], [key]);
  }

  lemma {:induction false} ShownNothing(before: seq<Message>, s: seq<Message>)
    requires forall m | m in s :: !IsFrame(m)
    ensures Shown(before, s) == []
  {
    hide IsFrame, HeaderIn;
    if s != [] {
      ShownNothing(before, s[..|s| - 1]);
      assert s[|s| - 1] in s;
    }
  }

  lemma OpeningOfTwo(c: Core, h: Message, key: Message)
    requires !c.atc && c.meta == Meta(None, Some(h), None) && c.gop.cache == [key]
    ensures Opening(c, true, true, true) == Offers([h, key], false)
  {
  }

  lemma OffersOfThree(a: Message, b: Message, c: Message)
    ensures [C.Offer(a, false)] + [C.Offer(b, false)] + [C.Offer(c, false)] == Offers([a, b, c], false)
  {
  }

  lemma PictureBetweenHeaders(h1: Message, key: Message, h2: Message, env: Env)
    requires h1.IsVideoHeader() && Acceptable(h1.payload) && h2.IsVideoHeader() && Acceptable(h2.payload)
    requires key.kind.Video? && IsFrame(key) && IsKeyframe(key) && Acceptable(key.payload)
    requires !env.reduce && env.format == SUCCESS
    ensures var r1 := Step(Created, Media(h1, env));
      var r2 := Step(r1.core, Media(key, env));
      var r3 := Step(r2.core, Media(h2, env));
      && r1.out + r2.out + r3.out == Offers([h1, key, h2], false)
      && Opening(r3.core, true, true, true) == Offers([h2, key], false)
  {
    KeyframeAlone(key);
    hide VideoSh, Acceptable, IsFrame, IsKeyframe, Cached, X.Counted, Step, Opening, Offers;
    HeaderStep(Created, h1, env);
    var c1 := Created.(meta := Meta(None, Some(h1), None));
    PictureStep(c1, key, env);
    var c2 := c1.(gop := Cached(FreshGop, key));
    HeaderStep(c2, h2, env);
    OpeningOfTwo(c2.(meta := Meta(None, Some(h2), None)), h2, key);
    OffersOfThree(h1, key, h2);
  }

  /** Header, keyframe, other header: the picture is given under a header it was not sent under. */
  lemma OldPictureNewHeader()
    ensures var env := Env(false, SUCCESS, 0);
      var h1, key := Message(Video, 0, [0x17, 0, 1], 0), Message(Video, 1, [0x17, 1], 0);
      var h2 := Message(Video, 2, [0x17, 0, 2], 40);
      var r1 := Step(Created, Media(h1, env));
      var r2 := Step(r1.core, Media(key, env));
      var r3 := Step(r2.core, Media(h2, env));
      && r1.out + r2.out + r3.out == Offers([h1, key, h2], false)
      && Opening(r3.core, true, true, true) == Offers([h2, key], false)
      && Shown([], [h1, key, h2]) == [Framed(key, Some(h1.payload))]
      && Shown([h2], [key]) == [Framed(key, Some(h2.payload))]
  {
    hide Step, Opening, Shown, Offers;
    var env := Env(false, SUCCESS, 0);
    var h1, key := Message(Video, 0, [0x17, 0, 1], 0), Message(Video, 1, [0x17, 1], 0);
    var h2 := Message(Video, 2, [0x17, 0, 2], 40);
    PictureBetweenHeaders(h1, key, h2, env);
    ShownPicture([], h1, key, [h2]);
    ShownPicture([], h2, key, []);
    assert [h1, key] + [h2] == [h1, key, h2];
  }

  /** A header that the parser refuses goes out to nobody, and is dumped to everybody who comes later. */
  lemma RefusedHeaderIsDumped()
    ensures var h := Message(Video, 0, [0x17, 0, 1], 0);
      var r := Step(Created, Media(h, Env(false, 1, 0)));
      r.out == [] && r.ret == 1 && Opening(r.core, true, true, true) == Offers([h], false)
  {
    var h := Message(Video, 0, [0x17, 0, 1], 0);
    assert Acceptable(h.payload) && h.IsVideoHeader();
    hide VideoSh, Acceptable, X.Counted, Step;
    HeaderStep(Created, h, Env(false, 1, 0));
  }
}
