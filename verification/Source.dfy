/** The live source: one publisher's messages, cached for late joiners and copied to every consumer. */
module Sources {
  import opened Messages
  import opened Jitter
  import opened GopCaches
  import opened Consumers
  import opened Aggregates
  import opened SourceSpec
  import X = MixQueues
  import MQ = MessageQueues

  class MetaCache {
    var meta: Option<Message>
    var video: Option<Message>
    var audio: Option<Message>

    ghost function View(): Meta
      reads this
    {
      Meta(meta, video, audio)
    }

    constructor ()
      ensures View() == Meta(None, None, None)
    {
      meta, video, audio := None, None, None;
    }

    method UpdateData(encoded: Encoded) returns (ret: int, updated: bool)
      modifies this
      ensures View() == if encoded.As? then old(View()).(data := Some(encoded.m)) else old(View())
      ensures ret == (if encoded.Failed? then encoded.ret else SUCCESS) && updated == encoded.As?
    {
      updated := false;
      ret := SUCCESS;
      match encoded {
        case Failed(code) => ret := code;
        case Empty =>
        case As(m) =>
          meta := Some(m);
          updated := true;
      }
    }

    /** Replaces the audio header; `format` is what the codec parser makes of it. */
    method UpdateAsh(msg: Message, format: int) returns (ret: int)
      modifies this
      ensures View() == old(View()).(audio := Some(msg)) && ret == format
    {
      audio := Some(msg);
      ret := format;
    }

    method UpdateVsh(msg: Message, format: int) returns (ret: int)
      modifies this
      ensures View() == old(View()).(video := Some(msg)) && ret == format
    {
      video := Some(msg);
      ret := format;
    }

    /** Moves the cached metadata, and the header of the given kind, to time `t`. */
    method Restamp(k: Kind, t: int)
      requires k != Data
      modifies this
      ensures var was := old(View());
        View() == if k.Audio? then was.(audio := At(was.audio, t), data := At(was.data, t))
                  else was.(video := At(was.video, t), data := At(was.data, t))
    {
      if k.Audio? && audio.Some? {
        audio := Some(audio.value.(timestamp := t));
      }
      if k.Video? && video.Some? {
        video := Some(video.value.(timestamp := t));
      }
      if meta.Some? {
        meta := Some(meta.value.(timestamp := t));
      }
    }

    /** Moves everything cached to time `t`. */
    method RestampAll(t: int)
      modifies this
      ensures var was := old(View()); View() == Meta(At(was.data, t), At(was.video, t), At(was.audio, t))
    {
      if meta.Some? {
        meta := Some(meta.value.(timestamp := t));
      }
      if video.Some? {
        video := Some(video.value.(timestamp := t));
      }
      if audio.Some? {
        audio := Some(audio.value.(timestamp := t));
      }
    }

    /** Gives a consumer one cached message, if it is wanted and there. */
    static method DumpOne(consumer: Consumer, wanted: bool, m: Option<Message>, atc: bool, ag: Algorithm)
      requires consumer.Valid() && (Bounded(consumer.View()) || !wanted || m.None?)
      modifies consumer.Repr
      ensures consumer.Valid() && fresh(consumer.Repr - old(consumer.Repr))
      ensures consumer.View() == FeedAll(old(consumer.View()), AsOffer(if wanted then m else None, atc), ag)
      ensures Bounded(consumer.View()) <==> Bounded(old(consumer.View()))
    {
      hide Feed, FeedAll, AsOffer, Takes, Bounded;
      FeedOption(consumer.View(), if wanted then m else None, atc, ag);
      if wanted && m.Some? {
        BoundedTakes(consumer.View(), Offer(m.value, atc), ag);
        FeedBounded(consumer.View(), Offer(m.value, atc), ag);
        consumer.Enqueue(m.value, atc, ag);
      }
    }

    method Dumps(consumer: Consumer, atc: bool, ag: Algorithm, dm: bool, ds: bool)
      requires consumer.Valid() && this !in consumer.Repr
      requires Bounded(consumer.View()) || SourceSpec.Dumps(View(), atc, dm, ds) == []
      modifies consumer.Repr
      ensures consumer.Valid() && fresh(consumer.Repr - old(consumer.Repr))
      ensures consumer.View() == FeedAll(old(consumer.View()), SourceSpec.Dumps(View(), atc, dm, ds), ag)
    {
      if SourceSpec.Dumps(View(), atc, dm, ds) == [] {
        DumpsNothing(View(), atc, dm, ds);
      }
      hide FeedAll, AsOffer, Bounded, SourceSpec.Dumps;
      DumpsInOrder(consumer.View(), View(), atc, dm, ds, ag);
      DumpOne(consumer, dm, meta, atc, ag);
      DumpOne(consumer, ds, audio, atc, ag);
      DumpOne(consumer, ds, video, atc, ag);
    }
  }

  lemma DumpsNothing(meta: Meta, atc: bool, dm: bool, ds: bool)
    requires SourceSpec.Dumps(meta, atc, dm, ds) == []
    ensures (dm ==> meta.data.None?) && (ds ==> meta.audio.None? && meta.video.None?)
  {
  }

  lemma FeedOption(c: ConsumerState, m: Option<Message>, atc: bool, ag: Algorithm)
    ensures FeedAll(c, AsOffer(m, atc), ag) == if m.None? then c else Feed(c, Offer(m.value, atc), ag)
  {
    hide Feed;
    if m.Some? {
      assert FeedAll(Feed(c, Offer(m.value, atc), ag), [], ag) == Feed(c, Offer(m.value, atc), ag);
    }
  }

  lemma DumpsInOrder(c: ConsumerState, meta: Meta, atc: bool, dm: bool, ds: bool, ag: Algorithm)
    ensures var c1 := FeedAll(c, AsOffer(if dm then meta.data else None, atc), ag);
      var c2 := FeedAll(c1, AsOffer(if ds then meta.audio else None, atc), ag);
      FeedAll(c2, AsOffer(if ds then meta.video else None, atc), ag)
      == FeedAll(c, SourceSpec.Dumps(meta, atc, dm, ds), ag)
  {
    var data := AsOffer(if dm then meta.data else None, atc);
    var ash := AsOffer(if ds then meta.audio else None, atc);
    var vsh := AsOffer(if ds then meta.video else None, atc);
    assert SourceSpec.Dumps(meta, atc, dm, ds) == data + ash + vsh;
    hide FeedAll, AsOffer;
    FeedAllConcat(c, data, ash, ag);
    FeedAllConcat(c, data + ash, vsh, ag);
  }

  lemma OpeningNothing(c: Core, ds: bool, dm: bool, dg: bool)
    ensures Opening(c, ds, dm, dg) == [] ==>
      SourceSpec.Dumps(Joined(c).meta, c.atc, dm, ds) == [] && (dg ==> c.gop.cache == [])
  {
    hide SourceSpec.Dumps;
    if c.gop.cache != [] {
      assert |Offers(c.gop.cache, c.atc)| > 0;
    }
  }

  lemma FeedOne(c: ConsumerState, o: Offer, ag: Algorithm)
    ensures FeedAll(c, [o], ag) == Feed(c, o, ag)
  {
    hide Feed;
    assert FeedAll(Feed(c, o, ag), [], ag) == Feed(c, o, ag);
  }

  lemma NoOffers(c: ConsumerState, atc: bool, ag: Algorithm)
    ensures FeedAll(c, Offers([], atc), ag) == c
  {
  }

  lemma OffersSnoc(c: ConsumerState, ms: seq<Message>, m: Message, atc: bool, ag: Algorithm)
    ensures FeedAll(c, Offers(ms + [m], atc), ag) == Feed(FeedAll(c, Offers(ms, atc), ag), Offer(m, atc), ag)
  {
    hide Feed, FeedAll;
    assert Offers(ms + [m], atc) == Offers(ms, atc) + [Offer(m, atc)];
    FeedAllConcat(c, Offers(ms, atc), [Offer(m, atc)], ag);
    FeedOne(FeedAll(c, Offers(ms, atc), ag), Offer(m, atc), ag);
  }

  /** Every consumer of a source is fed the same offers. */
  function FeedEach(vs: seq<ConsumerState>, os: seq<Offer>, ag: Algorithm): seq<ConsumerState> {
    seq(|vs|, i requires 0 <= i < |vs| => FeedAll(vs[i], os, ag))
  }

  lemma FeedEachNothing(vs: seq<ConsumerState>, ag: Algorithm)
    ensures FeedEach(vs, [], ag) == vs
  {
    assert forall i | 0 <= i < |vs| :: FeedAll(vs[i], [], ag) == vs[i];
  }

  lemma FeedEachConcat(vs: seq<ConsumerState>, a: seq<Offer>, b: seq<Offer>, ag: Algorithm)
    ensures FeedEach(FeedEach(vs, a, ag), b, ag) == FeedEach(vs, a + b, ag)
  {
    hide FeedAll;
    forall i | 0 <= i < |vs| ensures FeedAll(FeedAll(vs[i], a, ag), b, ag) == FeedAll(vs[i], a + b, ag) {
      FeedAllConcat(vs[i], a, b, ag);
    }
  }

  /** No consumer of the source keeps a dispatch from returning. */
  predicate AllBounded(vs: seq<ConsumerState>) {
    forall i | 0 <= i < |vs| :: Bounded(vs[i])
  }

  lemma FeedEachBounded(vs: seq<ConsumerState>, os: seq<Offer>, ag: Algorithm)
    ensures AllBounded(FeedEach(vs, os, ag)) <==> AllBounded(vs)
  {
    hide FeedAll, Bounded;
    forall i | 0 <= i < |vs|
      ensures Bounded(FeedEach(vs, os, ag)[i]) <==> Bounded(vs[i])
    {
      FeedAllBounded(vs[i], os, ag);
    }
  }

  /** The consumers of a source. No two of them share an object. */
  class ConsumerList {
    var items: seq<Consumer>
    ghost var Repr: set<object>

    ghost predicate Valid()
      reads this, Repr
      ensures Valid() ==> this in Repr
    {
      && this in Repr
      && (forall i | 0 <= i < |items| ::
            items[i] in Repr && items[i].Repr <= Repr && this !in items[i].Repr && items[i].Valid())
      && forall i, j | 0 <= i < |items| && 0 <= j < |items| && i != j :: items[i].Repr !! items[j].Repr
    }

    ghost function View(): seq<ConsumerState>
      requires Valid()
      reads this, Repr
    {
      seq(|items|, i requires 0 <= i < |items| && Valid() reads this, Repr => items[i].View())
    }

    constructor ()
      ensures Valid() && fresh(Repr) && items == [] && View() == []
    {
      items := [];
      Repr := {this};
    }

    /** Feeding one consumer leaves the others as they were. */
    method EnqueueAt(i: nat, o: Offer, ag: Algorithm)
      requires Valid() && i < |items| && Takes(View()[i], o, ag)
      modifies Repr
      ensures Valid() && fresh(Repr - old(Repr)) && items == old(items)
      ensures View() == old(View())[i := Feed(old(View())[i], o, ag)]
    {
      hide Feed, Takes, Consumer.Valid, Consumer.View;
      ghost var was := View();
      items[i].Enqueue(o.m, o.atc, ag);
      assert items == old(items);
      Repr := Repr + items[i].Repr;
      forall j | 0 <= j < |items| && j != i
        ensures items[j].Repr == old(items[j].Repr) && items[j].Valid() && items[j].View() == was[j]
      {
        assert old(items[j].Valid()) && old(items[j].Repr) !! old(items[i].Repr);
      }
    }

    /** Copies one message to every consumer. */
    method CopyToAll(o: Offer, ag: Algorithm)
      requires Valid() && AllBounded(View())
      modifies Repr
      ensures Valid() && fresh(Repr - old(Repr)) && items == old(items)
      ensures View() == FeedEach(old(View()), [o], ag)
    {
      hide Feed, FeedAll, Valid, Takes, Bounded;
      ghost var was := View();
      var i := 0;
      while i < |items|
        invariant Valid() && fresh(Repr - old(Repr)) && items == old(items) && 0 <= i <= |items|
        invariant forall j | 0 <= j < i :: View()[j] == Feed(was[j], o, ag)
        invariant forall j | i <= j < |items| :: View()[j] == was[j]
      {
        BoundedTakes(View()[i], o, ag);
        EnqueueAt(i, o, ag);
        i := i + 1;
      }
      forall j | 0 <= j < |items| ensures View()[j] == FeedAll(was[j], [o], ag) {
        FeedOne(was[j], o, ag);
      }
    }

    method Add(c: Consumer)
      requires Valid() && c.Valid() && c.Repr !! Repr
      modifies this
      ensures Valid() && Repr == old(Repr) + c.Repr && items == old(items) + [c]
      ensures View() == old(View()) + [c.View()]
    {
      items := items + [c];
      Repr := Repr + c.Repr;
    }

    /** Erases a consumer when it is in the list. */
    method Remove(c: Consumer)
      requires Valid()
      modifies this
      ensures Valid() && Repr == old(Repr)
      ensures c !in old(items) ==> items == old(items) && View() == old(View())
      ensures c in old(items) ==>
        exists k | 0 <= k < |old(items)| ::
          && old(items)[k] == c && c !in old(items)[..k]
          && items == old(items)[..k] + old(items)[k + 1..]
          && View() == old(View())[..k] + old(View())[k + 1..]
      ensures c !in items
    {
      hide Valid, View;
      var k := 0;
      while k < |items| && items[k] != c
        invariant 0 <= k <= |items| && c !in items[..k]
      {
        k := k + 1;
      }
      if k < |items| {
        EraseAt(k);
      }
    }

    /** The erasure itself; no consumer is listed twice, so the one erased is gone. */
    method EraseAt(k: nat)
      requires Valid() && k < |items|
      modifies this`items
      ensures Valid() && items == old(items)[..k] + old(items)[k + 1..] && old(items)[k] !in items
      ensures View() == old(View())[..k] + old(View())[k + 1..]
    {
      items := items[..k] + items[k + 1..];
      assert forall j | 0 <= j < |items| :: items[j] == old(items)[if j < k then j else j + 1];
    }
  }

  class Source {
    const mixCorrect: bool
    const jitterAlgorithm: Algorithm
    const gopCache: GopCache
    const meta: MetaCache
    const mixQueue: X.MixQueue
    const aggregateStream: Buffer
    const consumers: ConsumerList
    var atc: bool
    var canPublish: bool
    var dieAt: int

    ghost function Repr(): set<object>
      reads consumers
    {
      {this, gopCache, meta, mixQueue, aggregateStream} + consumers.Repr
    }

    ghost predicate Valid()
      reads consumers, Repr()
    {
      && consumers.Valid()
      && this !in consumers.Repr && gopCache !in consumers.Repr && meta !in consumers.Repr
      && mixQueue !in consumers.Repr && aggregateStream !in consumers.Repr
      && mixQueue.Valid() && aggregateStream.Valid()
    }

    /** What all consumers share. */
    ghost function Shared(): Core
      reads this, gopCache, meta, mixQueue
    {
      Core(atc, mixCorrect, gopCache.View(), meta.View(), mixQueue.View())
    }

    ghost function LifeView(): Life
      reads this
    {
      Life(canPublish, dieAt)
    }

    /** The call left the core of `r` behind and offered the messages of `r` to every consumer. */
    twostate predicate Did(r: Outcome)
      requires old(Valid()) && Valid()
      reads consumers, Repr()
    {
      && Shared() == r.core && consumers.items == old(consumers.items) && LifeView() == old(LifeView())
      && consumers.View() == FeedEach(old(consumers.View()), r.out, jitterAlgorithm)
    }

    constructor (mix: bool, jitter: Algorithm, atc: bool)
      ensures Valid() && fresh(Repr()) && consumers.items == []
      ensures Shared() == Core(atc, mix, FreshGop, Meta(None, None, None), X.EmptyMix) && LifeView() == Born
      ensures jitterAlgorithm == jitter
    {
      mixCorrect := mix;
      jitterAlgorithm := jitter;
      this.atc := atc;
      gopCache := new GopCache();
      meta := new MetaCache();
      mixQueue := new X.MixQueue();
      aggregateStream := new Buffer();
      consumers := new ConsumerList();
      canPublish := true;
      dieAt := -1;
    }

    method OnAudioImp(msg: Message, env: Env) returns (ret: int)
      requires Valid() && AllBounded(consumers.View())
      modifies gopCache, meta, mixQueue, consumers.Repr
      ensures Valid() && fresh(consumers.Repr - old(consumers.Repr))
      ensures var r := AudioImp(old(Shared()), msg, env); Did(r) && ret == r.ret
    {
      hide Cached, AudioSh, VideoSh, AudioFormat, FeedEach, X.Counted, ConsumerList.Valid, ConsumerList.View;
      FeedEachNothing(consumers.View(), jitterAlgorithm);
      ret := SUCCESS;
      var isSequenceHeader := AudioSh(msg.payload);
      var dropForReduce := false;
      if isSequenceHeader && meta.audio.Some? && env.reduce {
        if |meta.audio.value.payload| == |msg.payload| {
          dropForReduce := meta.audio.value.payload == msg.payload;
        }
      }
      if !dropForReduce {
        consumers.CopyToAll(Offer(msg, atc), jitterAlgorithm);
      }
      if isSequenceHeader || meta.audio.None? {
        ret := meta.UpdateAsh(msg, AudioFormat(msg.payload, env));
        if ret != SUCCESS {
          return;
        }
      }
      if isSequenceHeader {
        return;
      }
      gopCache.Cache(msg);
      if atc {
        meta.Restamp(Audio, msg.timestamp);
      }
    }

    method OnVideoImp(msg: Message, env: Env) returns (ret: int)
      requires Valid() && AllBounded(consumers.View())
      modifies gopCache, meta, mixQueue, consumers.Repr
      ensures Valid() && fresh(consumers.Repr - old(consumers.Repr))
      ensures var r := VideoImp(old(Shared()), msg, env); Did(r) && ret == r.ret
    {
      hide Cached, AudioSh, VideoSh, FeedEach, X.Counted, ConsumerList.Valid, ConsumerList.View;
      FeedEachNothing(consumers.View(), jitterAlgorithm);
      ret := SUCCESS;
      var isSequenceHeader := VideoSh(msg.payload);
      var dropForReduce := false;
      if isSequenceHeader && meta.video.Some? && env.reduce {
        if |meta.video.value.payload| == |msg.payload| {
          dropForReduce := meta.video.value.payload == msg.payload;
        }
      }
      if isSequenceHeader {
        ret := meta.UpdateVsh(msg, env.format);
        if ret != SUCCESS {
          return;
        }
      }
      if !dropForReduce {
        consumers.CopyToAll(Offer(msg, atc), jitterAlgorithm);
      }
      if isSequenceHeader {
        return;
      }
      gopCache.Cache(msg);
      if atc {
        meta.Restamp(Video, msg.timestamp);
      }
    }

    /** Pushes the message into the mix queue, and processes the one the queue lets go, if any. */
    method MixAndProcess(msg: Message, env: Env) returns (ret: int)
      requires Valid() && AllBounded(consumers.View()) && mixCorrect
      modifies gopCache, meta, mixQueue, consumers.Repr
      ensures Valid() && fresh(consumers.Repr - old(consumers.Repr))
      ensures var (c1, next) := HandedOn(old(Shared()), msg);
        var r := if next.None? then Outcome(c1, [], SUCCESS) else Imp(c1, next.value, env);
        Did(r) && ret == r.ret
    {
      hide AudioImp, VideoImp, FeedEach, X.Counted, X.Popped, X.Pushed;
      FeedEachNothing(consumers.View(), jitterAlgorithm);
      mixQueue.Push(msg);
      var m := mixQueue.Pop();
      if m.None? {
        return SUCCESS;
      }
      if m.value.kind.Audio? {
        ret := OnAudioImp(m.value, env);
      } else {
        ret := OnVideoImp(m.value, env);
      }
    }

    method OnAudio(msg: Message, env: Env) returns (ret: int)
      requires Valid() && AllBounded(consumers.View()) && msg.kind.Audio?
      modifies gopCache, meta, mixQueue, consumers.Repr
      ensures Valid() && fresh(consumers.Repr - old(consumers.Repr))
      ensures var r := OnMedia(old(Shared()), msg, env); Did(r) && ret == r.ret
    {
      hide AudioImp, VideoImp, FeedEach, X.Counted, X.Popped, X.Pushed;
      if !mixCorrect {
        ret := OnAudioImp(msg, env);
      } else {
        ret := MixAndProcess(msg, env);
      }
    }

    method OnVideo(msg: Message, env: Env) returns (ret: int)
      requires Valid() && AllBounded(consumers.View()) && msg.kind.Video?
      modifies gopCache, meta, mixQueue, consumers.Repr
      ensures Valid() && fresh(consumers.Repr - old(consumers.Repr))
      ensures var r := OnMedia(old(Shared()), msg, env); Did(r) && ret == r.ret
    {
      hide AudioImp, VideoImp, FeedEach, X.Counted, X.Popped, X.Pushed;
      FeedEachNothing(consumers.View(), jitterAlgorithm);
      if !Acceptable(msg.payload) {
        return SUCCESS;
      }
      if !mixCorrect {
        ret := OnVideoImp(msg, env);
      } else {
        ret := MixAndProcess(msg, env);
      }
    }

    method OnMetaData(atc: bool, encoded: Encoded, env: Env) returns (ret: int)
      requires Valid() && AllBounded(consumers.View())
      modifies this, meta, consumers.Repr
      ensures Valid() && fresh(consumers.Repr - old(consumers.Repr))
      ensures var r := SourceSpec.OnMetaData(old(Shared()), atc, encoded, env); Did(r) && ret == r.ret
    {
      hide FeedEach, X.Counted;
      FeedEachNothing(consumers.View(), jitterAlgorithm);
      this.atc := atc;
      var updated;
      ret, updated := meta.UpdateData(encoded);
      if ret != SUCCESS || !updated {
        return;
      }
      var dropForReduce := meta.meta.Some? && env.reduce;
      if !dropForReduce {
        consumers.CopyToAll(Offer(meta.meta.value, atc), jitterAlgorithm);
      }
    }

    /** One round of the loop of `OnAggregate`: reads a sub-message and processes it. */
    method NextSub(header: int, delta: int, env: Env, ghost c: Core, ghost b: seq<byte>)
      returns (ok: bool, ret: int, delta': int, ghost r: Outcome)
      requires Valid() && AllBounded(consumers.View()) && b != [] && c == Shared() && b == aggregateStream.Rest()
      modifies gopCache, meta, mixQueue, consumers.Repr, aggregateStream
      ensures Valid() && fresh(consumers.Repr - old(consumers.Repr))
      ensures Shared() == r.core && ret == r.ret && consumers.items == old(consumers.items)
      ensures consumers.View() == FeedEach(old(consumers.View()), r.out, jitterAlgorithm)
      ensures ok <==> HasTag(b)
      ensures !ok ==> r == Outcome(c, [], SUCCESS)
      ensures ok ==>
        && delta' == NextDelta(header, delta, FirstTag(b))
        && r == OnSub(c, FirstTag(b), FirstTag(b).time + delta', env)
        && aggregateStream.Rest() == AfterTag(b)
    {
      hide OnMedia, FeedEach, X.Counted, HasTag, FirstTag, AfterTag, NextDelta;
      FeedEachNothing(consumers.View(), jitterAlgorithm);
      ret := SUCCESS;
      r := Outcome(c, [], SUCCESS);
      var sub, timestamp;
      ok, sub, timestamp, delta' := aggregateStream.ReadSub(header, delta);
      if !ok {
        return;
      }
      r := OnSub(c, sub, timestamp, env);
      if sub.msgType == MSG_AUDIO {
        ret := OnAudio(SubMessage(sub, timestamp, env), env);
      } else if sub.msgType == MSG_VIDEO {
        ret := OnVideo(SubMessage(sub, timestamp, env), env);
      }
    }

    /** Splits an aggregate and processes its audio and video sub-messages one by one. */
    method OnAggregate(header: int, payload: seq<byte>, env: seq<Env>) returns (ret: int)
      requires Valid() && AllBounded(consumers.View())
      modifies gopCache, meta, mixQueue, consumers.Repr, aggregateStream
      ensures Valid() && fresh(consumers.Repr - old(consumers.Repr))
      ensures var r := SourceSpec.OnAggregate(old(Shared()), header, payload, env); Did(r) && ret == r.ret
    {
      assert forall r: seq<Offer> {:trigger [] + r} :: [] + r == r;
      hide FeedEach, X.Counted, OnSubs, Tags, Leftover;
      FeedEachNothing(consumers.View(), jitterAlgorithm);
      ret := aggregateStream.Initialize(payload);
      if ret != SUCCESS {
        return;
      }
      ret := ProcessSubs(header, env);
    }

    /** The loop of `OnAggregate`, over what is left of the payload. */
    method ProcessSubs(header: int, env: seq<Env>) returns (ret: int)
      requires Valid() && AllBounded(consumers.View())
      modifies gopCache, meta, mixQueue, consumers.Repr, aggregateStream
      ensures Valid() && fresh(consumers.Repr - old(consumers.Repr))
      ensures var b := old(aggregateStream.Rest());
        var r := Remaining(old(Shared()), header, -1, b, env, 0, []);
        && Did(r)
        && ret == if r.ret == SUCCESS && Leftover(b) != [] then ERROR_RTMP_AGGREGATE else r.ret
    {
      assert !HasTag([]);
      hide FeedEach, X.Counted, OnSub, Remaining, Leftover, HasTag, FirstTag, AfterTag, NextDelta, EnvAt, AllBounded,
           ConsumerList.Valid, ConsumerList.View;
      ret := SUCCESS;
      var delta := -1;
      var k: nat := 0;
      ghost var done: seq<Offer> := [];
      ghost var start := consumers.View();
      FeedEachNothing(start, jitterAlgorithm);
      ghost var payload := aggregateStream.Rest();
      ghost var c, b := Shared(), payload;
      ghost var all := Remaining(c, header, -1, b, env, 0, []);
      while !aggregateStream.Empty()
        invariant Valid() && fresh(consumers.Repr - old(consumers.Repr))
        invariant consumers.items == old(consumers.items)
        invariant consumers.View() == FeedEach(start, done, jitterAlgorithm)
        invariant c == Shared() && b == aggregateStream.Rest()
        invariant all == Remaining(c, header, delta, b, env, k, done)
        invariant Leftover(b) == Leftover(payload)
        invariant ret == SUCCESS
        decreases |b|
      {
        FeedEachBounded(start, done, jitterAlgorithm);
        ghost var d := delta;
        ghost var r: Outcome;
        var ok;
        ok, ret, delta, r := NextSub(header, delta, EnvAt(env, k), c, b);
        FeedEachConcat(start, done, r.out, jitterAlgorithm);
        if !ok {
          assert done + [] == done;
          RemainingNone(c, header, d, b, env, k, done);
          return ERROR_RTMP_AGGREGATE;
        }
        RemainingStep(c, header, d, b, env, k, done, delta, r);
        c, b, done := r.core, AfterTag(b), done + r.out;
        k := k + 1;
        if ret != SUCCESS {
          return;
        }
      }
      RemainingNone(c, header, delta, b, env, k, done);
    }

    /** Feeds the cached group of pictures to one consumer. */
    method DumpGop(consumer: Consumer)
      requires Valid() && consumer.Valid() && gopCache !in consumer.Repr && this !in consumer.Repr
      requires Bounded(consumer.View()) || gopCache.gopCache == []
      modifies consumer.Repr
      ensures consumer.Valid() && fresh(consumer.Repr - old(consumer.Repr))
      ensures consumer.View() == FeedAll(old(consumer.View()), Offers(gopCache.gopCache, atc), jitterAlgorithm)
    {
      hide Feed, FeedAll, Offers, Valid, Takes, Bounded;
      ghost var start := consumer.View();
      var cached := gopCache.gopCache;
      var i := 0;
      NoOffers(start, atc, jitterAlgorithm);
      while i < |cached|
        invariant consumer.Valid() && fresh(consumer.Repr - old(consumer.Repr)) && 0 <= i <= |cached|
        invariant consumer.View() == FeedAll(start, Offers(cached[..i], atc), jitterAlgorithm)
      {
        FeedAllBounded(start, Offers(cached[..i], atc), jitterAlgorithm);
        BoundedTakes(consumer.View(), Offer(cached[i], atc), jitterAlgorithm);
        consumer.Enqueue(cached[i], atc, jitterAlgorithm);
        OffersSnoc(start, cached[..i], cached[i], atc, jitterAlgorithm);
        assert cached[..i + 1] == cached[..i] + [cached[i]];
        i := i + 1;
      }
      assert cached[..i] == cached;
    }

    /** With atc, moves what is cached to the time the cached pictures start at. */
    method StampForJoin()
      requires Valid()
      modifies meta
      ensures Valid() && consumers.Repr == old(consumers.Repr) && consumers.View() == old(consumers.View())
      ensures Shared() == Joined(old(Shared()))
    {
      hide X.Counted;
      if atc && !gopCache.Empty() {
        meta.RestampAll(gopCache.StartTime());
      }
    }

    /** Gives a consumer the cached headers and group of pictures. */
    method Fill(consumer: Consumer, ds: bool, dm: bool, dg: bool)
      requires Valid() && consumer.Valid() && Repr() !! consumer.Repr
      requires Bounded(consumer.View()) || Opening(Shared(), ds, dm, dg) == []
      modifies meta, consumer.Repr
      ensures Valid() && consumer.Valid() && fresh(consumer.Repr - old(consumer.Repr))
      ensures Shared() == Joined(old(Shared())) && consumers.View() == old(consumers.View())
      ensures consumer.View() == FeedAll(old(consumer.View()), Opening(old(Shared()), ds, dm, dg), jitterAlgorithm)
    {
      OpeningNothing(Shared(), ds, dm, dg);
      hide FeedAll, SourceSpec.Dumps, Offers, X.Counted, Bounded, Joined, ConsumerList.Valid, ConsumerList.View;
      StampForJoin();
      ghost var start := consumer.View();
      ghost var opening := SourceSpec.Dumps(meta.View(), atc, dm, ds);
      meta.Dumps(consumer, atc, jitterAlgorithm, dm, ds);
      FeedAllBounded(start, opening, jitterAlgorithm);
      if dg {
        DumpGop(consumer);
        FeedAllConcat(start, opening, Offers(gopCache.gopCache, atc), jitterAlgorithm);
      } else {
        assert opening + [] == opening;
      }
    }

    /**
     Creates a consumer and fills it, as one step: the program puts the consumer into the list before it
     fills it. With a negative length this returns exactly when there is nothing to fill it with.
     */
    method CreateConsumer(queueSizeMs: int, ds: bool, dm: bool, dg: bool) returns (consumer: Consumer)
      requires Valid()
      requires queueSizeMs >= 0 || Opening(Shared(), ds, dm, dg) == []
      modifies meta, consumers
      ensures Valid() && fresh(consumer) && fresh(consumers.Repr - old(consumers.Repr))
      ensures consumers.items == old(consumers.items) + [consumer]
      ensures Shared() == Joined(old(Shared())) && LifeView() == old(LifeView())
      ensures consumers.View() == old(consumers.View())
                + [FeedAll(Sized(queueSizeMs), Opening(old(Shared()), ds, dm, dg), jitterAlgorithm)]
    {
      hide FeedAll, Opening, X.Counted, ConsumerList.Valid, ConsumerList.View;
      consumer := new Consumer();
      consumer.SetQueueSize(queueSizeMs);
      Fill(consumer, ds, dm, dg);
      consumers.Add(consumer);
    }

    method OnConsumerDestroy(consumer: Consumer, now: int)
      requires Valid()
      modifies this, consumers
      ensures Valid() && consumers.Repr == old(consumers.Repr) && consumer !in consumers.items
      ensures consumer !in old(consumers.items) ==> consumers.View() == old(consumers.View())
      ensures consumer in old(consumers.items) ==>
        exists k | 0 <= k < |old(consumers.items)| ::
          && old(consumers.items)[k] == consumer
          && consumers.View() == old(consumers.View())[..k] + old(consumers.View())[k + 1..]
      ensures Shared() == old(Shared()) && LifeView() == ConsumerGone(old(LifeView()), consumers.items == [], now)
    {
      consumers.Remove(consumer);
      if consumers.items == [] {
        dieAt := now;
      }
    }

    /** Takes the publish lock; `handled` is the code of the publish handler. */
    method OnPublish(handled: int) returns (ret: int)
      requires Valid()
      modifies this, mixQueue
      ensures Valid() && consumers.Repr == old(consumers.Repr) && consumers.View() == old(consumers.View())
      ensures Shared() == old(Shared()).(mix := X.EmptyMix) && LifeView() == Published(old(LifeView()))
      ensures ret == handled
    {
      canPublish := false;
      mixQueue.Clear();
      ret := handled;
    }

    method OnUnpublish(now: int)
      requires Valid()
      modifies this, gopCache
      ensures Valid() && consumers.Repr == old(consumers.Repr) && consumers.View() == old(consumers.View())
      ensures LifeView() == Unpublished(old(LifeView()), consumers.items == [], now)
      ensures Shared() == if old(canPublish) then old(Shared()) else old(Shared()).(gop := Cleared(old(Shared()).gop))
    {
      if canPublish {
        return;
      }
      gopCache.Clear();
      canPublish := true;
      if consumers.items == [] {
        dieAt := now;
      }
    }

    method SetCache(enabled: bool)
      requires Valid()
      modifies gopCache
      ensures Valid() && consumers.View() == old(consumers.View()) && LifeView() == old(LifeView())
      ensures Shared() == old(Shared()).(gop := Set(old(Shared()).gop, enabled))
    {
      gopCache.SetEnabled(enabled);
    }

    predicate IsExpired(now: int)
      reads this, consumers
      ensures IsExpired(now) == Expired(LifeView(), consumers.items == [], now)
    {
      if dieAt == -1 then false
      else if !canPublish then false
      else if consumers.items != [] then false
      else now > dieAt + SOURCE_CLEANUP
    }
  }
}
