/**
 What a live source does with a publisher's messages, as functions on values.

 `Core` is the part of a source that all its consumers share; `Outcome` is what one call leaves
 behind, what it offers to every consumer, and the code it returns.
 */
module SourceSpec {
  import opened Messages
  import opened Jitter
  import opened GopCaches
  import opened Consumers
  import opened Aggregates
  import X = MixQueues
  import MQ = MessageQueues

  datatype Meta = Meta(data: Option<Message>, video: Option<Message>, audio: Option<Message>)

  datatype Core = Core(atc: bool, mixCorrect: bool, gop: Gop, meta: Meta, mix: X.Mix)

  const ERROR_HLS_DECODE_ERROR := 3001

  /**
   What a call finds outside the source: the reduce_sequence_header setting, what the codec parser
   returns for a sequence header, and the name of the payload block allocated for a sub-message.
   */
  datatype Env = Env(reduce: bool, format: int, block: nat)

  /** The surroundings of the k-th sub-message of an aggregate; past the end of the list, the quiet ones. */
  function EnvAt(env: seq<Env>, k: nat): Env {
    if k < |env| then env[k] else Env(false, SUCCESS, 0)
  }

  datatype Outcome = Outcome(core: Core, out: seq<Offer>, ret: int)

  predicate Valid(c: Core) {
    X.Counted(c.mix)
  }

  function At(m: Option<Message>, t: int): Option<Message> {
    if m.None? then None else Some(m.value.(timestamp := t))
  }

  /** A repeated sequence header is not sent again when the vhost asks for that. */
  predicate Repeats(cached: Option<Message>, m: Message, env: Env) {
    cached.Some? && env.reduce && cached.value.payload == m.payload
  }

  /**
   What the codec parser returns for an audio message that is no sequence header. A source hands it
   such a message only when no audio is cached, and then the parser has been given nothing before: it
   has no AAC configuration to decode raw data with, and room for one sample.
   */
  function FirstAudio(data: seq<byte>): int
    requires !AudioSh(data)
  {
    if data == [] then SUCCESS
    else
      var codec := data[0] / 16;
      if codec != CODEC_MP3 && codec != CODEC_AAC then SUCCESS
      else if codec == CODEC_MP3 then SUCCESS
      else if |data| < 2 then ERROR_HLS_DECODE_ERROR
      else SUCCESS
  }

  /** The parser's verdict on a first audio message can be read off its bytes. */
  lemma FirstAudioRefusedIff(data: seq<byte>)
    requires !AudioSh(data)
    ensures FirstAudio(data) == if AudioRejected(data) then 3001 else 0
  {
  }

  /** What the codec parser returns for an audio message it is given. */
  function AudioFormat(data: seq<byte>, env: Env): int {
    if AudioSh(data) then env.format else FirstAudio(data)
  }

  lemma AudioFormatFacts(data: seq<byte>, env: Env)
    ensures AudioRejected(data) ==> !AudioSh(data)
    ensures !AudioSh(data) ==> (AudioFormat(data, env) != SUCCESS <==> AudioRejected(data))
  {
    if !AudioSh(data) {
      FirstAudioRefusedIff(data);
    }
  }

  function AudioImp(c: Core, m: Message, env: Env): Outcome {
    var format := AudioFormat(m.payload, env);
    var isSh := AudioSh(m.payload);
    var out := if isSh && Repeats(c.meta.audio, m, env) then [] else [Offer(m, c.atc)];
    var update := isSh || c.meta.audio.None?;
    var c1 := if update then c.(meta := c.meta.(audio := Some(m))) else c;
    if update && format != SUCCESS then Outcome(c1, out, format)
    else if isSh then Outcome(c1, out, SUCCESS)
    else
      var c2 := c1.(gop := Cached(c1.gop, m));
      var meta := c2.meta;
      Outcome(if c.atc then c2.(meta := meta.(audio := At(meta.audio, m.timestamp), data := At(meta.data, m.timestamp)))
              else c2,
              out, SUCCESS)
  }

  function VideoImp(c: Core, m: Message, env: Env): Outcome {
    var isSh := VideoSh(m.payload);
    var out := if isSh && Repeats(c.meta.video, m, env) then [] else [Offer(m, c.atc)];
    var c1 := if isSh then c.(meta := c.meta.(video := Some(m))) else c;
    if isSh && env.format != SUCCESS then Outcome(c1, [], env.format)
    else if isSh then Outcome(c1, out, SUCCESS)
    else
      var c2 := c1.(gop := Cached(c1.gop, m));
      var meta := c2.meta;
      Outcome(if c.atc then c2.(meta := meta.(video := At(meta.video, m.timestamp), data := At(meta.data, m.timestamp)))
              else c2,
              out, SUCCESS)
  }

  function Imp(c: Core, m: Message, env: Env): Outcome {
    if m.kind.Audio? then AudioImp(c, m, env) else VideoImp(c, m, env)
  }

  /** The message that a call hands on: the one it was given, or what the mix queue lets go. */
  function HandedOn(c: Core, m: Message): (r: (Core, Option<Message>))
    requires Valid(c)
    ensures Valid(r.0)
  {
    if !c.mixCorrect then (c, Some(m))
    else
      X.PushedCounted(c.mix, m);
      X.PoppedCounted(X.Pushed(c.mix, m));
      var (x, popped) := X.Popped(X.Pushed(c.mix, m));
      (c.(mix := x), popped)
  }

  /** on_audio and on_video: a video with an unknown header is dropped first. */
  function OnMedia(c: Core, m: Message, env: Env): (r: Outcome)
    requires Valid(c)
    ensures Valid(r.core)
  {
    if m.kind.Video? && !Acceptable(m.payload) then Outcome(c, [], SUCCESS)
    else
      var (c1, next) := HandedOn(c, m);
      if next.None? then Outcome(c1, [], SUCCESS) else Imp(c1, next.value, env)
  }

  /** The result of encoding the metadata packet for the cache. */
  datatype Encoded = Failed(ret: int) | Empty | As(m: Message)

  function OnMetaData(c: Core, atc: bool, e: Encoded, env: Env): Outcome {
    var c1 := c.(atc := atc);
    match e
    case Failed(ret) => Outcome(c1, [], ret)
    case Empty => Outcome(c1, [], SUCCESS)
    case As(m) => Outcome(c1.(meta := c1.meta.(data := Some(m))), if env.reduce then [] else [Offer(m, atc)], SUCCESS)
  }

  // ----- aggregates -----

  function SubMessage(t: Sub, timestamp: int, env: Env): Message
    requires t.IsAv()
  {
    Message(if t.msgType == MSG_AUDIO then Audio else Video, env.block, t.data, timestamp)
  }

  function OnSub(c: Core, t: Sub, timestamp: int, env: Env): (r: Outcome)
    requires Valid(c)
    ensures Valid(r.core)
  {
    if t.IsAv() then OnMedia(c, SubMessage(t, timestamp, env), env) else Outcome(c, [], SUCCESS)
  }

  /** Dispatches the sub-messages one by one and stops at the first that fails. */
  function OnSubs(c: Core, header: int, delta: int, ts: seq<Sub>, env: seq<Env>, k: nat): (r: Outcome)
    requires Valid(c)
    ensures Valid(r.core)
    decreases ts
  {
    if ts == [] then Outcome(c, [], SUCCESS)
    else
      var d := NextDelta(header, delta, ts[0]);
      var r := OnSub(c, ts[0], ts[0].time + d, EnvAt(env, k));
      if r.ret != SUCCESS then r
      else
        var more := OnSubs(r.core, header, d, ts[1..], env, k + 1);
        more.(out := r.out + more.out)
  }

  /** What is left to do of an aggregate after `done` was offered, as the outcome of the whole. */
  function Remaining(c: Core, header: int, delta: int, b: seq<byte>, env: seq<Env>, k: nat, done: seq<Offer>): Outcome
    requires Valid(c)
  {
    var r := OnSubs(c, header, delta, Tags(b), env, k);
    r.(out := done + r.out)
  }

  lemma RemainingNone(c: Core, header: int, delta: int, b: seq<byte>, env: seq<Env>, k: nat, done: seq<Offer>)
    requires Valid(c) && !HasTag(b)
    ensures Remaining(c, header, delta, b, env, k, done) == Outcome(c, done, SUCCESS)
    ensures Leftover(b) == b
  {
    assert done + [] == done;
  }

  /** How one complete sub-message at the front of `b` unfolds. */
  lemma RemainingStep(c: Core, header: int, delta: int, b: seq<byte>, env: seq<Env>, k: nat, done: seq<Offer>,
                      d: int, r: Outcome)
    requires Valid(c) && HasTag(b)
    requires d == NextDelta(header, delta, FirstTag(b))
    requires r == OnSub(c, FirstTag(b), FirstTag(b).time + d, EnvAt(env, k))
    ensures Remaining(c, header, delta, b, env, k, done) ==
      if r.ret != SUCCESS then Outcome(r.core, done + r.out, r.ret)
      else Remaining(r.core, header, d, AfterTag(b), env, k + 1, done + r.out)
    ensures Leftover(b) == Leftover(AfterTag(b))
  {
    hide HasTag, FirstTag, AfterTag, OnSub, X.Counted, NextDelta, EnvAt;
    assert Tags(b) == [FirstTag(b)] + Tags(AfterTag(b));
    var more := OnSubs(r.core, header, d, Tags(AfterTag(b)), env, k + 1);
    assert done + (r.out + more.out) == done + r.out + more.out;
  }

  function OnAggregate(c: Core, header: int, payload: seq<byte>, env: seq<Env>): (r: Outcome)
    requires Valid(c)
    ensures Valid(r.core)
  {
    if payload == [] then Outcome(c, [], ERROR_KERNEL_STREAM_INIT)
    else
      var r := OnSubs(c, header, -1, Tags(payload), env, 0);
      if r.ret == SUCCESS && Leftover(payload) != [] then r.(ret := ERROR_RTMP_AGGREGATE) else r
  }

  // ----- joining -----

  function AsOffer(m: Option<Message>, atc: bool): seq<Offer> {
    if m.None? then [] else [Offer(m.value, atc)]
  }

  /** Metadata, then the audio header, then the video header. */
  function Dumps(meta: Meta, atc: bool, dm: bool, ds: bool): seq<Offer> {
    (if dm then AsOffer(meta.data, atc) else [])
    + (if ds then AsOffer(meta.audio, atc) + AsOffer(meta.video, atc) else [])
  }

  function Offers(ms: seq<Message>, atc: bool): (r: seq<Offer>)
    ensures |r| == |ms| && forall i | 0 <= i < |ms| :: r[i] == Offer(ms[i], atc)
  {
    if ms == [] then [] else [Offer(ms[0], atc)] + Offers(ms[1..], atc)
  }

  /** With atc the cached headers are moved to where the cached group of pictures starts. */
  function Joined(c: Core): Core {
    if c.atc && c.gop.cache != [] then
      var t := c.gop.cache[0].timestamp;
      c.(meta := Meta(At(c.meta.data, t), At(c.meta.video, t), At(c.meta.audio, t)))
    else c
  }

  /** Everything a new consumer is given before it sees anything live. */
  function Opening(c: Core, ds: bool, dm: bool, dg: bool): seq<Offer> {
    Dumps(Joined(c).meta, c.atc, dm, ds) + if dg then Offers(c.gop.cache, c.atc) else []
  }

  /** A new consumer with its queue length set, before it is given anything. */
  function Sized(ms: int): ConsumerState {
    FreshConsumer.(log := MQ.Apply(MQ.Fresh, MQ.SetSize(ms)))
  }

  /** Every one of these offers is queued and returns. */
  predicate AllTaken(c: ConsumerState, os: seq<Offer>, ag: Algorithm)
    decreases os
  {
    os == [] || (Takes(c, os[0], ag) && AllTaken(Feed(c, os[0], ag), os[1..], ag))
  }

  lemma {:induction false} BoundedTakesAll(c: ConsumerState, os: seq<Offer>, ag: Algorithm)
    requires Bounded(c)
    ensures AllTaken(c, os, ag)
    decreases os
  {
    hide Feed, Takes, Bounded;
    if os != [] {
      BoundedTakes(c, os[0], ag);
      FeedBounded(c, os[0], ag);
      BoundedTakesAll(Feed(c, os[0], ag), os[1..], ag);
    }
  }

  /** Filling a new consumer returns exactly when its length is not negative or there is nothing to give it. */
  lemma FillingEndsIff(ms: int, os: seq<Offer>, ag: Algorithm)
    ensures AllTaken(Sized(ms), os, ag) <==> ms >= 0 || os == []
  {
    if ms >= 0 {
      BoundedTakesAll(Sized(ms), os, ag);
    } else if os != [] {
      var m := Fixed(Sized(ms), os[0], ag).1;
      MQ.FirstMessageNeverEnds(ms, m, 0);
      assert MQ.Rounds(MQ.Appended(Sized(ms).log.q, m), 0) == MQ.Appended(Sized(ms).log.q, m);
    }
  }

  // ----- who may publish, and when the source died -----

  /** `dieAt` is -1 or the last moment the source was left without consumers. */
  datatype Life = Life(canPublish: bool, dieAt: int)

  const SOURCE_CLEANUP := 30000

  const Born := Life(true, -1)

  function Published(l: Life): Life {
    l.(canPublish := false)
  }

  function Unpublished(l: Life, noConsumers: bool, now: int): Life {
    if l.canPublish then l
    else Life(true, if noConsumers then now else l.dieAt)
  }

  function ConsumerGone(l: Life, noConsumers: bool, now: int): Life {
    if noConsumers then l.(dieAt := now) else l
  }

  predicate Expired(l: Life, noConsumers: bool, now: int) {
    l.dieAt != -1 && l.canPublish && noConsumers && now > l.dieAt + SOURCE_CLEANUP
  }
}
