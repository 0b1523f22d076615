/** The cache of the current group of pictures, and why its content is determined by the stream. */
module GopCaches {
  import opened Messages

  const PURE_AUDIO_GUESS_COUNT := 115

  datatype Gop = Gop(enabled: bool, videos: nat, audiosAfterVideo: nat, cache: seq<Message>)

  const FreshGop := Gop(true, 0, 0, [])

  function Cleared(g: Gop): Gop {
    Gop(g.enabled, 0, 0, [])
  }

  function Set(g: Gop, on: bool): Gop {
    if on then g.(enabled := true) else Cleared(g).(enabled := false)
  }

  predicate IsKeyframe(m: Message) {
    m.kind.Video? && Keyframe(m.payload)
  }

  /** Every message but a video in a codec the cache does not understand. */
  predicate Cacheable(m: Message) {
    m.kind.Video? ==> H264(m.payload)
  }

  function Cached(g: Gop, m: Message): Gop {
    if !g.enabled || !Cacheable(m) then g
    else
      var g1 := if m.kind.Video? then g.(videos := g.videos + 1, audiosAfterVideo := 0) else g;
      if g1.videos == 0 then g1
      else
        var g2 := if m.kind.Audio? then g1.(audiosAfterVideo := g1.audiosAfterVideo + 1) else g1;
        if g2.audiosAfterVideo > PURE_AUDIO_GUESS_COUNT then Cleared(g2)
        else
          var g3 := if IsKeyframe(m) then Cleared(g2).(videos := 1) else g2;
          g3.(cache := g3.cache + [m])
  }

  class GopCache {
    var enableGopCache: bool
    var cachedVideoCount: nat
    var audioAfterLastVideoCount: nat
    var gopCache: seq<Message>

    ghost function View(): Gop
      reads this
    {
      Gop(enableGopCache, cachedVideoCount, audioAfterLastVideoCount, gopCache)
    }

    constructor ()
      ensures View() == FreshGop
    {
      cachedVideoCount := 0;
      enableGopCache := true;
      audioAfterLastVideoCount := 0;
      gopCache := [];
    }

    method SetEnabled(v: bool)
      modifies this
      ensures View() == Set(old(View()), v)
    {
      enableGopCache := v;
      if !v {
        Clear();
      }
    }

    method Clear()
      modifies this
      ensures View() == Cleared(old(View()))
    {
      gopCache := [];
      cachedVideoCount := 0;
      audioAfterLastVideoCount := 0;
    }

    method Cache(msg: Message)
      modifies this
      ensures View() == Cached(old(View()), msg)
    {
      if !enableGopCache {
        return;
      }
      if msg.kind.Video? {
        if !H264(msg.payload) {
          return;
        }
        cachedVideoCount := cachedVideoCount + 1;
        audioAfterLastVideoCount := 0;
      }
      if cachedVideoCount == 0 {
        return;
      }
      if msg.kind.Audio? {
        audioAfterLastVideoCount := audioAfterLastVideoCount + 1;
      }
      if audioAfterLastVideoCount > PURE_AUDIO_GUESS_COUNT {
        Clear();
        return;
      }
      if msg.kind.Video? && Keyframe(msg.payload) {
        Clear();
        cachedVideoCount := 1;
      }
      gopCache := gopCache + [msg];
    }

    function Empty(): bool
      reads this
    {
      gopCache == []
    }

    /** The timestamp of the first cached message, 0 when there is none. */
    function StartTime(): (t: int)
      reads this
      ensures t == if gopCache == [] then 0 else gopCache[0].timestamp
    {
      if gopCache == [] then 0 else gopCache[0].timestamp
    }
  }

  // ----- invariants of every reachable cache -----

  function VideoCount(s: seq<Message>): nat {
    if s == [] then 0 else VideoCount(s[..|s| - 1]) + if s[|s| - 1].kind.Video? then 1 else 0
  }

  /** How many audio messages follow the last video of `s`. */
  function TrailingAudios(s: seq<Message>): nat {
    if s == [] || s[|s| - 1].kind.Video? then 0
    else TrailingAudios(s[..|s| - 1]) + if s[|s| - 1].kind.Audio? then 1 else 0
  }

  /**
   A run of messages a player can start from: it begins with a video, has no later keyframe to
   start from instead, and nowhere lets so many audios follow a video that video must have stopped.
   */
  predicate Playable(s: seq<Message>) {
    if s == [] then true
    else if |s| == 1 then s[0].kind.Video?
    else Playable(s[..|s| - 1]) && !IsKeyframe(s[|s| - 1]) && TrailingAudios(s) <= PURE_AUDIO_GUESS_COUNT
  }

  /** What holds of the cache fields in every reachable state. */
  predicate Consistent(g: Gop) {
    && g.videos == VideoCount(g.cache)
    && g.audiosAfterVideo == TrailingAudios(g.cache)
    && Playable(g.cache)
    && (!g.enabled ==> g.cache == [])
  }

  lemma {:induction false} PlayableShape(s: seq<Message>)
    requires Playable(s)
    ensures s != [] ==> s[0].kind.Video? && VideoCount(s) > 0
    ensures forall i | 0 < i < |s| :: !IsKeyframe(s[i])
    ensures TrailingAudios(s) <= PURE_AUDIO_GUESS_COUNT
  {
    if |s| > 1 {
      PlayableShape(s[..|s| - 1]);
      assert forall i | 0 < i < |s| - 1 :: s[i] == s[..|s| - 1][i];
    } else if |s| == 1 {
      assert VideoCount(s[..0]) == 0;
    }
  }

  /** Each call keeps the counters true and the content playable. */
  lemma CachedConsistent(g: Gop, m: Message)
    requires Consistent(g)
    ensures Consistent(Cached(g, m))
  {
    PlayableShape(g.cache);
    PlayableSnoc(g.cache, m);
    PlayableSnoc([], m);
    assert [] + [m] == [m];
    hide H264, Keyframe, VideoCount, TrailingAudios, Playable;
  }

  /** How the counts and the shape of a run grow by one message. */
  lemma PlayableSnoc(s: seq<Message>, m: Message)
    ensures VideoCount([]) == 0 && TrailingAudios([]) == 0 && Playable([])
    ensures VideoCount(s + [m]) == VideoCount(s) + if m.kind.Video? then 1 else 0
    ensures TrailingAudios(s + [m]) ==
      if m.kind.Video? then 0 else TrailingAudios(s) + if m.kind.Audio? then 1 else 0
    ensures Playable(s + [m]) <==>
      if s == [] then m.kind.Video?
      else Playable(s) && !IsKeyframe(m) && TrailingAudios(s + [m]) <= PURE_AUDIO_GUESS_COUNT
  {
    hide IsKeyframe;
    assert (s + [m])[..|s|] == s;
  }

  /** The shape a reader of the cache can rely on, spelled out. */
  lemma ConsistentShape(g: Gop)
    requires Consistent(g)
    ensures g.cache != [] ==> g.cache[0].kind.Video?
    ensures forall i | 0 < i < |g.cache| :: !IsKeyframe(g.cache[i])
    ensures g.audiosAfterVideo <= PURE_AUDIO_GUESS_COUNT == 115
    ensures g.videos == 0 <==> g.cache == []
  {
    PlayableShape(g.cache);
  }

  /** A cacheable message is appended, or restarts the cache, or is dropped with all of it. */
  lemma CachedShape(g: Gop, m: Message)
    requires Consistent(g) && Cacheable(m)
    ensures var c1 := Cached(g, m).cache; c1 == [] || c1 == [m] || c1 == g.cache + [m]
  {
    hide H264, Keyframe;
    ConsistentShape(g);
    assert [] + [m] == [m];
  }

  lemma SuffixStep(c: seq<Message>, h: seq<Message>, m: Message)
    requires IsSuffix(c, h)
    ensures IsSuffix([], h + [m]) && IsSuffix([m], h + [m]) && IsSuffix(c + [m], h + [m])
  {
    var h1 := h + [m];
    assert h1[|h1| - |c| - 1..] == h[|h| - |c|..] + [m];
    assert h1[|h1| - 1..] == [m];
  }

  // ----- the cache as a function of the history -----

  function AfterAll(g: Gop, h: seq<Message>): Gop {
    if h == [] then g else Cached(AfterAll(g, h[..|h| - 1]), h[|h| - 1])
  }

  /** The videos of two runs that end alike and both contain a video are followed by the same audios. */
  lemma {:induction false} TrailingAudiosSuffix(s: seq<Message>, n: nat)
    requires n < |s| && s[n].kind.Video?
    ensures TrailingAudios(s[n..]) == TrailingAudios(s)
  {
    if !s[|s| - 1].kind.Video? {
      TrailingAudiosSuffix(s[..|s| - 1], n);
      assert s[n..][..|s[n..]| - 1] == s[..|s| - 1][n..];
    }
  }

  /** No suffix of `h` longer than `c` is playable. */
  predicate NoLongerPlayable(c: seq<Message>, h: seq<Message>) {
    forall n | 0 <= n < |h| - |c| :: !Playable(h[n..])
  }

  predicate LongestPlayable(c: seq<Message>, h: seq<Message>) {
    IsSuffix(c, h) && Playable(c) && NoLongerPlayable(c, h)
  }

  /** A run that is playable with `m` at its end was playable before and does not overflow. */
  lemma NoLongerPlayableStep(g: Gop, h: seq<Message>, m: Message, n: nat)
    requires g.enabled && Consistent(g) && Cacheable(m)
    requires LongestPlayable(g.cache, h)
    requires n <= |h| && Playable(h[n..] + [m])
    ensures |h| + 1 - n <= |Cached(g, m).cache|
  {
    hide H264, Keyframe;
    var c, s := g.cache, h[n..] + [m];
    assert s[..|s| - 1] == h[n..] && s[|s| - 1] == m;
    if n < |h| {
      PlayableShape(h[n..]);
      var k := n - (|h| - |c|);
      assert k >= 0 && h[n..] == c[k..];
      TrailingAudiosSuffix(c, k);
    }
  }

  /** How the longest playable suffix changes when one cacheable message arrives. */
  lemma LongestPlayableStep(g: Gop, h: seq<Message>, m: Message)
    requires g.enabled && Consistent(g) && Cacheable(m)
    requires LongestPlayable(g.cache, h)
    ensures LongestPlayable(Cached(g, m).cache, h + [m])
  {
    hide H264, Keyframe, TrailingAudios, Playable, VideoCount;
    CachedConsistent(g, m);
    var c, c1, h1 := g.cache, Cached(g, m).cache, h + [m];
    CachedShape(g, m);
    SuffixStep(c, h, m);
    forall n | 0 <= n < |h1| - |c1| ensures !Playable(h1[n..]) {
      assert h1[n..] == h[n..] + [m];
      if Playable(h1[n..]) {
        NoLongerPlayableStep(g, h, m, n);
      }
    }
  }

  /**
   After any history, an enabled cache that started empty holds exactly the longest suffix of the
   cacheable messages from which a player can start.
   */
  lemma {:induction false} CacheIsLongestPlayableSuffix(g: Gop, h: seq<Message>)
    requires g.enabled && g == Cleared(g)
    ensures Consistent(AfterAll(g, h)) && AfterAll(g, h).enabled
    ensures LongestPlayable(AfterAll(g, h).cache, Filter(Cacheable, h))
  {
    hide H264, Keyframe;
    if h != [] {
      var front, m := h[..|h| - 1], h[|h| - 1];
      CacheIsLongestPlayableSuffix(g, front);
      CachedConsistent(AfterAll(g, front), m);
      if Cacheable(m) {
        LongestPlayableStep(AfterAll(g, front), Filter(Cacheable, front), m);
      } else {
        assert Filter(Cacheable, h) == Filter(Cacheable, front);
      }
    }
  }

  // ----- the cache from the start, and switched off -----

  lemma CachedAudio(n: nat, cache: seq<Message>, a: Message)
    requires a.kind.Audio?
    ensures Cached(Gop(true, 1, n, cache), a) ==
      if n < 115 then Gop(true, 1, n + 1, cache + [a]) else Gop(true, 0, 0, [])
  {
  }

  lemma AfterSnoc(g: Gop, h: seq<Message>, m: Message)
    ensures AfterAll(g, h + [m]) == Cached(AfterAll(g, h), m)
  {
    assert (h + [m])[..|h|] == h;
  }

  lemma CachedFirst(v: Message)
    requires v.kind.Video? && Cacheable(v)
    ensures AfterAll(FreshGop, [v]) == Gop(true, 1, 0, [v])
  {
    hide H264, Keyframe;
    assert AfterAll(FreshGop, []) == FreshGop && [] + [v] == [v];
    AfterSnoc(FreshGop, [], v);
  }

  /** In a new source a video and the audio behind it are cached, up to 115 of them; one more empties the cache. */
  lemma {:induction false} AudiosBehindVideo(v: Message, audios: seq<Message>)
    requires v.kind.Video? && Cacheable(v) && (forall a | a in audios :: a.kind.Audio?) && |audios| <= 116
    ensures var g := AfterAll(FreshGop, [v] + audios);
      if |audios| <= 115 then g == Gop(true, 1, |audios|, [v] + audios) else g == Gop(true, 0, 0, [])
  {
    hide Cacheable, Cached, AfterAll;
    if audios == [] {
      assert [v] + audios == [v];
      CachedFirst(v);
    } else {
      var front, a := audios[..|audios| - 1], audios[|audios| - 1];
      assert a in audios && forall x | x in front :: x in audios;
      AudiosBehindVideo(v, front);
      assert [v] + audios == [v] + front + [a];
      AfterSnoc(FreshGop, [v] + front, a);
      CachedAudio(|front|, [v] + front, a);
    }
  }

  /** Switched off, the cache is emptied and stays empty; switched on, it keeps what it has. */
  lemma {:induction false} OffStaysEmpty(g: Gop, h: seq<Message>)
    ensures AfterAll(Set(g, false), h).cache == [] && !AfterAll(Set(g, false), h).enabled
    ensures Set(g, true) == Gop(true, g.videos, g.audiosAfterVideo, g.cache)
  {
    if h != [] {
      OffStaysEmpty(g, h[..|h| - 1]);
    }
  }
}
