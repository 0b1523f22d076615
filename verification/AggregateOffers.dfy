/** What an aggregate is to the consumers: its audio and video, in order, at times of their own. */
module AggregateOffers {
  import opened Messages
  import opened GopCaches
  import opened Aggregates
  import opened SourceSpec
  import C = Consumers
  import X = MixQueues

  /** The sub-messages that are dispatched: audio, and video that is not dropped at once. */
  function Dispatched(ts: seq<Sub>): seq<Sub> {
    if ts == [] then []
    else
      (if ts[0].msgType == 8 || (ts[0].msgType == 9 && Acceptable(ts[0].data)) then [ts[0]] else [])
      + Dispatched(ts[1..])
  }

  /** The offer is this sub-message: audio exactly for type 8, with its own bytes. */
  predicate Carries(o: C.Offer, t: Sub, atc: bool) {
    o.m.kind == (if t.msgType == 8 then Audio else Video) && o.m.payload == t.data && o.atc == atc
  }

  /** Each sub-message is offered once, in order. */
  predicate AllCarried(os: seq<C.Offer>, ts: seq<Sub>, atc: bool) {
    |os| == |ts| && forall i | 0 <= i < |os| :: Carries(os[i], ts[i], atc)
  }

  predicate AllAt(os: seq<C.Offer>, ts: seq<Sub>, shift: int) {
    |os| == |ts| && forall i | 0 <= i < |os| :: os[i].m.timestamp == ts[i].time + shift
  }

  lemma ImpOffers(c: Core, m: Message, env: Env)
    requires m.IsAv() && !env.reduce && Imp(c, m, env).ret == SUCCESS
    ensures var r := Imp(c, m, env);
      r.out == [C.Offer(m, c.atc)] && r.core.atc == c.atc && r.core.mixCorrect == c.mixCorrect
  {
    hide VideoSh, AudioSh, AudioFormat, Cached;
  }

  lemma SubOffers(c: Core, t: Sub, timestamp: int, env: Env)
    requires Valid(c) && !c.mixCorrect && !env.reduce && OnSub(c, t, timestamp, env).ret == SUCCESS
    ensures var r := OnSub(c, t, timestamp, env);
      && r.core.atc == c.atc && r.core.mixCorrect == c.mixCorrect
      && AllCarried(r.out, Dispatched([t]), c.atc)
      && forall o | o in r.out :: o.m.timestamp == timestamp
  {
    hide X.Counted, Imp, Acceptable;
    assert [t][1..] == [];
    if t.IsAv() && !(t.msgType == 9 && !Acceptable(t.data)) {
      ImpOffers(c, SubMessage(t, timestamp, env), env);
    }
  }

  lemma DispatchedFirst(ts: seq<Sub>)
    requires ts != []
    ensures Dispatched(ts) == Dispatched([ts[0]]) + Dispatched(ts[1..])
  {
    assert [ts[0]][1..] == [];
  }

  lemma AllConcat(a: seq<C.Offer>, b: seq<C.Offer>, x: seq<Sub>, y: seq<Sub>, atc: bool, shift: int)
    ensures AllCarried(a, x, atc) && AllCarried(b, y, atc) ==> AllCarried(a + b, x + y, atc)
    ensures AllAt(a, x, shift) && AllAt(b, y, shift) ==> AllAt(a + b, x + y, shift)
  {
  }

  lemma {:induction false} SubsOffer(c: Core, header: int, delta: int, ts: seq<Sub>, env: seq<Env>, k: nat)
    requires Valid(c) && !c.mixCorrect && OnSubs(c, header, delta, ts, env, k).ret == SUCCESS
    requires forall e | e in env :: !e.reduce
    ensures var out := OnSubs(c, header, delta, ts, env, k).out;
      && AllCarried(out, Dispatched(ts), c.atc)
      && (delta != -1 ==> AllAt(out, Dispatched(ts), delta))
      && (delta == -1 && ts != [] && header - ts[0].time != -1 ==> AllAt(out, Dispatched(ts), header - ts[0].time))
    decreases ts
  {
    hide X.Counted, OnSub, Acceptable, Carries;
    if ts != [] {
      var d := NextDelta(header, delta, ts[0]);
      var e, r := EnvAt(env, k), OnSub(c, ts[0], ts[0].time + d, EnvAt(env, k));
      SubOffers(c, ts[0], ts[0].time + d, e);
      SubsOffer(r.core, header, d, ts[1..], env, k + 1);
      DispatchedFirst(ts);
      OneAt(ts[0], r.out, d, c.atc);
      hide Dispatched, AllCarried, AllAt;
      var more := OnSubs(r.core, header, d, ts[1..], env, k + 1).out;
      AllConcat(r.out, more, Dispatched([ts[0]]), Dispatched(ts[1..]), c.atc, d);
    }
  }

  lemma OneAt(t: Sub, os: seq<C.Offer>, d: int, atc: bool)
    requires AllCarried(os, Dispatched([t]), atc) && forall o | o in os :: o.m.timestamp == t.time + d
    ensures AllAt(os, Dispatched([t]), d)
  {
    assert [t][1..] == [];
  }

  /**
   An aggregate that goes through: its audio and its video are offered in order, each with its own
   bytes, at the time of the aggregate plus its distance from the first sub-message; unless the first
   is dated one later than the aggregate. The reorder queue and header reduction are off.
   */
  lemma AggregateOffered(c: Core, header: int, ts: seq<Sub>, env: seq<Env>)
    requires Valid(c) && !c.mixCorrect && ts != [] && forall t | t in ts :: Encodable(t)
    requires forall e | e in env :: !e.reduce
    requires OnAggregate(c, header, EncodeAll(ts), env).ret == SUCCESS
    ensures var out, av := OnAggregate(c, header, EncodeAll(ts), env).out, Dispatched(ts);
      && |out| == |av|
      && (forall i | 0 <= i < |out| ::
           && out[i].m.kind == (if av[i].msgType == 8 then Audio else Video)
           && out[i].m.payload == av[i].data && out[i].atc == c.atc)
      && (header - ts[0].time != -1 ==>
           forall i | 0 <= i < |out| :: out[i].m.timestamp == header + av[i].time - ts[0].time)
  {
    hide X.Counted, OnSubs, EncodeAll, Encodable, Acceptable, IsTag, U24;
    DecodeEncode(ts);
    SubsOffer(c, header, -1, ts, env, 0);
  }

  /** The code of an aggregate: 3038 when it is empty, the first failure, or 2024 when something is left over. */
  lemma AggregateCode(c: Core, header: int, payload: seq<byte>, env: seq<Env>)
    requires Valid(c)
    ensures var r, failed := OnAggregate(c, header, payload, env), OnSubs(c, header, -1, Tags(payload), env, 0).ret;
      && r.ret == (if payload == [] then 3038 else if failed != 0 then failed
                   else if Leftover(payload) != [] then 2024 else 0)
      && (payload == [] ==> r.core == c && r.out == [])
  {
    hide X.Counted, OnSubs, Tags, Leftover;
  }
}
