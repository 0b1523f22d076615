/** Applying what a reload announces turns a copy of the old configuration into one of the new. */
module ConfReloadDiff {
  import opened Messages
  import opened ConfDirectives
  import opened ConfReload

  // ----- unique ids -----

  lemma {:induction false} NamedFound(ds: seq<Directive>, name: string, d: Directive)
    requires UniqueIds(ds, name) && d in Named(ds, name)
    ensures Get2(ds, name, d.Arg0()) == Some(d)
  {
    var j :| 0 <= j < |ds| && ds[j] == d;
    var i := Find2(ds, name, d.Arg0());
    assert i == j;
  }

  lemma FoundNamed(ds: seq<Directive>, name: string, id: string)
    requires Get2(ds, name, id).Some?
    ensures Get2(ds, name, id).value in Named(ds, name) && Get2(ds, name, id).value.Arg0() == id
    ensures id in Ids(ds, name)
  {
    var d := Get2(ds, name, id).value;
    assert d in Named(ds, name) && d.Arg0() == id;
  }

  lemma EqualsSamePlain(a: Option<Directive>, b: Option<Directive>)
    ensures Equals(a, b) <==> PlainOption(a) == PlainOption(b)
  {
    if a.Some? && b.Some? {
      EqualsIffSamePlain(a.value, b.value);
    }
  }

  // ----- notices about one vhost -----

  predicate About(n: Notice, vhost: string) {
    !n.VhostAdded? && !n.VhostRemoved? && (n.HttpChanged? || n.vhost == vhost)
  }

  predicate AllAbout(ns: seq<Notice>, vhost: string) {
    forall n | n in ns :: About(n, vhost)
  }

  function LearnAll(vhost: seq<Directive>, v: VhostView, ns: seq<Notice>): VhostView
    decreases ns
  {
    if ns == [] then v else LearnAll(vhost, Learn(vhost, v, ns[0]), ns[1..])
  }

  lemma {:induction false} ApplyAllConcat(root: seq<Directive>, view: View, a: seq<Notice>, b: seq<Notice>)
    ensures ApplyAll(root, view, a + b) == ApplyAll(root, ApplyAll(root, view, a), b)
    decreases a
  {
    hide Apply;
    if a == [] {
      assert a + b == b;
    } else {
      assert (a + b)[1..] == a[1..] + b;
      ApplyAllConcat(root, Apply(root, view, a[0]), a[1..], b);
    }
  }

  lemma {:induction false} LearnAllConcat(vhost: seq<Directive>, v: VhostView, a: seq<Notice>, b: seq<Notice>)
    ensures LearnAll(vhost, v, a + b) == LearnAll(vhost, LearnAll(vhost, v, a), b)
    decreases a
  {
    hide Learn;
    if a == [] {
      assert a + b == b;
    } else {
      assert (a + b)[1..] == a[1..] + b;
      LearnAllConcat(vhost, Learn(vhost, v, a[0]), a[1..], b);
    }
  }

  lemma ApplyAbout(root: seq<Directive>, view: View, vhost: string, n: Notice)
    requires vhost in view && Vhost(root, vhost).Some? && About(n, vhost)
    ensures Apply(root, view, n) == view[vhost := Learn(Vhost(root, vhost).value.children, view[vhost], n)]
  {
    hide Vhost, Ingest, Held, Transcodes, PlainOption, ViewOf;
    if n.HttpChanged? {
      assert view[vhost := view[vhost]] == view;
    }
  }

  lemma {:induction false} ApplyAllAbout(root: seq<Directive>, view: View, vhost: string, ns: seq<Notice>)
    requires vhost in view && Vhost(root, vhost).Some? && AllAbout(ns, vhost)
    ensures ApplyAll(root, view, ns) == view[vhost := LearnAll(Vhost(root, vhost).value.children, view[vhost], ns)]
    decreases ns
  {
    hide Learn, Apply, Vhost, About;
    if ns == [] {
      assert view[vhost := view[vhost]] == view;
    } else {
      assert ns[0] in ns && forall n | n in ns[1..] :: n in ns;
      ApplyAbout(root, view, vhost, ns[0]);
      ApplyAllAbout(root, Apply(root, view, ns[0]), vhost, ns[1..]);
    }
  }

  lemma {:induction false} PartNoticesAbout(ps: seq<Part>, vhost: string, newVhost: seq<Directive>,
      oldVhost: seq<Directive>)
    ensures AllAbout(PartNotices(ps, vhost, newVhost, oldVhost), vhost)
  {
    hide Part.Changed;
    if ps != [] {
      PartNoticesAbout(ps[1..], vhost, newVhost, oldVhost);
    }
  }

  lemma {:induction false} IngestNoticesAbout(ds: seq<Directive>, vhost: string, other: seq<Directive>)
    ensures AllAbout(Removals(ds, vhost, other), vhost)
    ensures AllAbout(Additions(ds, vhost, other), vhost)
    ensures AllAbout(Updates(ds, vhost, other), vhost)
  {
    hide Stops, Starts, Restarts;
    if ds != [] {
      IngestNoticesAbout(ds[1..], vhost, other);
    }
  }

  lemma DetailsAbout(vhost: string, newVhost: seq<Directive>, oldVhost: seq<Directive>)
    ensures AllAbout(Details(vhost, newVhost, oldVhost), vhost)
  {
    hide PartNotices, Parts, Removals, Additions, Updates, Named;
    PartNoticesAbout(Parts(), vhost, newVhost, oldVhost);
    IngestNoticesAbout(Named(oldVhost, "ingest"), vhost, newVhost);
    IngestNoticesAbout(Named(newVhost, "ingest"), vhost, oldVhost);
  }

  // ----- parts -----

  /** After the part notices, exactly the changed parts have been read again. */
  lemma {:induction false} PartsLearned(ps: seq<Part>, vhost: string, newVhost: seq<Directive>,
      oldVhost: seq<Directive>,
                                        v: VhostView)
    ensures var r := LearnAll(newVhost, v, PartNotices(ps, vhost, newVhost, oldVhost));
      && r.transcode == v.transcode && r.ingests == v.ingests
      && r.parts == Reread(v.parts, ps, newVhost, oldVhost)
    decreases ps
  {
    hide Reread, Held, Part.Changed;
    if ps == [] {
      RereadNone(v.parts, newVhost, oldVhost);
    } else {
      var p, rest := ps[0], PartNotices(ps[1..], vhost, newVhost, oldVhost);
      RereadOne(v.parts, ps, newVhost, oldVhost);
      if p.Changed(newVhost, oldVhost) {
        var v1 := Learn(newVhost, v, PartNotice(p, vhost));
        assert ([PartNotice(p, vhost)] + rest)[1..] == rest;
        PartsLearned(ps[1..], vhost, newVhost, oldVhost, v1);
      } else {
        assert [] + rest == rest;
        PartsLearned(ps[1..], vhost, newVhost, oldVhost, v);
      }
    }
  }

  /** The table with the changed ones among these parts read again. */
  function Reread(m: map<Part, Option<Directive>>, ps: seq<Part>, newVhost: seq<Directive>, oldVhost: seq<Directive>):
    map<Part, Option<Directive>>
  {
    map p: Part | p in m || (p in ps && Tracked(p) && p.Changed(newVhost, oldVhost)) ::
      if p in ps && Tracked(p) && p.Changed(newVhost, oldVhost) then Held(p, newVhost) else m[p]
  }

  lemma RereadNone(m: map<Part, Option<Directive>>, newVhost: seq<Directive>, oldVhost: seq<Directive>)
    ensures Reread(m, [], newVhost, oldVhost) == m
  {
  }

  lemma RereadOne(m: map<Part, Option<Directive>>, ps: seq<Part>, newVhost: seq<Directive>, oldVhost: seq<Directive>)
    requires ps != []
    ensures Reread(m, ps, newVhost, oldVhost) ==
      if ps[0].Changed(newVhost, oldVhost) && Tracked(ps[0]) then
        Reread(m[ps[0] := Held(ps[0], newVhost)], ps[1..], newVhost, oldVhost)
      else Reread(m, ps[1..], newVhost, oldVhost)
  {
    hide Held, Part.Changed;
    assert ps == [ps[0]] + ps[1..];
  }

  lemma EveryPartIsWatched(p: Part)
    ensures p in Parts()
  {
    assert Parts()[0] == ChunkSize && Parts()[1] == TcpNodelay && Parts()[2] == MinLatency && Parts()[3] == Play;
    assert Parts()[4] == Forward && Parts()[5] == Dash && Parts()[6] == Hls && Parts()[7] == Hds && Parts()[8] == Dvr;
    assert Parts()[9] == DvrFilter && Parts()[10] == Exec && Parts()[11] == Publish && Parts()[12] == HttpStatic;
    assert Parts()[13] == HttpRemux;
  }

  // ----- the comparison that passes over children -----

  /** Whatever is passed over on the left faces something that is masked on the right. */
  predicate Faces(a: Directive, b: Directive, except: string)
    decreases a
  {
    forall i | 0 <= i < |a.children| && i < |b.children| ::
      if a.children[i].name == except then b.children[i].name == except
      else Faces(a.children[i], b.children[i], except)
  }

  lemma {:induction false} MaskAllAt(ds: seq<Directive>, except: string, i: nat)
    requires i < |ds|
    ensures MaskAll(ds, except)[i] == if ds[i].name == except then New(except) else Mask(ds[i], except)
  {
    if i > 0 {
      MaskAllAt(ds[1..], except, i - 1);
    }
  }

  /** The comparison is one of masked trees exactly when everything passed over faces its like. */
  lemma {:induction false} MaskSameIff(a: Directive, b: Directive, except: string)
    ensures Mask(a, except) == Mask(b, except) <==> EqualsExceptDeep(a, b, except) && Faces(a, b, except)
    decreases a
  {
    if EqualsSelf(a, b) {
      assert a.args == b.args;
      forall i | 0 <= i < |a.children|
        ensures MaskAll(a.children, except)[i] == MaskAll(b.children, except)[i] <==>
          if a.children[i].name == except then b.children[i].name == except
          else EqualsExceptDeep(a.children[i], b.children[i], except) && Faces(a.children[i], b.children[i], except)
      {
        MaskSameIff(a.children[i], b.children[i], except);
        MaskAllAt(a.children, except, i);
        MaskAllAt(b.children, except, i);
      }
    }
  }

  /** The recording section changed, and the comparison does not see it. */
  predicate DvrMissed(newVhost: seq<Directive>, oldVhost: seq<Directive>) {
    var a, b := Dvr.Content(newVhost), Dvr.Content(oldVhost);
    a.Some? && b.Some? && EqualsExceptDeep(a.value, b.value, "dvr_apply") && !Faces(a.value, b.value, "dvr_apply")
  }

  /** A part that is announced has changed; one that is not has stayed, unless it is a missed recording section. */
  lemma HeldChangedIff(p: Part, newVhost: seq<Directive>, oldVhost: seq<Directive>)
    ensures Held(p, newVhost) != Held(p, oldVhost) <==>
      p.Changed(newVhost, oldVhost) || (p == Dvr && DvrMissed(newVhost, oldVhost))
  {
    var a, b := p.Content(newVhost), p.Content(oldVhost);
    hide Part.Content, Faces, EqualsExceptDeep, EqualsDeep, Mask, Plain;
    EqualsSamePlain(a, b);
    if a.Some? && b.Some? {
      MaskSameIff(a.value, b.value, "dvr_apply");
    }
  }

  lemma PartsReread(newVhost: seq<Directive>, oldVhost: seq<Directive>)
    ensures Reread(PartsOf(oldVhost), Parts(), newVhost, oldVhost) == PartsOf(newVhost) <==>
      !DvrMissed(newVhost, oldVhost)
  {
    hide Held, Part.Changed, Parts, DvrMissed;
    forall p: Part
      ensures p in Parts()
      ensures Held(p, newVhost) != Held(p, oldVhost) <==>
        p.Changed(newVhost, oldVhost) || (p == Dvr && DvrMissed(newVhost, oldVhost))
    {
      EveryPartIsWatched(p);
      HeldChangedIff(p, newVhost, oldVhost);
    }
    var r, n := Reread(PartsOf(oldVhost), Parts(), newVhost, oldVhost), PartsOf(newVhost);
    assert Tracked(Dvr);
    if DvrMissed(newVhost, oldVhost) {
      MissedIsNotChanged(newVhost, oldVhost);
      assert r[Dvr] != n[Dvr];
    }
  }

  lemma MissedIsNotChanged(newVhost: seq<Directive>, oldVhost: seq<Directive>)
    requires DvrMissed(newVhost, oldVhost)
    ensures !Dvr.Changed(newVhost, oldVhost)
  {
    hide Part.Content, Faces, EqualsExceptDeep;
  }

  // ----- transcoders -----

  /** The vhost's transcoders are announced exactly when they are not the same up to line numbers. */
  lemma TranscodeDiffersIff(newVhost: seq<Directive>, oldVhost: seq<Directive>)
    requires UniqueIds(newVhost, "transcode") && UniqueIds(oldVhost, "transcode")
    ensures TranscodeDiffers(newVhost, oldVhost) <==> Transcodes(newVhost) != Transcodes(oldVhost)
  {
    hide UniqueIds, Get2, Equals;
    forall d | d in Named(newVhost, "transcode")
      ensures Get2(newVhost, "transcode", d.Arg0()) == Some(d) && d.Arg0() in Ids(newVhost, "transcode")
      ensures Missing(d, oldVhost) || Differs(d, oldVhost) ==> Transcodes(newVhost) != Transcodes(oldVhost)
    {
      NamedFound(newVhost, "transcode", d);
      EqualsSamePlain(Some(d), Get2(oldVhost, "transcode", d.Arg0()));
      assert d.Arg0() in Transcodes(newVhost);
    }
    forall d | d in Named(oldVhost, "transcode")
      ensures Get2(oldVhost, "transcode", d.Arg0()) == Some(d) && d.Arg0() in Ids(oldVhost, "transcode")
      ensures Missing(d, newVhost) ==> Transcodes(newVhost) != Transcodes(oldVhost)
    {
      NamedFound(oldVhost, "transcode", d);
      assert d.Arg0() in Transcodes(oldVhost);
    }
    if !TranscodeDiffers(newVhost, oldVhost) {
      TranscodesSame(newVhost, oldVhost);
    }
  }

  lemma TranscodesSame(newVhost: seq<Directive>, oldVhost: seq<Directive>)
    requires UniqueIds(newVhost, "transcode") && UniqueIds(oldVhost, "transcode")
    requires !TranscodeDiffers(newVhost, oldVhost)
    ensures Transcodes(newVhost) == Transcodes(oldVhost)
  {
    hide UniqueIds, Get2, Equals;
    var newTable, oldTable := Transcodes(newVhost), Transcodes(oldVhost);
    forall id | id in newTable
      ensures id in oldTable && newTable[id] == oldTable[id]
    {
      var d :| d in Named(newVhost, "transcode") && d.Arg0() == id;
      NamedFound(newVhost, "transcode", d);
      assert !Missing(d, oldVhost) && !Differs(d, oldVhost);
      FoundNamed(oldVhost, "transcode", id);
      EqualsSamePlain(Some(d), Get2(oldVhost, "transcode", id));
    }
    forall id | id in oldTable
      ensures id in newTable
    {
      var d :| d in Named(oldVhost, "transcode") && d.Arg0() == id;
      assert !Missing(d, newVhost);
      FoundNamed(newVhost, "transcode", id);
    }
  }

  // ----- ingesters -----

  function StopIds(ds: seq<Directive>, other: seq<Directive>): set<string> {
    set d | d in ds && Stops(d, other) :: d.Arg0()
  }

  function StartIds(ds: seq<Directive>, other: seq<Directive>): set<string> {
    set d | d in ds && Starts(d, other) :: d.Arg0()
  }

  function RestartIds(ds: seq<Directive>, other: seq<Directive>): set<string> {
    set d | d in ds && Restarts(d, other) :: d.Arg0()
  }

  /** These ids read again from the vhost. */
  function Refresh(m: map<string, Directive>, ids: set<string>, vhost: seq<Directive>): map<string, Directive>
    requires forall id | id in ids :: Ingest(vhost, id).Some?
  {
    map id | id in m.Keys + ids :: if id in ids then Plain(Ingest(vhost, id).value) else m[id]
  }

  lemma RemoveTwice(m: map<string, Directive>, a: set<string>, b: set<string>)
    ensures m - a - b == m - (a + b)
  {
  }

  lemma {:induction false} RemovalsLearned(ds: seq<Directive>, vhost: string, newVhost: seq<Directive>, v: VhostView)
    ensures LearnAll(newVhost, v, Removals(ds, vhost, newVhost)) ==
      v.(ingests := v.ingests - StopIds(ds, newVhost))
    decreases ds
  {
    hide Stops, Ingest;
    if ds == [] {
      assert StopIds(ds, newVhost) == {};
      assert v.ingests - {} == v.ingests;
    } else {
      var rest := Removals(ds[1..], vhost, newVhost);
      assert ds == [ds[0]] + ds[1..];
      if Stops(ds[0], newVhost) {
        var n := IngestRemoved(vhost, ds[0].Arg0());
        assert ([n] + rest)[1..] == rest;
        RemovalsLearned(ds[1..], vhost, newVhost, Learn(newVhost, v, n));
        assert StopIds(ds, newVhost) == {ds[0].Arg0()} + StopIds(ds[1..], newVhost);
        RemoveTwice(v.ingests, {ds[0].Arg0()}, StopIds(ds[1..], newVhost));
      } else {
        assert [] + rest == rest;
        RemovalsLearned(ds[1..], vhost, newVhost, v);
        assert StopIds(ds, newVhost) == StopIds(ds[1..], newVhost);
      }
    }
  }

  lemma RefreshNone(m: map<string, Directive>, vhost: seq<Directive>)
    ensures Refresh(m, {}, vhost) == m
  {
  }

  lemma RefreshTwice(m: map<string, Directive>, a: set<string>, b: set<string>, vhost: seq<Directive>)
    requires forall id | id in a + b :: Ingest(vhost, id).Some?
    ensures Refresh(Refresh(m, a, vhost), b, vhost) == Refresh(m, a + b, vhost)
  {
    hide Ingest;
  }

  lemma LearnIngest(vhost: seq<Directive>, v: VhostView, n: Notice)
    requires (n.IngestAdded? || n.IngestUpdated?) && Ingest(vhost, n.id).Some?
    ensures Learn(vhost, v, n) == v.(ingests := Refresh(v.ingests, {n.id}, vhost))
  {
    hide Ingest;
    assert v.ingests[n.id := Plain(Ingest(vhost, n.id).value)] == Refresh(v.ingests, {n.id}, vhost);
  }

  lemma {:induction false} AdditionsLearned(ds: seq<Directive>, vhost: string, newVhost: seq<Directive>,
      oldVhost: seq<Directive>, v: VhostView)
    requires forall d | d in ds :: Ingest(newVhost, d.Arg0()).Some?
    ensures LearnAll(newVhost, v, Additions(ds, vhost, oldVhost)) ==
      v.(ingests := Refresh(v.ingests, StartIds(ds, oldVhost), newVhost))
    decreases ds
  {
    hide Starts, Ingest, Learn, Refresh;
    if ds == [] {
      assert StartIds(ds, oldVhost) == {};
      RefreshNone(v.ingests, newVhost);
    } else {
      var rest := Additions(ds[1..], vhost, oldVhost);
      assert ds == [ds[0]] + ds[1..];
      if Starts(ds[0], oldVhost) {
        var n := IngestAdded(vhost, ds[0].Arg0());
        assert ([n] + rest)[1..] == rest;
        LearnIngest(newVhost, v, n);
        AdditionsLearned(ds[1..], vhost, newVhost, oldVhost, Learn(newVhost, v, n));
        assert StartIds(ds, oldVhost) == {ds[0].Arg0()} + StartIds(ds[1..], oldVhost);
        RefreshTwice(v.ingests, {ds[0].Arg0()}, StartIds(ds[1..], oldVhost), newVhost);
      } else {
        assert [] + rest == rest;
        AdditionsLearned(ds[1..], vhost, newVhost, oldVhost, v);
        assert StartIds(ds, oldVhost) == StartIds(ds[1..], oldVhost);
      }
    }
  }

  lemma {:induction false} UpdatesLearned(ds: seq<Directive>, vhost: string, newVhost: seq<Directive>,
      oldVhost: seq<Directive>, v: VhostView)
    requires forall d | d in ds :: Ingest(newVhost, d.Arg0()).Some?
    ensures LearnAll(newVhost, v, Updates(ds, vhost, oldVhost)) ==
      v.(ingests := Refresh(v.ingests, RestartIds(ds, oldVhost), newVhost))
    decreases ds
  {
    hide Restarts, Ingest, Learn, Refresh;
    if ds == [] {
      assert RestartIds(ds, oldVhost) == {};
      RefreshNone(v.ingests, newVhost);
    } else {
      var rest := Updates(ds[1..], vhost, oldVhost);
      assert ds == [ds[0]] + ds[1..];
      if Restarts(ds[0], oldVhost) {
        var n := IngestUpdated(vhost, ds[0].Arg0());
        assert ([n] + rest)[1..] == rest;
        LearnIngest(newVhost, v, n);
        UpdatesLearned(ds[1..], vhost, newVhost, oldVhost, Learn(newVhost, v, n));
        assert RestartIds(ds, oldVhost) == {ds[0].Arg0()} + RestartIds(ds[1..], oldVhost);
        RefreshTwice(v.ingests, {ds[0].Arg0()}, RestartIds(ds[1..], oldVhost), newVhost);
      } else {
        assert [] + rest == rest;
        UpdatesLearned(ds[1..], vhost, newVhost, oldVhost, v);
        assert RestartIds(ds, oldVhost) == RestartIds(ds[1..], oldVhost);
      }
    }
  }

  lemma IngestIds(newVhost: seq<Directive>, oldVhost: seq<Directive>, id: string)
    requires UniqueIds(newVhost, "ingest") && UniqueIds(oldVhost, "ingest")
    ensures var was, now := Ingest(oldVhost, id), Ingest(newVhost, id);
      && (id in StopIds(Named(oldVhost, "ingest"), newVhost) <==> IngestEnabled(was) && !IngestEnabled(now))
      && (id in StartIds(Named(newVhost, "ingest"), oldVhost) <==> !IngestEnabled(was) && IngestEnabled(now))
      && (id in RestartIds(Named(newVhost, "ingest"), oldVhost) <==>
            IngestEnabled(was) && IngestEnabled(now) && !Equals(now, was))
  {
    hide UniqueIds, Get2, Equals;
    forall d | d in Named(oldVhost, "ingest")
      ensures Ingest(oldVhost, d.Arg0()) == Some(d)
    {
      NamedFound(oldVhost, "ingest", d);
    }
    forall d | d in Named(newVhost, "ingest")
      ensures Ingest(newVhost, d.Arg0()) == Some(d)
    {
      NamedFound(newVhost, "ingest", d);
    }
    if Ingest(oldVhost, id).Some? {
      FoundNamed(oldVhost, "ingest", id);
    }
    if Ingest(newVhost, id).Some? {
      FoundNamed(newVhost, "ingest", id);
    }
  }

  lemma IngestsKeys(vhost: seq<Directive>, id: string)
    ensures id in Ingests(vhost) <==> IngestEnabled(Ingest(vhost, id))
  {
    if Ingest(vhost, id).Some? {
      FoundNamed(vhost, "ingest", id);
    }
  }

  /** The ingester notices of a vhost turn its old set of running ingesters into the new one. */
  lemma IngestsLearned(vhost: string, newVhost: seq<Directive>, oldVhost: seq<Directive>, v: VhostView)
    requires UniqueIds(newVhost, "ingest") && UniqueIds(oldVhost, "ingest") && v.ingests == Ingests(oldVhost)
    ensures LearnAll(newVhost, v, IngestNotices(vhost, newVhost, oldVhost)) == v.(ingests := Ingests(newVhost))
  {
    hide LearnAll, Removals, Additions, Updates, UniqueIds, Get2, StopIds, StartIds, RestartIds, Equals,
      IngestEnabled, Ingests;
    var olds, news := Named(oldVhost, "ingest"), Named(newVhost, "ingest");
    var a, b, c := Removals(olds, vhost, newVhost), Additions(news, vhost, oldVhost), Updates(news, vhost, oldVhost);
    LearnAllConcat(newVhost, v, a + b, c);
    LearnAllConcat(newVhost, v, a, b);
    RemovalsLearned(olds, vhost, newVhost, v);
    forall d | d in news
      ensures Ingest(newVhost, d.Arg0()).Some?
    {
      NamedFound(newVhost, "ingest", d);
    }
    var v1 := LearnAll(newVhost, v, a);
    AdditionsLearned(news, vhost, newVhost, oldVhost, v1);
    var v2 := LearnAll(newVhost, v1, b);
    UpdatesLearned(news, vhost, newVhost, oldVhost, v2);
    IngestTables(newVhost, oldVhost);
  }

  lemma IngestsValue(vhost: seq<Directive>, id: string)
    requires id in Ingests(vhost)
    ensures Ingest(vhost, id).Some? && Ingests(vhost)[id] == Plain(Ingest(vhost, id).value)
  {
  }

  lemma IngestTables(newVhost: seq<Directive>, oldVhost: seq<Directive>)
    requires UniqueIds(newVhost, "ingest") && UniqueIds(oldVhost, "ingest")
    ensures var news := Named(newVhost, "ingest");
      && (forall id | id in StartIds(news, oldVhost) + RestartIds(news, oldVhost) :: Ingest(newVhost, id).Some?)
      && Refresh(Refresh(Ingests(oldVhost) - StopIds(Named(oldVhost, "ingest"), newVhost),
                         StartIds(news, oldVhost), newVhost),
                 RestartIds(news, oldVhost), newVhost) == Ingests(newVhost)
  {
    hide UniqueIds, Ingest, Ingests, IngestEnabled, StopIds, StartIds, RestartIds, Equals, Named;
    forall id: string
      ensures var was, now := Ingest(oldVhost, id), Ingest(newVhost, id);
        && (id in StopIds(Named(oldVhost, "ingest"), newVhost) <==> IngestEnabled(was) && !IngestEnabled(now))
        && (id in StartIds(Named(newVhost, "ingest"), oldVhost) <==> !IngestEnabled(was) && IngestEnabled(now))
        && (id in RestartIds(Named(newVhost, "ingest"), oldVhost) <==>
              IngestEnabled(was) && IngestEnabled(now) && PlainOption(now) != PlainOption(was))
      ensures id in Ingests(oldVhost) <==> IngestEnabled(Ingest(oldVhost, id))
      ensures id in Ingests(newVhost) <==> IngestEnabled(Ingest(newVhost, id))
      ensures id in Ingests(oldVhost) ==> Some(Ingests(oldVhost)[id]) == PlainOption(Ingest(oldVhost, id))
      ensures id in Ingests(newVhost) ==> Some(Ingests(newVhost)[id]) == PlainOption(Ingest(newVhost, id))
    {
      IngestIds(newVhost, oldVhost, id);
      IngestsKeys(oldVhost, id);
      IngestsKeys(newVhost, id);
      EqualsSamePlain(Ingest(newVhost, id), Ingest(oldVhost, id));
      if id in Ingests(oldVhost) {
        IngestsValue(oldVhost, id);
      }
      if id in Ingests(newVhost) {
        IngestsValue(newVhost, id);
      }
    }
  }

  // ----- one vhost -----

  predicate UniqueVhost(vhost: Option<Directive>) {
    vhost.Some? ==> UniqueIds(vhost.value.children, "transcode") && UniqueIds(vhost.value.children, "ingest")
  }

  /** The new view of a vhost with the parts that were announced read again. */
  function Followed(newVhost: seq<Directive>, oldVhost: seq<Directive>): VhostView {
    ViewOf(newVhost).(parts := Reread(PartsOf(oldVhost), Parts(), newVhost, oldVhost))
  }

  lemma FollowedIff(newVhost: seq<Directive>, oldVhost: seq<Directive>)
    ensures Followed(newVhost, oldVhost) == ViewOf(newVhost) <==> !DvrMissed(newVhost, oldVhost)
  {
    hide Reread, PartsOf, DvrMissed, Transcodes, Ingests;
    PartsReread(newVhost, oldVhost);
  }

  /** What a vhost that stays enabled announces turns its old view into this. */
  lemma DetailsLearned(vhost: string, newVhost: seq<Directive>, oldVhost: seq<Directive>)
    requires UniqueIds(newVhost, "transcode") && UniqueIds(newVhost, "ingest")
    requires UniqueIds(oldVhost, "transcode") && UniqueIds(oldVhost, "ingest")
    ensures LearnAll(newVhost, ViewOf(oldVhost), Details(vhost, newVhost, oldVhost)) == Followed(newVhost, oldVhost)
  {
    hide PartsOf, Transcodes, Ingests, PartNotices, Parts, IngestNotices, TranscodeDiffers, UniqueIds, Reread;
    var a, b := PartNotices(Parts(), vhost, newVhost, oldVhost), TranscodeNotices(vhost, newVhost, oldVhost);
    var c := IngestNotices(vhost, newVhost, oldVhost);
    var v := ViewOf(oldVhost);
    LearnAllConcat(newVhost, v, a + b, c);
    LearnAllConcat(newVhost, v, a, b);
    PartsLearned(Parts(), vhost, newVhost, oldVhost, v);
    var v1 := LearnAll(newVhost, v, a);
    TranscodeDiffersIff(newVhost, oldVhost);
    var v2 := LearnAll(newVhost, v1, b);
    assert v2 == v1.(transcode := Transcodes(newVhost));
    IngestsLearned(vhost, newVhost, oldVhost, v2);
  }

  /** A view's entry for a vhost. */
  function At(view: View, name: string): Option<VhostView> {
    if name in view then Some(view[name]) else None
  }

  function Entry(vhost: Option<Directive>): Option<VhostView> {
    if VhostEnabled(vhost) then Some(ViewOf(vhost.value.children)) else None
  }

  /** The entry a vhost is left with. */
  function FollowedEntry(newVhost: Option<Directive>, oldVhost: Option<Directive>): Option<VhostView> {
    if VhostEnabled(newVhost) && VhostEnabled(oldVhost) then
      Some(Followed(newVhost.value.children, oldVhost.value.children))
    else Entry(newVhost)
  }

  /** A vhost that stays enabled, with a change of its recording section that is missed. */
  predicate MissedAt(name: string, root: seq<Directive>, oldRoot: seq<Directive>) {
    && VhostEnabled(Vhost(root, name)) && VhostEnabled(Vhost(oldRoot, name))
    && DvrMissed(Vhost(root, name).value.children, Vhost(oldRoot, name).value.children)
  }

  lemma FollowedEntryIff(name: string, root: seq<Directive>, oldRoot: seq<Directive>)
    ensures FollowedEntry(Vhost(root, name), Vhost(oldRoot, name)) == Entry(Vhost(root, name)) <==>
      !MissedAt(name, root, oldRoot)
  {
    hide Vhost, VhostEnabled, Followed, ViewOf, DvrMissed;
    if VhostEnabled(Vhost(root, name)) && VhostEnabled(Vhost(oldRoot, name)) {
      EnabledVhostIsThere(Vhost(root, name));
      EnabledVhostIsThere(Vhost(oldRoot, name));
      FollowedIff(Vhost(root, name).value.children, Vhost(oldRoot, name).value.children);
    }
  }

  lemma EnabledVhostIsThere(vhost: Option<Directive>)
    requires VhostEnabled(vhost)
    ensures vhost.Some?
  {
  }

  lemma VhostEffect(name: string, root: seq<Directive>, oldRoot: seq<Directive>, view: View)
    requires At(view, name) == Entry(Vhost(oldRoot, name)) && !EdgeChanged(name, root, oldRoot)
    requires UniqueVhost(Vhost(root, name)) && UniqueVhost(Vhost(oldRoot, name))
    ensures var r := ApplyAll(root, view, VhostNotices(name, root, oldRoot));
      && At(r, name) == FollowedEntry(Vhost(root, name), Vhost(oldRoot, name))
      && forall other | other != name :: At(r, other) == At(view, other)
  {
    hide ViewOf, Followed, Details, Vhost, UniqueIds, EdgeChanged;
    var oldVhost, newVhost := Vhost(oldRoot, name), Vhost(root, name);
    if VhostEnabled(oldVhost) && VhostEnabled(newVhost) {
      hide ApplyAll, VhostEnabled;
      DetailsAbout(name, newVhost.value.children, oldVhost.value.children);
      ApplyAllAbout(root, view, name, Details(name, newVhost.value.children, oldVhost.value.children));
      DetailsLearned(name, newVhost.value.children, oldVhost.value.children);
    } else if VhostEnabled(oldVhost) != VhostEnabled(newVhost) {
      ApplyOne(root, view, VhostNotices(name, root, oldRoot)[0]);
    }
  }

  lemma ApplyOne(root: seq<Directive>, view: View, n: Notice)
    ensures ApplyAll(root, view, [n]) == Apply(root, view, n)
  {
    hide Apply;
    assert [n][1..] == [];
  }

  // ----- the whole configuration -----

  predicate Distinct(names: seq<string>) {
    forall i, j | 0 <= i < j < |names| :: names[i] != names[j]
  }

  lemma {:induction false} PlanEffect(names: seq<string>, root: seq<Directive>, oldRoot: seq<Directive>, view: View)
    requires Distinct(names) && Plan(names, root, oldRoot).1 == 0
    requires forall name | name in names ::
      && At(view, name) == Entry(Vhost(oldRoot, name))
      && UniqueVhost(Vhost(root, name)) && UniqueVhost(Vhost(oldRoot, name))
    ensures var r := ApplyAll(root, view, Plan(names, root, oldRoot).0);
      && (forall name | name in names :: At(r, name) == FollowedEntry(Vhost(root, name), Vhost(oldRoot, name)))
      && (forall name | name !in names :: At(r, name) == At(view, name))
    decreases names
  {
    hide Apply, Vhost, VhostNotices, EdgeChanged, Entry, FollowedEntry, UniqueVhost, At;
    if names != [] {
      var name, rest := names[0], names[1..];
      assert names == [name] + rest;
      assert name !in rest;
      VhostEffect(name, root, oldRoot, view);
      var view1 := ApplyAll(root, view, VhostNotices(name, root, oldRoot));
      ApplyAllConcat(root, view, VhostNotices(name, root, oldRoot), Plan(rest, root, oldRoot).0);
      PlanEffect(rest, root, oldRoot, view1);
    }
  }

  lemma {:induction false} VhostNamed(root: seq<Directive>, name: string)
    ensures name in VhostNames(root) <==> Vhost(root, name).Some?
  {
    if root != [] {
      VhostNamed(root[1..], name);
    }
  }

  lemma {:induction false} GoneNamed(ds: seq<Directive>, root: seq<Directive>, name: string)
    ensures name in GoneNames(ds, root) <==> name in VhostNames(ds) && Vhost(root, name).None?
  {
    if ds != [] {
      GoneNamed(ds[1..], root, name);
    }
  }

  lemma FirstNameIsNew(d: Directive, ds: seq<Directive>)
    requires UniqueIds([d] + ds, "vhost") && d.IsVhost()
    ensures d.Arg0() !in VhostNames(ds)
  {
    VhostNamed(ds, d.Arg0());
    var k := Find2(ds, "vhost", d.Arg0());
    if k < |ds| {
      DistinctIds([d] + ds, "vhost", 0, k + 1);
    }
  }

  lemma DistinctIds(ds: seq<Directive>, name: string, i: nat, j: nat)
    requires UniqueIds(ds, name) && i < j < |ds| && ds[i].name == name && ds[j].name == name
    ensures ds[i].Arg0() != ds[j].Arg0()
  {
  }

  lemma DistinctCons(name: string, names: seq<string>)
    requires Distinct(names) && name !in names
    ensures Distinct([name] + names)
  {
  }

  lemma {:induction false} NamesDistinct(ds: seq<Directive>, root: seq<Directive>)
    requires UniqueIds(ds, "vhost")
    ensures Distinct(VhostNames(ds)) && Distinct(GoneNames(ds, root))
  {
    hide Vhost, Directive.Arg0, Distinct, UniqueIds;
    if ds == [] {
      NothingDistinct();
    } else {
      assert [ds[0]] + ds[1..] == ds;
      UniqueTail(ds, "vhost");
      NamesDistinct(ds[1..], root);
      var a, b := VhostNames(ds[1..]), GoneNames(ds[1..], root);
      assert [] + a == a && [] + b == b;
      if ds[0].IsVhost() {
        FirstNameIsNew(ds[0], ds[1..]);
        GoneNamed(ds[1..], root, ds[0].Arg0());
        DistinctCons(ds[0].Arg0(), a);
        DistinctCons(ds[0].Arg0(), b);
      }
    }
  }

  lemma NothingDistinct()
    ensures Distinct([])
  {
  }

  lemma UniqueTail(ds: seq<Directive>, name: string)
    requires UniqueIds(ds, name) && ds != []
    ensures UniqueIds(ds[1..], name)
  {
    assert forall k | 0 <= k < |ds| - 1 :: ds[1..][k] == ds[k + 1];
  }

  lemma AllNamesDistinct(root: seq<Directive>, oldRoot: seq<Directive>)
    requires UniqueIds(root, "vhost") && UniqueIds(oldRoot, "vhost")
    ensures Distinct(AllNames(root, oldRoot))
  {
    hide Vhost, UniqueIds, VhostNames, GoneNames;
    NamesDistinct(root, root);
    NamesDistinct(oldRoot, root);
    var a, b := VhostNames(root), GoneNames(oldRoot, root);
    forall i, j | 0 <= i < |a| && 0 <= j < |b|
      ensures a[i] != b[j]
    {
      VhostNamed(root, a[i]);
      GoneNamed(oldRoot, root, b[j]);
      assert a[i] in a && b[j] in b;
    }
  }

  lemma UniqueAt(root: seq<Directive>, name: string)
    requires Unique(root)
    ensures UniqueVhost(Vhost(root, name))
  {
    hide UniqueIds;
  }

  lemma FullViewAt(root: seq<Directive>, name: string)
    ensures At(FullView(root), name) == Entry(Vhost(root, name))
  {
    hide ViewOf, Vhost, VhostNames;
    VhostNamed(root, name);
  }

  /**
   A reload that nobody refuses: a subscriber that held the enabled vhosts of the old configuration,
   with their parts, transcoders and running ingesters, and follows the notices in order, ends up
   holding those of the new configuration, exactly when no change of a recording section is missed.
   */
  lemma ReloadIsDiffIff(root: seq<Directive>, oldRoot: seq<Directive>)
    requires Unique(root) && Unique(oldRoot)
    requires Plan(AllNames(root, oldRoot), root, oldRoot).1 == 0
    ensures ApplyAll(root, FullView(oldRoot), Plan(AllNames(root, oldRoot), root, oldRoot).0) == FullView(root) <==>
      forall name | name in VhostNames(root) :: !MissedAt(name, root, oldRoot)
  {
    hide Vhost, VhostNames, GoneNames, Entry, FollowedEntry, MissedAt, UniqueVhost, Plan, ApplyAll, FullView,
      AllNames, Distinct, Unique;
    var names := AllNames(root, oldRoot);
    var r := ApplyAll(root, FullView(oldRoot), Plan(names, root, oldRoot).0);
    AllNamesDistinct(root, oldRoot) by { UniqueNames(root); UniqueNames(oldRoot); }
    forall name: string
      ensures At(FullView(oldRoot), name) == Entry(Vhost(oldRoot, name))
      ensures At(FullView(root), name) == Entry(Vhost(root, name))
      ensures UniqueVhost(Vhost(root, name)) && UniqueVhost(Vhost(oldRoot, name))
      ensures name !in names ==> Entry(Vhost(oldRoot, name)) == Entry(Vhost(root, name)) == None
      ensures FollowedEntry(Vhost(root, name), Vhost(oldRoot, name)) == Entry(Vhost(root, name)) <==>
        !MissedAt(name, root, oldRoot)
      ensures MissedAt(name, root, oldRoot) ==> name in VhostNames(root) && name in names
    {
      FullViewAt(oldRoot, name);
      FullViewAt(root, name);
      UniqueAt(root, name);
      UniqueAt(oldRoot, name);
      FollowedEntryIff(name, root, oldRoot);
      if name !in names {
        OtherNames(root, oldRoot, name);
      }
      MissedIsNamed(name, root, oldRoot);
    }
    PlanEffect(names, root, oldRoot, FullView(oldRoot));
    if forall name: string :: At(r, name) == At(FullView(root), name) {
      SameEverywhere(r, FullView(root));
    }
  }

  lemma MissedIsNamed(name: string, root: seq<Directive>, oldRoot: seq<Directive>)
    ensures MissedAt(name, root, oldRoot) ==> name in VhostNames(root) && name in AllNames(root, oldRoot)
  {
    hide Vhost, VhostNames, GoneNames, DvrMissed;
    VhostNamed(root, name);
  }

  /** A recording section whose filter gives way to a plan: the comparison passes over it. */
  lemma DvrChangeCanBeMissed(filter: seq<string>, plan: seq<string>)
    ensures var was := [Directive(1, "dvr", [], [Directive(2, "dvr_plan", plan, [])])];
      var now := [Directive(1, "dvr", [], [Directive(2, "dvr_apply", filter, [])])];
      DvrMissed(now, was) && Dvr.Changed(was, now)
  {
    var a := Directive(1, "dvr", [], [Directive(2, "dvr_apply", filter, [])]);
    var b := Directive(1, "dvr", [], [Directive(2, "dvr_plan", plan, [])]);
    assert Dvr.Content([a]) == Some(a) && Dvr.Content([b]) == Some(b);
    assert b.children[0].name != "dvr_apply" && a.children[0].name == "dvr_apply";
    assert !EqualsExceptDeep(b.children[0], a.children[0], "dvr_apply");
  }

  lemma UniqueNames(root: seq<Directive>)
    requires Unique(root)
    ensures UniqueIds(root, "vhost")
  {
  }

  lemma OtherNames(root: seq<Directive>, oldRoot: seq<Directive>, name: string)
    requires name !in AllNames(root, oldRoot)
    ensures Entry(Vhost(root, name)) == None && Entry(Vhost(oldRoot, name)) == None
  {
    hide Vhost, VhostNames, GoneNames, ViewOf;
    VhostNamed(root, name);
    VhostNamed(oldRoot, name);
    GoneNamed(oldRoot, root, name);
  }

  lemma SameEverywhere(a: View, b: View)
    requires forall name: string :: At(a, name) == At(b, name)
    ensures a == b
  {
    forall name: string
      ensures name in a <==> name in b
      ensures name in a ==> a[name] == b[name]
    {
      assert At(a, name) == At(b, name);
    }
  }
}
