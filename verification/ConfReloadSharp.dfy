/** A reload announces no more than it has to: every notice changes what a subscriber holds. */
module ConfReloadSharp {
  import opened Messages
  import opened ConfDirectives
  import opened ConfReload
  import opened ConfReloadDiff

  /** The notices about parts that a view does not hold. */
  predicate Silent(n: Notice) {
    n.HttpChanged? || (n.PartChanged? && !Tracked(n.part))
  }

  predicate EachTells(vhost: seq<Directive>, v: VhostView, ns: seq<Notice>)
    decreases ns
  {
    ns == [] ||
    ((Silent(ns[0]) || Learn(vhost, v, ns[0]) != v) && EachTells(vhost, Learn(vhost, v, ns[0]), ns[1..]))
  }

  predicate EachApplies(root: seq<Directive>, view: View, ns: seq<Notice>)
    decreases ns
  {
    ns == [] ||
    ((Silent(ns[0]) || Apply(root, view, ns[0]) != view) && EachApplies(root, Apply(root, view, ns[0]), ns[1..]))
  }

  lemma {:induction false} EachTellsConcat(vhost: seq<Directive>, v: VhostView, a: seq<Notice>, b: seq<Notice>)
    requires EachTells(vhost, v, a) && EachTells(vhost, LearnAll(vhost, v, a), b)
    ensures EachTells(vhost, v, a + b)
    decreases a
  {
    hide Learn, Silent;
    if a == [] {
      assert a + b == b;
    } else {
      assert (a + b)[1..] == a[1..] + b;
      EachTellsConcat(vhost, Learn(vhost, v, a[0]), a[1..], b);
    }
  }

  lemma {:induction false} EachAppliesConcat(root: seq<Directive>, view: View, a: seq<Notice>, b: seq<Notice>)
    requires EachApplies(root, view, a) && EachApplies(root, ApplyAll(root, view, a), b)
    ensures EachApplies(root, view, a + b)
    decreases a
  {
    hide Apply, Silent;
    if a == [] {
      assert a + b == b;
    } else {
      assert (a + b)[1..] == a[1..] + b;
      EachAppliesConcat(root, Apply(root, view, a[0]), a[1..], b);
    }
  }

  /** A list of notices, taken apart at its first element. */
  lemma TellsFirst(vhost: seq<Directive>, v: VhostView, n: Notice, rest: seq<Notice>)
    requires Silent(n) || Learn(vhost, v, n) != v
    requires EachTells(vhost, Learn(vhost, v, n), rest)
    ensures EachTells(vhost, v, [n] + rest)
  {
    hide Learn, Silent;
    assert ([n] + rest)[1..] == rest;
  }

  // ----- parts -----

  predicate DistinctParts(ps: seq<Part>) {
    forall i, j | 0 <= i < j < |ps| :: ps[i] != ps[j]
  }

  lemma {:induction false} PartsTell(ps: seq<Part>, vhost: string, newVhost: seq<Directive>, oldVhost: seq<Directive>,
                                     v: VhostView)
    requires DistinctParts(ps)
    requires forall p | p in ps && Tracked(p) :: p in v.parts && v.parts[p] == Held(p, oldVhost)
    ensures EachTells(newVhost, v, PartNotices(ps, vhost, newVhost, oldVhost))
    decreases ps
  {
    hide Held, EachTells, Learn, Part.Changed, DvrMissed;
    if ps == [] {
      NothingTells(newVhost, v);
    } else {
      var p, rest := ps[0], PartNotices(ps[1..], vhost, newVhost, oldVhost);
      var n := PartNotice(p, vhost);
      assert ps == [p] + ps[1..];
      if p.Changed(newVhost, oldVhost) {
        HeldChangedIff(p, newVhost, oldVhost);
        LearnPart(newVhost, v, n);
        PartsTell(ps[1..], vhost, newVhost, oldVhost, Learn(newVhost, v, n));
        TellsFirst(newVhost, v, n, rest);
      } else {
        PartsTell(ps[1..], vhost, newVhost, oldVhost, v);
        assert [] + rest == rest;
      }
    }
  }

  lemma NothingTells(vhost: seq<Directive>, v: VhostView)
    ensures EachTells(vhost, v, [])
  {
  }

  lemma LearnPart(vhost: seq<Directive>, v: VhostView, n: Notice)
    requires n.PartChanged? || n.HttpChanged?
    ensures Learn(vhost, v, n) ==
      if Silent(n) then v else v.(parts := v.parts[n.part := Held(n.part, vhost)])
  {
    hide Held;
  }

  lemma PartsAreDistinct()
    ensures DistinctParts(Parts())
  {
    var ps := Parts();
    forall i, j | 0 <= i < j < |ps|
      ensures ps[i] != ps[j]
    {
      assert Rank(ps[i]) == i && Rank(ps[j]) == j;
    }
  }

  function Rank(p: Part): nat {
    match p
    case ChunkSize => 0 case TcpNodelay => 1 case MinLatency => 2 case Play => 3 case Forward => 4 case Dash => 5
    case Hls => 6 case Hds => 7 case Dvr => 8 case DvrFilter => 9 case Exec => 10 case Publish => 11
    case HttpStatic => 12 case HttpRemux => 13
  }

  // ----- ingesters -----

  predicate DistinctArgs(ds: seq<Directive>) {
    forall i, j | 0 <= i < j < |ds| :: ds[i].Arg0() != ds[j].Arg0()
  }

  lemma NamedAt(ds: seq<Directive>, name: string, k: nat)
    requires k < |Named(ds, name)|
    ensures Named(ds, name)[k] in ds && Named(ds, name)[k].name == name
  {
    assert Named(ds, name)[k] in Named(ds, name);
  }

  lemma {:induction false} NamedDistinct(ds: seq<Directive>, name: string)
    requires UniqueIds(ds, name)
    ensures DistinctArgs(Named(ds, name))
  {
    hide UniqueIds, Directive.Arg0;
    if ds != [] {
      UniqueTail(ds, name);
      NamedDistinct(ds[1..], name);
      var rest := Named(ds[1..], name);
      if ds[0].name == name {
        forall k | 0 <= k < |rest|
          ensures rest[k].Arg0() != ds[0].Arg0()
        {
          NamedAt(ds[1..], name, k);
          var j :| 0 <= j < |ds| - 1 && ds[1..][j] == rest[k];
          DistinctIds(ds, name, 0, j + 1);
        }
      } else {
        assert [] + rest == rest;
      }
    }
  }

  lemma FirstArg(ds: seq<Directive>)
    requires ds != [] && DistinctArgs(ds)
    ensures DistinctArgs(ds[1..]) && forall d | d in ds[1..] :: d in ds && d.Arg0() != ds[0].Arg0()
  {
    assert forall k | 0 <= k < |ds| - 1 :: ds[1..][k] == ds[k + 1];
  }

  lemma {:induction false} RemovalsTell(ds: seq<Directive>, vhost: string, newVhost: seq<Directive>, v: VhostView)
    requires DistinctArgs(ds) && forall d | d in ds && Stops(d, newVhost) :: d.Arg0() in v.ingests
    ensures EachTells(newVhost, v, Removals(ds, vhost, newVhost))
    decreases ds
  {
    hide Stops, EachTells, Ingest, DistinctArgs, Directive.Arg0;
    if ds == [] {
      NothingTells(newVhost, v);
    } else {
      var rest := Removals(ds[1..], vhost, newVhost);
      FirstArg(ds);
      if Stops(ds[0], newVhost) {
        var n := IngestRemoved(vhost, ds[0].Arg0());
        assert ds[0] in ds;
        assert Learn(newVhost, v, n) != v by {
          assert n.id in v.ingests && n.id !in Learn(newVhost, v, n).ingests;
        }
        RemovalsTell(ds[1..], vhost, newVhost, Learn(newVhost, v, n));
        TellsFirst(newVhost, v, n, rest);
      } else {
        RemovalsTell(ds[1..], vhost, newVhost, v);
        assert [] + rest == rest;
      }
    }
  }

  lemma {:induction false} AdditionsTell(ds: seq<Directive>, vhost: string, newVhost: seq<Directive>,
      oldVhost: seq<Directive>,
                                         v: VhostView)
    requires DistinctArgs(ds) && forall d | d in ds :: Ingest(newVhost, d.Arg0()).Some?
    requires forall d | d in ds && Starts(d, oldVhost) :: d.Arg0() !in v.ingests
    ensures EachTells(newVhost, v, Additions(ds, vhost, oldVhost))
    decreases ds
  {
    hide Starts, EachTells, Ingest, DistinctArgs, Directive.Arg0;
    if ds == [] {
      NothingTells(newVhost, v);
    } else {
      var rest := Additions(ds[1..], vhost, oldVhost);
      FirstArg(ds);
      assert ds[0] in ds;
      if Starts(ds[0], oldVhost) {
        var n := IngestAdded(vhost, ds[0].Arg0());
        assert Learn(newVhost, v, n) != v by {
          assert n.id !in v.ingests && n.id in Learn(newVhost, v, n).ingests;
        }
        AdditionsTell(ds[1..], vhost, newVhost, oldVhost, Learn(newVhost, v, n));
        TellsFirst(newVhost, v, n, rest);
      } else {
        AdditionsTell(ds[1..], vhost, newVhost, oldVhost, v);
        assert [] + rest == rest;
      }
    }
  }

  lemma {:induction false} UpdatesTell(ds: seq<Directive>, vhost: string, newVhost: seq<Directive>,
      oldVhost: seq<Directive>,
                                       v: VhostView)
    requires DistinctArgs(ds) && forall d | d in ds :: Ingest(newVhost, d.Arg0()).Some?
    requires forall d | d in ds && Restarts(d, oldVhost) ::
      d.Arg0() in v.ingests && v.ingests[d.Arg0()] != Plain(Ingest(newVhost, d.Arg0()).value)
    ensures EachTells(newVhost, v, Updates(ds, vhost, oldVhost))
    decreases ds
  {
    hide Restarts, EachTells, Ingest, DistinctArgs, Directive.Arg0;
    if ds == [] {
      NothingTells(newVhost, v);
    } else {
      var rest := Updates(ds[1..], vhost, oldVhost);
      FirstArg(ds);
      assert ds[0] in ds;
      if Restarts(ds[0], oldVhost) {
        var n := IngestUpdated(vhost, ds[0].Arg0());
        assert Learn(newVhost, v, n) != v by {
          assert v.ingests[n.id] != Learn(newVhost, v, n).ingests[n.id];
        }
        UpdatesTell(ds[1..], vhost, newVhost, oldVhost, Learn(newVhost, v, n));
        TellsFirst(newVhost, v, n, rest);
      } else {
        UpdatesTell(ds[1..], vhost, newVhost, oldVhost, v);
        assert [] + rest == rest;
      }
    }
  }

  lemma IngestsTell(vhost: string, newVhost: seq<Directive>, oldVhost: seq<Directive>, v: VhostView)
    requires UniqueIds(newVhost, "ingest") && UniqueIds(oldVhost, "ingest") && v.ingests == Ingests(oldVhost)
    ensures EachTells(newVhost, v, IngestNotices(vhost, newVhost, oldVhost))
  {
    hide EachTells, LearnAll, Removals, Additions, Updates, UniqueIds, StopIds, StartIds, RestartIds, DistinctArgs,
      Equals, Ingests, Ingest, IngestEnabled, Named;
    var olds, news := Named(oldVhost, "ingest"), Named(newVhost, "ingest");
    NamedDistinct(oldVhost, "ingest");
    NamedDistinct(newVhost, "ingest");
    forall d | d in news
      ensures Ingest(newVhost, d.Arg0()) == Some(d)
    {
      NamedFound(newVhost, "ingest", d);
      IngestIsGet2(newVhost, d.Arg0());
    }
    forall d | d in olds
      ensures Ingest(oldVhost, d.Arg0()) == Some(d)
    {
      NamedFound(oldVhost, "ingest", d);
      IngestIsGet2(oldVhost, d.Arg0());
    }
    forall id: string
      ensures id in Ingests(oldVhost) <==> IngestEnabled(Ingest(oldVhost, id))
      ensures id in StopIds(olds, newVhost) ==> !IngestEnabled(Ingest(newVhost, id))
      ensures id in StartIds(news, oldVhost) ==> !IngestEnabled(Ingest(oldVhost, id))
    {
      IngestsKeys(oldVhost, id);
      IngestIds(newVhost, oldVhost, id);
    }
    var a, b, c := Removals(olds, vhost, newVhost), Additions(news, vhost, oldVhost), Updates(news, vhost, oldVhost);
    RemovalsTell(olds, vhost, newVhost, v);
    RemovalsLearned(olds, vhost, newVhost, v);
    var v1 := LearnAll(newVhost, v, a);
    AdditionsTell(news, vhost, newVhost, oldVhost, v1);
    AdditionsLearned(news, vhost, newVhost, oldVhost, v1);
    var v2 := LearnAll(newVhost, v1, b);
    forall d | d in news && Restarts(d, oldVhost)
      ensures d.Arg0() in v2.ingests && v2.ingests[d.Arg0()] != Plain(Ingest(newVhost, d.Arg0()).value)
    {
      EqualsSamePlain(Some(d), Ingest(oldVhost, d.Arg0()));
      IngestsValue(oldVhost, d.Arg0());
    }
    UpdatesTell(news, vhost, newVhost, oldVhost, v2);
    EachTellsConcat(newVhost, v, a, b);
    LearnAllConcat(newVhost, v, a, b);
    EachTellsConcat(newVhost, v, a + b, c);
  }

  lemma IngestIsGet2(vhost: seq<Directive>, id: string)
    ensures Ingest(vhost, id) == Get2(vhost, "ingest", id)
  {
  }

  // ----- vhosts -----

  lemma DetailsTell(vhost: string, newVhost: seq<Directive>, oldVhost: seq<Directive>)
    requires UniqueIds(newVhost, "transcode") && UniqueIds(newVhost, "ingest")
    requires UniqueIds(oldVhost, "transcode") && UniqueIds(oldVhost, "ingest")
    ensures EachTells(newVhost, ViewOf(oldVhost), Details(vhost, newVhost, oldVhost))
  {
    hide Transcodes, Ingests, PartNotices, Parts, IngestNotices, TranscodeDiffers, UniqueIds, Reread,
      EachTells, DistinctParts,
      Part.Content, PlainOption;
    var v := ViewOf(oldVhost);
    var a, b := PartNotices(Parts(), vhost, newVhost, oldVhost), TranscodeNotices(vhost, newVhost, oldVhost);
    var c := IngestNotices(vhost, newVhost, oldVhost);
    PartsAreDistinct();
    PartsTell(Parts(), vhost, newVhost, oldVhost, v);
    PartsLearned(Parts(), vhost, newVhost, oldVhost, v);
    var v1 := LearnAll(newVhost, v, a);
    TranscodeDiffersIff(newVhost, oldVhost);
    NothingTells(newVhost, Learn(newVhost, v1, TranscodeChanged(vhost)));
    NothingTells(newVhost, v1);
    if b != [] {
      TellsFirst(newVhost, v1, b[0], []);
      assert b == [b[0]] + [];
    }
    EachTellsConcat(newVhost, v, a, b);
    LearnAllConcat(newVhost, v, a, b);
    var v2 := LearnAll(newVhost, v, a + b);
    assert v2.ingests == Ingests(oldVhost);
    IngestsTell(vhost, newVhost, oldVhost, v2);
    EachTellsConcat(newVhost, v, a + b, c);
  }

  lemma {:induction false} TellsApplies(root: seq<Directive>, view: View, vhost: string, ns: seq<Notice>)
    requires vhost in view && Vhost(root, vhost).Some? && AllAbout(ns, vhost)
    requires EachTells(Vhost(root, vhost).value.children, view[vhost], ns)
    ensures EachApplies(root, view, ns)
    decreases ns
  {
    hide Learn, Apply, Vhost, About, Silent;
    if ns != [] {
      assert ns[0] in ns && forall n | n in ns[1..] :: n in ns;
      ApplyAbout(root, view, vhost, ns[0]);
      TellsApplies(root, Apply(root, view, ns[0]), vhost, ns[1..]);
    }
  }

  lemma VhostApplies(name: string, root: seq<Directive>, oldRoot: seq<Directive>, view: View)
    requires At(view, name) == Entry(Vhost(oldRoot, name)) && !EdgeChanged(name, root, oldRoot)
    requires UniqueVhost(Vhost(root, name)) && UniqueVhost(Vhost(oldRoot, name))
    ensures EachApplies(root, view, VhostNotices(name, root, oldRoot))
  {
    hide ViewOf, Details, Vhost, UniqueIds, EdgeChanged;
    var oldVhost, newVhost := Vhost(oldRoot, name), Vhost(root, name);
    if VhostEnabled(oldVhost) && VhostEnabled(newVhost) {
      hide EachApplies, EachTells, VhostEnabled;
      DetailsAbout(name, newVhost.value.children, oldVhost.value.children);
      DetailsTell(name, newVhost.value.children, oldVhost.value.children);
      TellsApplies(root, view, name, Details(name, newVhost.value.children, oldVhost.value.children));
    } else if VhostEnabled(oldVhost) != VhostEnabled(newVhost) {
      var ns := VhostNotices(name, root, oldRoot);
      assert ns[1..] == [];
      assert At(Apply(root, view, ns[0]), name) != At(view, name);
    }
  }

  lemma {:induction false} PlanApplies(names: seq<string>, root: seq<Directive>, oldRoot: seq<Directive>, view: View)
    requires Distinct(names)
    requires forall name | name in names ::
      && At(view, name) == Entry(Vhost(oldRoot, name))
      && UniqueVhost(Vhost(root, name)) && UniqueVhost(Vhost(oldRoot, name))
    ensures EachApplies(root, view, Plan(names, root, oldRoot).0)
    decreases names
  {
    hide Apply, Vhost, VhostNotices, EdgeChanged, Entry, UniqueVhost, At, EachApplies;
    if names == [] || EdgeChanged(names[0], root, oldRoot) {
      NothingApplies(root, view);
    } else {
      var name, rest := names[0], names[1..];
      assert names == [name] + rest;
      assert name !in rest;
      VhostEffect(name, root, oldRoot, view);
      VhostApplies(name, root, oldRoot, view);
      var view1 := ApplyAll(root, view, VhostNotices(name, root, oldRoot));
      PlanApplies(rest, root, oldRoot, view1);
      EachAppliesConcat(root, view, VhostNotices(name, root, oldRoot), Plan(rest, root, oldRoot).0);
    }
  }

  lemma NothingApplies(root: seq<Directive>, view: View)
    ensures EachApplies(root, view, [])
  {
  }

  /** Nothing is announced in vain, also when the reload stops at a vhost that changed its role. */
  lemma NoIdleNotice(root: seq<Directive>, oldRoot: seq<Directive>)
    requires Unique(root) && Unique(oldRoot)
    ensures EachApplies(root, FullView(oldRoot), Plan(AllNames(root, oldRoot), root, oldRoot).0)
  {
    hide Vhost, VhostNames, GoneNames, Entry, UniqueVhost, Plan, EachApplies, FullView, AllNames, Distinct, Unique;
    AllNamesDistinct(root, oldRoot) by { UniqueNames(root); UniqueNames(oldRoot); }
    forall name: string
      ensures At(FullView(oldRoot), name) == Entry(Vhost(oldRoot, name))
      ensures UniqueVhost(Vhost(root, name)) && UniqueVhost(Vhost(oldRoot, name))
    {
      FullViewAt(oldRoot, name);
      UniqueAt(root, name);
      UniqueAt(oldRoot, name);
    }
    PlanApplies(AllNames(root, oldRoot), root, oldRoot, FullView(oldRoot));
  }
}
