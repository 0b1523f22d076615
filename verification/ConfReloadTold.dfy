/**
 What a reload answers and announces, said of the two configurations by the names that stand in
 them, and not by what the reload computes.
 */
module ConfReloadTold {
  import opened Messages
  import opened ConfDirectives
  import opened ConfReload
  import opened ConfReloadDiff
  import opened ConfReloadRun

  // ----- what a configuration says -----

  /** `d` is the first child of this name. */
  predicate FirstChild(cs: seq<Directive>, name: string, d: Directive) {
    exists i | 0 <= i < |cs| :: cs[i] == d && d.name == name && forall j | 0 <= j < i :: cs[j].name != name
  }

  /** The first child of this name has this first argument. */
  predicate Says(cs: seq<Directive>, name: string, arg: string) {
    exists d | d in cs :: FirstChild(cs, name, d) && d.args != [] && d.args[0] == arg
  }

  predicate Called(d: Directive, kind: string, name: string) {
    d.name == kind && name == if d.args == [] then "" else d.args[0]
  }

  /** `v` is the vhost of this name, the first one if there are more. */
  predicate VhostIs(root: seq<Directive>, name: string, v: Directive) {
    exists i | 0 <= i < |root| ::
      root[i] == v && Called(v, "vhost", name) && forall j | 0 <= j < i :: !Called(root[j], "vhost", name)
  }

  /** There is such a vhost, and it does not say that it is off. */
  predicate On(root: seq<Directive>, name: string) {
    exists v | v in root :: VhostIs(root, name, v) && !Says(v.children, "enabled", "off")
  }

  /** There is such a vhost, and its `cluster` says `mode remote`. */
  predicate Remote(root: seq<Directive>, name: string) {
    exists v | v in root :: VhostIs(root, name, v) &&
      exists c | c in v.children :: FirstChild(v.children, "cluster", c) && Says(c.children, "mode", "remote")
  }

  lemma {:induction false} FirstChildIsGet(cs: seq<Directive>, name: string, d: Directive)
    ensures FirstChild(cs, name, d) <==> Get(cs, name) == Some(d)
  {
    var k := Find(cs, name);
    if k < |cs| && cs[k] == d {
      assert FirstChild(cs, name, d);
    }
  }

  lemma SaysIsArg0(cs: seq<Directive>, name: string, arg: string)
    requires arg != ""
    ensures Says(cs, name, arg) <==> Get(cs, name).Some? && Get(cs, name).value.Arg0() == arg
  {
    hide FirstChild, Find;
    forall d ensures FirstChild(cs, name, d) <==> Get(cs, name) == Some(d) {
      FirstChildIsGet(cs, name, d);
    }
    GetIsChild(cs, name);
  }

  lemma GetIsChild(cs: seq<Directive>, name: string)
    ensures Get(cs, name).Some? ==> Get(cs, name).value in cs
  {
  }

  lemma VhostIsGet2(root: seq<Directive>, name: string, v: Directive)
    ensures VhostIs(root, name, v) <==> Vhost(root, name) == Some(v)
  {
    var k := Find2(root, "vhost", name);
    forall d: Directive ensures Called(d, "vhost", name) <==> d.name == "vhost" && d.Arg0() == name {
    }
    if k < |root| && root[k] == v {
      assert Called(v, "vhost", name) && forall j | 0 <= j < k :: !Called(root[j], "vhost", name);
    }
  }

  lemma VhostIsThere(root: seq<Directive>, name: string)
    ensures Vhost(root, name).Some? ==> Vhost(root, name).value in root
  {
  }

  lemma OnIsEnabled(root: seq<Directive>, name: string)
    ensures On(root, name) <==> VhostEnabled(Vhost(root, name))
  {
    forall v ensures VhostIs(root, name, v) <==> Vhost(root, name) == Some(v) {
      VhostIsGet2(root, name, v);
    }
    VhostIsThere(root, name);
    hide VhostIs, Vhost, Says, Get, Directive.Arg0;
    if Vhost(root, name).Some? {
      SaysIsArg0(Vhost(root, name).value.children, "enabled", "off");
    }
  }

  lemma RemoteIsEdge(root: seq<Directive>, name: string)
    ensures Remote(root, name) <==> VhostIsEdge(Vhost(root, name))
  {
    forall v ensures VhostIs(root, name, v) <==> Vhost(root, name) == Some(v) {
      VhostIsGet2(root, name, v);
    }
    VhostIsThere(root, name);
    hide VhostIs, Vhost, Says, Get, Directive.Arg0, FirstChild;
    if Vhost(root, name).Some? {
      var cs := Vhost(root, name).value.children;
      forall c ensures FirstChild(cs, "cluster", c) <==> Get(cs, "cluster") == Some(c) {
        FirstChildIsGet(cs, "cluster", c);
      }
      GetIsChild(cs, "cluster");
      if Get(cs, "cluster").Some? {
        SaysIsArg0(Get(cs, "cluster").value.children, "mode", "remote");
      }
    }
  }

  // ----- the code -----

  /** Some vhost, on in both configurations or in neither, is an edge in exactly one of them. */
  ghost predicate RoleChanged(root: seq<Directive>, oldRoot: seq<Directive>) {
    exists name: string :: On(root, name) == On(oldRoot, name) && Remote(root, name) != Remote(oldRoot, name)
  }

  lemma {:induction false} PlanCode(names: seq<string>, root: seq<Directive>, oldRoot: seq<Directive>)
    ensures Plan(names, root, oldRoot).1 ==
      if exists name | name in names :: EdgeChanged(name, root, oldRoot) then 2023 else 0
  {
    hide EdgeChanged, VhostNotices;
    if names != [] {
      PlanCode(names[1..], root, oldRoot);
      assert names == [names[0]] + names[1..];
    }
  }

  lemma RoleChangedIff(root: seq<Directive>, oldRoot: seq<Directive>)
    ensures RoleChanged(root, oldRoot) <==>
      exists name | name in AllNames(root, oldRoot) :: EdgeChanged(name, root, oldRoot)
  {
    hide AllNames, On, Remote, VhostEnabled, VhostIsEdge, Vhost;
    forall name: string
      ensures EdgeChanged(name, root, oldRoot) <==>
        On(root, name) == On(oldRoot, name) && Remote(root, name) != Remote(oldRoot, name)
      ensures EdgeChanged(name, root, oldRoot) ==> name in AllNames(root, oldRoot)
    {
      OnIsEnabled(root, name);
      OnIsEnabled(oldRoot, name);
      RemoteIsEdge(root, name);
      RemoteIsEdge(oldRoot, name);
      if name !in AllNames(root, oldRoot) {
        NeitherIsEdge(root, oldRoot, name);
      }
    }
  }

  lemma NeitherIsEdge(root: seq<Directive>, oldRoot: seq<Directive>, name: string)
    requires name !in AllNames(root, oldRoot)
    ensures !VhostIsEdge(Vhost(root, name)) && !VhostIsEdge(Vhost(oldRoot, name))
  {
    hide Vhost, VhostNames, GoneNames;
    VhostNamed(root, name);
    VhostNamed(oldRoot, name);
    GoneNamed(oldRoot, root, name);
  }

  /** What the subscriber that was sent the `i`th notice answered. */
  function Answer(h: Handlers, log: seq<Sent>, i: nat): int
    requires i < |log|
  {
    h.answer(log[..i], log[i])
  }

  /** Everybody asked after `start` agreed, but for the last one if the code is not 0. */
  predicate Answered(h: Handlers, log: seq<Sent>, start: nat, ret: int) {
    var agreed := if ret == 0 then |log| else |log| - 1;
    && start <= agreed
    && (forall i | start <= i < agreed :: Answer(h, log, i) == 0)
    && (ret != 0 ==> Answer(h, log, |log| - 1) == ret)
  }

  lemma {:induction false} TellAnswered(h: Handlers, log: seq<Sent>, n: Notice, k: nat)
    requires k <= h.count
    ensures var r := Tell(h, log, n, k); log <= r.1 && Answered(h, r.1, |log|, r.0)
    decreases h.count - k
  {
    if k < h.count {
      var log1 := log + [Sent(k, n)];
      assert log1[..|log|] == log;
      if h.answer(log, Sent(k, n)) == 0 {
        TellAnswered(h, log1, n, k + 1);
        var r := Tell(h, log1, n, k + 1);
        assert r.1[|log|] == log1[|log|] && r.1[..|log|] == log1[..|log|];
        assert Answer(h, r.1, |log|) == 0;
      }
    }
  }

  lemma {:induction false} TellAllAnswered(h: Handlers, log: seq<Sent>, ns: seq<Notice>)
    ensures var r := TellAll(h, log, ns); log <= r.1 && Answered(h, r.1, |log|, r.0)
    decreases ns
  {
    hide Tell;
    if ns != [] {
      TellAnswered(h, log, ns[0], 0);
      var r := Tell(h, log, ns[0], 0);
      if r.0 == 0 {
        TellAllAnswered(h, r.1, ns[1..]);
        var all := TellAll(h, r.1, ns[1..]).1;
        forall i | |log| <= i < |r.1| ensures Answer(h, all, i) == 0 {
          assert all[..i] == r.1[..i] && all[i] == r.1[i];
          assert Answer(h, r.1, i) == 0;
        }
      }
    }
  }

  /**
   The code of a reload: the first refusal of a subscriber, which ends it; and if nobody refuses, the
   code for a change of role exactly when a vhost changed its role, and otherwise success.
   */
  lemma ReloadCodeIff(h: Handlers, root: seq<Directive>, oldRoot: seq<Directive>)
    ensures var (ret, log) := Reload(h, [], root, oldRoot);
      && (forall i | 0 <= i < |log| - 1 :: Answer(h, log, i) == 0)
      && ret == if log != [] && Answer(h, log, |log| - 1) != 0 then Answer(h, log, |log| - 1)
                else if RoleChanged(root, oldRoot) then 2023
                else 0
  {
    hide Plan, AllNames, TellAll, RoleChanged, EdgeChanged, Answer;
    var p := Plan(AllNames(root, oldRoot), root, oldRoot);
    TellAllAnswered(h, [], p.0);
    PlanCode(AllNames(root, oldRoot), root, oldRoot);
    RoleChangedIff(root, oldRoot);
  }

  /** A vhost that says nothing, in both configurations: the reload succeeds and says nothing. */
  lemma UnchangedVhostReloads(h: Handlers)
    ensures var root := [Directive(1, "vhost", ["a"], [])]; Reload(h, [], root, root) == (0, [])
  {
    hide Details;
    var v := Directive(1, "vhost", ["a"], []);
    assert [v][1..] == [];
    assert Vhost([v], "a") == Some(v);
    NothingToTell();
    assert VhostNames([v]) == ["a"] && GoneNames([v], [v]) == [];
    assert ["a"] + [] == ["a"] && ["a"][1..] == [];
    var none: seq<Notice> := [];
    assert VhostNotices("a", [v], [v]) == none && none + none == none;
    assert Plan(["a"], [v], [v]) == ([], 0);
  }

  lemma NothingToTell()
    ensures Details("a", [], []) == []
  {
    NoChanges(Parts());
  }

  lemma {:induction false} NoChanges(ps: seq<Part>)
    ensures PartNotices(ps, "a", [], []) == []
  {
    if ps != [] {
      NoChanges(ps[1..]);
    }
  }

  /** The same vhost, with a cluster in remote mode from now on: the reload is refused. */
  lemma NewEdgeIsRefused(h: Handlers)
    ensures var was := [Directive(1, "vhost", ["a"], [])];
      var edge := Directive(2, "cluster", [], [Directive(3, "mode", ["remote"], [])]);
      var now := [Directive(1, "vhost", ["a"], [edge])];
      Reload(h, [], now, was) == (2023, [])
  {
    var was, mode := Directive(1, "vhost", ["a"], []), Directive(3, "mode", ["remote"], []);
    var edge := Directive(2, "cluster", [], [mode]);
    var now := Directive(1, "vhost", ["a"], [edge]);
    assert Vhost([was], "a") == Some(was) && Vhost([now], "a") == Some(now);
    assert Get(now.children, "cluster") == Some(edge) && Get(edge.children, "mode") == Some(mode);
    assert Get(was.children, "cluster") == None && Get(was.children, "enabled") == None;
    assert edge.name != "enabled" && now.children[1..] == [] && Get(now.children, "enabled") == None;
    assert EdgeChanged("a", [now], [was]);
    assert [now][1..] == [] && [was][1..] == [];
    assert VhostNames([now]) == ["a"] && GoneNames([was], [now]) == [] && ["a"] + [] == ["a"];
    assert Plan(["a"], [now], [was]) == ([], 2023);
  }

  // ----- the notices -----

  /** The first child of this name, up to line numbers. */
  function Said(cs: seq<Directive>, name: string): Option<Directive> {
    PlainOption(Get(cs, name))
  }

  /** The same below a section. */
  function SaidIn(cs: seq<Directive>, section: string, name: string): Option<Directive> {
    var d := Get(cs, section);
    if d.None? then None else Said(d.value.children, name)
  }

  /** What makes a part of a vhost worth announcing; http_static has a notice of its own. */
  predicate PartDiffers(p: Part, a: seq<Directive>, b: seq<Directive>) {
    match p
    case ChunkSize => Said(a, "chunk_size") != Said(b, "chunk_size")
    case TcpNodelay => Said(a, "tcp_nodelay") != Said(b, "tcp_nodelay")
    case MinLatency => Said(a, "min_latency") != Said(b, "min_latency")
    case Play => Said(a, "play") != Said(b, "play")
    case Forward => Said(a, "forward") != Said(b, "forward")
    case Dash => Said(a, "dash") != Said(b, "dash")
    case Hls => Said(a, "hls") != Said(b, "hls")
    case Hds => Said(a, "hds") != Said(b, "hds")
    case Dvr => !EqualsExcept(Get(a, "dvr"), Get(b, "dvr"), "dvr_apply")
    case DvrFilter => SaidIn(a, "dvr", "dvr_apply") != SaidIn(b, "dvr", "dvr_apply")
    case Exec => Said(a, "exec") != Said(b, "exec")
    case Publish => Said(a, "publish") != Said(b, "publish")
    case HttpStatic => false
    case HttpRemux => Said(a, "http_remux") != Said(b, "http_remux")
  }

  /** A transcoder of `a` that `b` does not have, up to line numbers. */
  predicate Unmatched(a: seq<Directive>, b: seq<Directive>) {
    exists t | t in a :: t.name == "transcode" && forall u | u in b :: Plain(u) != Plain(t)
  }

  /** A running ingester. */
  predicate Runs(cs: seq<Directive>, id: string, g: Directive) {
    g in cs && Called(g, "ingest", id) && Says(g.children, "enabled", "on")
  }

  predicate SomeRuns(cs: seq<Directive>, id: string) {
    exists g | g in cs :: Runs(cs, id, g)
  }

  /** The vhost of this name is on before and after; these are its new and its old form. */
  predicate Stays(root: seq<Directive>, oldRoot: seq<Directive>, name: string, d: Directive, o: Directive) {
    VhostIs(root, name, d) && VhostIs(oldRoot, name, o) && On(root, name) && On(oldRoot, name)
  }

  /** What a notice says has happened. */
  ghost predicate Happened(n: Notice, root: seq<Directive>, oldRoot: seq<Directive>) {
    match n
    case VhostAdded(v) => On(root, v) && !On(oldRoot, v)
    case VhostRemoved(v) => !On(root, v) && On(oldRoot, v)
    case PartChanged(v, p) =>
      exists d, o :: Stays(root, oldRoot, v, d, o) && PartDiffers(p, d.children, o.children)
    case HttpChanged =>
      exists v, d, o ::
        Stays(root, oldRoot, v, d, o) && Said(d.children, "http_static") != Said(o.children, "http_static")
    case TranscodeChanged(v) =>
      exists d, o :: Stays(root, oldRoot, v, d, o)
        && (Unmatched(d.children, o.children) || Unmatched(o.children, d.children))
    case IngestRemoved(v, id) =>
      exists d, o :: Stays(root, oldRoot, v, d, o) && SomeRuns(o.children, id) && !SomeRuns(d.children, id)
    case IngestAdded(v, id) =>
      exists d, o :: Stays(root, oldRoot, v, d, o) && !SomeRuns(o.children, id) && SomeRuns(d.children, id)
    case IngestUpdated(v, id) =>
      exists d, o :: Stays(root, oldRoot, v, d, o)
        && exists g, f :: Runs(d.children, id, g) && Runs(o.children, id, f) && Plain(g) != Plain(f)
  }

  // ----- the notices about one vhost -----

  lemma PartChangedIff(p: Part, a: seq<Directive>, b: seq<Directive>)
    ensures !p.HttpStatic? ==> (p.Changed(a, b) <==> PartDiffers(p, a, b))
    ensures HttpStatic.Changed(a, b) <==> Said(a, "http_static") != Said(b, "http_static")
  {
    hide Get, EqualsExcept, Equals;
    EqualsSamePlain(p.Content(a), p.Content(b));
    EqualsSamePlain(HttpStatic.Content(a), HttpStatic.Content(b));
  }

  lemma {:induction false} PartNoticesIff(ps: seq<Part>, v: string, a: seq<Directive>, b: seq<Directive>, n: Notice)
    ensures n in PartNotices(ps, v, a, b) <==> exists p | p in ps :: p.Changed(a, b) && n == PartNotice(p, v)
  {
    hide Part.Changed, PartNotice;
    if ps != [] {
      PartNoticesIff(ps[1..], v, a, b, n);
      assert ps == [ps[0]] + ps[1..];
    }
  }

  lemma {:induction false} IngestNoticeIff(ds: seq<Directive>, v: string, other: seq<Directive>, n: Notice)
    ensures n in Removals(ds, v, other) <==> n.IngestRemoved? && n.vhost == v && n.id in StopIds(ds, other)
    ensures n in Additions(ds, v, other) <==> n.IngestAdded? && n.vhost == v && n.id in StartIds(ds, other)
    ensures n in Updates(ds, v, other) <==> n.IngestUpdated? && n.vhost == v && n.id in RestartIds(ds, other)
  {
    hide Stops, Starts, Restarts, Directive.Arg0;
    if ds != [] {
      IngestNoticeIff(ds[1..], v, other, n);
      assert ds == [ds[0]] + ds[1..];
    }
  }

  lemma StaysIff(root: seq<Directive>, oldRoot: seq<Directive>, name: string, d: Directive, o: Directive)
    ensures Stays(root, oldRoot, name, d, o) <==>
      && Vhost(root, name) == Some(d) && Vhost(oldRoot, name) == Some(o)
      && VhostEnabled(Some(d)) && VhostEnabled(Some(o))
  {
    hide VhostIs, On, Vhost, VhostEnabled;
    VhostIsGet2(root, name, d);
    VhostIsGet2(oldRoot, name, o);
    OnIsEnabled(root, name);
    OnIsEnabled(oldRoot, name);
  }

  lemma CalledIsArg0(d: Directive, kind: string, name: string)
    ensures Called(d, kind, name) <==> d.name == kind && d.Arg0() == name
  {
  }

  /** With unique ids, transcoders differ exactly when one of them has no like on the other side. */
  lemma TranscodeIff(a: seq<Directive>, b: seq<Directive>)
    requires UniqueIds(a, "transcode") && UniqueIds(b, "transcode")
    ensures TranscodeDiffers(a, b) <==> Unmatched(a, b) || Unmatched(b, a)
  {
    forall t | t in Named(a, "transcode")
      ensures Missing(t, b) || Differs(t, b) <==> forall u | u in b :: Plain(u) != Plain(t)
    {
      MatchIff(a, b, t);
    }
    forall t | t in Named(b, "transcode")
      ensures Missing(t, a) || Differs(t, a) <==> forall u | u in a :: Plain(u) != Plain(t)
      ensures Differs(t, a) && !Missing(t, a) ==> exists u | u in Named(a, "transcode") :: Differs(u, b)
    {
      MatchIff(b, a, t);
      if Differs(t, a) && !Missing(t, a) {
        DiffersBack(a, b, t);
      }
    }
    hide Missing, Differs, Plain, UniqueIds;
    if Unmatched(a, b) {
      var t :| t in a && t.name == "transcode" && forall u | u in b :: Plain(u) != Plain(t);
      assert t in Named(a, "transcode");
    }
    if Unmatched(b, a) {
      var t :| t in b && t.name == "transcode" && forall u | u in a :: Plain(u) != Plain(t);
      assert t in Named(b, "transcode");
    }
  }

  lemma MatchIff(a: seq<Directive>, b: seq<Directive>, t: Directive)
    requires UniqueIds(b, "transcode") && t in Named(a, "transcode")
    ensures Missing(t, b) || Differs(t, b) <==> forall u | u in b :: Plain(u) != Plain(t)
  {
    hide UniqueIds, Get2, Equals;
    var u := Get2(b, "transcode", t.Arg0());
    EqualsSamePlain(Some(t), u);
    if u.Some? {
      FoundNamed(b, "transcode", t.Arg0());
    }
    forall w | w in b && Plain(w) == Plain(t) ensures u == Some(w) {
      assert w.name == t.name && w.args == t.args && w in Named(b, "transcode");
      NamedFound(b, "transcode", w);
    }
  }

  lemma DiffersBack(a: seq<Directive>, b: seq<Directive>, t: Directive)
    requires UniqueIds(a, "transcode") && UniqueIds(b, "transcode")
    requires t in Named(b, "transcode") && Differs(t, a) && !Missing(t, a)
    ensures exists u | u in Named(a, "transcode") :: Differs(u, b)
  {
    hide UniqueIds, Get2, Equals;
    var u := Get2(a, "transcode", t.Arg0());
    FoundNamed(a, "transcode", t.Arg0());
    NamedFound(b, "transcode", t);
    EqualsSamePlain(Some(t), u);
    EqualsSamePlain(u, Some(t));
    assert Differs(u.value, b);
  }

  lemma RunsIff(cs: seq<Directive>, id: string)
    requires UniqueIds(cs, "ingest")
    ensures forall g :: Runs(cs, id, g) <==> Ingest(cs, id) == Some(g) && IngestEnabled(Some(g))
    ensures SomeRuns(cs, id) <==> IngestEnabled(Ingest(cs, id))
  {
    hide UniqueIds, Get2, Get, Says, Called;
    if Ingest(cs, id).Some? {
      FoundNamed(cs, "ingest", id);
    }
    forall g ensures Runs(cs, id, g) <==> Ingest(cs, id) == Some(g) && IngestEnabled(Some(g)) {
      CalledIsArg0(g, "ingest", id);
      SaysIsArg0(g.children, "enabled", "on");
      if g in cs && g.name == "ingest" {
        NamedFound(cs, "ingest", g);
      }
    }
  }

  lemma UpdateIff(a: seq<Directive>, b: seq<Directive>, id: string)
    requires UniqueIds(a, "ingest") && UniqueIds(b, "ingest")
    ensures IngestEnabled(Ingest(b, id)) && IngestEnabled(Ingest(a, id)) && !Equals(Ingest(a, id), Ingest(b, id)) <==>
      exists g, f :: Runs(a, id, g) && Runs(b, id, f) && Plain(g) != Plain(f)
  {
    hide UniqueIds, Runs, Ingest, IngestEnabled, Equals;
    RunsIff(a, id);
    RunsIff(b, id);
    EqualsSamePlain(Ingest(a, id), Ingest(b, id));
    if IngestEnabled(Ingest(a, id)) && IngestEnabled(Ingest(b, id)) {
      var g :| g in a && Runs(a, id, g);
      var f :| f in b && Runs(b, id, f);
      assert Ingest(a, id) == Some(g) && Ingest(b, id) == Some(f);
    }
  }

  /** What is announced about the ingesters of a vhost. */
  lemma IngestIff(v: string, a: seq<Directive>, b: seq<Directive>, n: Notice)
    requires UniqueIds(a, "ingest") && UniqueIds(b, "ingest")
    ensures n in IngestNotices(v, a, b) <==> match n
      case IngestRemoved(w, id) => w == v && SomeRuns(b, id) && !SomeRuns(a, id)
      case IngestAdded(w, id) => w == v && !SomeRuns(b, id) && SomeRuns(a, id)
      case IngestUpdated(w, id) => w == v && exists g, f :: Runs(a, id, g) && Runs(b, id, f) && Plain(g) != Plain(f)
      case _ => false
  {
    hide UniqueIds, StopIds, StartIds, RestartIds, Removals, Additions, Updates, Runs, SomeRuns, Ingest, IngestEnabled,
         Equals;
    IngestNoticeIff(Named(b, "ingest"), v, a, n);
    IngestNoticeIff(Named(a, "ingest"), v, b, n);
    if n.IngestRemoved? || n.IngestAdded? || n.IngestUpdated? {
      IngestIds(a, b, n.id);
      RunsIff(a, n.id);
      RunsIff(b, n.id);
      UpdateIff(a, b, n.id);
    }
  }

  lemma PartsIff(v: string, a: seq<Directive>, b: seq<Directive>, n: Notice)
    ensures n in PartNotices(Parts(), v, a, b) <==> match n
      case PartChanged(w, p) => w == v && PartDiffers(p, a, b)
      case HttpChanged => Said(a, "http_static") != Said(b, "http_static")
      case _ => false
  {
    hide Part.Changed, Said, PartDiffers, PartNotices;
    PartNoticesIff(Parts(), v, a, b, n);
    forall p: Part ensures p in Parts() && !p.HttpStatic? ==> (p.Changed(a, b) <==> PartDiffers(p, a, b)) {
      PartChangedIff(p, a, b);
    }
    forall p: Part ensures p in Parts() {
      EveryPartIsWatched(p);
    }
    PartChangedIff(HttpStatic, a, b);
    if n.PartChanged? && n.part.HttpStatic? {
      NoHttpPart(a, b);
    }
  }

  lemma NoHttpPart(a: seq<Directive>, b: seq<Directive>)
    ensures !PartDiffers(HttpStatic, a, b)
  {
  }

  /** What is announced about one vhost. */
  lemma VhostNoticesIff(v: string, root: seq<Directive>, oldRoot: seq<Directive>, n: Notice)
    requires Unique(root) && Unique(oldRoot)
    ensures n in VhostNotices(v, root, oldRoot) ==> Happened(n, root, oldRoot)
    ensures Happened(n, root, oldRoot) && !n.HttpChanged? && n.vhost == v ==> n in VhostNotices(v, root, oldRoot)
    ensures n.HttpChanged? && (exists d, o :: Stays(root, oldRoot, v, d, o)
                                 && Said(d.children, "http_static") != Said(o.children, "http_static"))
      ==> n in VhostNotices(v, root, oldRoot)
  {
    hide Unique, On, Vhost, VhostEnabled, Details, Stays, Said, PartDiffers, Unmatched, SomeRuns, Runs, Plain;
    OnIsEnabled(root, v);
    OnIsEnabled(oldRoot, v);
    var oldVhost, newVhost := Vhost(oldRoot, v), Vhost(root, v);
    forall d, o
      ensures Stays(root, oldRoot, v, d, o) <==>
        newVhost == Some(d) && oldVhost == Some(o) && VhostEnabled(Some(d)) && VhostEnabled(Some(o))
    {
      StaysIff(root, oldRoot, v, d, o);
    }
    if VhostEnabled(newVhost) && VhostEnabled(oldVhost) {
      EnabledIsThere(oldVhost);
      EnabledIsThere(newVhost);
      UniqueAt(root, v);
      UniqueAt(oldRoot, v);
      DetailsIff(v, newVhost.value.children, oldVhost.value.children, n);
    }
  }

  lemma DetailsIff(v: string, a: seq<Directive>, b: seq<Directive>, n: Notice)
    requires UniqueIds(a, "transcode") && UniqueIds(b, "transcode")
    requires UniqueIds(a, "ingest") && UniqueIds(b, "ingest")
    ensures n in Details(v, a, b) <==> match n
      case VhostAdded(_) => false
      case VhostRemoved(_) => false
      case PartChanged(w, p) => w == v && PartDiffers(p, a, b)
      case HttpChanged => Said(a, "http_static") != Said(b, "http_static")
      case TranscodeChanged(w) => w == v && (Unmatched(a, b) || Unmatched(b, a))
      case IngestRemoved(w, id) => w == v && SomeRuns(b, id) && !SomeRuns(a, id)
      case IngestAdded(w, id) => w == v && !SomeRuns(b, id) && SomeRuns(a, id)
      case IngestUpdated(w, id) => w == v && exists g, f :: Runs(a, id, g) && Runs(b, id, f) && Plain(g) != Plain(f)
  {
    hide UniqueIds, PartNotices, IngestNotices, TranscodeDiffers, Said, PartDiffers, Unmatched, SomeRuns, Runs, Plain,
         Parts;
    PartsIff(v, a, b, n);
    TranscodeIff(a, b);
    IngestIff(v, a, b, n);
  }

  // ----- the notices about all vhosts -----

  lemma {:induction false} PlanMembers(names: seq<string>, root: seq<Directive>, oldRoot: seq<Directive>, n: Notice)
    requires Plan(names, root, oldRoot).1 == 0
    ensures n in Plan(names, root, oldRoot).0 <==> exists v | v in names :: n in VhostNotices(v, root, oldRoot)
  {
    hide VhostNotices, EdgeChanged;
    if names != [] {
      PlanMembers(names[1..], root, oldRoot, n);
      assert names == [names[0]] + names[1..];
    }
  }

  /** A vhost that something is announced about is looked at. */
  lemma NoticedIsNamed(v: string, root: seq<Directive>, oldRoot: seq<Directive>)
    requires VhostNotices(v, root, oldRoot) != []
    ensures v in AllNames(root, oldRoot)
  {
    hide Vhost, VhostNames, GoneNames, Details;
    VhostNamed(root, v);
    VhostNamed(oldRoot, v);
    GoneNamed(oldRoot, root, v);
  }

  lemma HappenedAt(root: seq<Directive>, oldRoot: seq<Directive>, n: Notice) returns (v: string)
    requires Unique(root) && Unique(oldRoot) && Happened(n, root, oldRoot)
    ensures n in VhostNotices(v, root, oldRoot)
  {
    hide Unique, On, Stays, Said, VhostNotices;
    if n.HttpChanged? {
      var w, d, o :|
        Stays(root, oldRoot, w, d, o) && Said(d.children, "http_static") != Said(o.children, "http_static");
      v := w;
    } else {
      v := n.vhost;
    }
    VhostNoticesIff(v, root, oldRoot, n);
  }

  /** A reload in which no role changed announces exactly what happened. */
  lemma PlannedIff(root: seq<Directive>, oldRoot: seq<Directive>, n: Notice)
    requires Unique(root) && Unique(oldRoot) && Plan(AllNames(root, oldRoot), root, oldRoot).1 == 0
    ensures n in Plan(AllNames(root, oldRoot), root, oldRoot).0 <==> Happened(n, root, oldRoot)
  {
    hide Unique, Plan, AllNames, VhostNotices, Happened;
    PlanMembers(AllNames(root, oldRoot), root, oldRoot, n);
    forall v | v in AllNames(root, oldRoot) && n in VhostNotices(v, root, oldRoot)
      ensures Happened(n, root, oldRoot)
    {
      VhostNoticesIff(v, root, oldRoot, n);
    }
    if Happened(n, root, oldRoot) {
      var v := HappenedAt(root, oldRoot, n);
      NoticedIsNamed(v, root, oldRoot);
    }
  }

  /** After a reload that succeeds, every subscriber has been told exactly what happened. */
  lemma EverySubscriberIsToldIff(h: Handlers, root: seq<Directive>, oldRoot: seq<Directive>, k: nat, n: Notice)
    requires Unique(root) && Unique(oldRoot) && k < h.count
    requires Reload(h, [], root, oldRoot).0 == 0
    ensures n in Heard(Reload(h, [], root, oldRoot).1, k) <==> Happened(n, root, oldRoot)
  {
    hide Unique, Plan, AllNames, TellAll, Heard, Happened;
    var ns := Plan(AllNames(root, oldRoot), root, oldRoot).0;
    var m := TellAllHeard(h, [], ns, k);
    NothingHeard(k);
    assert ns[..|ns|] == ns && [] + ns == ns;
    PlannedIff(root, oldRoot, n);
  }

  lemma NothingHeard(k: nat)
    ensures Heard([], k) == []
  {
  }

  // ----- the order of the notices about a vhost -----

  function Place(n: Notice): nat {
    match n
    case PartChanged(_, ChunkSize) => 0
    case PartChanged(_, TcpNodelay) => 1
    case PartChanged(_, MinLatency) => 2
    case PartChanged(_, Play) => 3
    case PartChanged(_, Forward) => 4
    case PartChanged(_, Dash) => 5
    case PartChanged(_, Hls) => 6
    case PartChanged(_, Hds) => 7
    case PartChanged(_, Dvr) => 8
    case PartChanged(_, DvrFilter) => 9
    case PartChanged(_, Exec) => 10
    case PartChanged(_, Publish) => 11
    case HttpChanged => 12
    case PartChanged(_, HttpRemux) => 13
    case TranscodeChanged(_) => 14
    case IngestRemoved(_, _) => 15
    case IngestAdded(_, _) => 16
    case IngestUpdated(_, _) => 17
    case _ => 18
  }

  /** No notice comes before one that stands earlier in the list above. */
  predicate InPlace(ns: seq<Notice>) {
    forall i, j | 0 <= i < j < |ns| :: Place(ns[i]) <= Place(ns[j])
  }

  predicate AllBetween(ns: seq<Notice>, low: nat, high: nat) {
    forall n | n in ns :: low <= Place(n) <= high
  }

  lemma InPlaceConcat(a: seq<Notice>, b: seq<Notice>, low: nat, mid: nat, next: nat, high: nat)
    requires InPlace(a) && InPlace(b) && AllBetween(a, low, mid) && AllBetween(b, next, high) && mid <= next
    requires low <= next && mid <= high
    ensures InPlace(a + b) && AllBetween(a + b, low, high)
  {
    hide Place;
    var all := a + b;
    forall i, j | 0 <= i < j < |all| ensures Place(all[i]) <= Place(all[j]) {
      if i < |a| <= j {
        assert a[i] in a && b[j - |a|] in b;
      }
    }
  }

  lemma OneInPlace(n: Notice)
    ensures InPlace([n]) && AllBetween([n], Place(n), Place(n)) && InPlace([])
    ensures forall low, high :: AllBetween([], low, high)
  {
  }

  /** From the `k`th part on. */
  lemma {:induction false} PartsInPlace(k: nat, v: string, a: seq<Directive>, b: seq<Directive>)
    requires k <= 14
    ensures |Parts()| == 14
    ensures var ns := PartNotices(Parts()[k..], v, a, b);
      InPlace(ns) && AllBetween(ns, k, 13)
    decreases 14 - k
  {
    hide Part.Changed, Place, InPlace, AllBetween;
    PartsPlaced(v);
    if k == 14 {
      assert Parts()[14..] == [];
      OneInPlace(HttpChanged);
    } else {
      var p := Parts()[k];
      var n := PartNotice(p, v);
      assert Parts()[k..][0] == p && Parts()[k..][1..] == Parts()[k + 1..];
      PartsInPlace(k + 1, v, a, b);
      OneInPlace(n);
      var rest := PartNotices(Parts()[k + 1..], v, a, b);
      if p.Changed(a, b) {
        InPlaceConcat([n], rest, k, k, k + 1, 13);
      } else {
        assert [] + rest == rest;
        Wider(rest, k, k + 1, 13);
      }
    }
  }

  lemma Wider(ns: seq<Notice>, low: nat, mid: nat, high: nat)
    requires AllBetween(ns, mid, high) && low <= mid
    ensures AllBetween(ns, low, high)
  {
  }

  lemma PartsPlaced(v: string)
    ensures |Parts()| == 14
    ensures forall k | 0 <= k < 14 :: Place(PartNotice(Parts()[k], v)) == k
  {
  }

  lemma {:induction false} IngestsInPlace(ds: seq<Directive>, v: string, other: seq<Directive>)
    ensures InPlace(Removals(ds, v, other)) && AllBetween(Removals(ds, v, other), 15, 15)
    ensures InPlace(Additions(ds, v, other)) && AllBetween(Additions(ds, v, other), 16, 16)
    ensures InPlace(Updates(ds, v, other)) && AllBetween(Updates(ds, v, other), 17, 17)
  {
    hide Removals, Additions, Updates, StopIds, StartIds, RestartIds, Place, AllBetween, InPlace;
    forall n
      ensures n in Removals(ds, v, other) ==> n.IngestRemoved?
      ensures n in Additions(ds, v, other) ==> n.IngestAdded?
      ensures n in Updates(ds, v, other) ==> n.IngestUpdated?
    {
      IngestNoticeIff(ds, v, other, n);
    }
    IngestPlaces(Removals(ds, v, other), Additions(ds, v, other), Updates(ds, v, other));
    SamePlace(Removals(ds, v, other), 15);
    SamePlace(Additions(ds, v, other), 16);
    SamePlace(Updates(ds, v, other), 17);
  }

  lemma IngestPlaces(a: seq<Notice>, b: seq<Notice>, c: seq<Notice>)
    requires forall n | n in a :: n.IngestRemoved?
    requires forall n | n in b :: n.IngestAdded?
    requires forall n | n in c :: n.IngestUpdated?
    ensures AllBetween(a, 15, 15) && AllBetween(b, 16, 16) && AllBetween(c, 17, 17)
  {
  }

  lemma SamePlace(ns: seq<Notice>, k: nat)
    requires AllBetween(ns, k, k)
    ensures InPlace(ns)
  {
    hide Place;
    forall i, j | 0 <= i < j < |ns| ensures Place(ns[i]) <= Place(ns[j]) {
      assert ns[i] in ns && ns[j] in ns;
    }
  }

  /**
   What is announced about a vhost that stays on is announced in this order: its parts as listed, the
   transcoders, and of the ingesters first those that stop, then those that start, then those that changed.
   */
  lemma DetailsInPlace(v: string, a: seq<Directive>, b: seq<Directive>)
    ensures InPlace(Details(v, a, b))
  {
    hide PartNotices, Parts, Removals, Additions, Updates, TranscodeDiffers, Place, InPlace, AllBetween, Named;
    var parts, coders := PartNotices(Parts(), v, a, b), TranscodeNotices(v, a, b);
    var gone, come := Removals(Named(b, "ingest"), v, a), Additions(Named(a, "ingest"), v, b);
    var changed := Updates(Named(a, "ingest"), v, b);
    PartsInPlace(0, v, a, b);
    assert Parts()[0..] == Parts();
    IngestsInPlace(Named(b, "ingest"), v, a);
    IngestsInPlace(Named(a, "ingest"), v, b);
    CodersInPlace(v, a, b);
    InPlaceConcat(parts, coders, 0, 13, 14, 14);
    InPlaceConcat(gone, come, 15, 15, 16, 16);
    InPlaceConcat(gone + come, changed, 15, 16, 17, 17);
    InPlaceConcat(parts + coders, gone + come + changed, 0, 14, 15, 17);
  }

  lemma CodersInPlace(v: string, a: seq<Directive>, b: seq<Directive>)
    ensures InPlace(TranscodeNotices(v, a, b)) && AllBetween(TranscodeNotices(v, a, b), 14, 14)
  {
    hide TranscodeDiffers;
  }
}
