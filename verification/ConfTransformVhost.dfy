/** The transformation of a whole configuration, as the program runs it, and the getters behind it. */
module ConfTransformVhost {
  import opened Messages
  import opened ConfDirectives
  import opened ConfTransform
  import opened ConfMigrations

  // ----- one step of the inner loop -----

  lemma SetAllOne(cs: seq<Directive>, s: Setting)
    ensures SetAll(cs, [s]) == SetArgs(cs, s.key, s.args)
  {
    assert [s][1..] == [];
  }

  lemma SetAllTwo(cs: seq<Directive>, s: Setting, t: Setting)
    ensures SetAll(cs, [s] + [t]) == SetArgs(SetArgs(cs, s.key, s.args), t.key, t.args)
  {
    assert ([s] + [t])[1..] == [t];
    SetAllOne(SetArgs(cs, s.key, s.args), t);
  }

  /** Puts one setting of a legacy directive that has been erased into its section. */
  method MoveInto(ds: seq<Directive>, section: string, key: string, args: seq<string>) returns (r: seq<Directive>)
    ensures r == Moved(ds, Move(section, false, [Setting(key, args)]))
  {
    SetAllOne(ChildrenOf(ds, section), Setting(key, args));
    r := WithChildren(ds, section, SetArgs(ChildrenOf(ds, section), key, args));
  }

  method MoveIntoRefer(ds: seq<Directive>, key: string, args: seq<string>) returns (r: seq<Directive>)
    ensures r == Moved(ds, Move("refer", true, [Setting(key, args)]))
  {
    var refer := GetOrCreate2(ChildrenOf(ds, "refer"), "enabled", "on");
    SetAllOne(refer, Setting(key, args));
    r := WithChildren(ds, "refer", SetArgs(refer, key, args));
  }

  method MoveMr(ds: seq<Directive>, conf: Directive) returns (r: seq<Directive>)
    requires conf.name == "mr"
    ensures r == Moved(ds, MoveOf(conf).value)
  {
    hide Moved, SetAll, SetArgs;
    var publish := ChildrenOf(ds, "publish");
    var enabled := Get(conf.children, "enabled");
    if enabled.Some? {
      publish := SetArgs(publish, "mr", enabled.value.args);
    }
    var latency := Get(conf.children, "latency");
    if latency.Some? {
      publish := SetArgs(publish, "mr_latency", latency.value.args);
    }
    r := WithChildren(ds, "publish", publish);
    MovedMr(ds, conf);
  }

  lemma MovedMr(ds: seq<Directive>, conf: Directive)
    requires conf.name == "mr"
    ensures var cs := ChildrenOf(ds, "publish");
      var enabled, latency := Get(conf.children, "enabled"), Get(conf.children, "latency");
      var cs1 := if enabled.Some? then SetArgs(cs, "mr", enabled.value.args) else cs;
      var cs2 := if latency.Some? then SetArgs(cs1, "mr_latency", latency.value.args) else cs1;
      Moved(ds, MoveOf(conf).value) == WithChildren(ds, "publish", cs2)
  {
    hide SetArgs, WithChildren, ChildrenOf, Get;
    var cs := ChildrenOf(ds, "publish");
    var enabled, latency := Get(conf.children, "enabled"), Get(conf.children, "latency");
    if enabled.Some? && latency.Some? {
      SetAllTwo(cs, Setting("mr", enabled.value.args), Setting("mr_latency", latency.value.args));
    } else if enabled.Some? {
      SetAllOne(cs, Setting("mr", enabled.value.args));
      assert [Setting("mr", enabled.value.args)] + [] == [Setting("mr", enabled.value.args)];
    } else if latency.Some? {
      SetAllOne(cs, Setting("mr_latency", latency.value.args));
      assert [] + [Setting("mr_latency", latency.value.args)] == [Setting("mr_latency", latency.value.args)];
    }
  }

  /** The body of the loop over a vhost's children; `next` is where the iterator points afterwards. */
  method TransformOne(ds: seq<Directive>, it: nat) returns (r: seq<Directive>, next: nat)
    requires it < |ds|
    ensures MoveOf(ds[it]).Some? ==> next == it && r == Moved(ds[..it] + ds[it + 1..], MoveOf(ds[it]).value)
    ensures MoveOf(ds[it]).None? ==> next == it + 1 && r == ds[it := InPlace(ds[it])]
  {
    hide Moved, RemoveFirst;
    var conf := ds[it];
    var n := conf.name;
    r, next := ds, it;
    if n == "http" {
      r, next := r[it := conf.(name := "http_static")], it + 1;
      return;
    }
    if n == "http_remux" {
      r := r[it := conf.(children := RemoveFirst(conf.children, "hstrs"))];
    }
    if (n == "refer" && conf.children == []) || n == "refer_play" || n == "refer_publish" {
      r := r[..it] + r[it + 1..];
      if n == "refer" {
        r := MoveIntoRefer(r, "all", conf.args);
      } else if n == "refer_play" {
        r := MoveIntoRefer(r, "play", conf.args);
      } else {
        r := MoveIntoRefer(r, "publish", conf.args);
      }
      return;
    }
    if n == "mr" {
      r := r[..it] + r[it + 1..];
      r := MoveMr(r, conf);
      return;
    }
    if n == "publish_1stpkt_timeout" {
      r := r[..it] + r[it + 1..];
      r := MoveInto(r, "publish", "firstpkt_timeout", conf.args);
      return;
    }
    if n == "publish_normal_timeout" {
      r := r[..it] + r[it + 1..];
      r := MoveInto(r, "publish", "normal_timeout", conf.args);
      return;
    }
    if n == "time_jitter" || n == "mix_correct" || n == "atc" || n == "atc_auto"
       || n == "mw_latency" || n == "gop_cache" || n == "queue_length" || n == "send_min_interval"
       || n == "reduce_sequence_header"
    {
      r := r[..it] + r[it + 1..];
      r := MoveInto(r, "play", n, conf.args);
      return;
    }
    if n == "forward" && conf.children == [] && conf.args != [] {
      var enabled := SetArg0(New("enabled"), "on");
      var destination := New("destination").(args := conf.args);
      r, next := r[it := conf.(args := [], children := [enabled, destination])], it + 1;
      return;
    }
    if n == "mode" || n == "origin" || n == "token_traverse" || n == "vhost" || n == "debug_srs_upnode" {
      r := r[..it] + r[it + 1..];
      r := MoveInto(r, "cluster", n, conf.args);
      return;
    }
    next := it + 1;
  }

  // ----- the loops -----

  /** The loop over a vhost's children, which erases and appends while it iterates. */
  method TransformChildren(children: seq<Directive>) returns (ds: seq<Directive>)
    ensures ds == Migrate(children, 0)
  {
    hide MoveOf, InPlace, Moved;
    ds := children;
    var it: nat := 0;
    while it < |ds|
      invariant it <= |ds|
      invariant Migrate(ds, it) == Migrate(children, 0)
      decreases LegacyCount(ds), |ds| - it
    {
      if MoveOf(ds[it]).Some? {
        EraseCount(ds, it);
        MovedLength(ds[..it] + ds[it + 1..], MoveOf(ds[it]).value);
      } else {
        InPlaceCount(ds, it);
      }
      ds, it := TransformOne(ds, it);
    }
  }

  function TransformTop(d: Directive): Directive {
    if d.name == "http_stream" then d.(name := "http_server")
    else if d.IsVhost() then d.(children := Migrate(d.children, 0))
    else d
  }

  method TransformVhost(root: seq<Directive>) returns (r: seq<Directive>)
    ensures |r| == |root|
    ensures forall k | 0 <= k < |r| :: r[k] == TransformTop(root[k])
  {
    hide Migrate;
    r := root;
    var i := 0;
    while i < |r|
      invariant i <= |r| == |root|
      invariant forall k | 0 <= k < i :: r[k] == TransformTop(root[k])
      invariant forall k | i <= k < |r| :: r[k] == root[k]
    {
      var dir := r[i];
      if dir.name == "http_stream" {
        r := r[i := dir.(name := "http_server")];
      } else if dir.IsVhost() {
        var children := TransformChildren(dir.children);
        r := r[i := dir.(children := children)];
      }
      i := i + 1;
    }
  }

  // ----- what holds of the transformed configuration -----

  function Transform(root: seq<Directive>): (r: seq<Directive>)
    ensures |r| == |root|
    ensures forall k | 0 <= k < |root| :: r[k] == TransformTop(root[k])
  {
    seq(|root|, k requires 0 <= k < |root| => TransformTop(root[k]))
  }

  /** No legacy form is left anywhere. */
  lemma TransformLeavesNoLegacy(root: seq<Directive>, d: Directive)
    requires d in Transform(root)
    ensures d.name != "http_stream"
    ensures d.IsVhost() ==> Settled(d.children)
  {
    hide Migrate, Settled;
    var k :| 0 <= k < |root| && d == TransformTop(root[k]);
    if root[k].IsVhost() {
      NothingIsSettled();
      assert root[k].children[..0] == [];
      MigrateSettles(root[k].children, 0);
    }
  }

  /** Every vhost keeps what it says about play, publish and cluster, and everything else in order. */
  lemma TransformKeepsVhosts(root: seq<Directive>, k: nat, section: string, key: string)
    requires k < |root| && root[k].IsVhost()
    requires section == "play" || section == "publish" || section == "cluster"
    ensures var v, w := root[k], Transform(root)[k];
      && w.IsVhost() && w.line == v.line && w.args == v.args
      && Lookup(w.children, section, key) == Meaning(v.children, section, key)
      && Others(w.children) == Rewritten(Others(v.children))
  {
    hide Migrate, Lookup, Meaning, Others;
    var cs := root[k].children;
    MigrateKeepsMeaning(cs, section, key);
    MigrateKeepsOthers(cs, 0);
    NoOthers();
    assert cs[..0] == [] && cs[0..] == cs;
  }

  /** Transforming twice is transforming once, exactly when no http_remux has a second hstrs. */
  lemma TransformIdempotentIff(root: seq<Directive>)
    ensures Transform(Transform(root)) == Transform(root) <==>
      forall v | v in root && v.IsVhost() :: forall d | d in v.children :: AtMostOneHstrs(d)
  {
    hide Migrate, AtMostOneHstrs;
    forall k | 0 <= k < |root|
      ensures Transform(Transform(root))[k] == Transform(root)[k] <==>
        (root[k].IsVhost() ==> forall d | d in root[k].children :: AtMostOneHstrs(d))
    {
      if root[k].IsVhost() {
        MigrateIdempotentIff(root[k].children);
      }
    }
  }

  // ----- two getters -----

  predicate PreferTrue(arg: string) {
    arg != "off"
  }

  /** Reads a switch of a section of a vhost; both switches below are on by default. */
  predicate Switch(vhost: Option<Directive>, section: string, key: string) {
    if vhost.None? then true
    else
      var conf := Get(vhost.value.children, section);
      if conf.None? then true
      else
        var arg := Get(conf.value.children, key);
        if arg.None? || arg.value.Arg0() == "" then true else PreferTrue(arg.value.Arg0())
  }

  predicate GetGopCache(vhost: Option<Directive>) {
    Switch(vhost, "play", "gop_cache")
  }

  predicate GetDebugSrsUpnode(vhost: Option<Directive>) {
    Switch(vhost, "cluster", "debug_srs_upnode")
  }

  /** A setting given in either style switches off exactly when its first argument is "off". */
  predicate SaysOff(v: Option<seq<string>>) {
    v.Some? && v.value != [] && v.value[0] == "off"
  }

  lemma SwitchAfterMigration(v: Directive, section: string, key: string)
    requires section == "play" || section == "publish" || section == "cluster"
    ensures Switch(Some(v.(children := Migrate(v.children, 0))), section, key) <==>
      !SaysOff(Meaning(v.children, section, key))
  {
    hide Migrate, Meaning;
    MigrateKeepsMeaning(v.children, section, key);
  }

  /** The SRS3 getters read on the transformed vhost what the vhost said in either style. */
  lemma GettersAfterMigration(root: seq<Directive>, k: nat)
    requires k < |root| && root[k].IsVhost()
    ensures GetGopCache(Some(Transform(root)[k])) <==>
      !SaysOff(Meaning(root[k].children, "play", "gop_cache"))
    ensures GetDebugSrsUpnode(Some(Transform(root)[k])) <==>
      !SaysOff(Meaning(root[k].children, "cluster", "debug_srs_upnode"))
    ensures GetGopCache(None) && GetDebugSrsUpnode(None)
  {
    assert Switch(None, "play", "gop_cache") && Switch(None, "cluster", "debug_srs_upnode");
    hide Migrate, Meaning, Switch;
    SwitchAfterMigration(root[k], "play", "gop_cache");
    SwitchAfterMigration(root[k], "cluster", "debug_srs_upnode");
  }
}
