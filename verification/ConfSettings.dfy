/** Where each legacy setting of a vhost is found after the migration, name by name. */
module ConfSettings {
  import opened Messages
  import opened ConfDirectives
  import opened ConfTransform
  import opened ConfMigrations
  import opened ConfRefers
  import opened ConfTransformVhost

  /** The last child of this name. */
  predicate LastNamed(ds: seq<Directive>, i: int, name: string) {
    0 <= i < |ds| && ds[i].name == name && forall j | i < j < |ds| :: ds[j].name != name
  }

  predicate NoneNamed(ds: seq<Directive>, name: string) {
    forall d | d in ds :: d.name != name
  }

  /** The setting is what the last legacy child `name` says; without one it is what was nested already. */
  ghost predicate TakenFrom(ds: seq<Directive>, name: string, section: string, key: string) {
    var found := Lookup(Migrate(ds, 0), section, key);
    && (forall i | LastNamed(ds, i, name) :: found == Some(ds[i].args))
    && (NoneNamed(ds, name) ==> found == Lookup(ds, section, key))
  }

  /** Only children of this name say anything about the setting, and what they say is their arguments. */
  ghost predicate OnlyFrom(name: string, section: string, key: string) {
    forall d: Directive :: Gives(d, section, key) == if d.name == name then Some(d.args) else None
  }

  lemma {:induction false} NothingGives(ds: seq<Directive>, section: string, key: string)
    requires forall d | d in ds :: Gives(d, section, key) == None
    ensures LastGiven(ds, section, key) == None
  {
    hide Gives;
    if ds != [] {
      assert ds[0] in ds && forall d | d in ds[1..] :: d in ds;
      NothingGives(ds[1..], section, key);
    }
  }

  lemma LastGivesAt(ds: seq<Directive>, i: nat, section: string, key: string)
    requires i < |ds| && Gives(ds[i], section, key).Some?
    requires forall j | i < j < |ds| :: Gives(ds[j], section, key) == None
    ensures LastGiven(ds, section, key) == Gives(ds[i], section, key)
  {
    hide LastGiven, Gives;
    var a, x, b := ds[..i], ds[i], ds[i + 1..];
    assert ds == a + [x] + b;
    forall d | d in b ensures Gives(d, section, key) == None {
      var j :| 0 <= j < |b| && b[j] == d;
      assert ds[i + 1 + j] == d;
    }
    NothingGives(b, section, key);
    LastConcat(a + [x], b, section, key);
    LastConcat(a, [x], section, key);
    LastOfOne(x, section, key);
  }

  lemma TakenFromName(ds: seq<Directive>, name: string, section: string, key: string)
    requires section == "play" || section == "publish" || section == "cluster"
    requires OnlyFrom(name, section, key)
    ensures TakenFrom(ds, name, section, key)
  {
    hide Lookup, Migrate, LastGiven, Gives;
    MigrateKeepsMeaning(ds, section, key);
    forall i | LastNamed(ds, i, name) ensures LastGiven(ds, section, key) == Some(ds[i].args) {
      LastGivesAt(ds, i, section, key);
    }
    if NoneNamed(ds, name) {
      NothingGives(ds, section, key);
    }
  }

  lemma PlayFrom(name: string)
    requires PlayName(name)
    ensures OnlyFrom(name, "play", name)
  {
    forall d: Directive ensures Gives(d, "play", name) == if d.name == name then Some(d.args) else None {
      if MoveOf(d).Some? {
        MovesOneSetting(d);
        ValueInOne(Setting(d.name, d.args), name);
      }
    }
  }

  lemma ClusterFrom(name: string)
    requires ClusterName(name)
    ensures OnlyFrom(name, "cluster", name)
  {
    forall d: Directive ensures Gives(d, "cluster", name) == if d.name == name then Some(d.args) else None {
      if MoveOf(d).Some? {
        MovesOneSetting(d);
        ValueInOne(Setting(d.name, d.args), name);
      }
    }
  }

  /** The sections apart: what moves into play and cluster keeps its name. */
  lemma MovesOneSetting(d: Directive)
    requires MoveOf(d).Some?
    ensures var m := MoveOf(d).value;
      && (m.section == "play" <==> PlayName(d.name)) && (m.section == "cluster" <==> ClusterName(d.name))
      && (m.section == "play" || m.section == "cluster" ==> m.settings == [Setting(d.name, d.args)])
  {
  }

  lemma TimeoutsFrom()
    ensures OnlyFrom("publish_1stpkt_timeout", "publish", "firstpkt_timeout")
    ensures OnlyFrom("publish_normal_timeout", "publish", "normal_timeout")
  {
    forall d: Directive
      ensures Gives(d, "publish", "firstpkt_timeout") ==
        if d.name == "publish_1stpkt_timeout" then Some(d.args) else None
      ensures Gives(d, "publish", "normal_timeout") ==
        if d.name == "publish_normal_timeout" then Some(d.args) else None
    {
      PublishGives(d, "firstpkt_timeout");
      PublishGives(d, "normal_timeout");
    }
  }

  lemma PublishGives(d: Directive, key: string)
    ensures Gives(d, "publish", key) ==
      if d.name == "mr" then
        if key == "mr" then Nested(d.children, "enabled")
        else if key == "mr_latency" then Nested(d.children, "latency")
        else None
      else if d.name == "publish_1stpkt_timeout" && key == "firstpkt_timeout" then Some(d.args)
      else if d.name == "publish_normal_timeout" && key == "normal_timeout" then Some(d.args)
      else None
  {
    PublishMoves(d);
    hide MoveOf;
    if d.name == "mr" {
      MrValues(d.children, key);
    } else {
      ValueInOne(Setting("firstpkt_timeout", d.args), key);
      ValueInOne(Setting("normal_timeout", d.args), key);
    }
  }

  lemma PublishMoves(d: Directive)
    ensures d.name == "mr" ==>
      MoveOf(d) == Some(Move("publish", false, FromChild(d, "enabled", "mr") + FromChild(d, "latency", "mr_latency")))
    ensures d.name == "publish_1stpkt_timeout" ==>
      MoveOf(d) == Some(Move("publish", false, [Setting("firstpkt_timeout", d.args)]))
    ensures d.name == "publish_normal_timeout" ==>
      MoveOf(d) == Some(Move("publish", false, [Setting("normal_timeout", d.args)]))
    ensures d.name != "mr" && d.name != "publish_1stpkt_timeout" && d.name != "publish_normal_timeout" ==>
      MoveOf(d).None? || MoveOf(d).value.section != "publish"
  {
    hide FromChild;
  }

  lemma MrValues(cs: seq<Directive>, key: string)
    ensures var d := Directive(0, "mr", [], cs);
      ValueIn(FromChild(d, "enabled", "mr") + FromChild(d, "latency", "mr_latency"), key) ==
        if key == "mr" then Nested(cs, "enabled") else if key == "mr_latency" then Nested(cs, "latency") else None
  {
    hide Get;
    var e, l := Get(cs, "enabled"), Get(cs, "latency");
    if e.Some? {
      ValueInOne(Setting("mr", e.value.args), key);
    }
    if l.Some? {
      ValueInOne(Setting("mr_latency", l.value.args), key);
    }
    if e.Some? && l.Some? {
      assert ([Setting("mr", e.value.args)] + [Setting("mr_latency", l.value.args)])[1..]
          == [Setting("mr_latency", l.value.args)];
    }
  }

  predicate Has(d: Directive, child: string) {
    exists c | c in d.children :: c.name == child
  }

  /** The last `mr` with a child of this name. */
  predicate LastMrWith(ds: seq<Directive>, i: int, child: string) {
    0 <= i < |ds| && ds[i].name == "mr" && Has(ds[i], child)
    && forall j | i < j < |ds| :: !(ds[j].name == "mr" && Has(ds[j], child))
  }

  lemma HasIsNested(d: Directive, child: string)
    ensures Has(d, child) <==> Nested(d.children, child).Some?
  {
  }

  /** The settings inside the last `mr` that has them become settings of publish. */
  ghost predicate TakenFromMr(ds: seq<Directive>, child: string, key: string) {
    var found := Lookup(Migrate(ds, 0), "publish", key);
    && (forall i | LastMrWith(ds, i, child) :: found == Nested(ds[i].children, child))
    && ((forall d | d in ds :: !(d.name == "mr" && Has(d, child))) ==> found == Lookup(ds, "publish", key))
  }

  lemma MrMoves(ds: seq<Directive>, child: string, key: string)
    requires (child == "enabled" && key == "mr") || (child == "latency" && key == "mr_latency")
    ensures TakenFromMr(ds, child, key)
  {
    hide Lookup, Migrate, LastGiven, Gives, Nested, Has;
    MigrateKeepsMeaning(ds, "publish", key);
    forall d: Directive
      ensures Gives(d, "publish", key) == if d.name == "mr" && Has(d, child) then Nested(d.children, child) else None
    {
      PublishGives(d, key);
      HasIsNested(d, child);
    }
    forall i | LastMrWith(ds, i, child)
      ensures LastGiven(ds, "publish", key) == Nested(ds[i].children, child) && Nested(ds[i].children, child).Some?
    {
      HasIsNested(ds[i], child);
      LastGivesAt(ds, i, "publish", key);
    }
    if forall d | d in ds :: !(d.name == "mr" && Has(d, child)) {
      NothingGives(ds, "publish", key);
    }
  }

  /** The whole table: where each legacy name of a vhost is found afterwards. */
  lemma SettingsMove(ds: seq<Directive>)
    ensures TakenFrom(ds, "time_jitter", "play", "time_jitter")
    ensures TakenFrom(ds, "mix_correct", "play", "mix_correct")
    ensures TakenFrom(ds, "atc", "play", "atc")
    ensures TakenFrom(ds, "atc_auto", "play", "atc_auto")
    ensures TakenFrom(ds, "mw_latency", "play", "mw_latency")
    ensures TakenFrom(ds, "gop_cache", "play", "gop_cache")
    ensures TakenFrom(ds, "queue_length", "play", "queue_length")
    ensures TakenFrom(ds, "send_min_interval", "play", "send_min_interval")
    ensures TakenFrom(ds, "reduce_sequence_header", "play", "reduce_sequence_header")
    ensures TakenFrom(ds, "publish_1stpkt_timeout", "publish", "firstpkt_timeout")
    ensures TakenFrom(ds, "publish_normal_timeout", "publish", "normal_timeout")
    ensures TakenFromMr(ds, "enabled", "mr")
    ensures TakenFromMr(ds, "latency", "mr_latency")
    ensures TakenFrom(ds, "mode", "cluster", "mode")
    ensures TakenFrom(ds, "origin", "cluster", "origin")
    ensures TakenFrom(ds, "token_traverse", "cluster", "token_traverse")
    ensures TakenFrom(ds, "vhost", "cluster", "vhost")
    ensures TakenFrom(ds, "debug_srs_upnode", "cluster", "debug_srs_upnode")
  {
    hide TakenFrom, TakenFromMr, OnlyFrom;
    PlaySettings(ds, "time_jitter");
    PlaySettings(ds, "mix_correct");
    PlaySettings(ds, "atc");
    PlaySettings(ds, "atc_auto");
    PlaySettings(ds, "mw_latency");
    PlaySettings(ds, "gop_cache");
    PlaySettings(ds, "queue_length");
    PlaySettings(ds, "send_min_interval");
    PlaySettings(ds, "reduce_sequence_header");
    TimeoutsFrom();
    TakenFromName(ds, "publish_1stpkt_timeout", "publish", "firstpkt_timeout");
    TakenFromName(ds, "publish_normal_timeout", "publish", "normal_timeout");
    MrMoves(ds, "enabled", "mr");
    MrMoves(ds, "latency", "mr_latency");
    ClusterSettings(ds, "mode");
    ClusterSettings(ds, "origin");
    ClusterSettings(ds, "token_traverse");
    ClusterSettings(ds, "vhost");
    ClusterSettings(ds, "debug_srs_upnode");
  }

  lemma PlaySettings(ds: seq<Directive>, name: string)
    requires PlayName(name)
    ensures TakenFrom(ds, name, "play", name)
  {
    hide OnlyFrom, TakenFrom;
    PlayFrom(name);
    TakenFromName(ds, name, "play", name);
  }

  lemma ClusterSettings(ds: seq<Directive>, name: string)
    requires ClusterName(name)
    ensures TakenFrom(ds, name, "cluster", name)
  {
    hide OnlyFrom, TakenFrom;
    ClusterFrom(name);
    TakenFromName(ds, name, "cluster", name);
  }

  /** The lists of the two refer directives move under names of their own. */
  lemma ReferListsMove(ds: seq<Directive>)
    ensures forall i | LastNamed(ds, i, "refer_play") :: Lookup(Migrate(ds, 0), "refer", "play") == Some(ds[i].args)
    ensures forall i | LastNamed(ds, i, "refer_publish") ::
      Lookup(Migrate(ds, 0), "refer", "publish") == Some(ds[i].args)
  {
    hide Lookup, Migrate, LastGiven, Gives;
    forall d: Directive
      ensures Gives(d, "refer", "play") == if d.name == "refer_play" then Some(d.args) else None
      ensures Gives(d, "refer", "publish") == if d.name == "refer_publish" then Some(d.args) else None
    {
      ReferGives(d);
    }
    forall i | LastNamed(ds, i, "refer_play") ensures Lookup(Migrate(ds, 0), "refer", "play") == Some(ds[i].args) {
      LastGivesAt(ds, i, "refer", "play");
      PlayAndPublishSurvive(ds, "play");
    }
    forall i | LastNamed(ds, i, "refer_publish")
      ensures Lookup(Migrate(ds, 0), "refer", "publish") == Some(ds[i].args)
    {
      LastGivesAt(ds, i, "refer", "publish");
      PlayAndPublishSurvive(ds, "publish");
    }
  }

  lemma ReferGives(d: Directive)
    ensures Gives(d, "refer", "play") == if d.name == "refer_play" then Some(d.args) else None
    ensures Gives(d, "refer", "publish") == if d.name == "refer_publish" then Some(d.args) else None
  {
    forall key | key == "play" || key == "publish"
      ensures Gives(d, "refer", key) == if d.name == "refer_" + key then Some(d.args) else None
    {
      ValueInOne(Setting("all", d.args), key);
      ValueInOne(Setting("play", d.args), key);
      ValueInOne(Setting("publish", d.args), key);
    }
    assert "refer_" + "play" == "refer_play" && "refer_" + "publish" == "refer_publish";
  }

  /** No other setting of the three sections changes. */
  lemma NothingElseMoves(ds: seq<Directive>, section: string, key: string)
    requires section == "play" || section == "publish" || section == "cluster"
    requires section == "play" ==>
      key !in ["time_jitter", "mix_correct", "atc", "atc_auto", "mw_latency", "gop_cache", "queue_length",
               "send_min_interval", "reduce_sequence_header"]
    requires section == "publish" ==> key !in ["firstpkt_timeout", "normal_timeout", "mr", "mr_latency"]
    requires section == "cluster" ==> key !in ["mode", "origin", "token_traverse", "vhost", "debug_srs_upnode"]
    ensures Lookup(Migrate(ds, 0), section, key) == Lookup(ds, section, key)
  {
    forall d | d in ds ensures Gives(d, section, key) == None {
      GivesOnlyListed(d, section, key);
    }
    hide Lookup, Migrate, LastGiven, Gives;
    MigrateKeepsMeaning(ds, section, key);
    NothingGives(ds, section, key);
  }

  lemma GivesOnlyListed(d: Directive, section: string, key: string)
    requires section == "play" || section == "publish" || section == "cluster"
    ensures Gives(d, section, key).Some? ==>
      || (section == "play" && PlayName(key)) || (section == "cluster" && ClusterName(key))
      || (section == "publish" && key in ["firstpkt_timeout", "normal_timeout", "mr", "mr_latency"])
  {
    if section == "publish" {
      PublishGives(d, key);
    } else if MoveOf(d).Some? {
      MovesOneSetting(d);
      ValueInOne(Setting(d.name, d.args), key);
    }
  }

  /** What stays where it is keeps its name, but for `http`; and is itself, but for two more. */
  lemma OnlyThreeAreRewritten(d: Directive)
    ensures InPlace(d).name == if d.name == "http" then "http_static" else d.name
    ensures InPlace(d) != d ==>
      || d.name == "http"
      || (d.name == "http_remux" && exists c | c in d.children :: c.name == "hstrs")
      || (d.name == "forward" && d.children == [] && d.args != [])
    ensures d.name == "http" ==> InPlace(d).args == d.args && InPlace(d).children == d.children
  {
    if d.name == "http_remux" {
      RemovedLength(d.children, "hstrs");
    }
  }

  /** On the top level only the name of http_stream and the insides of a vhost change. */
  lemma TopLevel(root: seq<Directive>, k: nat)
    requires k < |root|
    ensures var d, e := root[k], Transform(root)[k];
      && e.line == d.line && e.args == d.args
      && e.name == (if d.name == "http_stream" then "http_server" else d.name)
      && (d.name != "vhost" ==> e.children == d.children)
      && (d.name == "vhost" ==> e.children == Migrate(d.children, 0))
  {
    hide Migrate;
  }
}
