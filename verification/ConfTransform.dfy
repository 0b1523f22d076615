/** The migration of SRS1/2 configurations to the SRS3 layout, and what it keeps. */
module ConfTransform {
  import opened Messages
  import opened ConfDirectives

  // ----- editing a list of directives -----

  function GetOrCreate(ds: seq<Directive>, name: string): (r: seq<Directive>)
    ensures Find(r, name) < |r|
    ensures Find(r, name) == Find(ds, name)
  {
    if Find(ds, name) < |ds| then ds else (FindAppend(ds, New(name)); ds + [New(name)])
  }

  lemma {:induction false} FindAppend(ds: seq<Directive>, d: Directive)
    requires Find(ds, d.name) == |ds|
    ensures Find(ds + [d], d.name) == |ds|
  {
    if ds != [] {
      assert (ds + [d])[1..] == ds[1..] + [d];
      FindAppend(ds[1..], d);
    }
  }

  function GetOrCreate2(ds: seq<Directive>, name: string, arg0: string): seq<Directive> {
    if Find2(ds, name, arg0) < |ds| then ds else ds + [SetArg0(New(name), arg0)]
  }

  /** Sets the arguments of the first child of this name, which is created when there is none. */
  function SetArgs(ds: seq<Directive>, name: string, args: seq<string>): seq<Directive> {
    var ds1 := GetOrCreate(ds, name);
    var i := Find(ds1, name);
    ds1[i := ds1[i].(args := args)]
  }

  function ChildrenOf(ds: seq<Directive>, section: string): seq<Directive> {
    var i := Find(ds, section);
    if i < |ds| then ds[i].children else []
  }

  function WithChildren(ds: seq<Directive>, section: string, children: seq<Directive>): seq<Directive> {
    var ds1 := GetOrCreate(ds, section);
    var i := Find(ds1, section);
    ds1[i := ds1[i].(children := children)]
  }

  /** The list without the directive at this position; the list itself behind its end. */
  function Cut(ds: seq<Directive>, i: nat): seq<Directive> {
    if i < |ds| then ds[..i] + ds[i + 1..] else ds
  }

  /** Removes the first child of this name, if there is one. */
  function RemoveFirst(ds: seq<Directive>, name: string): seq<Directive> {
    Cut(ds, Find(ds, name))
  }

  // ----- what moves where -----

  datatype Setting = Setting(key: string, args: seq<string>)

  /** A legacy directive moves into a section; the refer section is also switched on. */
  datatype Move = Move(section: string, enable: bool, settings: seq<Setting>)

  predicate PlayName(n: string) {
    n == "time_jitter" || n == "mix_correct" || n == "atc" || n == "atc_auto" || n == "mw_latency"
    || n == "gop_cache" || n == "queue_length" || n == "send_min_interval" || n == "reduce_sequence_header"
  }

  predicate ClusterName(n: string) {
    n == "mode" || n == "origin" || n == "token_traverse" || n == "vhost" || n == "debug_srs_upnode"
  }

  function FromChild(d: Directive, child: string, key: string): seq<Setting> {
    match Get(d.children, child)
    case None => []
    case Some(c) => [Setting(key, c.args)]
  }

  function MoveOf(d: Directive): Option<Move> {
    if d.name == "refer" && d.children == [] then Some(Move("refer", true, [Setting("all", d.args)]))
    else if d.name == "refer_play" then Some(Move("refer", true, [Setting("play", d.args)]))
    else if d.name == "refer_publish" then Some(Move("refer", true, [Setting("publish", d.args)]))
    else if d.name == "mr" then
      Some(Move("publish", false, FromChild(d, "enabled", "mr") + FromChild(d, "latency", "mr_latency")))
    else if d.name == "publish_1stpkt_timeout" then
      Some(Move("publish", false, [Setting("firstpkt_timeout", d.args)]))
    else if d.name == "publish_normal_timeout" then
      Some(Move("publish", false, [Setting("normal_timeout", d.args)]))
    else if PlayName(d.name) then Some(Move("play", false, [Setting(d.name, d.args)]))
    else if ClusterName(d.name) then Some(Move("cluster", false, [Setting(d.name, d.args)]))
    else None
  }

  predicate IsOldForward(d: Directive) {
    d.name == "forward" && d.children == [] && d.args != []
  }

  /** What the migration makes of a directive that stays where it is. */
  function InPlace(d: Directive): Directive {
    if d.name == "http" then d.(name := "http_static")
    else if d.name == "http_remux" then d.(children := RemoveFirst(d.children, "hstrs"))
    else if IsOldForward(d) then
      d.(args := [], children := [SetArg0(New("enabled"), "on"), New("destination").(args := d.args)])
    else d
  }

  function SetAll(cs: seq<Directive>, ss: seq<Setting>): seq<Directive>
    decreases ss
  {
    if ss == [] then cs else SetAll(SetArgs(cs, ss[0].key, ss[0].args), ss[1..])
  }

  function Moved(ds: seq<Directive>, m: Move): seq<Directive> {
    var cs := ChildrenOf(ds, m.section);
    WithChildren(ds, m.section, SetAll(if m.enable then GetOrCreate2(cs, "enabled", "on") else cs, m.settings))
  }

  predicate IsSection(n: string) {
    n == "play" || n == "publish" || n == "cluster" || n == "refer"
  }

  // ----- termination -----

  function LegacyCount(ds: seq<Directive>): nat {
    if ds == [] then 0 else (if MoveOf(ds[0]).Some? then 1 else 0) + LegacyCount(ds[1..])
  }

  lemma {:induction false} LegacyCountConcat(a: seq<Directive>, b: seq<Directive>)
    ensures LegacyCount(a + b) == LegacyCount(a) + LegacyCount(b)
  {
    hide MoveOf;
    if a == [] {
      assert a + b == b;
    } else {
      assert (a + b)[1..] == a[1..] + b;
      LegacyCountConcat(a[1..], b);
    }
  }

  lemma LegacyCountSplit(ds: seq<Directive>, i: nat)
    requires i < |ds|
    ensures LegacyCount(ds) == LegacyCount(ds[..i]) + (if MoveOf(ds[i]).Some? then 1 else 0) + LegacyCount(ds[i + 1..])
  {
    hide MoveOf;
    assert ds == ds[..i] + ([ds[i]] + ds[i + 1..]);
    LegacyCountConcat(ds[..i], [ds[i]] + ds[i + 1..]);
    assert ([ds[i]] + ds[i + 1..])[1..] == ds[i + 1..];
  }

  lemma LegacyCountUpdate(ds: seq<Directive>, i: nat, d: Directive)
    requires i < |ds|
    ensures LegacyCount(ds[i := d]) ==
      LegacyCount(ds) - (if MoveOf(ds[i]).Some? then 1 else 0) + (if MoveOf(d).Some? then 1 else 0)
  {
    hide MoveOf;
    LegacyCountSplit(ds, i);
    LegacyCountSplit(ds[i := d], i);
    assert ds[i := d][..i] == ds[..i] && ds[i := d][i + 1..] == ds[i + 1..];
  }

  lemma SetAllNonEmpty(cs: seq<Directive>, ss: seq<Setting>)
    requires cs != []
    ensures SetAll(cs, ss) != []
    decreases ss
  {
    if ss != [] {
      SetAllNonEmpty(SetArgs(cs, ss[0].key, ss[0].args), ss[1..]);
    }
  }

  /** A section that has been opened or edited is no legacy directive. */
  lemma SectionIsNoLegacy(d: Directive)
    requires IsSection(d.name) && (d.name == "refer" ==> d.children != [])
    ensures MoveOf(d).None?
  {
  }

  lemma MoveFacts(d: Directive)
    requires MoveOf(d).Some?
    ensures IsSection(MoveOf(d).value.section)
    ensures MoveOf(d).value.section == "refer" <==> MoveOf(d).value.enable
  {
  }

  lemma MoveNames(d: Directive)
    ensures d.name == "play" || d.name == "publish" || d.name == "cluster" ==> MoveOf(d).None?
    ensures d.name == "refer" ==>
      MoveOf(d) == if d.children == [] then Some(Move("refer", true, [Setting("all", d.args)])) else None
  {
  }

  /** Moving settings into a section never adds a legacy directive. */
  lemma MovedCount(ds: seq<Directive>, m: Move)
    requires IsSection(m.section) && (m.section == "refer" ==> m.enable)
    ensures LegacyCount(Moved(ds, m)) <= LegacyCount(ds)
  {
    hide MoveOf, SetAll;
    var cs := ChildrenOf(ds, m.section);
    var cs1 := if m.enable then GetOrCreate2(cs, "enabled", "on") else cs;
    var ds1 := GetOrCreate(ds, m.section);
    var i := Find(ds1, m.section);
    if m.enable {
      SetAllNonEmpty(cs1, m.settings);
    }
    SectionIsNoLegacy(ds1[i].(children := SetAll(cs1, m.settings)));
    LegacyCountUpdate(ds1, i, ds1[i].(children := SetAll(cs1, m.settings)));
    if ds1 != ds {
      LegacyCountSplit(ds1, |ds|);
      assert ds1[..|ds|] == ds && ds1[|ds| + 1..] == [];
    }
  }

  lemma EraseCount(ds: seq<Directive>, i: nat)
    requires i < |ds| && MoveOf(ds[i]).Some?
    ensures LegacyCount(Moved(ds[..i] + ds[i + 1..], MoveOf(ds[i]).value)) < LegacyCount(ds)
  {
    hide MoveOf, Moved;
    LegacyCountSplit(ds, i);
    LegacyCountConcat(ds[..i], ds[i + 1..]);
    MoveFacts(ds[i]);
    MovedCount(ds[..i] + ds[i + 1..], MoveOf(ds[i]).value);
  }

  lemma InPlaceCount(ds: seq<Directive>, i: nat)
    requires i < |ds| && MoveOf(ds[i]).None?
    ensures LegacyCount(ds[i := InPlace(ds[i])]) == LegacyCount(ds)
  {
    InPlaceNoLegacy(ds[i]);
    hide MoveOf, InPlace;
    LegacyCountUpdate(ds, i, InPlace(ds[i]));
  }

  lemma InPlaceNoLegacy(d: Directive)
    requires MoveOf(d).None?
    ensures MoveOf(InPlace(d)).None?
  {
  }

  /**
   The migration of one vhost's children from position `i` on. A legacy directive is erased, and the
   position stays; anything else is rewritten in place, and the position moves on.
   */
  function Migrate(ds: seq<Directive>, i: nat): seq<Directive>
    requires i <= |ds|
    decreases LegacyCount(ds), |ds| - i
  {
    if i == |ds| then ds
    else
      var m := MoveOf(ds[i]);
      if m.Some? then
        EraseCount(ds, i);
        MovedLength(ds[..i] + ds[i + 1..], m.value);
        Migrate(Moved(ds[..i] + ds[i + 1..], m.value), i)
      else
        InPlaceCount(ds, i);
        Migrate(ds[i := InPlace(ds[i])], i + 1)
  }

  lemma MovedLength(ds: seq<Directive>, m: Move)
    ensures |Moved(ds, m)| >= |ds|
  {
  }

  // ----- looking up settings -----

  /** The arguments of the first child of this name. */
  function Nested(cs: seq<Directive>, key: string): Option<seq<string>> {
    match Get(cs, key)
    case None => None
    case Some(c) => Some(c.args)
  }

  function OrElse<T>(a: Option<T>, b: Option<T>): Option<T> {
    if a.Some? then a else b
  }

  /** What a list of settings leaves behind for a key: the last one wins. */
  function ValueIn(ss: seq<Setting>, key: string): Option<seq<string>> {
    if ss == [] then None
    else OrElse(ValueIn(ss[1..], key), if ss[0].key == key then Some(ss[0].args) else None)
  }

  /** What a legacy directive says about a setting of a section. */
  function Gives(d: Directive, section: string, key: string): Option<seq<string>> {
    if MoveOf(d).Some? && MoveOf(d).value.section == section then ValueIn(MoveOf(d).value.settings, key) else None
  }

  /** What the last legacy directive about the setting says. */
  function LastGiven(ds: seq<Directive>, section: string, key: string): Option<seq<string>> {
    if ds == [] then None else OrElse(LastGiven(ds[1..], section, key), Gives(ds[0], section, key))
  }

  /** The SRS3 lookup of a setting: the first child of that name of the first section of that name. */
  function Lookup(ds: seq<Directive>, section: string, key: string): Option<seq<string>> {
    Nested(ChildrenOf(ds, section), key)
  }

  /**
   What a vhost says about a setting, in whatever style it is written: the last legacy directive
   about it, or else what is nested already.
   */
  function Meaning(ds: seq<Directive>, section: string, key: string): Option<seq<string>> {
    OrElse(LastGiven(ds, section, key), Lookup(ds, section, key))
  }

  lemma {:induction false} FindConcat(a: seq<Directive>, b: seq<Directive>, name: string)
    ensures Find(a + b, name) == if Find(a, name) < |a| then Find(a, name) else |a| + Find(b, name)
  {
    if a == [] {
      assert a + b == b;
    } else if a[0].name != name {
      assert (a + b)[1..] == a[1..] + b;
      FindConcat(a[1..], b, name);
    }
  }

  lemma {:induction false} FindUpdate(ds: seq<Directive>, i: nat, d: Directive, name: string)
    requires i < |ds| && (d.name == ds[i].name || (d.name != name && ds[i].name != name))
    ensures Find(ds[i := d], name) == Find(ds, name)
  {
    if ds[0].name == name && i > 0 {
    } else if i > 0 {
      assert ds[i := d][1..] == ds[1..][i - 1 := d];
      FindUpdate(ds[1..], i - 1, d, name);
    } else {
      assert ds[i := d][1..] == ds[1..];
    }
  }

  /** Setting one key changes that key and no other. */
  lemma SetArgsNested(cs: seq<Directive>, k: string, args: seq<string>, key: string)
    ensures Nested(SetArgs(cs, k, args), key) == if key == k then Some(args) else Nested(cs, key)
  {
    var cs1 := GetOrCreate(cs, k);
    var i := Find(cs1, k);
    FindUpdate(cs1, i, cs1[i].(args := args), key);
    if cs1 != cs {
      FindConcat(cs, [New(k)], key);
    }
  }

  lemma {:induction false} SetAllNested(cs: seq<Directive>, ss: seq<Setting>, key: string)
    ensures Nested(SetAll(cs, ss), key) == OrElse(ValueIn(ss, key), Nested(cs, key))
    decreases ss
  {
    if ss != [] {
      SetArgsNested(cs, ss[0].key, ss[0].args, key);
      SetAllNested(SetArgs(cs, ss[0].key, ss[0].args), ss[1..], key);
    }
  }

  /** Switching a section on leaves every other setting, and a switch that is there, as it was. */
  lemma EnableNested(cs: seq<Directive>, key: string)
    ensures Nested(GetOrCreate2(cs, "enabled", "on"), key) ==
      OrElse(Nested(cs, key), if key == "enabled" then Some(["on"]) else None)
  {
    var on := SetArg0(New("enabled"), "on");
    FindConcat(cs, [on], key);
    assert on.args == ["on"];
    var i := Find2(cs, "enabled", "on");
    if i < |cs| && key == "enabled" {
      assert cs[i].name == key;
    }
  }

  /** What a move switches on. */
  function SwitchedOn(m: Move, key: string): Option<seq<string>> {
    if m.enable && key == "enabled" then Some(["on"]) else None
  }

  /** What moving does to every lookup. */
  lemma MovedLookup(ds: seq<Directive>, m: Move, section: string, key: string)
    ensures Lookup(Moved(ds, m), section, key) ==
      if section == m.section then
        OrElse(ValueIn(m.settings, key), OrElse(Lookup(ds, section, key), SwitchedOn(m, key)))
      else Lookup(ds, section, key)
  {
    hide Nested, SetAll, GetOrCreate2;
    var cs := ChildrenOf(ds, m.section);
    var cs1 := if m.enable then GetOrCreate2(cs, "enabled", "on") else cs;
    var ds1 := GetOrCreate(ds, m.section);
    var i := Find(ds1, m.section);
    FindUpdate(ds1, i, ds1[i].(children := SetAll(cs1, m.settings)), section);
    if ds1 != ds {
      FindConcat(ds, [New(m.section)], section);
    }
    if section == m.section {
      SetAllNested(cs1, m.settings, key);
      if m.enable {
        EnableNested(cs, key);
      }
    } else {
      NestedNothing(key);
    }
  }

  lemma NestedNothing(key: string)
    ensures Nested([], key) == None
  {
  }

  lemma LookupConcat(a: seq<Directive>, c: seq<Directive>, section: string, key: string)
    ensures Lookup(a + c, section, key) ==
      if Find(a, section) < |a| then Lookup(a, section, key) else Lookup(c, section, key)
  {
    hide Nested;
    FindConcat(a, c, section);
  }

  lemma EraseLookup(a: seq<Directive>, x: Directive, b: seq<Directive>, section: string, key: string)
    requires x.name != section
    ensures Lookup(a + [x] + b, section, key) == Lookup(a + b, section, key)
  {
    hide Lookup;
    assert a + [x] + b == a + ([x] + b);
    LookupConcat(a, [x] + b, section, key);
    LookupConcat([x], b, section, key);
    LookupConcat(a, b, section, key);
  }

  // ----- the last legacy directive -----

  lemma {:induction false} LastConcat(a: seq<Directive>, b: seq<Directive>, section: string, key: string)
    ensures LastGiven(a + b, section, key) == OrElse(LastGiven(b, section, key), LastGiven(a, section, key))
  {
    hide Gives;
    if a == [] {
      assert a + b == b;
    } else {
      assert (a + b)[1..] == a[1..] + b;
      LastConcat(a[1..], b, section, key);
    }
  }

  predicate LegacyFree(ds: seq<Directive>) {
    forall d | d in ds :: MoveOf(d).None?
  }

  lemma {:induction false} LegacyFreeGivesNothing(ds: seq<Directive>, section: string, key: string)
    requires LegacyFree(ds)
    ensures LastGiven(ds, section, key) == None
  {
    if ds != [] {
      assert ds[0] in ds && forall d | d in ds[1..] :: d in ds;
      LegacyFreeGivesNothing(ds[1..], section, key);
    }
  }

  lemma {:induction false} LastUpdate(ds: seq<Directive>, i: nat, d: Directive, section: string, key: string)
    requires i < |ds| && Gives(d, section, key) == Gives(ds[i], section, key)
    ensures LastGiven(ds[i := d], section, key) == LastGiven(ds, section, key)
  {
    hide Gives;
    if i > 0 {
      assert ds[i := d][1..] == ds[1..][i - 1 := d];
      LastUpdate(ds[1..], i - 1, d, section, key);
    } else {
      assert ds[i := d][1..] == ds[1..];
    }
  }

  lemma SectionGivesNothing(d: Directive, section: string, key: string)
    requires IsSection(d.name) && section != "refer"
    ensures Gives(d, section, key) == None
  {
    hide MoveOf;
    MoveNames(d);
  }

  /** Moving settings adds no legacy directive about another section than refer. */
  lemma MovedLast(ds: seq<Directive>, m: Move, section: string, key: string)
    requires IsSection(m.section) && section != "refer"
    ensures LastGiven(Moved(ds, m), section, key) == LastGiven(ds, section, key)
  {
    hide Gives, SetAll, GetOrCreate2, ChildrenOf;
    var cs := ChildrenOf(ds, m.section);
    var cs1 := if m.enable then GetOrCreate2(cs, "enabled", "on") else cs;
    var ds1 := GetOrCreate(ds, m.section);
    var i := Find(ds1, m.section);
    var d := ds1[i].(children := SetAll(cs1, m.settings));
    SectionGivesNothing(ds1[i], section, key);
    SectionGivesNothing(d, section, key);
    LastUpdate(ds1, i, d, section, key);
    if ds1 != ds {
      LastConcat(ds, [New(m.section)], section, key);
      assert [New(m.section)][1..] == [];
    }
  }

  lemma GivesOf(d: Directive, section: string, key: string)
    requires MoveOf(d).Some?
    ensures Gives(d, section, key) ==
      if MoveOf(d).value.section == section then ValueIn(MoveOf(d).value.settings, key) else None
  {
    hide MoveOf;
  }

  /** Erasing a legacy directive and moving what it says keeps the meaning of every setting. */
  lemma MoveKeepsMeaning(a: seq<Directive>, x: Directive, b: seq<Directive>, section: string, key: string)
    requires section == "play" || section == "publish" || section == "cluster"
    requires LegacyFree(a) && MoveOf(x).Some?
    ensures Meaning(Moved(a + b, MoveOf(x).value), section, key) == Meaning(a + [x] + b, section, key)
  {
    hide Moved, LastGiven, Lookup, LegacyFree, Gives, ValueIn;
    hide MoveOf;
    var m := MoveOf(x).value;
    MoveFacts(x);
    MoveNames(x);
    MovedLookup(a + b, m, section, key);
    MovedLast(a + b, m, section, key);
    EraseLookup(a, x, b, section, key);
    LastConcat(a, b, section, key);
    LastConcat(a + [x], b, section, key);
    LastConcat(a, [x], section, key);
    LegacyFreeGivesNothing(a, section, key);
    LastOfOne(x, section, key);
    GivesOf(x, section, key);
  }

  lemma LastOfOne(x: Directive, section: string, key: string)
    ensures LastGiven([x], section, key) == Gives(x, section, key)
  {
    hide Gives;
    assert [x][1..] == [];
  }

  lemma InPlaceFacts(d: Directive)
    ensures IsSection(d.name) ==> InPlace(d) == d
    ensures IsSection(InPlace(d).name) ==> IsSection(d.name)
  {
  }

  /** Rewriting in place keeps the meaning of every setting. */
  lemma InPlaceKeepsMeaning(ds: seq<Directive>, i: nat, section: string, key: string)
    requires IsSection(section) && i < |ds| && MoveOf(ds[i]).None?
    ensures Meaning(ds[i := InPlace(ds[i])], section, key) == Meaning(ds, section, key)
  {
    InPlaceNoLegacy(ds[i]);
    InPlaceFacts(ds[i]);
    hide MoveOf, InPlace;
    LastUpdate(ds, i, InPlace(ds[i]), section, key);
    if ds[i].name == section {
      assert ds[i := InPlace(ds[i])] == ds;
    } else {
      FindUpdate(ds, i, InPlace(ds[i]), section);
    }
  }
}
