/** What a whole run of the migration leaves behind. */
module ConfMigrations {
  import opened Messages
  import opened ConfDirectives
  import opened ConfTransform

  // ----- no legacy form is left -----

  /** In SRS3 form: the migration would neither move nor rename it. */
  predicate InNewForm(d: Directive) {
    MoveOf(d).None? && d.name != "http" && !IsOldForward(d)
  }

  predicate Settled(ds: seq<Directive>) {
    forall d | d in ds :: InNewForm(d)
  }

  lemma SettledIsLegacyFree(ds: seq<Directive>)
    requires Settled(ds)
    ensures LegacyFree(ds)
  {
  }

  lemma InPlaceIsNew(d: Directive)
    requires MoveOf(d).None?
    ensures InNewForm(InPlace(d))
  {
  }

  /** Moving settings edits the first section of that name, or appends one; nothing else changes. */
  lemma MovedShape(ds: seq<Directive>, m: Move) returns (k: nat, d: Directive)
    requires IsSection(m.section) && (m.section == "refer" ==> m.enable)
    ensures k == Find(ds, m.section) && d.name == m.section && InNewForm(d)
    ensures d.name == "refer" ==> d.children != []
    ensures Moved(ds, m) == if k < |ds| then ds[k := d] else ds + [d]
  {
    hide SetAll;
    var cs := ChildrenOf(ds, m.section);
    var cs1 := if m.enable then GetOrCreate2(cs, "enabled", "on") else cs;
    var ds1 := GetOrCreate(ds, m.section);
    k := Find(ds1, m.section);
    d := ds1[k].(children := SetAll(cs1, m.settings));
    if m.enable {
      SetAllNonEmpty(cs1, m.settings);
    }
    SectionIsNoLegacy(d);
  }

  /** One move, seen from the position the migration has reached. */
  lemma MovedAround(a: seq<Directive>, b: seq<Directive>, m: Move) returns (a1: seq<Directive>, b1: seq<Directive>)
    requires IsSection(m.section) && (m.section == "refer" ==> m.enable)
    ensures Moved(a + b, m) == a1 + b1 && |a1| == |a|
    ensures Settled(a) ==> Settled(a1)
    ensures Others(a1) == Others(a) && Others(b1) == Others(b)
  {
    hide Moved, InNewForm, Others, IsSection, Find;
    var k, d := MovedShape(a + b, m);
    FindConcat(a, b, m.section);
    if k < |a| {
      a1, b1 := a[k := d], b;
      OthersUpdate(a, k, d);
    } else if k < |a + b| {
      a1, b1 := a, b[k - |a| := d];
      OthersUpdate(b, k - |a|, d);
    } else {
      a1, b1 := a, b + [d];
      OthersConcat(b, [d]);
      SectionIsNoOther(d);
    }
    assert Moved(a + b, m) == a1 + b1;
  }

  lemma SectionIsNoOther(d: Directive)
    requires IsSection(d.name)
    ensures Others([d]) == []
  {
  }

  /** After the migration every directive of the vhost is in SRS3 form. */
  lemma {:induction false} MigrateSettles(ds: seq<Directive>, i: nat)
    requires i <= |ds| && Settled(ds[..i])
    ensures Settled(Migrate(ds, i))
    decreases LegacyCount(ds), |ds| - i
  {
    hide MoveOf, InPlace, Moved, InNewForm;
    if i == |ds| {
      assert ds[..i] == ds;
    } else if MoveOf(ds[i]).Some? {
      EraseCount(ds, i);
      MoveFacts(ds[i]);
      MovedLength(ds[..i] + ds[i + 1..], MoveOf(ds[i]).value);
      var a1, b1 := MovedAround(ds[..i], ds[i + 1..], MoveOf(ds[i]).value);
      assert (a1 + b1)[..i] == a1;
      MigrateSettles(Moved(ds[..i] + ds[i + 1..], MoveOf(ds[i]).value), i);
    } else {
      InPlaceCount(ds, i);
      InPlaceIsNew(ds[i]);
      var ds1 := ds[i := InPlace(ds[i])];
      assert ds1[..i + 1] == ds[..i] + [InPlace(ds[i])];
      MigrateSettles(ds1, i + 1);
    }
  }

  // ----- everything else stays, in order -----

  /** The directives that are neither legacy nor a section that settings move into. */
  function Others(ds: seq<Directive>): seq<Directive> {
    if ds == [] then [] else (if IsOther(ds[0]) then [ds[0]] else []) + Others(ds[1..])
  }

  predicate IsOther(d: Directive) {
    !IsSection(d.name) && MoveOf(d).None?
  }

  function Rewritten(ds: seq<Directive>): (r: seq<Directive>)
    ensures |r| == |ds|
    ensures forall k | 0 <= k < |ds| :: r[k] == InPlace(ds[k])
  {
    if ds == [] then [] else [InPlace(ds[0])] + Rewritten(ds[1..])
  }

  lemma OthersFirst(d: Directive, ds: seq<Directive>)
    ensures Others([d] + ds) == (if IsOther(d) then [d] else []) + Others(ds)
  {
    hide IsOther;
    assert ([d] + ds)[1..] == ds;
  }

  lemma {:induction false} OthersConcat(a: seq<Directive>, b: seq<Directive>)
    ensures Others(a + b) == Others(a) + Others(b)
  {
    hide IsOther, Others;
    if a == [] {
      NoOthers();
      assert a + b == b;
    } else {
      var first := if IsOther(a[0]) then [a[0]] else [];
      OthersFirst(a[0], a[1..]);
      OthersFirst(a[0], a[1..] + b);
      OthersConcat(a[1..], b);
      assert [a[0]] + a[1..] == a && [a[0]] + (a[1..] + b) == a + b;
      assert first + (Others(a[1..]) + Others(b)) == (first + Others(a[1..])) + Others(b);
    }
  }

  lemma OthersUpdate(ds: seq<Directive>, k: nat, d: Directive)
    requires k < |ds| && IsSection(ds[k].name) && IsSection(d.name)
    ensures Others(ds[k := d]) == Others(ds)
  {
    hide MoveOf, IsSection;
    assert ds == ds[..k] + [ds[k]] + ds[k + 1..];
    assert ds[k := d] == ds[..k] + [d] + ds[k + 1..];
    OthersConcat(ds[..k] + [ds[k]], ds[k + 1..]);
    OthersConcat(ds[..k] + [d], ds[k + 1..]);
    OthersConcat(ds[..k], [ds[k]]);
    OthersConcat(ds[..k], [d]);
  }

  lemma InPlaceOther(d: Directive)
    requires MoveOf(d).None?
    ensures IsOther(InPlace(d)) <==> IsOther(d)
  {
  }

  lemma OthersInPlace(d: Directive, ds: seq<Directive>)
    requires MoveOf(d).None?
    ensures Others([InPlace(d)]) + Rewritten(Others(ds)) == Rewritten(Others([d] + ds))
  {
    InPlaceOther(d);
    hide MoveOf, InPlace, IsOther, Others, Rewritten;
    OthersFirst(InPlace(d), []);
    NoOthers();
    OthersFirst(d, ds);
    assert [InPlace(d)] + [] == [InPlace(d)];
    if IsOther(d) {
      RewrittenStep([d] + Others(ds));
      assert ([d] + Others(ds))[1..] == Others(ds);
    } else {
      assert [] + Others(ds) == Others(ds) && [] + Rewritten(Others(ds)) == Rewritten(Others(ds));
    }
  }

  /** Everything but the moved settings keeps its content, rewritten in place at most, and its order. */
  lemma {:induction false} MigrateKeepsOthers(ds: seq<Directive>, i: nat)
    requires i <= |ds|
    ensures Others(Migrate(ds, i)) == Others(ds[..i]) + Rewritten(Others(ds[i..]))
    decreases LegacyCount(ds), |ds| - i
  {
    hide MoveOf, InPlace, Moved, IsOther, Others, Rewritten;
    if i == |ds| {
      assert ds[..i] == ds;
      NoOthers();
      RewrittenStep([]);
    } else {
      assert ds[i..] == [ds[i]] + ds[i + 1..];
      OthersFirst(ds[i], ds[i + 1..]);
      if MoveOf(ds[i]).Some? {
        EraseCount(ds, i);
        MoveFacts(ds[i]);
        MovedLength(ds[..i] + ds[i + 1..], MoveOf(ds[i]).value);
        var a1, b1 := MovedAround(ds[..i], ds[i + 1..], MoveOf(ds[i]).value);
        assert (a1 + b1)[..i] == a1 && (a1 + b1)[i..] == b1;
        MigrateKeepsOthers(Moved(ds[..i] + ds[i + 1..], MoveOf(ds[i]).value), i);
        LegacyIsNotOther(ds[i]);
        assert [] + Others(ds[i + 1..]) == Others(ds[i + 1..]);
      } else {
        InPlaceCount(ds, i);
        var ds1 := ds[i := InPlace(ds[i])];
        MigrateKeepsOthers(ds1, i + 1);
        assert ds1[..i + 1] == ds[..i] + [InPlace(ds[i])] && ds1[i + 1..] == ds[i + 1..];
        OthersConcat(ds[..i], [InPlace(ds[i])]);
        OthersInPlace(ds[i], ds[i + 1..]);
        OthersFirst(ds[i], ds[i + 1..]);
      }
    }
  }

  lemma LegacyIsNotOther(d: Directive)
    requires MoveOf(d).Some?
    ensures !IsOther(d)
  {
  }

  lemma NestedFirst(d: Directive, ds: seq<Directive>, key: string)
    ensures Nested([d] + ds, key) == if d.name == key then Some(d.args) else Nested(ds, key)
  {
    assert ([d] + ds)[1..] == ds;
  }

  lemma {:induction false} RemoveKeepsLookup(ds: seq<Directive>, name: string, key: string)
    requires key != name
    ensures Nested(RemoveFirst(ds, name), key) == Nested(ds, key)
  {
    if ds != [] {
      RemoveStep(ds, name);
      hide Nested, RemoveFirst, Find;
      assert [ds[0]] + ds[1..] == ds;
      NestedFirst(ds[0], ds[1..], key);
      NestedFirst(ds[0], RemoveFirst(ds[1..], name), key);
      RemoveKeepsLookup(ds[1..], name, key);
    }
  }

  /**
   Rewriting in place keeps what a directive says: its line stays, its settings stay except `hstrs`,
   and the targets of an old-style forward become the destination of a forward that is on.
   */
  lemma InPlaceKeepsContent(d: Directive, key: string)
    ensures InPlace(d).line == d.line
    ensures !IsOldForward(d) ==> InPlace(d).args == d.args
    ensures !IsOldForward(d) && (d.name == "http_remux" ==> key != "hstrs") ==>
      Nested(InPlace(d).children, key) == Nested(d.children, key)
    ensures IsOldForward(d) ==>
      && Nested(InPlace(d).children, "destination") == Some(d.args)
      && Nested(InPlace(d).children, "enabled") == Some(["on"])
  {
    if d.name == "http_remux" {
      hide Nested, Find;
      if key != "hstrs" {
        RemoveKeepsLookup(d.children, "hstrs", key);
      }
    } else if IsOldForward(d) {
      var enabled := SetArg0(New("enabled"), "on");
      assert [enabled, New("destination").(args := d.args)] == [enabled] + [New("destination").(args := d.args)];
      FindConcat([enabled], [New("destination").(args := d.args)], "destination");
      assert enabled.args == ["on"];
    }
  }

  // ----- every setting keeps its meaning -----

  lemma {:induction false} MigrateMeaning(ds: seq<Directive>, i: nat, section: string, key: string)
    requires section == "play" || section == "publish" || section == "cluster"
    requires i <= |ds| && Settled(ds[..i])
    ensures Meaning(Migrate(ds, i), section, key) == Meaning(ds, section, key)
    decreases LegacyCount(ds), |ds| - i
  {
    hide MoveOf, InPlace, Moved, InNewForm, Meaning;
    if i < |ds| {
      if MoveOf(ds[i]).Some? {
        EraseCount(ds, i);
        MoveFacts(ds[i]);
        MovedLength(ds[..i] + ds[i + 1..], MoveOf(ds[i]).value);
        var a1, b1 := MovedAround(ds[..i], ds[i + 1..], MoveOf(ds[i]).value);
        assert (a1 + b1)[..i] == a1;
        SettledIsLegacyFree(ds[..i]);
        MoveKeepsMeaning(ds[..i], ds[i], ds[i + 1..], section, key);
        assert ds[..i] + [ds[i]] + ds[i + 1..] == ds;
        MigrateMeaning(Moved(ds[..i] + ds[i + 1..], MoveOf(ds[i]).value), i, section, key);
      } else {
        InPlaceCount(ds, i);
        InPlaceIsNew(ds[i]);
        InPlaceKeepsMeaning(ds, i, section, key);
        var ds1 := ds[i := InPlace(ds[i])];
        assert ds1[..i + 1] == ds[..i] + [InPlace(ds[i])];
        MigrateMeaning(ds1, i + 1, section, key);
      }
    }
  }

  /**
   The SRS3 lookup on the migrated vhost finds what the last legacy directive about the setting gave,
   or what was nested already when there was none.
   */
  lemma MigrateKeepsMeaning(ds: seq<Directive>, section: string, key: string)
    requires section == "play" || section == "publish" || section == "cluster"
    ensures Lookup(Migrate(ds, 0), section, key) == Meaning(ds, section, key)
  {
    hide MoveOf, Migrate, Settled, Lookup, LastGiven;
    NothingIsSettled();
    assert ds[..0] == [];
    MigrateSettles(ds, 0);
    MigrateMeaning(ds, 0, section, key);
    SettledIsLegacyFree(Migrate(ds, 0));
    LegacyFreeGivesNothing(Migrate(ds, 0), section, key);
  }

  lemma NothingIsSettled()
    ensures Settled([])
  {
  }

  // ----- doing it twice -----

  /** How many children have this name. */
  function CountName(ds: seq<Directive>, name: string): nat {
    if ds == [] then 0 else (if ds[0].name == name then 1 else 0) + CountName(ds[1..], name)
  }

  lemma FindStep(ds: seq<Directive>, name: string)
    requires ds != []
    ensures Find(ds, name) == if ds[0].name == name then 0 else 1 + Find(ds[1..], name)
  {
  }

  lemma CutFirst(ds: seq<Directive>)
    requires ds != []
    ensures Cut(ds, 0) == ds[1..]
  {
  }

  lemma CutBehindFirst(d: Directive, rest: seq<Directive>, i: nat)
    ensures Cut([d] + rest, i + 1) == [d] + Cut(rest, i)
  {
  }

  lemma RemoveStep(ds: seq<Directive>, name: string)
    requires ds != []
    ensures Find(ds, name) == if ds[0].name == name then 0 else 1 + Find(ds[1..], name)
    ensures RemoveFirst(ds, name) == if ds[0].name == name then ds[1..] else [ds[0]] + RemoveFirst(ds[1..], name)
  {
    hide Find, Cut;
    FindStep(ds, name);
    CutFirst(ds);
    assert [ds[0]] + ds[1..] == ds;
    CutBehindFirst(ds[0], ds[1..], Find(ds[1..], name));
  }

  lemma {:induction false} CountFind(ds: seq<Directive>, name: string)
    ensures CountName(ds, name) == 0 <==> Find(ds, name) == |ds|
    ensures CountName(RemoveFirst(ds, name), name) == if CountName(ds, name) == 0 then 0 else CountName(ds, name) - 1
  {
    if ds != [] {
      CountFind(ds[1..], name);
      RemoveStep(ds, name);
      hide RemoveFirst, Find;
      if ds[0].name != name {
        assert ([ds[0]] + RemoveFirst(ds[1..], name))[1..] == RemoveFirst(ds[1..], name);
      }
    }
  }

  predicate AtMostOneHstrs(d: Directive) {
    d.name == "http_remux" ==> CountName(d.children, "hstrs") <= 1
  }

  /** A directive that is rewritten once is rewritten no further exactly when it had one hstrs at most. */
  lemma InPlaceTwice(d: Directive)
    requires MoveOf(d).None?
    ensures InPlace(InPlace(d)) == InPlace(d) <==> AtMostOneHstrs(d)
  {
    hide MoveOf;
    if d.name == "http_remux" {
      CountFind(d.children, "hstrs");
      CountFind(RemoveFirst(d.children, "hstrs"), "hstrs");
      RemovedLength(RemoveFirst(d.children, "hstrs"), "hstrs");
    }
  }

  lemma RemovedLength(ds: seq<Directive>, name: string)
    ensures RemoveFirst(ds, name) == ds <==> Find(ds, name) == |ds|
  {
    if Find(ds, name) < |ds| {
      assert |RemoveFirst(ds, name)| == |ds| - 1;
    }
  }

  lemma LegacyFreeSplit(d: Directive, ds: seq<Directive>)
    requires LegacyFree([d] + ds)
    ensures MoveOf(d).None? && LegacyFree(ds)
  {
    assert d in [d] + ds && forall x | x in ds :: x in [d] + ds;
  }

  lemma MigrateEnd(ds: seq<Directive>)
    ensures Migrate(ds, |ds|) == ds
  {
  }

  lemma MigrateHere(ds: seq<Directive>, i: nat)
    requires i < |ds| && MoveOf(ds[i]).None?
    ensures Migrate(ds, i) == Migrate(ds[i := InPlace(ds[i])], i + 1)
  {
    hide MoveOf, InPlace;
    InPlaceCount(ds, i);
  }

  lemma RewrittenStep(ds: seq<Directive>)
    ensures Rewritten(ds) == if ds == [] then [] else [InPlace(ds[0])] + Rewritten(ds[1..])
  {
  }

  /** On a settled list the migration only rewrites in place. */
  lemma {:induction false} MigrateSettled(ds: seq<Directive>, i: nat)
    requires i <= |ds| && LegacyFree(ds[i..])
    ensures Migrate(ds, i) == ds[..i] + Rewritten(ds[i..])
    decreases |ds| - i
  {
    hide MoveOf, InPlace, Migrate, LegacyFree, Rewritten;
    if i == |ds| {
      MigrateEnd(ds);
      RewrittenStep(ds[i..]);
      assert ds[..i] == ds;
    } else {
      var ds1 := ds[i := InPlace(ds[i])];
      assert ds[i..] == [ds[i]] + ds[i + 1..];
      LegacyFreeSplit(ds[i], ds[i + 1..]);
      MigrateHere(ds, i);
      assert ds1[i + 1..] == ds[i + 1..];
      MigrateSettled(ds1, i + 1);
      RewrittenStep(ds[i..]);
      assert ds1[..i + 1] == ds[..i] + [InPlace(ds[i])];
    }
  }

  /** Sections are not rewritten, so a list is rewritten to itself exactly when its other members are. */
  lemma {:induction false} RewrittenOthers(ds: seq<Directive>)
    requires LegacyFree(ds)
    ensures Rewritten(ds) == ds <==> Rewritten(Others(ds)) == Others(ds)
  {
    hide MoveOf, InPlace;
    if ds != [] {
      assert ds[0] in ds && forall d | d in ds[1..] :: d in ds;
      RewrittenOthers(ds[1..]);
      InPlaceFacts(ds[0]);
      var o := Others(ds[1..]);
      assert Rewritten(ds)[0] == InPlace(ds[0]) && Rewritten(ds)[1..] == Rewritten(ds[1..]);
      assert ds == [ds[0]] + ds[1..];
      if IsOther(ds[0]) {
        assert ([ds[0]] + o)[1..] == o;
        assert Rewritten([ds[0]] + o) == [InPlace(ds[0])] + Rewritten(o);
      } else {
        assert Others(ds) == o;
      }
    }
  }

  lemma {:induction false} OthersSound(ds: seq<Directive>, d: Directive)
    ensures d in Others(ds) <==> d in ds && IsOther(d)
  {
    hide IsOther;
    if ds != [] {
      OthersSound(ds[1..], d);
      assert ds == [ds[0]] + ds[1..];
    }
  }

  lemma {:induction false} RewrittenTwice(ds: seq<Directive>)
    requires LegacyFree(ds)
    ensures Rewritten(Rewritten(ds)) == Rewritten(ds) <==> forall d | d in ds :: AtMostOneHstrs(d)
  {
    hide MoveOf, InPlace, AtMostOneHstrs;
    forall k | 0 <= k < |ds|
      ensures Rewritten(Rewritten(ds))[k] == Rewritten(ds)[k] <==> AtMostOneHstrs(ds[k])
    {
      assert ds[k] in ds;
      InPlaceTwice(ds[k]);
    }
  }

  /** Migrating twice is migrating once, exactly when no http_remux has a second hstrs. */
  lemma MigrateIdempotentIff(ds: seq<Directive>)
    ensures Migrate(Migrate(ds, 0), 0) == Migrate(ds, 0) <==> forall d | d in ds :: AtMostOneHstrs(d)
  {
    hide MoveOf, InPlace, Migrate, Settled, LegacyFree, Others, AtMostOneHstrs, IsOther;
    var once := Migrate(ds, 0);
    NothingIsSettled();
    assert ds[..0] == [] && ds[0..] == ds && once[..0] == [] && once[0..] == once;
    MigrateSettles(ds, 0);
    SettledIsLegacyFree(once);
    MigrateSettled(once, 0);
    RewrittenOthers(once);
    MigrateKeepsOthers(ds, 0);
    NoOthers();
    assert Others(once) == Rewritten(Others(ds));
    assert Migrate(once, 0) == Rewritten(once);
    OthersAreLegacyFree(ds);
    RewrittenTwice(Others(ds));
    forall d: Directive
      ensures d in Others(ds) <==> d in ds && IsOther(d)
      ensures d in ds && !IsOther(d) ==> AtMostOneHstrs(d)
    {
      OthersSound(ds, d);
      RemuxIsOther(d);
    }
  }

  lemma NoOthers()
    ensures Others([]) == []
  {
  }

  lemma RemuxIsOther(d: Directive)
    ensures AtMostOneHstrs(d) || IsOther(d)
  {
  }

  lemma OthersAreLegacyFree(ds: seq<Directive>)
    ensures LegacyFree(Others(ds))
  {
    hide MoveOf;
    forall d | d in Others(ds)
      ensures MoveOf(d).None?
    {
      OthersSound(ds, d);
    }
  }

  /** An http_remux with two hstrs: one goes with each pass. */
  lemma SecondPassChangesMore(h: Directive, args: seq<string>)
    requires h.name == "hstrs"
    ensures var remux := cs => Directive(1, "http_remux", args, cs);
      && Migrate([remux([h, h])], 0) == [remux([h])]
      && Migrate([remux([h])], 0) == [remux([])]
  {
    RemuxPass(args, h, [h]);
    RemuxPass(args, h, []);
    assert [h] + [h] == [h, h] && [h] + [] == [h];
  }

  lemma RemuxPass(args: seq<string>, h: Directive, rest: seq<Directive>)
    requires h.name == "hstrs"
    ensures Migrate([Directive(1, "http_remux", args, [h] + rest)], 0) == [Directive(1, "http_remux", args, rest)]
  {
    var d, e := Directive(1, "http_remux", args, [h] + rest), Directive(1, "http_remux", args, rest);
    RemoveStep([h] + rest, "hstrs");
    assert ([h] + rest)[1..] == rest;
    assert MoveOf(d).None? && InPlace(d) == e;
    hide MoveOf, InPlace, Migrate;
    MigrateHere([d], 0);
    assert [d][0 := e] == [e];
    MigrateEnd([e]);
  }
}
