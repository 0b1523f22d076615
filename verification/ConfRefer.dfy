/**
 The refer settings. Old-style `refer` has the name of the section it moves into, so a move can run
 into an old-style directive that it takes for the section.
 */
module ConfRefers {
  import opened Messages
  import opened ConfDirectives
  import opened ConfTransform
  import opened ConfMigrations

  predicate IsOldRefer(d: Directive) {
    d.name == "refer" && d.children == []
  }

  predicate IsNewRefer(d: Directive) {
    d.name == "refer" && d.children != []
  }

  /** A legacy directive about refer. */
  predicate IsReferMove(d: Directive) {
    IsOldRefer(d) || d.name == "refer_play" || d.name == "refer_publish"
  }

  /** What the last legacy directive says, leaving out the first directive named refer. */
  function LastOther(ds: seq<Directive>, key: string): Option<seq<string>> {
    if ds == [] then None
    else if ds[0].name == "refer" then LastGiven(ds[1..], "refer", key)
    else OrElse(LastOther(ds[1..], key), Gives(ds[0], "refer", key))
  }

  /**
   What the SRS3 lookup of a refer setting finds after the migration. A section that comes before
   every legacy directive takes all of them. Otherwise the first legacy directive opens the section:
   the next directive named refer becomes it, and if that one is old-style, its arguments are lost.
   */
  function ReferMeaning(ds: seq<Directive>, key: string): Option<seq<string>> {
    if ds == [] then None
    else if IsNewRefer(ds[0]) then OrElse(LastGiven(ds[1..], "refer", key), Nested(ds[0].children, key))
    else if IsReferMove(ds[0]) then
      OrElse(LastOther(ds[1..], key), OrElse(Gives(ds[0], "refer", key), Lookup(ds[1..], "refer", key)))
    else ReferMeaning(ds[1..], key)
  }

  lemma ReferMoves(d: Directive)
    ensures IsReferMove(d) <==> MoveOf(d).Some? && MoveOf(d).value.section == "refer"
    ensures d.name == "refer" ==> (MoveOf(d).Some? <==> IsOldRefer(d))
  {
  }

  predicate Unrelated(d: Directive) {
    d.name != "refer" && !IsReferMove(d)
  }

  lemma UnrelatedGives(d: Directive, key: string)
    requires Unrelated(d)
    ensures Gives(d, "refer", key) == None
  {
    ReferMoves(d);
    hide MoveOf;
  }

  lemma NewReferGives(d: Directive, key: string)
    requires IsNewRefer(d)
    ensures Gives(d, "refer", key) == None
  {
    ReferMoves(d);
    hide MoveOf;
  }

  // ----- directives that have nothing to do with refer -----

  lemma LastSkips(p: seq<Directive>, x: Directive, q: seq<Directive>, key: string)
    requires Unrelated(x)
    ensures LastGiven(p + [x] + q, "refer", key) == LastGiven(p + q, "refer", key)
  {
    hide LastGiven;
    UnrelatedGives(x, key);
    LastConcat(p, q, "refer", key);
    LastConcat(p + [x], q, "refer", key);
    LastConcat(p, [x], "refer", key);
    LastOfOne(x, "refer", key);
  }

  lemma {:induction false} OtherSkips(p: seq<Directive>, x: Directive, q: seq<Directive>, key: string)
    requires Unrelated(x)
    ensures LastOther(p + [x] + q, key) == LastOther(p + q, key)
  {
    hide Gives, LastGiven;
    if p == [] {
      UnrelatedGives(x, key);
      assert p + [x] + q == [x] + q && p + q == q && ([x] + q)[1..] == q;
    } else {
      assert (p + [x] + q)[1..] == p[1..] + [x] + q && (p + q)[1..] == p[1..] + q;
      OtherSkips(p[1..], x, q, key);
      LastSkips(p[1..], x, q, key);
    }
  }

  lemma {:induction false} ReferSkips(p: seq<Directive>, x: Directive, q: seq<Directive>, key: string)
    requires Unrelated(x)
    ensures ReferMeaning(p + [x] + q, key) == ReferMeaning(p + q, key)
  {
    hide Gives, LastGiven, LastOther, Lookup, Nested;
    if p == [] {
      assert p + [x] + q == [x] + q && p + q == q && ([x] + q)[1..] == q;
    } else {
      assert (p + [x] + q)[1..] == p[1..] + [x] + q && (p + q)[1..] == p[1..] + q;
      ReferSkips(p[1..], x, q, key);
      LastSkips(p[1..], x, q, key);
      OtherSkips(p[1..], x, q, key);
      EraseLookup(p[1..], x, q, "refer", key);
    }
  }

  /** An unrelated directive may be replaced by another one. */
  lemma ReferUpdate(ds: seq<Directive>, k: nat, d: Directive, key: string)
    requires k < |ds| && Unrelated(ds[k]) && Unrelated(d)
    ensures ReferMeaning(ds[k := d], key) == ReferMeaning(ds, key)
  {
    hide ReferMeaning, IsReferMove;
    ReferSkips(ds[..k], ds[k], ds[k + 1..], key);
    ReferSkips(ds[..k], d, ds[k + 1..], key);
    assert ds[..k] + [ds[k]] + ds[k + 1..] == ds && ds[..k] + [d] + ds[k + 1..] == ds[k := d];
  }

  // ----- a list whose first refer is a section, or that has none -----

  lemma {:induction false} OpenedMeaning(ds: seq<Directive>, key: string)
    requires Find(ds, "refer") < |ds| ==> ds[Find(ds, "refer")].children != []
    ensures ReferMeaning(ds, key) == OrElse(LastOther(ds, key), Lookup(ds, "refer", key))
  {
    hide Gives, LastGiven, Nested;
    if ds == [] {
      NestedNothing(key);
    } else if ds[0].name != "refer" {
      assert Find(ds, "refer") == 1 + Find(ds[1..], "refer");
      OpenedMeaning(ds[1..], key);
      if !IsReferMove(ds[0]) {
        UnrelatedGives(ds[0], key);
      }
    }
  }

  lemma {:induction false} OtherSameSection(ds: seq<Directive>, d: Directive, key: string)
    requires Find(ds, "refer") < |ds| && d.name == "refer"
    ensures LastOther(ds[Find(ds, "refer") := d], key) == LastOther(ds, key)
  {
    hide Gives, LastGiven;
    var k := Find(ds, "refer");
    if k == 0 {
      assert ds[0 := d][1..] == ds[1..];
    } else {
      assert ds[k := d][1..] == ds[1..][k - 1 := d];
      OtherSameSection(ds[1..], d, key);
    }
  }

  lemma {:induction false} OtherAppend(ds: seq<Directive>, d: Directive, key: string)
    requires Find(ds, "refer") == |ds| && d.name == "refer"
    ensures LastOther(ds + [d], key) == LastOther(ds, key)
  {
    hide Gives;
    if ds == [] {
      assert (ds + [d])[1..] == [];
    } else {
      assert (ds + [d])[1..] == ds[1..] + [d];
      OtherAppend(ds[1..], d, key);
    }
  }

  /** Moving a refer setting: what it says now comes right after what is nested. */
  lemma MovedRefer(ds: seq<Directive>, m: Move, key: string)
    requires m.section == "refer" && m.enable
    ensures ReferMeaning(Moved(ds, m), key) == OrElse(LastOther(ds, key),
      OrElse(ValueIn(m.settings, key), OrElse(Lookup(ds, "refer", key), SwitchedOn(m, key))))
  {
    hide Moved, LastOther, ReferMeaning, Lookup, InNewForm;
    var k, d := MovedShape(ds, m);
    MovedLookup(ds, m, "refer", key);
    if k < |ds| {
      FindUpdate(ds, k, d, "refer");
      OtherSameSection(ds, d, key);
    } else {
      FindConcat(ds, [d], "refer");
      OtherAppend(ds, d, key);
    }
    OpenedMeaning(Moved(ds, m), key);
  }

  /** In front of legacy-free directives: with a section among them, every legacy directive counts. */
  lemma {:induction false} OtherAfter(a: seq<Directive>, c: seq<Directive>, key: string)
    requires LegacyFree(a)
    ensures LastOther(a + c, key) == if Find(a, "refer") < |a| then LastGiven(c, "refer", key) else LastOther(c, key)
  {
    hide MoveOf, LastGiven, Gives;
    if a == [] {
      assert a + c == c;
    } else {
      assert (a + c)[1..] == a[1..] + c;
      assert [a[0]] + a[1..] == a;
      LegacyFreeSplit(a[0], a[1..]);
      if a[0].name == "refer" {
        LastConcat(a[1..], c, "refer", key);
        LegacyFreeGivesNothing(a[1..], "refer", key);
      } else {
        OtherAfter(a[1..], c, key);
        ReferMoves(a[0]);
        UnrelatedGives(a[0], key);
      }
    }
  }

  lemma {:induction false} MeaningAfter(a: seq<Directive>, c: seq<Directive>, key: string)
    requires LegacyFree(a) && Find(a, "refer") == |a|
    ensures ReferMeaning(a + c, key) == ReferMeaning(c, key)
  {
    hide MoveOf, LastGiven, LastOther, Lookup, Gives;
    if a == [] {
      assert a + c == c;
    } else {
      assert (a + c)[1..] == a[1..] + c;
      assert [a[0]] + a[1..] == a;
      LegacyFreeSplit(a[0], a[1..]);
      ReferMoves(a[0]);
      MeaningAfter(a[1..], c, key);
    }
  }

  // ----- one step, then the run -----

  /** A move into another section has nothing to do with refer. */
  lemma OtherMoveKeepsRefer(a: seq<Directive>, x: Directive, b: seq<Directive>, key: string)
    requires MoveOf(x).Some? && MoveOf(x).value.section != "refer"
    ensures ReferMeaning(Moved(a + b, MoveOf(x).value), key) == ReferMeaning(a + [x] + b, key)
  {
    ReferMoves(x);
    MoveFacts(x);
    hide MoveOf, Moved, ReferMeaning, InNewForm;
    ReferSkips(a, x, b, key);
    var k, d := MovedShape(a + b, MoveOf(x).value);
    if k < |a + b| {
      ReferUpdate(a + b, k, d, key);
    } else {
      ReferSkips(a + b, d, [], key);
      assert a + b + [d] + [] == a + b + [d] && a + b + [] == a + b;
    }
  }

  /** A legacy refer directive is among these. */
  predicate HasReferMove(ds: seq<Directive>) {
    exists d | d in ds :: IsReferMove(d)
  }

  /** What the SRS3 lookup of any refer setting finds after the migration. */
  function ReferAfter(ds: seq<Directive>, key: string): Option<seq<string>> {
    OrElse(ReferMeaning(ds, key), if key == "enabled" && HasReferMove(ds) then Some(["on"]) else None)
  }

  /** No legacy directive says anything about the switch. */
  lemma {:induction false} NothingSaysEnabled(ds: seq<Directive>)
    ensures LastGiven(ds, "refer", "enabled") == None && LastOther(ds, "enabled") == None
  {
    hide Gives;
    if ds != [] {
      NothingSaysEnabled(ds[1..]);
      GivesNoSwitch(ds[0]);
    }
  }

  lemma ValueInOne(s: Setting, key: string)
    ensures ValueIn([s], key) == if s.key == key then Some(s.args) else None
  {
    assert [s][1..] == [];
  }

  lemma GivesNoSwitch(d: Directive)
    ensures Gives(d, "refer", "enabled") == None
  {
    ValueInOne(Setting("all", d.args), "enabled");
    ValueInOne(Setting("play", d.args), "enabled");
    ValueInOne(Setting("publish", d.args), "enabled");
  }

  lemma ReferMoveKeepsRefer(a: seq<Directive>, x: Directive, b: seq<Directive>, key: string)
    requires LegacyFree(a) && MoveOf(x).Some? && MoveOf(x).value.section == "refer"
    ensures ReferAfter(Moved(a + b, MoveOf(x).value), key) == ReferAfter(a + [x] + b, key)
  {
    ReferMoves(x);
    MoveFacts(x);
    hide MoveOf, Moved, Lookup, LastOther, LastGiven, Gives, IsReferMove, LegacyFree;
    MovedRefer(a + b, MoveOf(x).value, key);
    GivesOf(x, "refer", key);
    ReferMoveMeaning(a, x, b, key);
    if key == "enabled" {
      NothingSaysEnabled(a + b);
      GivesNoSwitch(x);
      assert x in a + [x] + b;
    }
  }

  /** What the list with the directive still in it means. */
  lemma ReferMoveMeaning(a: seq<Directive>, x: Directive, b: seq<Directive>, key: string)
    requires LegacyFree(a) && IsReferMove(x)
    ensures ReferMeaning(a + [x] + b, key) ==
      OrElse(LastOther(a + b, key), OrElse(Gives(x, "refer", key), Lookup(a + b, "refer", key)))
  {
    ReferMoves(x);
    hide MoveOf, Lookup, LastOther, Gives;
    assert a + [x] + b == a + ([x] + b) && ([x] + b)[1..] == b;
    OtherAfter(a, b, key);
    LookupConcat(a, b, "refer", key);
    if Find(a, "refer") < |a| {
      FindConcat(a, [x] + b, "refer");
      OldReferInFree(a);
      OpenedMeaning(a + ([x] + b), key);
      OtherAfter(a, [x] + b, key);
      LookupConcat(a, [x] + b, "refer", key);
    } else {
      MeaningAfter(a, [x] + b, key);
    }
  }

  lemma OldReferInFree(a: seq<Directive>)
    requires LegacyFree(a) && Find(a, "refer") < |a|
    ensures a[Find(a, "refer")].children != []
  {
    var d := a[Find(a, "refer")];
    assert d in a;
    ReferMoves(d);
  }

  lemma InPlaceKeepsRefer(ds: seq<Directive>, i: nat, key: string)
    requires i < |ds| && MoveOf(ds[i]).None?
    ensures ReferMeaning(ds[i := InPlace(ds[i])], key) == ReferMeaning(ds, key)
  {
    ReferMoves(ds[i]);
    InPlaceNoLegacy(ds[i]);
    InPlaceFacts(ds[i]);
    ReferMoves(InPlace(ds[i]));
    hide MoveOf, InPlace, ReferMeaning;
    if ds[i].name == "refer" {
      assert ds[i := InPlace(ds[i])] == ds;
    } else {
      ReferUpdate(ds, i, InPlace(ds[i]), key);
    }
  }

  lemma HasMoveConcat(a: seq<Directive>, b: seq<Directive>)
    ensures HasReferMove(a + b) <==> HasReferMove(a) || HasReferMove(b)
  {
    hide IsReferMove;
    assert forall d :: d in a + b <==> d in a || d in b;
  }

  lemma HasMoveOne(d: Directive)
    ensures HasReferMove([d]) <==> IsReferMove(d)
  {
    hide IsReferMove;
    assert d in [d];
  }

  /** Exchanging directives that are no legacy refer directives changes nothing here. */
  lemma HasMoveUpdate(ds: seq<Directive>, k: nat, d: Directive)
    requires k < |ds| && !IsReferMove(ds[k]) && !IsReferMove(d)
    ensures HasReferMove(ds[k := d]) <==> HasReferMove(ds)
  {
    hide IsReferMove, HasReferMove;
    assert ds == ds[..k] + [ds[k]] + ds[k + 1..] && ds[k := d] == ds[..k] + [d] + ds[k + 1..];
    HasMoveConcat(ds[..k] + [ds[k]], ds[k + 1..]);
    HasMoveConcat(ds[..k] + [d], ds[k + 1..]);
    HasMoveConcat(ds[..k], [ds[k]]);
    HasMoveConcat(ds[..k], [d]);
    HasMoveOne(ds[k]);
    HasMoveOne(d);
  }

  /** A move into another section leaves what the vhost is about to say about refer. */
  lemma OtherMoveKeepsAfter(a: seq<Directive>, x: Directive, b: seq<Directive>, key: string)
    requires MoveOf(x).Some? && MoveOf(x).value.section != "refer"
    ensures ReferAfter(Moved(a + b, MoveOf(x).value), key) == ReferAfter(a + [x] + b, key)
  {
    OtherMoveKeepsRefer(a, x, b, key);
    ReferMoves(x);
    MoveFacts(x);
    hide MoveOf, Moved, ReferMeaning, InNewForm, HasReferMove;
    HasMoveConcat(a + [x], b);
    HasMoveConcat(a, [x]);
    HasMoveConcat(a, b);
    HasMoveOne(x);
    var k, d := MovedShape(a + b, MoveOf(x).value);
    if k < |a + b| {
      HasMoveUpdate(a + b, k, d);
    } else {
      HasMoveConcat(a + b, [d]);
      HasMoveOne(d);
    }
  }

  lemma InPlaceKeepsAfter(ds: seq<Directive>, i: nat, key: string)
    requires i < |ds| && MoveOf(ds[i]).None?
    ensures ReferAfter(ds[i := InPlace(ds[i])], key) == ReferAfter(ds, key)
  {
    InPlaceKeepsRefer(ds, i, key);
    ReferMoves(ds[i]);
    InPlaceNoLegacy(ds[i]);
    ReferMoves(InPlace(ds[i]));
    hide MoveOf, InPlace, ReferMeaning, HasReferMove;
    HasMoveUpdate(ds, i, InPlace(ds[i]));
  }

  lemma {:induction false} MigrateReferAfter(ds: seq<Directive>, i: nat, key: string)
    requires i <= |ds| && Settled(ds[..i])
    ensures ReferAfter(Migrate(ds, i), key) == ReferAfter(ds, key)
    decreases LegacyCount(ds), |ds| - i
  {
    hide MoveOf, InPlace, Moved, InNewForm, ReferAfter;
    if i < |ds| {
      if MoveOf(ds[i]).Some? {
        EraseCount(ds, i);
        MoveFacts(ds[i]);
        MovedLength(ds[..i] + ds[i + 1..], MoveOf(ds[i]).value);
        var a1, b1 := MovedAround(ds[..i], ds[i + 1..], MoveOf(ds[i]).value);
        assert (a1 + b1)[..i] == a1;
        SettledIsLegacyFree(ds[..i]);
        assert ds[..i] + [ds[i]] + ds[i + 1..] == ds;
        if MoveOf(ds[i]).value.section == "refer" {
          ReferMoveKeepsRefer(ds[..i], ds[i], ds[i + 1..], key);
        } else {
          OtherMoveKeepsAfter(ds[..i], ds[i], ds[i + 1..], key);
        }
        MigrateReferAfter(Moved(ds[..i] + ds[i + 1..], MoveOf(ds[i]).value), i, key);
      } else {
        InPlaceCount(ds, i);
        InPlaceIsNew(ds[i]);
        InPlaceKeepsAfter(ds, i, key);
        var ds1 := ds[i := InPlace(ds[i])];
        assert ds1[..i + 1] == ds[..i] + [InPlace(ds[i])];
        MigrateReferAfter(ds1, i + 1, key);
      }
    }
  }

  lemma NoMoveLeft(ds: seq<Directive>)
    requires LegacyFree(ds)
    ensures !HasReferMove(ds)
  {
    hide IsReferMove, MoveOf;
    forall d | d in ds
      ensures !IsReferMove(d)
    {
      ReferMoves(d);
    }
  }

  /** The SRS3 lookup of every refer setting on the migrated vhost, whatever the vhost was. */
  lemma MigratedRefer(ds: seq<Directive>, key: string)
    ensures Lookup(Migrate(ds, 0), "refer", key) == ReferAfter(ds, key)
  {
    hide MoveOf, Migrate, Settled, Lookup, LastGiven, LastOther, LegacyFree, HasReferMove;
    var out := Migrate(ds, 0);
    NothingIsSettled();
    assert ds[..0] == [];
    MigrateSettles(ds, 0);
    SettledIsLegacyFree(out);
    NoMoveLeft(out);
    MigrateReferAfter(ds, 0, key);
    if Find(out, "refer") < |out| {
      OldReferInFree(out);
    }
    OpenedMeaning(out, key);
    OtherAfter(out, [], key);
    assert out + [] == out;
    NothingGiven(key);
  }

  lemma NothingGiven(key: string)
    ensures LastGiven([], "refer", key) == None && LastOther([], key) == None
  {
  }

  // ----- when that is what the vhost said -----

  /**
   The next old-style refer would be taken for the section: a legacy refer directive stands before
   every section, and nothing named refer follows it.
   */
  predicate Swallows(ds: seq<Directive>) {
    if ds == [] then false
    else if IsNewRefer(ds[0]) then false
    else if IsReferMove(ds[0]) then Find(ds[1..], "refer") == |ds| - 1
    else Swallows(ds[1..])
  }

  /** What the vhost says about a refer setting in either style; the first section counts. */
  function SaidOfRefer(ds: seq<Directive>, key: string): Option<seq<string>> {
    OrElse(LastGiven(ds, "refer", key), NestedInSection(ds, key))
  }

  function NestedInSection(ds: seq<Directive>, key: string): Option<seq<string>> {
    if ds == [] then None
    else if IsNewRefer(ds[0]) then Nested(ds[0].children, key)
    else NestedInSection(ds[1..], key)
  }

  /** No old-style refer is preceded by what would swallow it. */
  predicate SwallowsNone(ds: seq<Directive>) {
    forall g | 0 <= g < |ds| && IsOldRefer(ds[g]) :: !Swallows(ds[..g])
  }

  lemma {:induction false} SectionFirst(ds: seq<Directive>, key: string)
    requires Find(ds, "refer") < |ds| ==> ds[Find(ds, "refer")].children != []
    ensures LastOther(ds, key) == LastGiven(ds, "refer", key)
    ensures Lookup(ds, "refer", key) == NestedInSection(ds, key)
  {
    hide Gives, Nested;
    if ds == [] {
      NestedNothing(key);
    } else if ds[0].name == "refer" {
      NewReferGives(ds[0], key);
    } else {
      assert Find(ds, "refer") == 1 + Find(ds[1..], "refer");
      SectionFirst(ds[1..], key);
    }
  }

  lemma {:induction false} MeaningWithoutLoss(ds: seq<Directive>, key: string)
    requires SwallowsNone(ds)
    ensures ReferMeaning(ds, key) == SaidOfRefer(ds, key)
  {
    hide Gives, Nested, Lookup;
    if ds != [] {
      var t := ds[1..];
      if IsNewRefer(ds[0]) {
        NewReferGives(ds[0], key);
      } else if IsReferMove(ds[0]) {
        var f := Find(t, "refer");
        if f < |t| {
          NoReferBefore(t, f);
          assert ds[..f + 1][1..] == t[..f] && Swallows(ds[..f + 1]);
          assert ds[f + 1] == t[f];
        }
        SectionFirst(t, key);
      } else {
        UnrelatedGives(ds[0], key);
        forall g | 0 <= g < |t| && IsOldRefer(t[g])
          ensures !Swallows(t[..g])
        {
          assert ds[..g + 1][1..] == t[..g] && ds[g + 1] == t[g];
        }
        MeaningWithoutLoss(t, key);
      }
    }
  }

  lemma NoReferBefore(ds: seq<Directive>, f: nat)
    requires f == Find(ds, "refer")
    ensures Find(ds[..f], "refer") == f
  {
    FindConcat(ds[..f], ds[f..], "refer");
    assert ds[..f] + ds[f..] == ds;
  }

  /**
   Where no old-style refer is swallowed, every refer setting keeps its meaning, and the switch is on
   beside a legacy refer directive unless the section says something else.
   */
  lemma MigrateKeepsRefer(ds: seq<Directive>, key: string)
    requires SwallowsNone(ds)
    ensures Lookup(Migrate(ds, 0), "refer", key) ==
      OrElse(SaidOfRefer(ds, key), if key == "enabled" && HasReferMove(ds) then Some(["on"]) else None)
  {
    MeaningWithoutLoss(ds, key);
    MigratedRefer(ds, key);
  }

  lemma AllFromOldRefer(d: Directive)
    ensures Gives(d, "refer", "all") == if IsOldRefer(d) then Some(d.args) else None
  {
    ValueInOne(Setting("all", d.args), "all");
    ValueInOne(Setting("play", d.args), "all");
    ValueInOne(Setting("publish", d.args), "all");
  }

  lemma {:induction false} NoOldReferNoAll(ds: seq<Directive>)
    requires forall d | d in ds :: !IsOldRefer(d)
    ensures LastGiven(ds, "refer", "all") == None && LastOther(ds, "all") == None
  {
    hide Gives;
    if ds != [] {
      assert ds[0] in ds && forall d | d in ds[1..] :: d in ds;
      NoOldReferNoAll(ds[1..]);
      AllFromOldRefer(ds[0]);
    }
  }

  lemma NoReferNoOld(ds: seq<Directive>)
    requires Find(ds, "refer") == |ds|
    ensures forall d | d in ds :: !IsOldRefer(d)
  {
  }

  /** The last old-style refer, seen from behind the directive that opened the section. */
  lemma {:induction false} OtherOfLastOld(p: seq<Directive>, r: Directive, q: seq<Directive>)
    requires IsOldRefer(r) && forall d | d in q :: !IsOldRefer(d)
    ensures LastGiven(p + [r] + q, "refer", "all") == Some(r.args)
    ensures LastOther(p + [r] + q, "all") == if Find(p, "refer") < |p| then Some(r.args) else None
  {
    hide Gives;
    NoOldReferNoAll(q);
    if p == [] {
      assert p + [r] + q == [r] + q && ([r] + q)[1..] == q;
      AllFromOldRefer(r);
    } else {
      assert (p + [r] + q)[1..] == p[1..] + [r] + q;
      OtherOfLastOld(p[1..], r, q);
      AllFromOldRefer(p[0]);
    }
  }

  lemma {:induction false} AllOfLastOld(p: seq<Directive>, r: Directive, q: seq<Directive>)
    requires IsOldRefer(r) && forall d | d in q :: !IsOldRefer(d)
    ensures ReferMeaning(p + [r] + q, "all") ==
      if Swallows(p) then LastGiven(p, "refer", "all") else Some(r.args)
  {
    hide Gives, LastOther, Lookup, LastGiven, Nested;
    if p == [] {
      assert p + [r] + q == [r] + q && ([r] + q)[1..] == q;
      NoOldReferNoAll(q);
      AllFromOldRefer(r);
    } else {
      var t := p[1..] + [r] + q;
      assert (p + [r] + q)[1..] == t;
      OtherOfLastOld(p[1..], r, q);
      AllFromOldRefer(p[0]);
      LastOfFirst(p);
      if IsReferMove(p[0]) {
        if Swallows(p) {
          NoReferNoOld(p[1..]);
          NoOldReferNoAll(p[1..]);
          NothingInOld(p[1..], r, q);
        }
      } else if !IsNewRefer(p[0]) {
        AllOfLastOld(p[1..], r, q);
      }
    }
  }

  lemma LastOfFirst(p: seq<Directive>)
    requires p != []
    ensures LastGiven(p, "refer", "all") == OrElse(LastGiven(p[1..], "refer", "all"), Gives(p[0], "refer", "all"))
  {
    hide Gives;
  }

  lemma NothingInOld(p: seq<Directive>, r: Directive, q: seq<Directive>)
    requires IsOldRefer(r) && Find(p, "refer") == |p|
    ensures Lookup(p + [r] + q, "refer", "all") == None
  {
    assert p + [r] + q == p + ([r] + q);
    LookupConcat(p, [r] + q, "refer", "all");
    NestedNothing("all");
  }

  /**
   The `all` list of the vhost's last old-style refer survives the migration exactly when it is not
   swallowed, or an earlier old-style refer gave the same list.
   */
  lemma OldReferSurvivesIff(p: seq<Directive>, r: Directive, q: seq<Directive>)
    requires IsOldRefer(r) && forall d | d in q :: !IsOldRefer(d)
    ensures Lookup(Migrate(p + [r] + q, 0), "refer", "all") == Some(r.args) <==>
      !Swallows(p) || LastGiven(p, "refer", "all") == Some(r.args)
  {
    hide Swallows, ReferMeaning, LastGiven, Lookup, Migrate;
    MigratedRefer(p + [r] + q, "all");
    AllOfLastOld(p, r, q);
  }

  /** A vhost whose only old-style refer comes after refer_play loses its list. */
  lemma AllListCanBeLost(play: seq<string>, all: seq<string>)
    ensures var ds := [Directive(1, "refer_play", play, []), Directive(2, "refer", all, [])];
      Lookup(Migrate(ds, 0), "refer", "all") == None && SaidOfRefer(ds, "all") == Some(all)
  {
    hide Migrate, Lookup, LastGiven, LastOther, ReferMeaning, Gives;
    var p, r := Directive(1, "refer_play", play, []), Directive(2, "refer", all, []);
    MigratedRefer([p, r], "all");
    AllOfLastOld([p], r, []);
    OtherOfLastOld([p], r, []);
    assert [p] + [r] + [] == [p, r];
    LastOfFirst([p]);
    AllFromOldRefer(p);
    assert [p][1..] == [];
    NothingGiven("all");
  }

  lemma {:induction false} OnlyAllIsSkipped(ds: seq<Directive>, key: string)
    requires key != "all"
    ensures LastOther(ds, key) == LastGiven(ds, "refer", key)
  {
    hide Gives;
    if ds != [] {
      if ds[0].name == "refer" {
        ReferGivesAll(ds[0], key);
      } else {
        OnlyAllIsSkipped(ds[1..], key);
      }
    }
  }

  lemma ReferGivesAll(d: Directive, key: string)
    requires d.name == "refer" && key != "all"
    ensures Gives(d, "refer", key) == None
  {
    ValueInOne(Setting("all", d.args), key);
  }

  lemma {:induction false} OthersAreNeverLost(ds: seq<Directive>, key: string)
    requires key != "all" && LastGiven(ds, "refer", key).Some?
    ensures ReferMeaning(ds, key) == LastGiven(ds, "refer", key)
  {
    hide Gives, Lookup, Nested;
    OnlyAllIsSkipped(ds[1..], key);
    if IsNewRefer(ds[0]) {
      NewReferGives(ds[0], key);
    } else if !IsReferMove(ds[0]) {
      UnrelatedGives(ds[0], key);
      OthersAreNeverLost(ds[1..], key);
    }
  }

  /** What refer_play and refer_publish say last is never lost. */
  lemma PlayAndPublishSurvive(ds: seq<Directive>, key: string)
    requires key == "play" || key == "publish"
    requires LastGiven(ds, "refer", key).Some?
    ensures Lookup(Migrate(ds, 0), "refer", key) == LastGiven(ds, "refer", key)
  {
    hide ReferMeaning, LastGiven, Lookup, Migrate;
    MigratedRefer(ds, key);
    OthersAreNeverLost(ds, key);
  }

  // ----- whether the check is on -----

  /** The SRS3 getter: off unless the section says on. */
  predicate GetReferEnabled(vhost: Option<Directive>) {
    vhost.Some? &&
    var refer := Get(vhost.value.children, "refer");
    refer.Some? &&
    var enabled := Get(refer.value.children, "enabled");
    enabled.Some? && enabled.value.Arg0() == "on"
  }

  predicate SaysOn(v: Option<seq<string>>) {
    v.Some? && v.value != [] && v.value[0] == "on"
  }

  lemma EnabledIsLookup(v: Directive)
    ensures GetReferEnabled(Some(v)) <==> SaysOn(Lookup(v.children, "refer", "enabled"))
  {
    hide Find;
  }

  /**
   A vhost with a legacy refer directive has its refer check on afterwards exactly when what becomes the
   section has no switch, or its first one is on: a section in front of the legacy directives, or else
   the next directive named refer behind the first of them.
   */
  lemma ReferCheckIsOnIff(v: Directive)
    requires HasReferMove(v.children)
    ensures GetReferEnabled(Some(v.(children := Migrate(v.children, 0)))) <==>
      var switch := ReferMeaning(v.children, "enabled"); switch.None? || SaysOn(switch)
  {
    hide Migrate, Lookup, ReferMeaning, HasReferMove, GetReferEnabled;
    EnabledIsLookup(v.(children := Migrate(v.children, 0)));
    MigratedRefer(v.children, "enabled");
  }

  /** A section that is switched off, and refer_play behind it: the list moves in, and the check stays off. */
  lemma CheckCanStayOff(line: int, play: seq<string>)
    ensures var off := Directive(line, "refer", [], [Directive(line, "enabled", ["off"], [])]);
      var v := Directive(line, "vhost", [], [off, Directive(line, "refer_play", play, [])]);
      && Lookup(Migrate(v.children, 0), "refer", "play") == Some(play)
      && Lookup(Migrate(v.children, 0), "refer", "enabled") == Some(["off"])
      && !GetReferEnabled(Some(v.(children := Migrate(v.children, 0))))
  {
    var off := Directive(line, "refer", [], [Directive(line, "enabled", ["off"], [])]);
    var p := Directive(line, "refer_play", play, []);
    var v := Directive(line, "vhost", [], [off, p]);
    assert [off, p][1..] == [p] && [p][1..] == [];
    ValueInOne(Setting("play", play), "play");
    GivesNoSwitch(p);
    assert LastGiven([p], "refer", "play") == Some(play);
    assert LastGiven([p], "refer", "enabled") == None;
    assert Nested(off.children, "enabled") == Some(["off"]);
    hide Migrate, Lookup, LastGiven, Nested, HasReferMove, GetReferEnabled;
    MigratedRefer(v.children, "play");
    MigratedRefer(v.children, "enabled");
    EnabledIsLookup(v.(children := Migrate(v.children, 0)));
  }
}
