/** The reload of vhosts as it runs: subscribers are told in order, and any of them can stop it. */
module ConfReloadRun {
  import opened Messages
  import opened ConfDirectives
  import opened ConfReload
  import opened ConfReloadDiff
  import opened ConfReloadHttp

  datatype Sent = Sent(subscriber: nat, notice: Notice)

  /** The subscribers; what one answers may depend on everything that was sent before. */
  datatype Handlers = Handlers(count: nat, answer: (seq<Sent>, Sent) -> int)

  /** Tells the subscribers from the `k`th on; the first answer other than success ends it. */
  function Tell(h: Handlers, log: seq<Sent>, n: Notice, k: nat): (int, seq<Sent>)
    requires k <= h.count
    decreases h.count - k
  {
    if k == h.count then (0, log)
    else
      var ret := h.answer(log, Sent(k, n));
      if ret != 0 then (ret, log + [Sent(k, n)]) else Tell(h, log + [Sent(k, n)], n, k + 1)
  }

  function TellAll(h: Handlers, log: seq<Sent>, ns: seq<Notice>): (int, seq<Sent>)
    decreases ns
  {
    if ns == [] then (0, log)
    else
      var r := Tell(h, log, ns[0], 0);
      if r.0 != 0 then r else TellAll(h, r.1, ns[1..])
  }

  lemma {:induction false} TellAllConcat(h: Handlers, log: seq<Sent>, a: seq<Notice>, b: seq<Notice>)
    ensures TellAll(h, log, a + b) ==
      var r := TellAll(h, log, a); if r.0 != 0 then r else TellAll(h, r.1, b)
    decreases a
  {
    hide Tell;
    if a == [] {
      assert a + b == b;
    } else {
      assert (a + b)[1..] == a[1..] + b;
      var r := Tell(h, log, a[0], 0);
      if r.0 == 0 {
        TellAllConcat(h, r.1, a[1..], b);
      }
    }
  }

  lemma TellAllOne(h: Handlers, log: seq<Sent>, n: Notice)
    ensures TellAll(h, log, [n]) == Tell(h, log, n, 0)
  {
    hide Tell;
    assert [n][1..] == [];
    var r := Tell(h, log, n, 0);
    assert r.0 == 0 ==> TellAll(h, r.1, [n][1..]) == (0, r.1);
  }

  /** What the whole reload of vhosts answers and sends. */
  function Reload(h: Handlers, log: seq<Sent>, root: seq<Directive>, oldRoot: seq<Directive>): (int, seq<Sent>) {
    var p := Plan(AllNames(root, oldRoot), root, oldRoot);
    var r := TellAll(h, log, p.0);
    if r.0 != 0 then r else (p.1, r.1)
  }

  // ----- loops that only read -----

  ghost function NamedFrom(ds: seq<Directive>, name: string, i: nat): seq<Directive>
    requires i <= |ds|
  {
    Named(ds[i..], name)
  }

  lemma NamedNext(ds: seq<Directive>, name: string, i: nat)
    requires i < |ds|
    ensures NamedFrom(ds, name, i) == (if ds[i].name == name then [ds[i]] else []) + NamedFrom(ds, name, i + 1)
  {
    assert ds[i..][1..] == ds[i + 1..];
  }

  lemma NamedAll(ds: seq<Directive>, name: string)
    ensures NamedFrom(ds, name, 0) == Named(ds, name) && NamedFrom(ds, name, |ds|) == []
  {
    assert ds[0..] == ds;
  }

  method Collect(ds: seq<Directive>, name: string) returns (r: seq<Directive>)
    ensures r == Named(ds, name)
  {
    hide Named, NamedFrom;
    NamedAll(ds, name);
    r := [];
    var i := 0;
    while i < |ds|
      invariant i <= |ds|
      invariant NamedFrom(ds, name, 0) == r + NamedFrom(ds, name, i)
    {
      NamedNext(ds, name, i);
      if ds[i].name == name {
        r := r + [ds[i]];
      }
      i := i + 1;
    }
  }

  method TranscodeHasChanged(newVhost: seq<Directive>, oldVhost: seq<Directive>) returns (changed: bool)
    ensures changed == TranscodeDiffers(newVhost, oldVhost)
  {
    hide Named, Missing, Differs;
    var oldTranscoders := Collect(oldVhost, "transcode");
    var newTranscoders := Collect(newVhost, "transcode");
    changed := false;
    var i := 0;
    while !changed && i < |oldTranscoders|
      invariant i <= |oldTranscoders|
      invariant changed == exists j | 0 <= j < i :: Missing(oldTranscoders[j], newVhost)
    {
      changed := Missing(oldTranscoders[i], newVhost);
      i := i + 1;
    }
    ghost var removed := changed;
    i := 0;
    while !changed && i < |newTranscoders|
      invariant i <= |newTranscoders|
      invariant changed == (removed || exists j | 0 <= j < i :: Missing(newTranscoders[j], oldVhost))
    {
      changed := Missing(newTranscoders[i], oldVhost);
      i := i + 1;
    }
    ghost var added := changed;
    i := 0;
    while !changed && i < |newTranscoders|
      invariant i <= |newTranscoders|
      invariant changed == (added || exists j | 0 <= j < i :: Differs(newTranscoders[j], oldVhost))
    {
      changed := Differs(newTranscoders[i], oldVhost);
      i := i + 1;
    }
  }

  lemma VhostNamesFrom(ds: seq<Directive>, i: nat)
    requires i < |ds|
    ensures VhostNames(ds[i..]) == (if ds[i].IsVhost() then [ds[i].Arg0()] else []) + VhostNames(ds[i + 1..])
  {
    assert ds[i..][1..] == ds[i + 1..];
  }

  lemma GoneNamesFrom(ds: seq<Directive>, i: nat, root: seq<Directive>)
    requires i < |ds|
    ensures GoneNames(ds[i..], root) ==
      (if ds[i].IsVhost() && Vhost(root, ds[i].Arg0()).None? then [ds[i].Arg0()] else []) + GoneNames(ds[i + 1..], root)
  {
    hide Vhost;
    assert ds[i..][1..] == ds[i + 1..];
  }

  method VhostList(root: seq<Directive>, oldRoot: seq<Directive>) returns (vhosts: seq<string>)
    ensures vhosts == AllNames(root, oldRoot)
  {
    hide Vhost, VhostNames, GoneNames;
    vhosts := [];
    var i := 0;
    NoNames(root);
    while i < |root|
      invariant i <= |root|
      invariant VhostNames(root) == vhosts + VhostNames(root[i..])
    {
      VhostNamesFrom(root, i);
      if root[i].name == "vhost" {
        vhosts := vhosts + [root[i].Arg0()];
      }
      i := i + 1;
    }
    assert root[i..] == [];
    assert oldRoot[0..] == oldRoot;
    i := 0;
    while i < |oldRoot|
      invariant i <= |oldRoot|
      invariant AllNames(root, oldRoot) == vhosts + GoneNames(oldRoot[i..], root)
    {
      GoneNamesFrom(oldRoot, i, root);
      if oldRoot[i].name == "vhost" && Vhost(root, oldRoot[i].Arg0()).None? {
        vhosts := vhosts + [oldRoot[i].Arg0()];
      }
      i := i + 1;
    }
    assert oldRoot[i..] == [];
  }

  lemma NoNames(root: seq<Directive>)
    ensures VhostNames([]) == [] && GoneNames([], root) == []
  {
  }

  // ----- loops that notify -----

  class Config {
    const handlers: Handlers
    var log: seq<Sent>

    constructor (handlers: Handlers)
      ensures this.handlers == handlers && log == []
    {
      this.handlers := handlers;
      log := [];
    }

    method Notify(n: Notice) returns (ret: int)
      modifies this
      ensures (ret, log) == Tell(handlers, old(log), n, 0)
    {
      var it := 0;
      while it < handlers.count
        invariant it <= handlers.count
        invariant Tell(handlers, log, n, it) == Tell(handlers, old(log), n, 0)
      {
        var s := Sent(it, n);
        ret := handlers.answer(log, s);
        log := log + [s];
        if ret != 0 {
          return;
        }
        it := it + 1;
      }
      ret := 0;
    }

    /** Notifies when `due`; otherwise nothing happens. */
    method NotifyIf(due: bool, n: Notice) returns (ret: int)
      modifies this
      ensures (ret, log) == TellAll(handlers, old(log), if due then [n] else [])
    {
      ret := 0;
      if due {
        TellAllOne(handlers, log, n);
        ret := Notify(n);
      }
    }

    method ReloadParts(vhost: string, newVhost: seq<Directive>, oldVhost: seq<Directive>) returns (ret: int)
      modifies this
      ensures (ret, log) == TellAll(handlers, old(log), PartNotices(Parts(), vhost, newVhost, oldVhost))
    {
      hide Parts, Part.Changed, Tell, TellAll;
      ret := 0;
      var parts := Parts();
      var i := 0;
      while i < |parts|
        invariant i <= |parts| && ret == 0
        invariant TellAll(handlers, log, PartNotices(parts[i..], vhost, newVhost, oldVhost))
          == TellAll(handlers, old(log), PartNotices(parts, vhost, newVhost, oldVhost))
      {
        assert parts[i..][0] == parts[i] && parts[i..][1..] == parts[i + 1..];
        var due := parts[i].Changed(newVhost, oldVhost);
        ghost var first := if due then [PartNotice(parts[i], vhost)] else [];
        TellAllConcat(handlers, log, first, PartNotices(parts[i + 1..], vhost, newVhost, oldVhost));
        ret := NotifyIf(due, PartNotice(parts[i], vhost));
        if ret != 0 {
          return;
        }
        i := i + 1;
      }
      TellNone(handlers, log);
    }

    method ReloadTranscode(vhost: string, newVhost: seq<Directive>, oldVhost: seq<Directive>) returns (ret: int)
      modifies this
      ensures (ret, log) == TellAll(handlers, old(log), TranscodeNotices(vhost, newVhost, oldVhost))
    {
      hide TranscodeDiffers, TellAll;
      var changed := TranscodeHasChanged(newVhost, oldVhost);
      ret := NotifyIf(changed, TranscodeChanged(vhost));
    }

    method ReloadRemovals(ds: seq<Directive>, vhost: string, newVhost: seq<Directive>) returns (ret: int)
      modifies this
      ensures (ret, log) == TellAll(handlers, old(log), Removals(ds, vhost, newVhost))
    {
      hide Stops, Tell, TellAll;
      ret := 0;
      var i := 0;
      while i < |ds|
        invariant i <= |ds| && ret == 0
        invariant TellAll(handlers, log, Removals(ds[i..], vhost, newVhost))
          == TellAll(handlers, old(log), Removals(ds, vhost, newVhost))
      {
        assert ds[i..][0] == ds[i] && ds[i..][1..] == ds[i + 1..];
        var due, n := Stops(ds[i], newVhost), IngestRemoved(vhost, ds[i].Arg0());
        TellAllConcat(handlers, log, if due then [n] else [], Removals(ds[i + 1..], vhost, newVhost));
        ret := NotifyIf(due, n);
        if ret != 0 {
          return;
        }
        i := i + 1;
      }
      TellNone(handlers, log);
    }

    method ReloadAdditions(ds: seq<Directive>, vhost: string, oldVhost: seq<Directive>) returns (ret: int)
      modifies this
      ensures (ret, log) == TellAll(handlers, old(log), Additions(ds, vhost, oldVhost))
    {
      hide Starts, Tell, TellAll;
      ret := 0;
      var i := 0;
      while i < |ds|
        invariant i <= |ds| && ret == 0
        invariant TellAll(handlers, log, Additions(ds[i..], vhost, oldVhost))
          == TellAll(handlers, old(log), Additions(ds, vhost, oldVhost))
      {
        assert ds[i..][0] == ds[i] && ds[i..][1..] == ds[i + 1..];
        var due, n := Starts(ds[i], oldVhost), IngestAdded(vhost, ds[i].Arg0());
        TellAllConcat(handlers, log, if due then [n] else [], Additions(ds[i + 1..], vhost, oldVhost));
        ret := NotifyIf(due, n);
        if ret != 0 {
          return;
        }
        i := i + 1;
      }
      TellNone(handlers, log);
    }

    method ReloadUpdates(ds: seq<Directive>, vhost: string, oldVhost: seq<Directive>) returns (ret: int)
      modifies this
      ensures (ret, log) == TellAll(handlers, old(log), Updates(ds, vhost, oldVhost))
    {
      hide Restarts, Tell, TellAll;
      ret := 0;
      var i := 0;
      while i < |ds|
        invariant i <= |ds| && ret == 0
        invariant TellAll(handlers, log, Updates(ds[i..], vhost, oldVhost))
          == TellAll(handlers, old(log), Updates(ds, vhost, oldVhost))
      {
        assert ds[i..][0] == ds[i] && ds[i..][1..] == ds[i + 1..];
        var due, n := Restarts(ds[i], oldVhost), IngestUpdated(vhost, ds[i].Arg0());
        TellAllConcat(handlers, log, if due then [n] else [], Updates(ds[i + 1..], vhost, oldVhost));
        ret := NotifyIf(due, n);
        if ret != 0 {
          return;
        }
        i := i + 1;
      }
      TellNone(handlers, log);
    }

    method ReloadIngest(vhost: string, newVhost: seq<Directive>, oldVhost: seq<Directive>) returns (ret: int)
      modifies this
      ensures (ret, log) == TellAll(handlers, old(log), IngestNotices(vhost, newVhost, oldVhost))
    {
      hide Removals, Additions, Updates, Named, TellAll;
      var oldIngesters := Collect(oldVhost, "ingest");
      var newIngesters := Collect(newVhost, "ingest");
      ghost var a := Removals(oldIngesters, vhost, newVhost);
      ghost var b := Additions(newIngesters, vhost, oldVhost);
      ghost var c := Updates(newIngesters, vhost, oldVhost);
      TellAllConcat(handlers, log, a + b, c);
      TellAllConcat(handlers, log, a, b);
      ret := ReloadRemovals(oldIngesters, vhost, newVhost);
      if ret != 0 {
        return;
      }
      ret := ReloadAdditions(newIngesters, vhost, oldVhost);
      if ret != 0 {
        return;
      }
      ret := ReloadUpdates(newIngesters, vhost, oldVhost);
    }

    method ReloadDetails(vhost: string, newVhost: seq<Directive>, oldVhost: seq<Directive>) returns (ret: int)
      modifies this
      ensures (ret, log) == TellAll(handlers, old(log), Details(vhost, newVhost, oldVhost))
    {
      hide PartNotices, Parts, TranscodeNotices, IngestNotices, TellAll;
      ghost var a := PartNotices(Parts(), vhost, newVhost, oldVhost);
      ghost var b := TranscodeNotices(vhost, newVhost, oldVhost);
      ghost var c := IngestNotices(vhost, newVhost, oldVhost);
      TellAllConcat(handlers, log, a + b, c);
      TellAllConcat(handlers, log, a, b);
      ret := ReloadParts(vhost, newVhost, oldVhost);
      if ret != 0 {
        return;
      }
      ret := ReloadTranscode(vhost, newVhost, oldVhost);
      if ret != 0 {
        return;
      }
      ret := ReloadIngest(vhost, newVhost, oldVhost);
    }

    method ReloadOne(vhost: string, root: seq<Directive>, oldRoot: seq<Directive>) returns (ret: int)
      modifies this
      ensures EdgeChanged(vhost, root, oldRoot) ==> ret == ERROR_RTMP_EDGE_RELOAD && log == old(log)
      ensures !EdgeChanged(vhost, root, oldRoot) ==>
        (ret, log) == TellAll(handlers, old(log), VhostNotices(vhost, root, oldRoot))
    {
      hide Details, VhostEnabled, VhostIsEdge, Vhost, TellAll;
      var oldVhost, newVhost := Vhost(oldRoot, vhost), Vhost(root, vhost);
      if !VhostEnabled(oldVhost) && VhostEnabled(newVhost) {
        ret := NotifyIf(true, VhostAdded(vhost));
        return;
      }
      if VhostEnabled(oldVhost) && !VhostEnabled(newVhost) {
        ret := NotifyIf(true, VhostRemoved(vhost));
        return;
      }
      if VhostIsEdge(oldVhost) != VhostIsEdge(newVhost) {
        ret := ERROR_RTMP_EDGE_RELOAD;
        return;
      }
      if VhostEnabled(newVhost) && VhostEnabled(oldVhost) {
        EnabledIsThere(newVhost);
        EnabledIsThere(oldVhost);
        ret := ReloadDetails(vhost, newVhost.value.children, oldVhost.value.children);
        return;
      }
      TellNone(handlers, log);
      ret := 0;
    }

    /** The reload of all vhosts. */
    method ReloadVhost(root: seq<Directive>, oldRoot: seq<Directive>) returns (ret: int)
      modifies this
      ensures (ret, log) == Reload(handlers, old(log), root, oldRoot)
    {
      hide AllNames, TellAll, Tell, VhostNotices, EdgeChanged;
      var vhosts := VhostList(root, oldRoot);
      var i := 0;
      while i < |vhosts|
        invariant i <= |vhosts|
        invariant Finish(handlers, log, vhosts[i..], root, oldRoot) == Reload(handlers, old(log), root, oldRoot)
      {
        FinishStep(handlers, log, vhosts[i..], root, oldRoot);
        assert vhosts[i..][0] == vhosts[i] && vhosts[i..][1..] == vhosts[i + 1..];
        ret := ReloadOne(vhosts[i], root, oldRoot);
        if ret != 0 {
          return;
        }
        i := i + 1;
      }
      TellNone(handlers, log);
      ret := 0;
    }
  }

  lemma EnabledIsThere(vhost: Option<Directive>)
    requires VhostEnabled(vhost)
    ensures vhost.Some?
  {
  }

  lemma TellNone(h: Handlers, log: seq<Sent>)
    ensures TellAll(h, log, []) == (0, log)
  {
  }

  /** What is still to come when these vhosts are left. */
  function Finish(h: Handlers, log: seq<Sent>, names: seq<string>, root: seq<Directive>, oldRoot: seq<Directive>):
    (int, seq<Sent>)
  {
    var p := Plan(names, root, oldRoot);
    var r := TellAll(h, log, p.0);
    if r.0 != 0 then r else (p.1, r.1)
  }

  lemma FinishStep(h: Handlers, log: seq<Sent>, names: seq<string>, root: seq<Directive>, oldRoot: seq<Directive>)
    requires names != []
    ensures Finish(h, log, names, root, oldRoot) ==
      if EdgeChanged(names[0], root, oldRoot) then (ERROR_RTMP_EDGE_RELOAD, log)
      else
        var r := TellAll(h, log, VhostNotices(names[0], root, oldRoot));
        if r.0 != 0 then r else Finish(h, r.1, names[1..], root, oldRoot)
  {
    hide TellAll, VhostNotices, EdgeChanged;
    TellNone(h, log);
    TellAllConcat(h, log, VhostNotices(names[0], root, oldRoot), Plan(names[1..], root, oldRoot).0);
  }

  // ----- what the subscribers end up with -----

  /** What one subscriber has been told. */
  function Heard(log: seq<Sent>, k: nat): seq<Notice> {
    if log == [] then []
    else Heard(log[..|log| - 1], k) + if log[|log| - 1].subscriber == k then [log[|log| - 1].notice] else []
  }

  lemma HeardNext(log: seq<Sent>, s: Sent, k: nat)
    ensures Heard(log + [s], k) == Heard(log, k) + if s.subscriber == k then [s.notice] else []
  {
    assert (log + [s])[..|log + [s]| - 1] == log;
  }

  lemma {:induction false} TellHeard(h: Handlers, log: seq<Sent>, n: Notice, j: nat, k: nat)
    requires j <= h.count && k < h.count
    ensures var r := Tell(h, log, n, j);
      && (r.0 == 0 ==> Heard(r.1, k) == Heard(log, k) + if j <= k then [n] else [])
      && (Heard(r.1, k) == Heard(log, k) || (j <= k && Heard(r.1, k) == Heard(log, k) + [n]))
    decreases h.count - j
  {
    hide Heard;
    if j < h.count {
      HeardNext(log, Sent(j, n), k);
      TellHeard(h, log + [Sent(j, n)], n, j + 1, k);
    }
  }

  /**
   Every subscriber hears the notices in order, from the first up to where the reload stopped; all of
   them when it succeeded.
   */
  lemma {:induction false} TellAllHeard(h: Handlers, log: seq<Sent>, ns: seq<Notice>, k: nat) returns (m: nat)
    requires k < h.count
    ensures m <= |ns| && Heard(TellAll(h, log, ns).1, k) == Heard(log, k) + ns[..m]
    ensures TellAll(h, log, ns).0 == 0 ==> m == |ns|
    decreases ns
  {
    hide Tell, Heard;
    if ns == [] {
      m := 0;
    } else {
      TellHeard(h, log, ns[0], 0, k);
      var r := Tell(h, log, ns[0], 0);
      if r.0 == 0 {
        var m1 := TellAllHeard(h, r.1, ns[1..], k);
        m := m1 + 1;
        assert ns[..m] == [ns[0]] + ns[1..][..m1];
      } else {
        m := if Heard(r.1, k) == Heard(log, k) then 0 else 1;
        assert ns[..1] == [ns[0]];
      }
    }
  }

  /**
   A reload that returns success leaves every subscriber that follows what it was told with the new
   configuration's enabled vhosts and what they hold, http_static included, exactly when no change of a
   recording section was missed.
   */
  lemma EverySubscriberIsUpToDate(h: Handlers, root: seq<Directive>, oldRoot: seq<Directive>, k: nat)
    requires Unique(root) && Unique(oldRoot) && k < h.count
    requires Reload(h, [], root, oldRoot).0 == 0
    ensures var heard := Heard(Reload(h, [], root, oldRoot).1, k);
      && (ApplyAll(root, FullView(oldRoot), heard) == FullView(root) <==>
            forall name | name in VhostNames(root) :: !MissedAt(name, root, oldRoot))
      && ApplyHttpAll(root, FullHttp(oldRoot), heard) == FullHttp(root)
  {
    UniqueNames(root);
    UniqueNames(oldRoot);
    hide Unique, UniqueIds, Plan, TellAll, ApplyAll, ApplyHttpAll, FullView, FullHttp, AllNames, MissedAt, VhostNames;
    var ns := Plan(AllNames(root, oldRoot), root, oldRoot).0;
    var m := TellAllHeard(h, [], ns, k);
    assert ns[..|ns|] == ns && [] + ns == ns;
    assert Heard([], k) == [];
    ReloadIsDiffIff(root, oldRoot);
    HttpIsDiff(root, oldRoot);
  }
}
