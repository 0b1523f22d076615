/** The one notice of a reload that names no vhost still leaves every http_static section up to date. */
module ConfReloadHttp {
  import opened Messages
  import opened ConfDirectives
  import opened ConfReload
  import opened ConfReloadDiff

  /** The http_static sections of the enabled vhosts, up to line numbers. */
  type HttpView = map<string, Option<Directive>>

  function HttpOf(vhost: Directive): Option<Directive> {
    PlainOption(Get(vhost.children, "http_static"))
  }

  function HttpEntry(vhost: Option<Directive>): Option<Option<Directive>> {
    if VhostEnabled(vhost) then Some(HttpOf(vhost.value)) else None
  }

  function FullHttp(root: seq<Directive>): HttpView {
    map name | name in VhostNames(root) && VhostEnabled(Vhost(root, name)) :: HttpOf(Vhost(root, name).value)
  }

  /** A subscriber that hears that some section changed reads all those it holds again. */
  function ReadAgain(root: seq<Directive>, view: HttpView): HttpView {
    map name | name in view :: if Vhost(root, name).Some? then HttpOf(Vhost(root, name).value) else view[name]
  }

  function ApplyHttp(root: seq<Directive>, view: HttpView, n: Notice): HttpView {
    match n
    case VhostAdded(name) => if Vhost(root, name).Some? then view[name := HttpOf(Vhost(root, name).value)] else view
    case VhostRemoved(name) => view - {name}
    case HttpChanged => ReadAgain(root, view)
    case _ => view
  }

  function ApplyHttpAll(root: seq<Directive>, view: HttpView, ns: seq<Notice>): HttpView
    decreases ns
  {
    if ns == [] then view else ApplyHttpAll(root, ApplyHttp(root, view, ns[0]), ns[1..])
  }

  function HttpAt(view: HttpView, name: string): Option<Option<Directive>> {
    if name in view then Some(view[name]) else None
  }

  lemma {:induction false} ApplyHttpConcat(root: seq<Directive>, view: HttpView, a: seq<Notice>, b: seq<Notice>)
    ensures ApplyHttpAll(root, view, a + b) == ApplyHttpAll(root, ApplyHttpAll(root, view, a), b)
    decreases a
  {
    hide ApplyHttp;
    if a == [] {
      assert a + b == b;
    } else {
      assert (a + b)[1..] == a[1..] + b;
      ApplyHttpConcat(root, ApplyHttp(root, view, a[0]), a[1..], b);
    }
  }

  // ----- the notices of one vhost -----

  lemma {:induction false} ReadAgainAt(root: seq<Directive>, view: HttpView, name: string)
    ensures HttpAt(ReadAgain(root, view), name) ==
      if name in view && Vhost(root, name).Some? then Some(HttpOf(Vhost(root, name).value)) else HttpAt(view, name)
    ensures ReadAgain(root, ReadAgain(root, view)) == ReadAgain(root, view)
  {
    hide Vhost, HttpOf;
  }

  /** Of the notices about one vhost only this one matters, once or more often. */
  lemma {:induction false} AboutEffect(root: seq<Directive>, view: HttpView, vhost: string, ns: seq<Notice>)
    requires AllAbout(ns, vhost)
    ensures ApplyHttpAll(root, view, ns) == if HttpChanged in ns then ReadAgain(root, view) else view
    decreases ns
  {
    hide ReadAgain;
    if ns != [] {
      assert ns == [ns[0]] + ns[1..] && ns[0] in ns;
      assert forall n | n in ns[1..] :: n in ns;
      AboutEffect(root, ApplyHttp(root, view, ns[0]), vhost, ns[1..]);
      ReadAgainAt(root, view, vhost);
    }
  }

  lemma {:induction false} PartsTellHttp(ps: seq<Part>, vhost: string,
                                         newVhost: seq<Directive>, oldVhost: seq<Directive>)
    ensures HttpChanged in PartNotices(ps, vhost, newVhost, oldVhost) <==>
      HttpStatic in ps && HttpStatic.Changed(newVhost, oldVhost)
  {
    hide Part.Changed;
    if ps != [] {
      assert ps == [ps[0]] + ps[1..];
      PartsTellHttp(ps[1..], vhost, newVhost, oldVhost);
    }
  }

  lemma {:induction false} IngestsTellNoHttp(ds: seq<Directive>, vhost: string, other: seq<Directive>)
    ensures HttpChanged !in Removals(ds, vhost, other)
    ensures HttpChanged !in Additions(ds, vhost, other)
    ensures HttpChanged !in Updates(ds, vhost, other)
  {
    hide Stops, Starts, Restarts;
    if ds != [] {
      IngestsTellNoHttp(ds[1..], vhost, other);
    }
  }

  lemma {:induction false} DetailsTellHttpIff(vhost: string, newVhost: seq<Directive>, oldVhost: seq<Directive>)
    ensures HttpChanged in Details(vhost, newVhost, oldVhost) <==> HttpStatic.Changed(newVhost, oldVhost)
  {
    hide PartNotices, Parts, Removals, Additions, Updates, Named, Part.Changed, TranscodeDiffers;
    PartsTellHttp(Parts(), vhost, newVhost, oldVhost);
    EveryPartIsWatched(HttpStatic);
    IngestsTellNoHttp(Named(oldVhost, "ingest"), vhost, newVhost);
    IngestsTellNoHttp(Named(newVhost, "ingest"), vhost, oldVhost);
  }

  /** What a subscriber may hold of a vhost that has not been dealt with: the old section, or the new one early. */
  predicate Pending(at: Option<Option<Directive>>, newVhost: Option<Directive>, oldVhost: Option<Directive>) {
    || at == HttpEntry(oldVhost)
    || (VhostEnabled(oldVhost) && newVhost.Some? && at == Some(HttpOf(newVhost.value)))
  }

  lemma {:induction false} ReadAgainPending(root: seq<Directive>, oldRoot: seq<Directive>, view: HttpView, name: string)
    ensures Pending(HttpAt(view, name), Vhost(root, name), Vhost(oldRoot, name)) ==>
      Pending(HttpAt(ReadAgain(root, view), name), Vhost(root, name), Vhost(oldRoot, name))
    ensures HttpAt(view, name) == HttpEntry(Vhost(root, name)) ==>
      HttpAt(ReadAgain(root, view), name) == HttpEntry(Vhost(root, name))
  {
    hide Vhost, HttpOf, VhostEnabled, ReadAgain;
    ReadAgainAt(root, view, name);
  }

  lemma {:induction false} UnchangedHttp(newVhost: Directive, oldVhost: Directive)
    requires !HttpStatic.Changed(newVhost.children, oldVhost.children)
    ensures HttpOf(newVhost) == HttpOf(oldVhost)
  {
    hide Get, Equals;
    EqualsSamePlain(Get(newVhost.children, "http_static"), Get(oldVhost.children, "http_static"));
  }

  lemma {:induction false} VhostHttpEffect(name: string, root: seq<Directive>, oldRoot: seq<Directive>, view: HttpView)
    requires Pending(HttpAt(view, name), Vhost(root, name), Vhost(oldRoot, name))
    requires !EdgeChanged(name, root, oldRoot)
    ensures var r := ApplyHttpAll(root, view, VhostNotices(name, root, oldRoot));
      && HttpAt(r, name) == HttpEntry(Vhost(root, name))
      && forall other | other != name :: HttpAt(r, other) == HttpAt(view, other) ||
           HttpAt(r, other) == HttpAt(ReadAgain(root, view), other)
  {
    hide Vhost, HttpOf, Details, VhostEnabled, ReadAgain, EdgeChanged, Part.Changed;
    var oldVhost, newVhost := Vhost(oldRoot, name), Vhost(root, name);
    if VhostEnabled(oldVhost) && VhostEnabled(newVhost) {
      hide ApplyHttpAll;
      EnabledVhostIsThere(oldVhost);
      EnabledVhostIsThere(newVhost);
      DetailsAbout(name, newVhost.value.children, oldVhost.value.children);
      DetailsTellHttpIff(name, newVhost.value.children, oldVhost.value.children);
      AboutEffect(root, view, name, Details(name, newVhost.value.children, oldVhost.value.children));
      ReadAgainAt(root, view, name);
      if !HttpStatic.Changed(newVhost.value.children, oldVhost.value.children) {
        UnchangedHttp(newVhost.value, oldVhost.value);
      }
    } else if VhostEnabled(oldVhost) != VhostEnabled(newVhost) {
      if VhostEnabled(newVhost) {
        EnabledVhostIsThere(newVhost);
      }
      ApplyHttpOne(root, view, VhostNotices(name, root, oldRoot)[0]);
    }
  }

  lemma {:induction false} ApplyHttpOne(root: seq<Directive>, view: HttpView, n: Notice)
    ensures ApplyHttpAll(root, view, [n]) == ApplyHttp(root, view, n)
  {
    hide ApplyHttp;
    assert [n][1..] == [];
  }

  // ----- all vhosts -----

  lemma {:induction false} PlanHttpEffect(names: seq<string>, root: seq<Directive>, oldRoot: seq<Directive>,
                                          view: HttpView)
    requires Distinct(names) && Plan(names, root, oldRoot).1 == 0
    requires forall name | name in names :: Pending(HttpAt(view, name), Vhost(root, name), Vhost(oldRoot, name))
    ensures var r := ApplyHttpAll(root, view, Plan(names, root, oldRoot).0);
      && (forall name | name in names :: HttpAt(r, name) == HttpEntry(Vhost(root, name)))
      && (forall name | name !in names && HttpAt(view, name) == HttpEntry(Vhost(root, name)) ::
            HttpAt(r, name) == HttpEntry(Vhost(root, name)))
    decreases names
  {
    hide ApplyHttp, Vhost, VhostNotices, EdgeChanged, HttpEntry, HttpAt, Pending, ReadAgain;
    if names != [] {
      var name, rest := names[0], names[1..];
      assert names == [name] + rest;
      assert name !in rest;
      VhostHttpEffect(name, root, oldRoot, view);
      var view1 := ApplyHttpAll(root, view, VhostNotices(name, root, oldRoot));
      forall other | other != name
        ensures Pending(HttpAt(view, other), Vhost(root, other), Vhost(oldRoot, other)) ==>
          Pending(HttpAt(view1, other), Vhost(root, other), Vhost(oldRoot, other))
        ensures HttpAt(view, other) == HttpEntry(Vhost(root, other)) ==>
          HttpAt(view1, other) == HttpEntry(Vhost(root, other))
      {
        ReadAgainPending(root, oldRoot, view, other);
      }
      ApplyHttpConcat(root, view, VhostNotices(name, root, oldRoot), Plan(rest, root, oldRoot).0);
      PlanHttpEffect(rest, root, oldRoot, view1);
    }
  }

  lemma {:induction false} FullHttpAt(root: seq<Directive>, name: string)
    ensures HttpAt(FullHttp(root), name) == HttpEntry(Vhost(root, name))
  {
    hide HttpOf, Vhost, VhostNames;
    VhostNamed(root, name);
  }

  lemma {:induction false} OtherHttp(root: seq<Directive>, oldRoot: seq<Directive>, name: string)
    requires name !in AllNames(root, oldRoot)
    ensures HttpEntry(Vhost(root, name)) == HttpEntry(Vhost(oldRoot, name)) == None
  {
    hide Vhost, VhostNames, GoneNames, HttpOf;
    VhostNamed(root, name);
    VhostNamed(oldRoot, name);
    GoneNamed(oldRoot, root, name);
  }

  /** After a reload that nobody refuses, every http_static section held is the new one. */
  lemma {:induction false} HttpIsDiff(root: seq<Directive>, oldRoot: seq<Directive>)
    requires UniqueIds(root, "vhost") && UniqueIds(oldRoot, "vhost")
    requires Plan(AllNames(root, oldRoot), root, oldRoot).1 == 0
    ensures ApplyHttpAll(root, FullHttp(oldRoot), Plan(AllNames(root, oldRoot), root, oldRoot).0) == FullHttp(root)
  {
    hide Vhost, HttpEntry, Plan, ApplyHttpAll, FullHttp, AllNames, Distinct, UniqueIds;
    var names := AllNames(root, oldRoot);
    var r := ApplyHttpAll(root, FullHttp(oldRoot), Plan(names, root, oldRoot).0);
    AllNamesDistinct(root, oldRoot);
    forall name: string
      ensures HttpAt(FullHttp(oldRoot), name) == HttpEntry(Vhost(oldRoot, name))
      ensures HttpAt(FullHttp(root), name) == HttpEntry(Vhost(root, name))
      ensures name !in names ==> HttpEntry(Vhost(root, name)) == HttpEntry(Vhost(oldRoot, name))
    {
      FullHttpAt(oldRoot, name);
      FullHttpAt(root, name);
      if name !in names {
        OtherHttp(root, oldRoot, name);
      }
    }
    PlanHttpEffect(names, root, oldRoot, FullHttp(oldRoot));
    SameHttp(r, FullHttp(root));
  }

  lemma {:induction false} SameHttp(a: HttpView, b: HttpView)
    requires forall name: string :: HttpAt(a, name) == HttpAt(b, name)
    ensures a == b
  {
    forall name: string
      ensures name in a <==> name in b
      ensures name in a ==> a[name] == b[name]
    {
      assert HttpAt(a, name) == HttpAt(b, name);
    }
  }
}
