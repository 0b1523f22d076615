/** What a reload tells its subscribers, and that it is the difference of two configurations. */
module ConfReload {
  import opened Messages
  import opened ConfDirectives

  const ERROR_RTMP_EDGE_RELOAD := 2023

  // ----- getters -----

  predicate VhostEnabled(vhost: Option<Directive>) {
    vhost.Some? &&
    var conf := Get(vhost.value.children, "enabled");
    conf.None? || conf.value.Arg0() == "" || conf.value.Arg0() != "off"
  }

  predicate VhostIsEdge(vhost: Option<Directive>) {
    vhost.Some? &&
    var cluster := Get(vhost.value.children, "cluster");
    cluster.Some? &&
    var mode := Get(cluster.value.children, "mode");
    mode.Some? && mode.value.Arg0() == "remote"
  }

  predicate IngestEnabled(ingest: Option<Directive>) {
    ingest.Some? &&
    var conf := Get(ingest.value.children, "enabled");
    conf.Some? && conf.value.Arg0() == "on"
  }

  function Vhost(root: seq<Directive>, name: string): Option<Directive> {
    Get2(root, "vhost", name)
  }

  function DvrApply(vhost: seq<Directive>): Option<Directive> {
    var dvr := Get(vhost, "dvr");
    if dvr.Some? then Get(dvr.value.children, "dvr_apply") else None
  }

  /** The comparison that passes over the children whose name is `except` on the left. */
  predicate EqualsExceptDeep(a: Directive, b: Directive, except: string)
    decreases a
  {
    && EqualsSelf(a, b)
    && forall i | 0 <= i < |a.children| ::
        a.children[i].name == except || EqualsExceptDeep(a.children[i], b.children[i], except)
  }

  predicate EqualsExcept(a: Option<Directive>, b: Option<Directive>, except: string) {
    if a.None? && b.None? then true
    else if a.None? || b.None? then false
    else EqualsExceptDeep(a.value, b.value, except)
  }

  // ----- notices -----

  /** The parts of a vhost whose change is announced. */
  datatype Part = ChunkSize | TcpNodelay | MinLatency | Play | Forward | Dash | Hls | Hds | Dvr | DvrFilter
    | Exec | Publish | HttpStatic | HttpRemux
  {
    function Name(): string {
      match this
      case ChunkSize => "chunk_size"
      case TcpNodelay => "tcp_nodelay"
      case MinLatency => "min_latency"
      case Play => "play"
      case Forward => "forward"
      case Dash => "dash"
      case Hls => "hls"
      case Hds => "hds"
      case Dvr => "dvr"
      case DvrFilter => "dvr_apply"
      case Exec => "exec"
      case Publish => "publish"
      case HttpStatic => "http_static"
      case HttpRemux => "http_remux"
    }

    function Content(vhost: seq<Directive>): Option<Directive> {
      if DvrFilter? then DvrApply(vhost) else Get(vhost, Name())
    }

    predicate Changed(newVhost: seq<Directive>, oldVhost: seq<Directive>) {
      if Dvr? then !EqualsExcept(Content(newVhost), Content(oldVhost), "dvr_apply")
      else !Equals(Content(newVhost), Content(oldVhost))
    }
  }

  datatype Notice =
    | VhostAdded(vhost: string)
    | VhostRemoved(vhost: string)
    | PartChanged(vhost: string, part: Part)
    | HttpChanged
    | TranscodeChanged(vhost: string)
    | IngestRemoved(vhost: string, id: string)
    | IngestAdded(vhost: string, id: string)
    | IngestUpdated(vhost: string, id: string)

  /** The parts in the order they are looked at. */
  function Parts(): seq<Part> {
    [ChunkSize, TcpNodelay, MinLatency, Play, Forward, Dash, Hls, Hds, Dvr, DvrFilter, Exec, Publish,
     HttpStatic, HttpRemux]
  }

  /** The notice about http_static does not say which vhost it is about. */
  function PartNotice(p: Part, vhost: string): Notice {
    if p.HttpStatic? then HttpChanged else PartChanged(vhost, p)
  }

  function PartNotices(ps: seq<Part>, vhost: string, newVhost: seq<Directive>,
      oldVhost: seq<Directive>): seq<Notice> {
    if ps == [] then []
    else
      (if ps[0].Changed(newVhost, oldVhost) then [PartNotice(ps[0], vhost)] else [])
      + PartNotices(ps[1..], vhost, newVhost, oldVhost)
  }

  /** The children of this name, in order. */
  function Named(ds: seq<Directive>, name: string): (r: seq<Directive>)
    ensures forall d :: d in r <==> d in ds && d.name == name
  {
    if ds == [] then [] else (if ds[0].name == name then [ds[0]] else []) + Named(ds[1..], name)
  }

  predicate Missing(d: Directive, ds: seq<Directive>) {
    Get2(ds, "transcode", d.Arg0()).None?
  }

  predicate Differs(d: Directive, ds: seq<Directive>) {
    !Equals(Some(d), Get2(ds, "transcode", d.Arg0()))
  }

  predicate TranscodeDiffers(newVhost: seq<Directive>, oldVhost: seq<Directive>) {
    || (exists d | d in Named(oldVhost, "transcode") :: Missing(d, newVhost))
    || (exists d | d in Named(newVhost, "transcode") :: Missing(d, oldVhost))
    || (exists d | d in Named(newVhost, "transcode") :: Differs(d, oldVhost))
  }

  function Ingest(vhost: seq<Directive>, id: string): Option<Directive> {
    Get2(vhost, "ingest", id)
  }

  predicate Stops(d: Directive, newVhost: seq<Directive>) {
    IngestEnabled(Some(d)) && !IngestEnabled(Ingest(newVhost, d.Arg0()))
  }

  predicate Starts(d: Directive, oldVhost: seq<Directive>) {
    !IngestEnabled(Ingest(oldVhost, d.Arg0())) && IngestEnabled(Some(d))
  }

  predicate Restarts(d: Directive, oldVhost: seq<Directive>) {
    IngestEnabled(Ingest(oldVhost, d.Arg0())) && IngestEnabled(Some(d)) && !Equals(Some(d), Ingest(oldVhost, d.Arg0()))
  }

  function Removals(ds: seq<Directive>, vhost: string, newVhost: seq<Directive>): seq<Notice> {
    if ds == [] then []
    else
      (if Stops(ds[0], newVhost) then [IngestRemoved(vhost, ds[0].Arg0())] else [])
      + Removals(ds[1..], vhost, newVhost)
  }

  function Additions(ds: seq<Directive>, vhost: string, oldVhost: seq<Directive>): seq<Notice> {
    if ds == [] then []
    else
      (if Starts(ds[0], oldVhost) then [IngestAdded(vhost, ds[0].Arg0())] else [])
      + Additions(ds[1..], vhost, oldVhost)
  }

  function Updates(ds: seq<Directive>, vhost: string, oldVhost: seq<Directive>): seq<Notice> {
    if ds == [] then []
    else
      (if Restarts(ds[0], oldVhost) then [IngestUpdated(vhost, ds[0].Arg0())] else [])
      + Updates(ds[1..], vhost, oldVhost)
  }

  function TranscodeNotices(vhost: string, newVhost: seq<Directive>, oldVhost: seq<Directive>): seq<Notice> {
    if TranscodeDiffers(newVhost, oldVhost) then [TranscodeChanged(vhost)] else []
  }

  function IngestNotices(vhost: string, newVhost: seq<Directive>, oldVhost: seq<Directive>): seq<Notice> {
    Removals(Named(oldVhost, "ingest"), vhost, newVhost)
    + Additions(Named(newVhost, "ingest"), vhost, oldVhost)
    + Updates(Named(newVhost, "ingest"), vhost, oldVhost)
  }

  /** What a vhost that is enabled before and after is worth telling. */
  function Details(vhost: string, newVhost: seq<Directive>, oldVhost: seq<Directive>): seq<Notice> {
    PartNotices(Parts(), vhost, newVhost, oldVhost)
    + TranscodeNotices(vhost, newVhost, oldVhost)
    + IngestNotices(vhost, newVhost, oldVhost)
  }

  predicate EdgeChanged(name: string, root: seq<Directive>, oldRoot: seq<Directive>) {
    && VhostEnabled(Vhost(oldRoot, name)) == VhostEnabled(Vhost(root, name))
    && VhostIsEdge(Vhost(oldRoot, name)) != VhostIsEdge(Vhost(root, name))
  }

  function VhostNotices(name: string, root: seq<Directive>, oldRoot: seq<Directive>): seq<Notice> {
    var oldVhost, newVhost := Vhost(oldRoot, name), Vhost(root, name);
    if !VhostEnabled(oldVhost) && VhostEnabled(newVhost) then [VhostAdded(name)]
    else if VhostEnabled(oldVhost) && !VhostEnabled(newVhost) then [VhostRemoved(name)]
    else if VhostEnabled(newVhost) && VhostEnabled(oldVhost) then
      Details(name, newVhost.value.children, oldVhost.value.children)
    else []
  }

  /** The vhosts of the new configuration, then those only the old one has. */
  function VhostNames(root: seq<Directive>): seq<string> {
    if root == [] then [] else (if root[0].IsVhost() then [root[0].Arg0()] else []) + VhostNames(root[1..])
  }

  function GoneNames(ds: seq<Directive>, root: seq<Directive>): seq<string> {
    if ds == [] then []
    else
      (if ds[0].IsVhost() && Vhost(root, ds[0].Arg0()).None? then [ds[0].Arg0()] else []) + GoneNames(ds[1..], root)
  }

  function AllNames(root: seq<Directive>, oldRoot: seq<Directive>): seq<string> {
    VhostNames(root) + GoneNames(oldRoot, root)
  }

  /** What a reload announces about these vhosts, and the code it ends with when nobody objects. */
  function Plan(names: seq<string>, root: seq<Directive>, oldRoot: seq<Directive>): (seq<Notice>, int) {
    if names == [] then ([], 0)
    else if EdgeChanged(names[0], root, oldRoot) then ([], ERROR_RTMP_EDGE_RELOAD)
    else
      var rest := Plan(names[1..], root, oldRoot);
      (VhostNotices(names[0], root, oldRoot) + rest.0, rest.1)
  }

  // ----- a subscriber's copy of the configuration -----

  /** What a subscriber knows of an enabled vhost, up to line numbers. */
  datatype VhostView = VhostView(
    parts: map<Part, Option<Directive>>,
    transcode: map<string, Directive>,
    ingests: map<string, Directive>
  )

  type View = map<string, VhostView>

  /** The notices about these parts name the vhost. */
  predicate Tracked(p: Part) {
    !p.HttpStatic?
  }

  /** The tree without line numbers and without what stands in the children named `except`. */
  function Mask(d: Directive, except: string): Directive
    decreases d
  {
    Directive(0, d.name, d.args, MaskAll(d.children, except))
  }

  function MaskAll(ds: seq<Directive>, except: string): (r: seq<Directive>)
    ensures |r| == |ds|
    decreases ds
  {
    if ds == [] then []
    else [if ds[0].name == except then New(except) else Mask(ds[0], except)] + MaskAll(ds[1..], except)
  }

  /** What a subscriber holds of a part; the filter of the recordings is a part of its own. */
  function Held(p: Part, vhost: seq<Directive>): Option<Directive> {
    var d := p.Content(vhost);
    if d.None? then None else if p.Dvr? then Some(Mask(d.value, "dvr_apply")) else Some(Plain(d.value))
  }

  function PlainOption(d: Option<Directive>): Option<Directive> {
    if d.None? then None else Some(Plain(d.value))
  }

  function Ids(ds: seq<Directive>, name: string): set<string> {
    set d | d in Named(ds, name) :: d.Arg0()
  }

  function PartsOf(vhost: seq<Directive>): map<Part, Option<Directive>> {
    map p: Part | Tracked(p) :: Held(p, vhost)
  }

  function Transcodes(vhost: seq<Directive>): map<string, Directive> {
    map id | id in Ids(vhost, "transcode") && Get2(vhost, "transcode", id).Some? ::
      Plain(Get2(vhost, "transcode", id).value)
  }

  function Ingests(vhost: seq<Directive>): map<string, Directive> {
    map id | id in Ids(vhost, "ingest") && IngestEnabled(Ingest(vhost, id)) :: Plain(Ingest(vhost, id).value)
  }

  function ViewOf(vhost: seq<Directive>): VhostView {
    VhostView(PartsOf(vhost), Transcodes(vhost), Ingests(vhost))
  }

  function FullView(root: seq<Directive>): View {
    map name | name in VhostNames(root) && VhostEnabled(Vhost(root, name)) :: ViewOf(Vhost(root, name).value.children)
  }

  /** A subscriber that hears of a part of a vhost reads that part again from the new configuration. */
  function Learn(vhost: seq<Directive>, v: VhostView, n: Notice): VhostView {
    match n
    case PartChanged(_, p) => if Tracked(p) then v.(parts := v.parts[p := Held(p, vhost)]) else v
    case TranscodeChanged(_) => v.(transcode := Transcodes(vhost))
    case IngestRemoved(_, id) => v.(ingests := v.ingests - {id})
    case IngestAdded(_, id) =>
      if Ingest(vhost, id).Some? then v.(ingests := v.ingests[id := Plain(Ingest(vhost, id).value)]) else v
    case IngestUpdated(_, id) =>
      if Ingest(vhost, id).Some? then v.(ingests := v.ingests[id := Plain(Ingest(vhost, id).value)]) else v
    case _ => v
  }

  function Apply(root: seq<Directive>, view: View, n: Notice): View {
    match n
    case VhostAdded(name) =>
      if Vhost(root, name).Some? then view[name := ViewOf(Vhost(root, name).value.children)] else view
    case VhostRemoved(name) => view - {name}
    case HttpChanged => view
    case _ =>
      if n.vhost in view && Vhost(root, n.vhost).Some? then
        view[n.vhost := Learn(Vhost(root, n.vhost).value.children, view[n.vhost], n)]
      else view
  }

  function ApplyAll(root: seq<Directive>, view: View, ns: seq<Notice>): View
    decreases ns
  {
    if ns == [] then view else ApplyAll(root, Apply(root, view, ns[0]), ns[1..])
  }

  /** The names of the vhosts, and the ids within a vhost, are unique. */
  predicate UniqueIds(ds: seq<Directive>, name: string) {
    forall i, j | 0 <= i < j < |ds| && ds[i].name == name && ds[j].name == name :: ds[i].Arg0() != ds[j].Arg0()
  }

  predicate Unique(root: seq<Directive>) {
    && UniqueIds(root, "vhost")
    && forall d | d in root && d.IsVhost() :: UniqueIds(d.children, "transcode") && UniqueIds(d.children, "ingest")
  }
}
