/** The CSI node service: staging and publishing volumes through a mount table and the
    formatting of zvol devices, with every host operation able to fail. */
module Node {
  import opened Prelude
  import opened VolumeId
  import opened Controller

  /** What a path carries. Foreign mounts were not made by the driver. */
  datatype Mounted = Bind(source: string, readonly: bool)
                   | NfsMount(server: string, path: string, options: string, readonly: bool)
                   | Foreign

  /** `mounts` stacks the mounts on a path, latest last; `formatted` is what blkid reports;
      `mkfs` lists the devices formatted so far. */
  datatype Host = Host(mounts: map<string, seq<Mounted>>, formatted: map<string, string>, mkfs: seq<string>)

  /** Which host operations of one call fail. A failed remount leaves the bind in place. */
  datatype HostFaults = HostFaults(blkid: bool, mkfs: bool, ensure: bool, findmnt: bool, mount: bool,
                                   remount: bool, umount: bool, dataset: bool)

  const NoHostFaults := HostFaults(false, false, false, false, false, false, false, false)

  datatype NodeRequest = NodeRequest(volumeId: string, cap: Option<Access>, context: map<string, string>,
                                     staging: string, target: string, readonly: bool)

  type Answer = Option<RpcError>

  function Stack(h: Host, path: string): (r: seq<Mounted>) {
    if path in h.mounts then h.mounts[path] else []
  }

  function KindFromContext(context: map<string, string>): (r: string) {
    FirstNonEmpty(Param(context, "volumeKind"), "filesystem")
  }

  function MountFsType(cap: Access): (r: string) {
    if cap.Mount? then FirstNonEmpty(cap.fsType, "ext4") else "ext4"
  }

  function HostPath(cfg: Config, p: string): (r: string) {
    if cfg.hostRootPrefix == "" || p == "" || cfg.hostRootPrefix <= p then p else cfg.hostRootPrefix + p
  }

  // ----- the host operations -----

  function Push(h: Host, path: string, m: Mounted): (r: Host) {
    h.(mounts := h.mounts[path := Stack(h, path) + [m]])
  }

  /** umount takes the topmost mount; an unmounted path is fine. */
  function Pop(h: Host, path: string): (r: Host) {
    var s := Stack(h, path);
    if s == [] then h else h.(mounts := h.mounts[path := s[..|s| - 1]])
  }

  /** Ensure the target, check it is not mounted yet, then mount. */
  function MountOnce(h: Host, path: string, m: Mounted, f: HostFaults): (r: (Host, Answer)) {
    if f.ensure || f.findmnt then (h, Some(Internal))
    else if Stack(h, path) != [] then (h, None)
    else if f.mount then (h, Some(Internal))
    else (Push(h, path, m), if m.Bind? && m.readonly && f.remount then Some(Internal) else None)
  }

  /** Format an unformatted device; refuse one that holds another filesystem. */
  function Format(h: Host, device: string, fs: string, f: HostFaults): (r: (Host, Answer)) {
    if f.blkid then (h, Some(Internal))
    else if device in h.formatted then (h, if h.formatted[device] == fs then None else Some(Internal))
    else if f.mkfs || (fs != "ext4" && fs != "xfs") then (h, Some(Internal))
    else (h.(formatted := h.formatted[device := fs], mkfs := h.mkfs + [device]), None)
  }

  // ----- the calls -----

  function Stage(h: Host, req: NodeRequest, f: HostFaults): (r: (Host, Answer)) {
    match Parse(req.volumeId)
    case Err(_) => (h, Some(InvalidArgument))
    case Ok(id) =>
      if req.cap.None? then (h, Some(InvalidArgument))
      else
        var kind := KindFromContext(req.context);
        if req.cap.value.Block? || kind == "filesystem" || kind == "nfs" then (h, None)
        else
          var device := ZvolDevicePath(id);
          var (h1, failed) := Format(h, device, MountFsType(req.cap.value), f);
          if failed.Some? then (h1, failed) else MountOnce(h1, req.staging, Bind(device, false), f)
  }

  function Unmount(h: Host, path: string, f: HostFaults): (r: (Host, Answer)) {
    if path == "" then (h, Some(InvalidArgument))
    else if f.umount then (h, Some(Internal))
    else (Pop(h, path), None)
  }

  /** What publishing would mount, or the error that stops it before anything is touched. */
  function SourceFor(cfg: Config, datasets: map<string, Dataset>, req: NodeRequest, id: Id, f: HostFaults)
    : (r: Result<Mounted, RpcError>)
    requires req.cap.Some?
  {
    var kind := KindFromContext(req.context);
    if kind == "nfs" then
      var server, path := Param(req.context, "nfsServer"), Param(req.context, "nfsPath");
      if server == "" || path == "" then Err(InvalidArgument)
      else Ok(NfsMount(server, path, Param(req.context, "mountOptions"), req.readonly))
    else if req.cap.value.Block? then Ok(Bind(HostPath(cfg, ZvolDevicePath(id)), req.readonly))
    else if kind == "filesystem" then
      if f.dataset || id.full !in datasets || datasets[id.full].mountpoint == "" then Err(Internal)
      else Ok(Bind(HostPath(cfg, datasets[id.full].mountpoint), req.readonly))
    else if req.staging == "" then Err(InvalidArgument)
    else Ok(Bind(req.staging, req.readonly))
  }

  function Publish(cfg: Config, datasets: map<string, Dataset>, h: Host, req: NodeRequest, f: HostFaults)
    : (r: (Host, Answer))
  {
    match Parse(req.volumeId)
    case Err(_) => (h, Some(InvalidArgument))
    case Ok(id) =>
      if req.cap.None? || req.target == "" then (h, Some(InvalidArgument))
      else match SourceFor(cfg, datasets, req, id, f)
        case Err(e) => (h, Some(e))
        case Ok(m) => MountOnce(h, req.target, m, f)
  }

  // ----- what the calls answer -----

  /** With a host root prefix a path is reached under it, exactly once; the empty path stays. */
  lemma HostPathExactly(cfg: Config, p: string)
    ensures cfg.hostRootPrefix == "" || p == "" ==> HostPath(cfg, p) == p
    ensures p != "" ==> cfg.hostRootPrefix <= HostPath(cfg, p) && HostPath(cfg, HostPath(cfg, p)) == HostPath(cfg, p)
    ensures p != "" && !(cfg.hostRootPrefix <= p) ==> HostPath(cfg, p) == cfg.hostRootPrefix + p
    ensures cfg.hostRootPrefix <= p ==> HostPath(cfg, p) == p
  {
  }

  /** The kind a context names, "filesystem" if it names none. */
  ghost predicate IsKind(context: map<string, string>, kind: string) {
    if "volumeKind" in context && context["volumeKind"] != "" then context["volumeKind"] == kind else kind == "filesystem"
  }

  /** A mount ends well: the path is made and checked, and either carries something already or
      takes the mount, read-only included. */
  ghost predicate Mounts(h: Host, path: string, m: Mounted, f: HostFaults) {
    !f.ensure && !f.findmnt && (Stack(h, path) != [] || (!f.mount && !(m.Bind? && m.readonly && f.remount)))
  }

  /** A mount is made exactly where there was none and making, checking and mounting work,
      and it stays even if the remount that makes it read-only fails. */
  lemma MountMadeExactly(h: Host, path: string, m: Mounted, f: HostFaults, other: string)
    ensures var (h', failed) := MountOnce(h, path, m, f);
            && (failed.None? <==> Mounts(h, path, m, f)) && (failed.Some? ==> failed.value == Internal)
            && Stack(h', path) == (if Stack(h, path) == [] && !f.ensure && !f.findmnt && !f.mount then [m] else Stack(h, path))
            && (other != path ==> Stack(h', other) == Stack(h, other))
            && h'.formatted == h.formatted && h'.mkfs == h.mkfs
  {
  }

  /** Staging succeeds exactly for a good id and capability when there is nothing to stage (a
      block device, a filesystem, NFS), or the device is or can be formatted as asked and the
      staging path mounts. */
  lemma StageAnswersExactly(h: Host, req: NodeRequest, f: HostFaults)
    ensures Stage(h, req, f).1.None? <==>
            && Parse(req.volumeId).Ok? && req.cap.Some?
            && (|| req.cap.value.Block? || IsKind(req.context, "filesystem") || IsKind(req.context, "nfs")
                || (var device := "/dev/zvol/" + req.volumeId;
                    var fs := if req.cap.value.Mount? && req.cap.value.fsType != "" then req.cap.value.fsType else "ext4";
                    && !f.blkid && (if device in h.formatted then h.formatted[device] == fs else !f.mkfs && (fs == "ext4" || fs == "xfs"))
                    && Mounts(h, req.staging, Bind(device, false), f)))
    ensures Stage(h, req, f).1 == Some(InvalidArgument) <==> Parse(req.volumeId).Err? || req.cap.None?
  {
    if Parse(req.volumeId).Ok? {
      EncodeParse(req.volumeId);
    }
  }

  /** What publishing mounts: server and path of the context for NFS; the device for a block
      volume; the dataset's mountpoint for a filesystem; else the staging path. */
  lemma SourceExactly(cfg: Config, datasets: map<string, Dataset>, req: NodeRequest, id: Id, f: HostFaults)
    requires req.cap.Some?
    ensures var r := SourceFor(cfg, datasets, req, id, f);
            if IsKind(req.context, "nfs") then
              var named := "nfsServer" in req.context && req.context["nfsServer"] != "" &&
                           "nfsPath" in req.context && req.context["nfsPath"] != "";
              r == if named then Ok(NfsMount(req.context["nfsServer"], req.context["nfsPath"],
                                             if "mountOptions" in req.context then req.context["mountOptions"] else "", req.readonly))
                   else Err(InvalidArgument)
            else if req.cap.value.Block? then r == Ok(Bind(HostPath(cfg, "/dev/zvol/" + id.full), req.readonly))
            else if IsKind(req.context, "filesystem") then
              r == if !f.dataset && id.full in datasets && datasets[id.full].mountpoint != ""
                   then Ok(Bind(HostPath(cfg, datasets[id.full].mountpoint), req.readonly)) else Err(Internal)
            else r == if req.staging != "" then Ok(Bind(req.staging, req.readonly)) else Err(InvalidArgument)
  {
  }

  /** Publishing succeeds exactly for a good id, capability and target with a source that mounts. */
  lemma PublishAnswersExactly(cfg: Config, datasets: map<string, Dataset>, h: Host, req: NodeRequest, f: HostFaults)
    ensures Publish(cfg, datasets, h, req, f).1.None? <==>
            && Parse(req.volumeId).Ok? && req.cap.Some? && req.target != ""
            && SourceFor(cfg, datasets, req, Parse(req.volumeId).value, f).Ok?
            && Mounts(h, req.target, SourceFor(cfg, datasets, req, Parse(req.volumeId).value, f).value, f)
  {
  }

  // ----- runs of calls -----

  datatype Call = CallStage(req: NodeRequest, f: HostFaults)
                | CallUnstage(path: string, f: HostFaults)
                | CallPublish(datasets: map<string, Dataset>, req: NodeRequest, f: HostFaults)
                | CallUnpublish(path: string, f: HostFaults)

  function Exec(cfg: Config, h: Host, c: Call): (r: Host) {
    match c
    case CallStage(req, f) => Stage(h, req, f).0
    case CallUnstage(path, f) => Unmount(h, path, f).0
    case CallPublish(datasets, req, f) => Publish(cfg, datasets, h, req, f).0
    case CallUnpublish(path, f) => Unmount(h, path, f).0
  }

  function Run(cfg: Config, h: Host, calls: seq<Call>): (r: Host) {
    if calls == [] then h else Exec(cfg, Run(cfg, h, calls[..|calls| - 1]), calls[|calls| - 1])
  }

  /** A driver mount is alone on its path. */
  ghost predicate DriverAlone(h: Host) {
    forall path, i | path in h.mounts && 0 <= i < |h.mounts[path]| && !h.mounts[path][i].Foreign? :: |h.mounts[path]| == 1
  }

  /** Compared with the beginning: no device that held a filesystem was formatted or lost
      it, none was formatted twice, and what was formatted holds a filesystem. */
  ghost predicate FormattedOnce(start: Host, h: Host) {
    && Distinct(h.mkfs)
    && (forall d | d in h.mkfs :: d !in start.formatted && d in h.formatted)
    && (forall d | d in start.formatted :: d in h.formatted && h.formatted[d] == start.formatted[d])
  }

  lemma MountOnceKeeps(start: Host, h: Host, path: string, m: Mounted, f: HostFaults)
    requires DriverAlone(h) && FormattedOnce(start, h)
    ensures DriverAlone(MountOnce(h, path, m, f).0) && FormattedOnce(start, MountOnce(h, path, m, f).0)
  {
  }

  lemma FormatKeeps(start: Host, h: Host, device: string, fs: string, f: HostFaults)
    requires DriverAlone(h) && FormattedOnce(start, h)
    ensures DriverAlone(Format(h, device, fs, f).0) && FormattedOnce(start, Format(h, device, fs, f).0)
  {
  }

  lemma ExecKeeps(cfg: Config, start: Host, h: Host, c: Call)
    requires DriverAlone(h) && FormattedOnce(start, h)
    ensures DriverAlone(Exec(cfg, h, c)) && FormattedOnce(start, Exec(cfg, h, c))
  {
    match c {
      case CallStage(req, f) => StageKeeps(start, h, req, f);
      case CallPublish(datasets, req, f) => PublishKeeps(cfg, datasets, start, h, req, f);
      case CallUnstage(path, f) => UnmountKeeps(start, h, path, f);
      case CallUnpublish(path, f) => UnmountKeeps(start, h, path, f);
    }
  }

  lemma StageKeeps(start: Host, h: Host, req: NodeRequest, f: HostFaults)
    requires DriverAlone(h) && FormattedOnce(start, h)
    ensures DriverAlone(Stage(h, req, f).0) && FormattedOnce(start, Stage(h, req, f).0)
  {
    if Parse(req.volumeId).Ok? && req.cap.Some? {
      var device := ZvolDevicePath(Parse(req.volumeId).value);
      var fs := MountFsType(req.cap.value);
      FormatKeeps(start, h, device, fs, f);
      MountOnceKeeps(start, Format(h, device, fs, f).0, req.staging, Bind(device, false), f);
    }
  }

  lemma PublishKeeps(cfg: Config, datasets: map<string, Dataset>, start: Host, h: Host, req: NodeRequest, f: HostFaults)
    requires DriverAlone(h) && FormattedOnce(start, h)
    ensures DriverAlone(Publish(cfg, datasets, h, req, f).0) && FormattedOnce(start, Publish(cfg, datasets, h, req, f).0)
  {
    if Parse(req.volumeId).Ok? && req.cap.Some? {
      var m := SourceFor(cfg, datasets, req, Parse(req.volumeId).value, f);
      if m.Ok? {
        MountOnceKeeps(start, h, req.target, m.value, f);
      }
    }
  }

  lemma UnmountKeeps(start: Host, h: Host, path: string, f: HostFaults)
    requires DriverAlone(h) && FormattedOnce(start, h)
    ensures DriverAlone(Unmount(h, path, f).0) && FormattedOnce(start, Unmount(h, path, f).0)
  {
  }

  /** Over any sequence of node calls on any volumes, with any failures: no device is ever
      formatted twice or over an existing filesystem, and no path ever carries a driver
      mount together with another mount. */
  lemma {:induction false} RunsKeep(cfg: Config, start: Host, calls: seq<Call>)
    requires DriverAlone(start) && start.mkfs == []
    ensures DriverAlone(Run(cfg, start, calls)) && FormattedOnce(start, Run(cfg, start, calls))
  {
    if calls != [] {
      var init := calls[..|calls| - 1];
      RunsKeep(cfg, start, init);
      ExecKeeps(cfg, start, Run(cfg, start, init), calls[|calls| - 1]);
    }
  }

  /** So a single unmount always clears what the driver put on a path, and repeating it
      changes nothing. */
  lemma UnmountClears(cfg: Config, start: Host, calls: seq<Call>, path: string, f: HostFaults)
    requires DriverAlone(start) && start.mkfs == [] && path != "" && !f.umount
    requires var s := Stack(Run(cfg, start, calls), path); exists i :: 0 <= i < |s| && !s[i].Foreign?
    ensures var (h, answer) := Unmount(Run(cfg, start, calls), path, f);
            answer == None && Stack(h, path) == [] && Unmount(h, path, f) == (h, None)
  {
    RunsKeep(cfg, start, calls);
  }

  /** A call that succeeded can be repeated: staging and publishing are no-ops then. */
  lemma RepeatsAreNoOps(cfg: Config, datasets: map<string, Dataset>, h: Host, req: NodeRequest, f: HostFaults)
    ensures Stage(h, req, f).1.None? ==> Stage(Stage(h, req, f).0, req, f) == Stage(h, req, f)
    ensures Publish(cfg, datasets, h, req, f).1.None? ==>
              Publish(cfg, datasets, Publish(cfg, datasets, h, req, f).0, req, f) == Publish(cfg, datasets, h, req, f)
  {
  }

  // ----- from CreateVolume to the mount -----

  /** What publishing a volume of each kind must mount. */
  ghost function Expected(cfg: Config, datasets: map<string, Dataset>, t: Target, params: Params, readonly: bool): (m: Mounted)
    requires t.full in datasets
  {
    match t.kind
    case Nfs => NfsMount(cfg.nfsServer, "/" + t.full, FirstNonEmpty(Param(params, "mountOptions"), DefaultNFSMountOptions), readonly)
    case Filesystem => Bind(HostPath(cfg, datasets[t.full].mountpoint), readonly)
    case Zvol => Bind(HostPath(cfg, "/dev/zvol/" + t.full), readonly)
  }

  /** A request the round trip is promised for: one-segment pool and name, proper parent. */
  ghost predicate WellNamed(t: Target) {
    GoodPath(t.parent) && t.leaf != "" && '/' !in t.leaf && '/' !in t.pool
  }

  /** The kind the node service reads back from the context. */
  lemma ContextKind(cfg: Config, t: Target, params: Params)
    ensures KindFromContext(VolumeOf(cfg, t, params).context) == if t.kind.Nfs? then "nfs" else ZfsType(t.kind)
  {
  }

  /** The source publishing picks for a created volume. */
  lemma SourceOfCreated(cfg: Config, datasets: map<string, Dataset>, t: Target, params: Params, req: NodeRequest)
    requires WellNamed(t) && t.pool != "" && Parse(t.full).Ok? && t.full in datasets
    requires t.kind.Nfs? ==> cfg.nfsServer != "" && DatasetSubpath(t.pool, t.full) != ""
    requires t.kind.Filesystem? ==> datasets[t.full].mountpoint != ""
    requires req.context == VolumeOf(cfg, t, params).context && req.cap.Some? && (t.kind.Zvol? <==> req.cap.value.Block?)
    ensures SourceFor(cfg, datasets, req, Parse(t.full).value, NoHostFaults) == Ok(Expected(cfg, datasets, t, params, req.readonly))
  {
    ContextKind(cfg, t, params);
    EncodeParse(t.full);
    if t.kind.Nfs? {
      ExportPathExactly(cfg, t, params);
      assert req.context["nfsServer"] == cfg.nfsServer && req.context["nfsPath"] == "/" + t.full;
    }
  }

  /** For every request CreateVolume accepts, on whatever store and after whatever failures:
      the volume id parses back to the parent and name it was built from; staging with any of
      the request's capabilities touches nothing, whatever fails, so no device is ever
      formatted on this path; and publishing to a free target mounts exactly the source that
      belongs to the volume, which for a new dataset is its own name. */
  lemma {:induction false} CreatedVolumeMounts(cfg: Config, s: Store, req: CreateRequest, g: Faults, node: NodeRequest, h: Host, f: HostFaults)
    requires Create(cfg, s, req, g).1.Ok? && WellNamed(TargetOf(cfg, req).value)
    requires var t := TargetOf(cfg, req).value;
             && (t.kind.Nfs? ==> cfg.nfsServer != "")
             && (t.kind.Filesystem? && t.full in s.datasets ==> s.datasets[t.full].mountpoint != "")
    requires node.volumeId == Create(cfg, s, req, g).1.value.id && node.context == Create(cfg, s, req, g).1.value.context
    requires node.cap.Some? && node.cap.value in req.caps && node.target != "" && Stack(h, node.target) == []
    ensures var t := TargetOf(cfg, req).value;
            var datasets := Create(cfg, s, req, g).0.datasets;
            var id := Parse(node.volumeId);
            && id.Ok? && id.value.parent == t.parent && id.value.leaf == req.name
            && Stage(h, node, f) == (h, None)
            && t.full in datasets && (t.full !in s.datasets ==> datasets[t.full].mountpoint == "/" + t.full)
            && Publish(cfg, datasets, h, node, NoHostFaults)
               == (Push(h, node.target, Expected(cfg, datasets, t, req.params, node.readonly)), None)
  {
    var t := TargetOf(cfg, req).value;
    AcceptedCreate(cfg, s, req, g);
    var datasets := Create(cfg, s, req, g).0.datasets;
    KeepsExisting(cfg, s, req, g);
    assert node.volumeId == t.full;
    ParseEncodeExactly(t.parent, t.leaf);
    ContextKind(cfg, t, req.params);
    CapsMatchKind(cfg, req, node.cap.value);
    SourceOfCreated(cfg, datasets, t, req.params, node);
    MountsFree(cfg, datasets, h, node, Expected(cfg, datasets, t, req.params, node.readonly));
    StagesNothing(h, node, f);
  }

  /** A create never changes a dataset that is there. */
  lemma KeepsExisting(cfg: Config, s: Store, req: CreateRequest, g: Faults)
    requires TargetOf(cfg, req).Ok?
    ensures TargetOf(cfg, req).value.full in s.datasets ==> Create(cfg, s, req, g).0 == s
  {
  }

  lemma CapsMatchKind(cfg: Config, req: CreateRequest, cap: Access)
    requires TargetOf(cfg, req).Ok? && cap in req.caps
    ensures TargetOf(cfg, req).value.kind.Zvol? <==> cap.Block?
  {
  }

  lemma MountsFree(cfg: Config, datasets: map<string, Dataset>, h: Host, req: NodeRequest, m: Mounted)
    requires Parse(req.volumeId).Ok? && req.cap.Some? && req.target != "" && Stack(h, req.target) == []
    requires SourceFor(cfg, datasets, req, Parse(req.volumeId).value, NoHostFaults) == Ok(m)
    ensures Publish(cfg, datasets, h, req, NoHostFaults) == (Push(h, req.target, m), None)
  {
  }

  lemma StagesNothing(h: Host, req: NodeRequest, f: HostFaults)
    requires Parse(req.volumeId).Ok? && req.cap.Some?
    requires req.cap.value.Block? || KindFromContext(req.context) == "filesystem" || KindFromContext(req.context) == "nfs"
    ensures Stage(h, req, f) == (h, None)
  {
  }

  // ----- the service as it runs -----

  /** Nothing but the mounts on one path differs. */
  ghost predicate OnlyAt(h: Host, h': Host, path: string) {
    h'.formatted == h.formatted && h'.mkfs == h.mkfs && forall p | p != path :: Stack(h', p) == Stack(h, p)
  }

  class NodeService {
    const cfg: Config
    var host: Host

    constructor (cfg: Config, host: Host)
      ensures this.cfg == cfg && this.host == host
    {
      this.cfg := cfg;
      this.host := host;
    }

    /** Formats at most the volume's own device, once and only if it held nothing; success on
        a volume that needs staging leaves it formatted as asked and something mounted. */
    method NodeStageVolume(req: NodeRequest, f: HostFaults) returns (failed: Answer)
      modifies this
      ensures (host, failed) == Stage(old(host), req, f)
      ensures old(host).mkfs <= host.mkfs && |host.mkfs| <= |old(host).mkfs| + 1
      ensures forall d | d in host.mkfs[|old(host).mkfs|..] ::
                d !in old(host).formatted && Parse(req.volumeId).Ok? && d == ZvolDevicePath(Parse(req.volumeId).value)
      ensures failed.None? && KindFromContext(req.context) == "volume" && !req.cap.value.Block? ==>
                var device := ZvolDevicePath(Parse(req.volumeId).value);
                device in host.formatted && host.formatted[device] == MountFsType(req.cap.value) && Stack(host, req.staging) != []
    {
      var id := Parse(req.volumeId);
      if id.Err? || req.cap.None? {
        return Some(InvalidArgument);
      }
      var kind := KindFromContext(req.context);
      if req.cap.value.Block? || kind == "filesystem" || kind == "nfs" {
        return None;
      }
      var device, fs := ZvolDevicePath(id.value), MountFsType(req.cap.value);
      if f.blkid {
        return Some(Internal);
      }
      if device !in host.formatted {
        if f.mkfs || (fs != "ext4" && fs != "xfs") {
          return Some(Internal);
        }
        host := host.(formatted := host.formatted[device := fs], mkfs := host.mkfs + [device]);
      } else if host.formatted[device] != fs {
        return Some(Internal);
      }
      failed := MountAt(req.staging, Bind(device, false), f);
    }

    /** Touches only the path, and only if it carries nothing; success leaves a mount on it,
        the one asked for where there was none. */
    method MountAt(path: string, m: Mounted, f: HostFaults) returns (failed: Answer)
      modifies this
      ensures (host, failed) == MountOnce(old(host), path, m, f)
      ensures OnlyAt(old(host), host, path)
      ensures Stack(old(host), path) != [] ==> host == old(host)
      ensures failed.None? <==> Mounts(old(host), path, m, f)
      ensures Stack(host, path) == if Stack(old(host), path) == [] && !f.ensure && !f.findmnt && !f.mount then [m]
                                   else Stack(old(host), path)
    {
      if f.ensure || f.findmnt {
        return Some(Internal);
      }
      if Stack(host, path) != [] {
        return None;
      }
      if f.mount {
        return Some(Internal);
      }
      host := Push(host, path, m);
      if m.Bind? && m.readonly && f.remount {
        return Some(Internal);
      }
      return None;
    }

    /** Formats nothing and touches only the target; success leaves a mount there, the
        volume's source if the target was free. */
    method NodePublishVolume(datasets: map<string, Dataset>, req: NodeRequest, f: HostFaults) returns (failed: Answer)
      modifies this
      ensures (host, failed) == Publish(cfg, datasets, old(host), req, f)
      ensures OnlyAt(old(host), host, req.target)
      ensures failed.None? ==> Stack(host, req.target) != []
      ensures failed.None? && Stack(old(host), req.target) == [] ==>
                Parse(req.volumeId).Ok? && req.cap.Some? &&
                var m := SourceFor(cfg, datasets, req, Parse(req.volumeId).value, f);
                m.Ok? && Stack(host, req.target) == [m.value]
    {
      var id := Parse(req.volumeId);
      if id.Err? || req.cap.None? || req.target == "" {
        return Some(InvalidArgument);
      }
      var kind := KindFromContext(req.context);
      var source: Mounted;
      if kind == "nfs" {
        var server, path := Param(req.context, "nfsServer"), Param(req.context, "nfsPath");
        if server == "" || path == "" {
          return Some(InvalidArgument);
        }
        source := NfsMount(server, path, Param(req.context, "mountOptions"), req.readonly);
      } else if req.cap.value.Block? {
        source := Bind(HostPath(cfg, ZvolDevicePath(id.value)), req.readonly);
      } else if kind == "filesystem" {
        if f.dataset || id.value.full !in datasets || datasets[id.value.full].mountpoint == "" {
          return Some(Internal);
        }
        source := Bind(HostPath(cfg, datasets[id.value.full].mountpoint), req.readonly);
      } else {
        if req.staging == "" {
          return Some(InvalidArgument);
        }
        source := Bind(req.staging, req.readonly);
      }
      failed := MountAt(req.target, source, f);
    }

    /** NodeUnstageVolume and NodeUnpublishVolume: touches only the path, and success on one
        that carries a single mount, or none, leaves it clear. */
    method UnmountPath(path: string, f: HostFaults) returns (failed: Answer)
      modifies this
      ensures (host, failed) == Unmount(old(host), path, f)
      ensures OnlyAt(old(host), host, path)
      ensures failed.None? <==> path != "" && !f.umount
      ensures failed.None? ==> var s := Stack(old(host), path); Stack(host, path) == if s == [] then [] else s[..|s| - 1]
      ensures failed.Some? ==> host == old(host)
    {
      if path == "" {
        return Some(InvalidArgument);
      }
      if f.umount {
        return Some(Internal);
      }
      host := Pop(host, path);
      return None;
    }

    /** Any sequence of calls on a host where no driver mount shares its path: that stays so,
        and no device is formatted twice or over a filesystem. */
    method Serve(calls: seq<Call>)
      requires DriverAlone(host) && host.mkfs == []
      modifies this
      ensures host == Run(cfg, old(host), calls)
      ensures DriverAlone(host) && FormattedOnce(old(host), host)
    {
      for i := 0 to |calls|
        invariant host == Run(cfg, old(host), calls[..i])
      {
        assert calls[..i + 1][..i] == calls[..i];
        match calls[i] {
          case CallStage(req, f) => var _ := NodeStageVolume(req, f);
          case CallUnstage(path, f) => var _ := UnmountPath(path, f);
          case CallPublish(datasets, req, f) => var _ := NodePublishVolume(datasets, req, f);
          case CallUnpublish(path, f) => var _ := UnmountPath(path, f);
        }
      }
      assert calls[..|calls|] == calls;
      RunsKeep(cfg, old(host), calls);
    }
  }
}
