/** The CSI controller: CreateVolume, DeleteVolume and ControllerExpandVolume over the
    server's datasets and NFS exports, with every API call and every step of the server's
    jobs able to fail. */
module Controller {
  import opened Prelude
  import opened VolumeId
  import opened Capacity

  datatype RpcError = InvalidArgument | NotFound | AlreadyExists | Internal

  datatype Access = Mount(fsType: string) | Block | Unset
  datatype Kind = Filesystem | Zvol | Nfs

  datatype Config = Config(defaultPool: string, defaultParent: string, nfsServer: string,
                           defaultNFSClients: string, hostRootPrefix: string)

  type Params = map<string, string>

  datatype CreateRequest = CreateRequest(name: string, caps: seq<Access>, params: Params, range: Option<Range>)

  datatype Volume = Volume(id: string, capacity: int, context: map<string, string>)

  /** `ztype` is the ZFS type property, "filesystem" or "volume". */
  datatype Dataset = Dataset(ztype: string, volsize: int, quota: int, mountpoint: string, props: map<string, string>)

  /** An export is one file per share name, whatever the dataset: `exports` gives the
      dataset that the file of a name exports. */
  datatype Store = Store(datasets: map<string, Dataset>, exports: map<string, string>)

  /** How an export file's change goes: done; not made; or made, but reloading the kernel
      table fails afterwards. */
  datatype ExportStep = Done | Unwritten | Unloaded

  /** What fails in one RPC: the lookup; the request for the change; the job's dataset step;
      its export step; the rollback's destroy; the wait for the job. */
  datatype Faults = Faults(get: bool, change: bool, dataset: bool, file: ExportStep, undo: bool, wait: bool)

  const NoFaults := Faults(false, false, false, Done, false, false)

  function Param(params: Params, key: string): (r: string) {
    if key in params then params[key] else ""
  }

  function FirstNonEmpty(a: string, b: string): (r: string) {
    if a != "" then a else b
  }

  function DefaultParent(cfg: Config, pool: string): (r: string) {
    if cfg.defaultParent != "" then cfg.defaultParent
    else
      var p := FirstNonEmpty(pool, cfg.defaultPool);
      if p == "" then "" else p + "/csi"
  }

  // ----- classifying capabilities -----

  /** strings.EqualFold(s, "nfs"); the long s folds to s. */
  predicate IsNfs(s: string) {
    |s| == 3 && s[0] in "nN" && s[1] in "fF" && (s[2] in "sS" || s[2] as int == 0x17F)
  }

  /** All capabilities carry the same access type; NFS needs mount access. */
  ghost function Classified(caps: seq<Access>, params: Params): (r: Result<Kind, RpcError>) {
    if caps == [] then Err(InvalidArgument)
    else if forall i | 0 <= i < |caps| :: caps[i].Mount? then
      Ok(if IsNfs(Param(params, "accessProtocol")) then Nfs else Filesystem)
    else if (forall i | 0 <= i < |caps| :: caps[i].Block?) && !IsNfs(Param(params, "accessProtocol")) then Ok(Zvol)
    else Err(InvalidArgument)
  }

  /** classify */
  method Classify(caps: seq<Access>, params: Params) returns (r: Result<Kind, RpcError>)
    ensures r == Classified(caps, params)
  {
    if caps == [] {
      return Err(InvalidArgument);
    }
    var kind := Filesystem;
    for i := 0 to |caps|
      invariant i > 0 ==> kind == if caps[0].Mount? then Filesystem else Zvol
      invariant forall j | 0 <= j < i :: !caps[j].Unset? && caps[j].Mount? == caps[0].Mount?
    {
      if caps[i].Unset? {
        return Err(InvalidArgument);
      }
      var k := if caps[i].Mount? then Filesystem else Zvol;
      if i == 0 {
        kind := k;
        continue;
      }
      if k != kind {
        return Err(InvalidArgument);
      }
    }
    if IsNfs(Param(params, "accessProtocol")) {
      if kind != Filesystem {
        assert caps[0].Block?;
        return Err(InvalidArgument);
      }
      kind := Nfs;
    }
    assert kind == Zvol ==> caps[0].Block?;
    return Ok(kind);
  }

  // ----- create -----

  /** What a request asks for, before anything is looked up. */
  datatype Target = Target(kind: Kind, pool: string, parent: string, leaf: string, full: string, capacity: Int64)

  function CapacityFor(kind: Kind, range: Option<Range>): (c: Int64) {
    if kind.Zvol? then Requested(range) else RoundUp(Requested(range), MiB)
  }

  /** The capacity used is positive except when rounding it up overflows. */
  lemma CapacityPositiveExactly(kind: Kind, range: Option<Range>)
    ensures CapacityFor(kind, range) > 0 <==> kind.Zvol? || Requested(range) <= TwoTo63 - MiB
  {
    RoundUpExactly(Requested(range));
  }

  /** A required size is met, exactly by a zvol and within a MiB by a filesystem, up to the
      overflow; a limit on its own is kept exactly by a zvol, a multiple of a MiB, or an
      overflowing request. */
  lemma CapacityServesRange(kind: Kind, required: Int64, limit: Int64)
    ensures var c := CapacityFor(kind, Some(Range(required, limit)));
            && (required > 0 && kind.Zvol? ==> c == required)
            && (0 < required <= TwoTo63 - MiB && !kind.Zvol? ==> required <= c < required + MiB && c % MiB == 0)
            && (required <= 0 < limit ==> (c <= limit <==> kind.Zvol? || limit % MiB == 0 || limit > TwoTo63 - MiB))
  {
    if required > 0 {
      RoundUpExactly(required);
    } else if limit > 0 {
      RoundUpExactly(limit);
    }
  }

  ghost function TargetOf(cfg: Config, req: CreateRequest): (r: Result<Target, RpcError>) {
    if req.name == "" then Err(InvalidArgument)
    else match Classified(req.caps, req.params)
      case Err(e) => Err(e)
      case Ok(kind) =>
        var pool := FirstNonEmpty(Param(req.params, "pool"), cfg.defaultPool);
        if pool == "" then Err(InvalidArgument)
        else
          var parent := FirstNonEmpty(Param(req.params, "parent"), DefaultParent(cfg, pool));
          Ok(Target(kind, pool, parent, req.name, Encode(parent, req.name), CapacityFor(kind, req.range)))
  }

  function ZfsType(kind: Kind): (r: string) {
    if kind.Zvol? then "volume" else "filesystem"
  }

  function WithParam(props: map<string, string>, params: Params, key: string): (r: map<string, string>) {
    if Param(params, key) != "" then props[key := Param(params, key)] else props
  }

  function NewDataset(t: Target, params: Params): (d: Dataset) {
    var props := map["compression" := FirstNonEmpty(Param(params, "compression"), "lz4")];
    if t.kind.Zvol? then
      Dataset("volume", t.capacity, 0, "/" + t.full, WithParam(props, params, "volblocksize"))
    else
      Dataset("filesystem", 0, t.capacity, "/" + t.full, WithParam(props, params, "recordsize"))
  }

  function BuildVolume(t: Target, params: Params): (v: Volume) {
    Volume(t.full, t.capacity,
           if t.kind.Zvol? then map["volumeKind" := "volume", "fsType" := FirstNonEmpty(Param(params, "fsType"), "ext4")]
           else map["volumeKind" := "filesystem"])
  }

  predicate SizeCompatible(d: Dataset, kind: Kind, want: int) {
    if kind.Zvol? then d.volsize == 0 || d.volsize == want else d.quota == 0 || d.quota == want
  }

  /** The dataset has the type and a size the target asks for. */
  predicate Fits(d: Dataset, t: Target) {
    d.ztype == ZfsType(t.kind) && SizeCompatible(d, t.kind, t.capacity)
  }

  function CreatePlain(s: Store, t: Target, params: Params, f: Faults): (r: (Store, Result<Volume, RpcError>)) {
    if f.get then (s, Err(Internal))
    else if t.full in s.datasets then
      var existing := s.datasets[t.full];
      if Fits(existing, t) then (s, Ok(BuildVolume(t, params))) else (s, Err(AlreadyExists))
    else if f.change || f.dataset then (s, Err(Internal))
    else
      (s.(datasets := s.datasets[t.full := NewDataset(t, params)]),
       if f.wait then Err(Internal) else Ok(BuildVolume(t, params)))
  }

  /** datasetSubpath: the full name without "<pool>/", or empty. */
  function DatasetSubpath(pool: string, full: string): (r: string) {
    if pool + "/" <= full then full[|pool| + 1..] else ""
  }

  /** extractPool */
  function ExtractPool(full: string): (r: string) {
    if '/' in full && full[0] != '/' then Split(full)[0] else full
  }

  const DefaultNFSMountOptions := "vers=4.2,sec=krb5p,hard"

  function BuildNfsVolume(cfg: Config, t: Target, params: Params, dataset: string): (v: Volume) {
    Volume(t.full, t.capacity,
           map["volumeKind" := "nfs", "nfsServer" := cfg.nfsServer,
               "nfsPath" := "/" + ExtractPool(t.full) + "/" + dataset,
               "mountOptions" := FirstNonEmpty(Param(params, "mountOptions"), DefaultNFSMountOptions)])
  }

  /** A quota that is not positive is not sent. */
  function NfsDataset(t: Target): (d: Dataset) {
    Dataset("filesystem", 0, if t.capacity > 0 then t.capacity else 0, "/" + t.full, map["acltype" := "nfsv4"])
  }

  /** validateName on the server: the lookup fails for any other name. */
  predicate ShareName(name: string) {
    && 1 <= |name| <= 64 && name[0] != '-'
    && forall i | 0 <= i < |name| ::
         'a' <= name[i] <= 'z' || 'A' <= name[i] <= 'Z' || '0' <= name[i] <= '9' || name[i] == '_' || name[i] == '-'
  }

  /** The server's create job: dataset, then export; if the export fails the dataset is
      destroyed again, best-effort. A name that has an export is refused. */
  function ShareJob(s: Store, t: Target, f: Faults): (r: (Store, bool)) {
    var added := s.datasets[t.full := NfsDataset(t)];
    var left := if f.undo then added else s.datasets;
    if f.dataset then (s, false)
    else if t.leaf in s.exports || f.file.Unwritten? then (s.(datasets := left), false)
    else if f.file.Unloaded? then (Store(left, s.exports[t.leaf := t.full]), false)
    else (Store(added, s.exports[t.leaf := t.full]), true)
  }

  /** The server's share lookup reads the dataset and then the ACL at its path, which only a
      filesystem has; for a zvol it fails. */
  predicate IsShare(s: Store, full: string) {
    full in s.datasets && s.datasets[full].ztype == "filesystem"
  }

  /** createNFSVolume. */
  function CreateNfs(cfg: Config, s: Store, t: Target, params: Params, f: Faults): (r: (Store, Result<Volume, RpcError>)) {
    var dataset := DatasetSubpath(t.pool, t.full);
    if dataset == "" then (s, Err(InvalidArgument))
    else if f.get || !ShareName(t.leaf) then (s, Err(Internal))
    else
      var v := BuildNfsVolume(cfg, t, params, dataset);
      if IsShare(s, t.full) then (s, Ok(v))
      else if t.full in s.datasets || f.change then (s, Err(Internal))
      else
        var (s', done) := ShareJob(s, t, f);
        (s', if done && !f.wait then Ok(v) else Err(Internal))
  }

  ghost function Create(cfg: Config, s: Store, req: CreateRequest, f: Faults): (r: (Store, Result<Volume, RpcError>)) {
    match TargetOf(cfg, req)
    case Err(e) => (s, Err(e))
    case Ok(t) => if t.kind.Nfs? then CreateNfs(cfg, s, t, req.params, f) else CreatePlain(s, t, req.params, f)
  }

  // ----- delete and expand -----

  /** The server's delete job: export and dataset are removed, each best-effort. */
  function TearDown(s: Store, v: Id, f: Faults): (r: (Store, bool)) {
    (Store(if f.dataset then s.datasets else s.datasets - {v.full},
           if f.file.Unwritten? then s.exports else s.exports - {v.leaf}),
     !f.dataset && (v.leaf in s.exports ==> f.file.Done?))
  }

  /** DeleteVolume: a volume the share lookup finds is torn down as a share; otherwise, and
      when the lookup fails, only the dataset is destroyed. */
  function Delete(s: Store, id: string, f: Faults): (r: (Store, Result<(), RpcError>)) {
    match Parse(id)
    case Err(_) => (s, Err(InvalidArgument))
    case Ok(v) =>
      if DatasetSubpath(v.pool, v.full) != "" && !f.get && ShareName(v.leaf) && IsShare(s, v.full) then
        if f.change then (s, Err(Internal))
        else
          var (s', done) := TearDown(s, v, f);
          (s', if done && !f.wait then Ok(()) else Err(Internal))
      else if f.change then (s, Err(Internal))
      else if v.full !in s.datasets then (s, Ok(()))
      else if f.dataset then (s, Err(Internal))
      else (s.(datasets := s.datasets - {v.full}), if f.wait then Err(Internal) else Ok(()))
  }

  datatype Expansion = Expansion(capacity: int, nodeExpansion: bool)

  function Expand(s: Store, id: string, range: Option<Range>, cap: Option<Access>, f: Faults)
    : (r: (Store, Result<Expansion, RpcError>))
  {
    match Parse(id)
    case Err(_) => (s, Err(InvalidArgument))
    case Ok(v) =>
      if f.get then (s, Err(Internal))
      else if v.full !in s.datasets then (s, Err(NotFound))
      else
        var d := s.datasets[v.full];
        if d.ztype != "filesystem" && d.ztype != "volume" then (s, Err(Internal))
        else if f.change || f.dataset then (s, Err(Internal))
        else
          var isFs := d.ztype == "filesystem";
          var capacity := CapacityFor(if isFs then Filesystem else Zvol, range);
          var grown := s.(datasets := s.datasets[v.full := if isFs then d.(quota := capacity) else d.(volsize := capacity)]);
          (grown, if f.wait then Err(Internal) else Ok(Expansion(capacity, !isFs && cap.Some? && cap.value.Mount?)))
  }

  // ----- results -----

  /** The last segment of a volume's name. */
  function LeafOf(full: string): (r: string) {
    var parts := Split(full);
    parts[|parts| - 1]
  }

  lemma LeafOfTarget(parent: string, leaf: string)
    requires '/' !in leaf
    ensures LeafOf(Encode(parent, leaf)) == leaf
  {
    SplitWhole(leaf);
    SplitLast(parent, leaf);
  }

  /** A share name is one segment, so it is the last segment of its volume. */
  lemma ShareNameIsLeaf(cfg: Config, req: CreateRequest)
    requires TargetOf(cfg, req).Ok? && ShareName(req.name)
    ensures LeafOf(TargetOf(cfg, req).value.full) == req.name
  {
    assert '/' !in req.name;
    LeafOfTarget(TargetOf(cfg, req).value.parent, req.name);
  }

  /** Every export file exports an existing filesystem that ends in its name. */
  ghost predicate StoreOk(s: Store) {
    forall n | n in s.exports :: IsShare(s, s.exports[n]) && LeafOf(s.exports[n]) == n
  }

  /** Repeating an accepted request returns the same volume and leaves the store alone, even
      if a change or a wait would now fail, for nothing is changed any more. */
  lemma CreateIsIdempotent(cfg: Config, s: Store, req: CreateRequest, f: Faults, g: Faults)
    requires Create(cfg, s, req, f).1.Ok? && !g.get
    ensures var (s1, r) := Create(cfg, s, req, f); Create(cfg, s1, req, g) == (s1, r)
  {
    var t := TargetOf(cfg, req).value;
    if t.kind.Nfs? {
      NfsIsIdempotent(cfg, s, t, req.params, f, g);
    } else {
      PlainIsIdempotent(s, t, req.params, f, g);
    }
  }

  lemma PlainIsIdempotent(s: Store, t: Target, params: Params, f: Faults, g: Faults)
    requires CreatePlain(s, t, params, f).1.Ok? && !g.get && !t.kind.Nfs?
    ensures var (s1, r) := CreatePlain(s, t, params, f); CreatePlain(s1, t, params, g) == (s1, r)
  {
  }

  lemma NfsIsIdempotent(cfg: Config, s: Store, t: Target, params: Params, f: Faults, g: Faults)
    requires CreateNfs(cfg, s, t, params, f).1.Ok? && !g.get
    ensures var (s1, r) := CreateNfs(cfg, s, t, params, f); CreateNfs(cfg, s1, t, params, g) == (s1, r)
  {
  }

  /** An attempt at a new NFS volume that leaves its dataset or its export without the other:
      the export was refused or not written and the dataset not destroyed again, or the
      export was written but not loaded and the dataset was destroyed. */
  ghost predicate Half(s: Store, t: Target, f: Faults) {
    && t.kind.Nfs? && t.full !in s.datasets && DatasetSubpath(t.pool, t.full) != "" && ShareName(t.leaf)
    && !f.get && !f.change && !f.dataset
    && if t.leaf in s.exports || f.file.Unwritten? then f.undo else f.file.Unloaded? && !f.undo
  }

  /** After an attempt that failed anywhere, a clean retry ends in the store and with the
      answer of a clean first attempt if and only if the attempt left nothing half-made. */
  lemma RetryConvergesExactly(cfg: Config, s: Store, req: CreateRequest, f: Faults)
    requires TargetOf(cfg, req).Ok?
    ensures Create(cfg, Create(cfg, s, req, f).0, req, NoFaults) == Create(cfg, s, req, NoFaults)
       <==> !Half(s, TargetOf(cfg, req).value, f)
  {
    var t := TargetOf(cfg, req).value;
    if t.kind.Nfs? {
      NfsRetryExactly(cfg, s, t, req.params, f);
    } else {
      PlainRetryConverges(s, t, req.params, f);
    }
  }

  lemma PlainRetryConverges(s: Store, t: Target, params: Params, f: Faults)
    requires !t.kind.Nfs?
    ensures CreatePlain(CreatePlain(s, t, params, f).0, t, params, NoFaults) == CreatePlain(s, t, params, NoFaults)
  {
  }

  lemma NfsRetryExactly(cfg: Config, s: Store, t: Target, params: Params, f: Faults)
    requires t.kind.Nfs?
    ensures CreateNfs(cfg, CreateNfs(cfg, s, t, params, f).0, t, params, NoFaults) == CreateNfs(cfg, s, t, params, NoFaults)
       <==> !Half(s, t, f)
  {
    if Half(s, t, f) && t.leaf !in s.exports {
      assert t.leaf in CreateNfs(cfg, s, t, params, NoFaults).0.exports;
      if f.file.Unwritten? {
        LeftDatasetHidesExport(cfg, s, t, params, f, NoFaults);
      } else {
        UnloadedExportBlocks(cfg, s, t, params, f, NoFaults);
      }
    }
  }

  /** An export written but not loaded: its dataset is gone and the name is refused from
      then on, by every attempt, until something removes the export. */
  lemma UnloadedExportBlocks(cfg: Config, s: Store, t: Target, params: Params, f: Faults, g: Faults)
    requires Half(s, t, f) && t.leaf !in s.exports && f.file.Unloaded?
    ensures var s1 := CreateNfs(cfg, s, t, params, f).0;
            && t.full !in s1.datasets && t.leaf in s1.exports && s1.exports[t.leaf] == t.full
            && CreateNfs(cfg, s1, t, params, g).1.Err?
            && CreateNfs(cfg, s1, t, params, NoFaults) == (s1, Err(Internal))
  {
  }

  /** A dataset the rollback could not destroy: the retry is accepted without any export. */
  lemma LeftDatasetHidesExport(cfg: Config, s: Store, t: Target, params: Params, f: Faults, g: Faults)
    requires Half(s, t, f) && t.leaf !in s.exports && f.file.Unwritten? && !g.get
    ensures var (s2, r) := CreateNfs(cfg, CreateNfs(cfg, s, t, params, f).0, t, params, g);
            r.Ok? && t.full in s2.datasets && t.leaf !in s2.exports
  {
  }

  /** An accepted NFS volume is a filesystem, and exported exactly when it is new or its
      export was already there. */
  lemma NfsExportedExactly(cfg: Config, s: Store, t: Target, params: Params, f: Faults)
    requires CreateNfs(cfg, s, t, params, f).1.Ok?
    ensures var s1 := CreateNfs(cfg, s, t, params, f).0;
            && IsShare(s1, t.full)
            && (t.leaf in s1.exports && s1.exports[t.leaf] == t.full <==>
                t.full !in s.datasets || (t.leaf in s.exports && s.exports[t.leaf] == t.full))
  {
  }

  /** A server that answers every failed lookup with an error, as the share handler does,
      never creates a new NFS volume. */
  lemma LookupErrorStopsNfs(cfg: Config, s: Store, t: Target, params: Params, f: Faults)
    requires t.full !in s.datasets ==> f.get
    ensures CreateNfs(cfg, s, t, params, f).0 == s
    ensures CreateNfs(cfg, s, t, params, f).1.Ok? ==> t.full in s.datasets
  {
  }

  /** Create keeps every export on its dataset exactly when it does not end with an export
      written but not loaded and its dataset destroyed. */
  lemma {:induction false} CreateKeepsStoreOkExactly(cfg: Config, s: Store, req: CreateRequest, f: Faults)
    requires StoreOk(s) && TargetOf(cfg, req).Ok?
    ensures var t := TargetOf(cfg, req).value;
            StoreOk(Create(cfg, s, req, f).0) <==> !(Half(s, t, f) && t.leaf !in s.exports && f.file.Unloaded?)
  {
    var t := TargetOf(cfg, req).value;
    if t.kind.Nfs? {
      if ShareName(req.name) {
        ShareNameIsLeaf(cfg, req);
        JobKeepsStoreOk(s, t, f);
      }
    } else {
      PlainKeepsStoreOk(s, t, req.params, f);
    }
  }

  lemma PlainKeepsStoreOk(s: Store, t: Target, params: Params, f: Faults)
    requires StoreOk(s)
    ensures StoreOk(CreatePlain(s, t, params, f).0)
  {
  }

  lemma JobKeepsStoreOk(s: Store, t: Target, f: Faults)
    requires StoreOk(s) && LeafOf(t.full) == t.leaf
    ensures t.full !in s.datasets ==>
              (StoreOk(ShareJob(s, t, f).0) <==> f.dataset || t.leaf in s.exports || !f.file.Unloaded? || f.undo)
  {
    var s1 := ShareJob(s, t, f).0;
    if t.full !in s.datasets && !f.dataset && t.leaf !in s.exports && f.file.Unloaded? && !f.undo {
      assert t.leaf in s1.exports && !IsShare(s1, s1.exports[t.leaf]);
    }
  }

  ghost function VolumeOf(cfg: Config, t: Target, params: Params): (v: Volume) {
    if t.kind.Nfs? then BuildNfsVolume(cfg, t, params, DatasetSubpath(t.pool, t.full)) else BuildVolume(t, params)
  }

  /** An accepted request names its volume, whose dataset is then there; a new one is mounted
      at its own name, and nothing else changed but, for NFS, the export of its name. */
  lemma AcceptedCreate(cfg: Config, s: Store, req: CreateRequest, f: Faults)
    requires Create(cfg, s, req, f).1.Ok?
    ensures var t := TargetOf(cfg, req).value;
            var (s1, r) := Create(cfg, s, req, f);
            && r.value == VolumeOf(cfg, t, req.params)
            && Added(s, s1, t)
            && s1.datasets[t.full].ztype == ZfsType(t.kind)
            && (t.kind.Nfs? ==> DatasetSubpath(t.pool, t.full) != "" && ShareName(t.leaf))
            && (t.kind.Nfs? && t.full !in s.datasets ==> t.leaf !in s.exports)
  {
    var t := TargetOf(cfg, req).value;
    if t.kind.Nfs? {
      AcceptedNfs(cfg, s, t, req.params, f);
    } else {
      AcceptedPlain(s, t, req.params, f);
    }
  }

  /** What an accepted request for `t` did to the store. */
  ghost predicate Added(s: Store, s1: Store, t: Target) {
    && t.full in s1.datasets && s1.datasets == s.datasets[t.full := s1.datasets[t.full]]
    && s1.datasets[t.full].ztype == ZfsType(t.kind)
    && (t.full !in s.datasets ==> s1.datasets[t.full].mountpoint == "/" + t.full)
    && s1.exports == if t.kind.Nfs? && t.full !in s.datasets then s.exports[t.leaf := t.full] else s.exports
  }

  lemma AcceptedPlain(s: Store, t: Target, params: Params, f: Faults)
    requires CreatePlain(s, t, params, f).1.Ok? && !t.kind.Nfs?
    ensures Added(s, CreatePlain(s, t, params, f).0, t)
  {
  }

  lemma AcceptedNfs(cfg: Config, s: Store, t: Target, params: Params, f: Faults)
    requires CreateNfs(cfg, s, t, params, f).1.Ok? && t.kind.Nfs?
    ensures Added(s, CreateNfs(cfg, s, t, params, f).0, t)
    ensures t.full !in s.datasets ==> t.leaf !in s.exports
  {
    if t.full in s.datasets {
      assert s.datasets == s.datasets[t.full := s.datasets[t.full]];
    } else {
      assert ShareJob(s, t, f).0 == Store(s.datasets[t.full := NfsDataset(t)], s.exports[t.leaf := t.full]);
    }
  }

  /** Deleting a freshly created volume, whether or not the share lookup fails then, restores
      the store exactly when: the lookup finds it and its last segment did not name an export
      before; or the lookup does not find it, as for a zvol, and it is no NFS volume. */
  lemma {:induction false} DeleteUndoesCreateExactly(cfg: Config, s: Store, req: CreateRequest, f: Faults, lost: bool)
    requires Create(cfg, s, req, f).1.Ok? && Parse(TargetOf(cfg, req).value.full).Ok?
    requires TargetOf(cfg, req).value.full !in s.datasets
    ensures var t := TargetOf(cfg, req).value;
            Delete(Create(cfg, s, req, f).0, t.full, NoFaults.(get := lost)) == (s, Ok(())) <==>
            if lost || t.kind.Zvol? || !ShareName(LeafOf(t.full)) then !t.kind.Nfs? else LeafOf(t.full) !in s.exports
  {
    var t := TargetOf(cfg, req).value;
    AcceptedCreate(cfg, s, req, f);
    if t.kind.Nfs? {
      ShareNameIsLeaf(cfg, req);
    }
    DeleteFresh(s, Create(cfg, s, req, f).0, t.full, t.kind.Nfs?, lost);
  }

  lemma DeleteFresh(s: Store, s1: Store, id: string, nfs: bool, lost: bool)
    requires Parse(id).Ok? && id !in s.datasets && id in s1.datasets
    requires s1.datasets == s.datasets[id := s1.datasets[id]]
    requires if nfs then LeafOf(id) !in s.exports && s1.exports == s.exports[LeafOf(id) := id] else s1.exports == s.exports
    ensures Delete(s1, id, NoFaults.(get := lost)) == (s, Ok(())) <==>
            if lost || !IsShare(s1, id) || !ShareName(LeafOf(id)) then !nfs else LeafOf(id) !in s.exports
  {
    DeleteClean(s1, id, lost);
    assert s1.datasets - {id} == s.datasets;
    if LeafOf(id) !in s.exports {
      assert s1.exports - {LeafOf(id)} == s.exports;
    }
  }

  /** A delete in which at most the lookup fails. */
  lemma DeleteClean(s: Store, id: string, lost: bool)
    requires Parse(id).Ok? && id in s.datasets
    ensures var found := !lost && ShareName(LeafOf(id)) && IsShare(s, id);
            Delete(s, id, NoFaults.(get := lost)) ==
            (Store(s.datasets - {id}, if found then s.exports - {LeafOf(id)} else s.exports), Ok(()))
  {
    EncodeParse(id);
    PoolPrefixLeavesRest(id);
  }

  lemma PoolPrefixLeavesRest(id: string)
    requires Parse(id).Ok?
    ensures DatasetSubpath(Parse(id).value.pool, id) != ""
  {
    JoinSplit(id);
    var parts := Split(id);
    assert parts[1..][0] == parts[1] && parts[1] in parts;
    assert id == (parts[0] + "/") + Join(parts[1..]);
    JoinLast(parts[1..], "");
    assert id[|parts[0]| + 1..] == Join(parts[1..]);
  }

  /** After a successful delete any further one changes nothing, and succeeds exactly when
      the request to destroy what is no longer there is not refused. */
  lemma DeleteIsIdempotentExactly(s: Store, id: string, f: Faults, g: Faults)
    requires Delete(s, id, f).1.Ok?
    ensures var s1 := Delete(s, id, f).0; Delete(s1, id, g) == (s1, if g.change then Err(Internal) else Ok(()))
  {
    EncodeParse(id);
  }

  /** A successful delete leaves no dataset behind. The export of its last segment, whoever
      made it, goes with it exactly when the share lookup found the volume, and what is left
      is sound exactly unless the volume's own export stays. */
  lemma {:induction false} DeleteLeavesExactly(s: Store, id: string, f: Faults)
    requires StoreOk(s) && Delete(s, id, f).1.Ok?
    ensures var s1 := Delete(s, id, f).0;
            && s1.datasets == s.datasets - {id}
            && s1.exports == (if !f.get && ShareName(LeafOf(id)) && IsShare(s, id) then s.exports - {LeafOf(id)} else s.exports)
            && (StoreOk(s1) <==> !(LeafOf(id) in s1.exports && s1.exports[LeafOf(id)] == id))
  {
    DeleteRemoves(s, id, f);
    SoundWithout(s, Delete(s, id, f).0, id);
  }

  lemma DeleteRemoves(s: Store, id: string, f: Faults)
    requires Delete(s, id, f).1.Ok?
    ensures var s1 := Delete(s, id, f).0;
            && s1.datasets == s.datasets - {id}
            && s1.exports == (if !f.get && ShareName(LeafOf(id)) && IsShare(s, id) then s.exports - {LeafOf(id)} else s.exports)
  {
    PoolPrefixLeavesRest(id);
    EncodeParse(id);
    var v := Parse(id).value;
    if !f.get && ShareName(v.leaf) && IsShare(s, id) {
      TornDown(s, v, f);
    } else {
      assert id !in s.datasets ==> s.datasets - {id} == s.datasets;
    }
  }

  lemma TornDown(s: Store, v: Id, f: Faults)
    requires TearDown(s, v, f).1
    ensures TearDown(s, v, f).0 == Store(s.datasets - {v.full}, s.exports - {v.leaf})
  {
    if v.leaf !in s.exports {
      assert s.exports - {v.leaf} == s.exports;
    }
  }

  lemma SoundWithout(s: Store, s1: Store, id: string)
    requires StoreOk(s) && s1.datasets == s.datasets - {id}
    requires s1.exports == s.exports || s1.exports == s.exports - {LeafOf(id)}
    ensures StoreOk(s1) <==> !(LeafOf(id) in s1.exports && s1.exports[LeafOf(id)] == id)
  {
    forall n | n in s1.exports ensures s1.exports[n] == s.exports[n] && LeafOf(s1.exports[n]) == n {}
  }

  /** Expanding gives a volume the size a create with the same range would have given it, and
      a filesystem is told the same capacity the create would have reported. */
  lemma ExpandMatchesCreate(s: Store, id: string, range: Option<Range>, cap: Option<Access>, t: Target, params: Params)
    requires Parse(id).Ok? && id in s.datasets && t.full == id
    requires s.datasets[id].ztype == ZfsType(t.kind) && t.capacity == CapacityFor(t.kind, range)
    ensures var (s1, r) := Expand(s, id, range, cap, NoFaults);
            && r.Ok? && r.value.capacity == t.capacity
            && s1.datasets.Keys == s.datasets.Keys && s1.exports == s.exports
            && (t.kind.Zvol? ==> s1.datasets[id].volsize == NewDataset(t, params).volsize)
            && (!t.kind.Zvol? ==> s1.datasets[id].quota == NewDataset(t, params).quota)
            && (!t.kind.Zvol? && t.capacity > 0 ==> s1.datasets[id].quota == NfsDataset(t).quota)
            && SizeCompatible(s1.datasets[id], t.kind, t.capacity)
  {
  }

  /** The path published for an NFS volume is the dataset's own mountpoint if and only if the
      pool parameter is a single segment. */
  lemma ExportPathExactly(cfg: Config, t: Target, params: Params)
    requires DatasetSubpath(t.pool, t.full) != "" && t.pool != ""
    ensures BuildNfsVolume(cfg, t, params, DatasetSubpath(t.pool, t.full)).context["nfsPath"] == "/" + t.full
       <==> '/' !in t.pool
  {
    var dataset := DatasetSubpath(t.pool, t.full);
    assert t.full == t.pool + "/" + dataset;
    assert t.full[0] == t.pool[0] && t.full[|t.pool|] == '/';
    FirstSegment(t.pool, dataset);
    var head := ExtractPool(t.full);
    if t.pool[0] == '/' {
      assert |"/" + head + "/" + dataset| > |"/" + t.full|;
    } else if '/' in t.pool {
      assert |head| < |t.pool|;
      assert |"/" + head + "/" + dataset| < |"/" + t.full|;
    } else {
      assert "/" + t.pool + "/" + dataset == "/" + t.full;
    }
  }

  lemma {:induction false} FirstSegment(a: string, b: string)
    ensures '/' !in a ==> Split(a + "/" + b)[0] == a
    ensures '/' in a ==> |Split(a + "/" + b)[0]| < |a|
  {
    var s := a + "/" + b;
    if a != "" {
      assert s[1..] == a[1..] + "/" + b && s[0] == a[0];
      assert a == [a[0]] + a[1..];
      FirstSegment(a[1..], b);
    }
  }
}
