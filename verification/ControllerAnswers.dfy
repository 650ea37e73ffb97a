/** What the controller calls answer, in terms of the request, the configuration, the store
    before the call and what fails in it. */
module ControllerAnswers {
  import opened Prelude
  import opened Strings
  import opened VolumeId
  import opened Capacity
  import opened Controller

  // ----- which volume a request asks for -----

  /** A parameter that is given and not empty. */
  predicate Given(params: Params, key: string) {
    key in params && params[key] != ""
  }

  /** "nfs" in any case; the last letter may be the long s, which folds to s. */
  predicate AsksNfs(params: Params) {
    "accessProtocol" in params &&
    var p := params["accessProtocol"];
    Folds(p, "nfs") || (|p| == 3 && Folds(p[..2], "nf") && p[2] as int == 0x17F)
  }

  lemma AsksNfsExactly(params: Params)
    ensures AsksNfs(params) <==> IsNfs(Param(params, "accessProtocol"))
  {
    if "accessProtocol" in params && |params["accessProtocol"]| == 3 {
      var p := params["accessProtocol"];
      assert p[..2][0] == p[0] && p[..2][1] == p[1];
    }
  }

  ghost predicate AllMount(caps: seq<Access>) {
    forall i | 0 <= i < |caps| :: caps[i].Mount?
  }

  ghost predicate AllBlock(caps: seq<Access>) {
    forall i | 0 <= i < |caps| :: caps[i].Block?
  }

  /** The pool of a request: the parameter, else the configured default. */
  function PoolNamed(cfg: Config, params: Params): (r: string) {
    if Given(params, "pool") then params["pool"] else cfg.defaultPool
  }

  predicate LetterOrDigit(c: char) {
    'a' <= c <= 'z' || 'A' <= c <= 'Z' || '0' <= c <= '9'
  }

  /** Share names, letter by letter: they start with a letter, a digit or '_', go on with
      those or '-', and end at 64; so the names kubernetes gives are among them. */
  lemma ShareNamesByLetter(name: string, c: char)
    ensures !ShareName("") && (ShareName([c]) <==> LetterOrDigit(c) || c == '_')
    ensures name != "" ==> (ShareName(name + [c]) <==> ShareName(name) && |name| < 64 && (LetterOrDigit(c) || c == '_' || c == '-'))
    ensures |name| <= 60 && (forall i | 0 <= i < |name| :: LetterOrDigit(name[i]) || name[i] == '-') ==> ShareName("pvc-" + name)
  {
    if ShareName(name + [c]) {
      assert forall i | 0 <= i < |name| :: (name + [c])[i] == name[i];
      assert (name + [c])[|name|] == c;
    }
  }

  /** A request is understood exactly when it has a name, capabilities of one access type that
      suits the protocol, and a pool named somewhere. The volume is then the "parent"
      parameter, else the configured parent, else "csi" in the pool; a slash; and the name. */
  lemma TargetExactly(cfg: Config, req: CreateRequest)
    ensures TargetOf(cfg, req).Ok? <==>
            && req.name != "" && req.caps != [] && PoolNamed(cfg, req.params) != ""
            && (AllMount(req.caps) || (AllBlock(req.caps) && !AsksNfs(req.params)))
    ensures TargetOf(cfg, req).Err? ==> TargetOf(cfg, req).error == InvalidArgument
    ensures TargetOf(cfg, req).Ok? ==>
              var t := TargetOf(cfg, req).value;
              var parent := if Given(req.params, "parent") then req.params["parent"]
                            else if cfg.defaultParent != "" then cfg.defaultParent
                            else PoolNamed(cfg, req.params) + "/csi";
              && t.leaf == req.name && t.pool == PoolNamed(cfg, req.params) && t.parent == parent
              && t.full == parent + "/" + req.name
              && t.kind == (if AllBlock(req.caps) then Zvol else if AsksNfs(req.params) then Nfs else Filesystem)
              && t.capacity == CapacityFor(t.kind, req.range)
  {
    AsksNfsExactly(req.params);
    if req.caps != [] {
      assert req.caps[0].Mount? ==> !AllBlock(req.caps);
    }
  }

  /** Without a range, or with neither size positive, the capacity is 1 GiB. */
  lemma CapacityDefault(kind: Kind, range: Option<Range>)
    requires range.None? || (range.value.required <= 0 && range.value.limit <= 0)
    ensures CapacityFor(kind, range) == 1024 * 1024 * 1024
  {
  }

  /** The volume returned for an accepted request: id, capacity, and the context the node
      reads its kind, filesystem type, server, path and options from. */
  lemma {:induction false} AcceptedVolume(cfg: Config, s: Store, req: CreateRequest, f: Faults)
    requires Create(cfg, s, req, f).1.Ok?
    ensures var t, v := TargetOf(cfg, req).value, Create(cfg, s, req, f).1.value;
            && v.id == t.full && v.capacity == t.capacity
            && (t.kind.Filesystem? ==> v.context == map["volumeKind" := "filesystem"])
            && (t.kind.Zvol? ==>
                  v.context == map["volumeKind" := "volume",
                                   "fsType" := if Given(req.params, "fsType") then req.params["fsType"] else "ext4"])
            && (t.kind.Nfs? ==>
                  && v.context.Keys == {"volumeKind", "nfsServer", "nfsPath", "mountOptions"}
                  && v.context["volumeKind"] == "nfs" && v.context["nfsServer"] == cfg.nfsServer
                  && v.context["mountOptions"] == if Given(req.params, "mountOptions") then req.params["mountOptions"]
                                                  else "vers=4.2,sec=krb5p,hard")
  {
    AcceptedCreate(cfg, s, req, f);
  }

  // ----- create -----

  /** An existing volume of another type or, unless it has none set, another size is refused;
      the size of a zvol is its volume size, of a filesystem its quota. */
  lemma ExistingAcceptedExactly(s: Store, t: Target, params: Params, f: Faults)
    requires !t.kind.Nfs? && t.full in s.datasets && !f.get
    ensures var d := s.datasets[t.full];
            var size := if t.kind.Zvol? then d.volsize else d.quota;
            var same := d.ztype == (if t.kind.Zvol? then "volume" else "filesystem") && (size == 0 || size == t.capacity);
            && CreatePlain(s, t, params, f).0 == s
            && CreatePlain(s, t, params, f).1 == if same then Ok(BuildVolume(t, params)) else Err(AlreadyExists)
  {
  }

  /** A new dataset or zvol is created exactly when nothing fails. */
  lemma NewAcceptedExactly(s: Store, t: Target, params: Params, f: Faults)
    requires !t.kind.Nfs? && t.full !in s.datasets
    ensures var (s1, r) := CreatePlain(s, t, params, f);
            && (r.Ok? <==> !f.get && !f.change && !f.dataset && !f.wait) && (r.Err? ==> r.error == Internal)
            && (t.full in s1.datasets <==> !f.get && !f.change && !f.dataset)
  {
  }

  /** A new NFS volume is created exactly when nothing fails, its name can name a share and
      none is exported under it; over an existing dataset the request is accepted exactly when
      that is a filesystem and the lookup works. */
  lemma NfsAcceptedExactly(cfg: Config, s: Store, t: Target, params: Params, f: Faults)
    requires t.kind.Nfs?
    ensures var r := CreateNfs(cfg, s, t, params, f).1;
            var inside := t.pool + "/" <= t.full && |t.full| > |t.pool| + 1;
            && (r == Err(InvalidArgument) <==> !inside)
            && (r.Ok? <==>
                && inside && !f.get && ShareName(t.leaf)
                && if t.full in s.datasets then s.datasets[t.full].ztype == "filesystem"
                   else !f.change && !f.dataset && t.leaf !in s.exports && f.file.Done? && !f.wait)
            && (r.Err? && inside ==> r == Err(Internal))
  {
  }

  /** What a new volume's dataset is made with: its size, and the properties asked for. */
  lemma {:induction false} NewDatasetExactly(cfg: Config, s: Store, req: CreateRequest, f: Faults)
    requires Create(cfg, s, req, f).1.Ok? && TargetOf(cfg, req).value.full !in s.datasets
    ensures var t := TargetOf(cfg, req).value;
            var s1 := Create(cfg, s, req, f).0;
            t.full in s1.datasets &&
            var d := s1.datasets[t.full];
            && (!t.kind.Nfs? ==> Made(d, t, req.params))
            && (t.kind.Nfs? ==>
                  d.ztype == "filesystem" && d.quota == (if t.capacity > 0 then t.capacity else 0) && d.volsize == 0 &&
                  d.props == map["acltype" := "nfsv4"])
            && d.mountpoint == "/" + t.full
  {
    AcceptedCreate(cfg, s, req, f);
    var t := TargetOf(cfg, req).value;
    if !t.kind.Nfs? {
      NewDatasetTuned(t, req.params);
    }
  }

  lemma NewDatasetTuned(t: Target, params: Params)
    ensures Made(NewDataset(t, params), t, params)
  {
  }

  /** A zvol of the capacity, or a filesystem with it as quota; tuned as asked. */
  ghost predicate Made(d: Dataset, t: Target, params: Params) {
    if t.kind.Zvol? then
      d.ztype == "volume" && d.volsize == t.capacity && d.quota == 0 && Tuned(d, params, "volblocksize", "recordsize")
    else
      d.ztype == "filesystem" && d.quota == t.capacity && d.volsize == 0 && Tuned(d, params, "recordsize", "volblocksize")
  }

  /** Compression as asked, or lz4; the one block-size property if asked, never the other. */
  ghost predicate Tuned(d: Dataset, params: Params, key: string, other: string) {
    && "compression" in d.props && d.props["compression"] == (if Given(params, "compression") then params["compression"] else "lz4")
    && (key in d.props <==> Given(params, key)) && (Given(params, key) ==> d.props[key] == params[key])
    && other !in d.props
  }

  // ----- delete and expand -----

  /** The share lookup of a delete finds a filesystem. */
  ghost predicate Found(s: Store, id: string, f: Faults) {
    !f.get && ShareName(LeafOf(id)) && id in s.datasets && s.datasets[id].ztype == "filesystem"
  }

  lemma FoundExactly(s: Store, id: string, f: Faults)
    requires Parse(id).Ok?
    ensures var v := Parse(id).value;
            && v.full == id && v.leaf == LeafOf(id)
            && (Found(s, id, f) <==> DatasetSubpath(v.pool, v.full) != "" && !f.get && ShareName(v.leaf) && IsShare(s, v.full))
  {
    EncodeParse(id);
    PoolPrefixLeavesRest(id);
  }

  /** A delete succeeds exactly when it is not refused, and of what is there to remove
      nothing fails; only an id that does not parse is an invalid argument. */
  lemma {:induction false} DeleteAnswersExactly(s: Store, id: string, f: Faults)
    ensures Delete(s, id, f).1 == Err(InvalidArgument) <==> Parse(id).Err?
    ensures Delete(s, id, f).1.Ok? <==>
            && Parse(id).Ok? && !f.change && (id in s.datasets ==> !f.dataset && !f.wait)
            && (Found(s, id, f) && LeafOf(id) in s.exports ==> f.file.Done?)
  {
    if Parse(id).Ok? {
      FoundExactly(s, id, f);
    }
  }

  /** What is gone afterwards, success or not: the dataset if its step works; the export of
      the last segment if the lookup found a filesystem and the file is written. */
  lemma {:induction false} DeleteRemovesExactly(s: Store, id: string, f: Faults)
    ensures var s1 := Delete(s, id, f).0;
            var asked := Parse(id).Ok? && !f.change;
            && s1.datasets == (if asked && !f.dataset then s.datasets - {id} else s.datasets)
            && s1.exports == (if asked && Found(s, id, f) && !f.file.Unwritten? then s.exports - {LeafOf(id)} else s.exports)
  {
    if id !in s.datasets {
      assert s.datasets - {id} == s.datasets;
    }
    if Parse(id).Ok? {
      FoundExactly(s, id, f);
    }
  }

  /** Expand answers by the dataset's type, and tells the node to grow the filesystem exactly
      for a zvol that is to be mounted; only the one size changes. */
  lemma ExpandAnswersExactly(s: Store, id: string, range: Option<Range>, cap: Option<Access>, f: Faults)
    ensures var (s1, r) := Expand(s, id, range, cap, f);
            var there := Parse(id).Ok? && !f.get && id in s.datasets;
            && (r == Err(InvalidArgument) <==> Parse(id).Err?)
            && (r == Err(NotFound) <==> Parse(id).Ok? && !f.get && id !in s.datasets)
            && (r.Ok? <==> there && (s.datasets[id].ztype == "filesystem" || s.datasets[id].ztype == "volume") &&
                           !f.change && !f.dataset && !f.wait)
            && (r.Ok? ==>
                  var d := s.datasets[id];
                  && r.value.capacity == CapacityFor(if d.ztype == "volume" then Zvol else Filesystem, range)
                  && (r.value.nodeExpansion <==> d.ztype == "volume" && cap.Some? && cap.value.Mount?)
                  && s1.exports == s.exports
                  && s1.datasets == s.datasets[id := if d.ztype == "volume" then d.(volsize := r.value.capacity)
                                                     else d.(quota := r.value.capacity)])
  {
    if Parse(id).Ok? {
      EncodeParse(id);
    }
  }
}
