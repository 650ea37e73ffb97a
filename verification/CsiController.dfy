/** The CSI controller as it runs: the RPC methods, the server jobs behind them, and any
    sequence of calls, on one object that holds the server's store. */
module CsiController {
  import opened Prelude
  import opened VolumeId
  import opened Capacity
  import opened Controller
  import opened ControllerAnswers
  import opened ControllerRuns

  class ControllerService {
    const cfg: Config
    var store: Store

    constructor (cfg: Config, store: Store)
      ensures this.cfg == cfg && this.store == store
    {
      this.cfg := cfg;
      this.store := store;
    }

    /** An accepted volume is there, under the parent asked for or configured or the pool's
        "csi" and the name given; asking again, whatever else fails, changes nothing. */
    method CreateVolume(req: CreateRequest, f: Faults) returns (r: Result<Volume, RpcError>)
      modifies this
      ensures (store, r) == Create(cfg, old(store), req, f)
      ensures r.Ok? ==> r.value.id ==
                        (if Given(req.params, "parent") then req.params["parent"]
                         else if cfg.defaultParent != "" then cfg.defaultParent
                         else (if Given(req.params, "pool") then req.params["pool"] else cfg.defaultPool) + "/csi") + "/" + req.name
      ensures r.Ok? ==> r.value.id in store.datasets &&
                        forall g: Faults | !g.get :: Create(cfg, store, req, g) == (store, r)
    {
      if req.name == "" {
        return Err(InvalidArgument);
      }
      var kind := Classify(req.caps, req.params);
      if kind.Err? {
        return Err(kind.error);
      }
      var pool := FirstNonEmpty(Param(req.params, "pool"), cfg.defaultPool);
      if pool == "" {
        return Err(InvalidArgument);
      }
      var parent := FirstNonEmpty(Param(req.params, "parent"), DefaultParent(cfg, pool));
      var t := Target(kind.value, pool, parent, req.name, Encode(parent, req.name), CapacityFor(kind.value, req.range));
      if kind.value == Nfs {
        r := CreateNfsVolume(t, req.params, f);
      } else {
        r := CreatePlainVolume(t, req.params, f);
      }
      if r.Ok? {
        AcceptedCreate(cfg, old(store), req, f);
        TargetExactly(cfg, req);
        AcceptedVolume(cfg, old(store), req, f);
        forall g: Faults | !g.get ensures Create(cfg, store, req, g) == (store, r) {
          CreateIsIdempotent(cfg, old(store), req, f, g);
        }
      }
    }

    /** Touches no export and no other dataset; accepted means the dataset is there with the
        type and size asked for; a refusal as existing means it is there with another. */
    method CreatePlainVolume(t: Target, params: Params, f: Faults) returns (r: Result<Volume, RpcError>)
      requires !t.kind.Nfs?
      modifies this
      ensures (store, r) == CreatePlain(old(store), t, params, f)
      ensures store.exports == old(store).exports && store.datasets - {t.full} == old(store).datasets - {t.full}
      ensures t.full in old(store).datasets ==> store == old(store)
      ensures r.Ok? ==> t.full in store.datasets && Fits(store.datasets[t.full], t)
      ensures r == Err(AlreadyExists) ==> t.full in store.datasets && !Fits(store.datasets[t.full], t)
    {
      if f.get {
        return Err(Internal);
      }
      if t.full in store.datasets {
        var existing := store.datasets[t.full];
        if existing.ztype != ZfsType(t.kind) {
          return Err(AlreadyExists);
        }
        if !SizeCompatible(existing, t.kind, t.capacity) {
          return Err(AlreadyExists);
        }
        return Ok(BuildVolume(t, params));
      }
      if f.change || f.dataset {
        return Err(Internal);
      }
      store := store.(datasets := store.datasets[t.full := NewDataset(t, params)]);
      if f.wait {
        return Err(Internal);
      }
      return Ok(BuildVolume(t, params));
    }

    /** Accepted means a filesystem is there, exported exactly if it is new or was exported
        before; the only export that can appear is the volume's own, under a name that had
        none. A zvol of the same name is refused. */
    method CreateNfsVolume(t: Target, params: Params, f: Faults) returns (r: Result<Volume, RpcError>)
      modifies this
      ensures (store, r) == CreateNfs(cfg, old(store), t, params, f)
      ensures store.datasets - {t.full} == old(store).datasets - {t.full}
      ensures forall n | n in old(store).exports :: n in store.exports && store.exports[n] == old(store).exports[n]
      ensures forall n | n in store.exports && n !in old(store).exports :: n == t.leaf && store.exports[n] == t.full
      ensures r.Ok? ==> IsShare(store, t.full) &&
                        (t.leaf in store.exports && store.exports[t.leaf] == t.full <==>
                         t.full !in old(store).datasets || (t.leaf in old(store).exports && old(store).exports[t.leaf] == t.full))
      ensures t.full in old(store).datasets && !IsShare(old(store), t.full) ==> r.Err? && store == old(store)
    {
      var dataset := DatasetSubpath(t.pool, t.full);
      if dataset == "" {
        return Err(InvalidArgument);
      }
      if f.get || !ShareName(t.leaf) {
        return Err(Internal);
      }
      var v := BuildNfsVolume(cfg, t, params, dataset);
      if IsShare(store, t.full) {
        return Ok(v);
      }
      if t.full in store.datasets || f.change {
        return Err(Internal);
      }
      var done := ProvisionShare(t, f);
      if !done || f.wait {
        return Err(Internal);
      }
      NfsExportedExactly(cfg, old(store), t, params, f);
      return Ok(v);
    }

    /** The server's create job: dataset, export file, reload, and the rollback. It succeeds
        with both or, if the rollback works, fails with at most the export. */
    method ProvisionShare(t: Target, f: Faults) returns (done: bool)
      requires t.full !in store.datasets
      modifies this
      ensures (store, done) == ShareJob(old(store), t, f)
      ensures done ==> t.full in store.datasets && t.leaf in store.exports && store.exports[t.leaf] == t.full
      ensures !done && !f.undo ==> store.datasets == old(store).datasets
      ensures !done && !f.file.Unloaded? ==> store.exports == old(store).exports
    {
      if f.dataset {
        return false;
      }
      store := store.(datasets := store.datasets[t.full := NfsDataset(t)]);
      var exported := CreateExport(t.leaf, t.full, f.file);
      if exported {
        return true;
      }
      if !f.undo {
        store := store.(datasets := store.datasets - {t.full});
        assert store.datasets == old(store).datasets;
      }
      return false;
    }

    /** The export file of a name: refused if there is one, else written, then reloaded. */
    method CreateExport(name: string, full: string, step: ExportStep) returns (exported: bool)
      modifies this
      ensures store.datasets == old(store).datasets
      ensures exported <==> name !in old(store).exports && step.Done?
      ensures store.exports == if name in old(store).exports || step.Unwritten? then old(store).exports
                               else old(store).exports[name := full]
    {
      if name in store.exports || step.Unwritten? {
        return false;
      }
      store := store.(exports := store.exports[name := full]);
      return step.Done?;
    }

    /** Success means the dataset is gone, and deleting again, whatever fails, changes nothing
        and succeeds exactly when it is not refused; only this volume's dataset and, for a
        filesystem, the export of its last segment are ever removed. */
    method DeleteVolume(id: string, f: Faults) returns (r: Result<(), RpcError>)
      modifies this
      ensures (store, r) == Delete(old(store), id, f)
      ensures store.datasets - {id} == old(store).datasets - {id}
      ensures store.exports - {LeafOf(id)} == old(store).exports - {LeafOf(id)}
      ensures !IsShare(old(store), id) ==> store.exports == old(store).exports
      ensures r.Ok? ==> id !in store.datasets
      ensures r.Ok? ==> forall g: Faults :: Delete(store, id, g) == (store, if g.change then Err(Internal) else Ok(()))
    {
      var parsed := Parse(id);
      if parsed.Err? {
        return Err(InvalidArgument);
      }
      EncodeParse(id);
      var v := parsed.value;
      if DatasetSubpath(v.pool, v.full) != "" && !f.get && ShareName(v.leaf) && IsShare(store, v.full) {
        if f.change {
          return Err(Internal);
        }
        var done := RemoveShare(v, f);
        r := if done && !f.wait then Ok(()) else Err(Internal);
      } else {
        if f.change {
          return Err(Internal);
        }
        if v.full !in store.datasets {
          return Ok(());
        }
        if f.dataset {
          return Err(Internal);
        }
        store := store.(datasets := store.datasets - {v.full});
        r := if f.wait then Err(Internal) else Ok(());
      }
      if r.Ok? {
        forall g: Faults ensures Delete(store, id, g) == (store, if g.change then Err(Internal) else Ok(())) {
          DeleteIsIdempotentExactly(old(store), id, f, g);
        }
      }
    }

    /** The server's delete job: each removal is tried whatever became of the other. */
    method RemoveShare(v: Id, f: Faults) returns (done: bool)
      modifies this
      ensures (store, done) == TearDown(old(store), v, f)
      ensures done ==> v.full !in store.datasets && v.leaf !in store.exports
    {
      done := true;
      if v.leaf in store.exports {
        if !f.file.Unwritten? {
          store := store.(exports := store.exports - {v.leaf});
        }
        done := f.file.Done?;
      } else {
        assert store.exports - {v.leaf} == store.exports;
      }
      if f.dataset {
        done := false;
      } else {
        store := store.(datasets := store.datasets - {v.full});
      }
    }

    /** Success means the dataset has the size reported; nothing else ever changes, so a
        volume that a create would have accepted at that size still is. */
    method ControllerExpandVolume(id: string, range: Option<Range>, cap: Option<Access>, f: Faults)
      returns (r: Result<Expansion, RpcError>)
      modifies this
      ensures (store, r) == Expand(old(store), id, range, cap, f)
      ensures store.exports == old(store).exports && store.datasets - {id} == old(store).datasets - {id}
      ensures r.Ok? ==> id in store.datasets && store.datasets[id].ztype == old(store).datasets[id].ztype &&
                        (if store.datasets[id].ztype == "volume" then store.datasets[id].volsize
                         else store.datasets[id].quota) == r.value.capacity
    {
      var parsed := Parse(id);
      if parsed.Err? {
        return Err(InvalidArgument);
      }
      EncodeParse(id);
      var full, capacity := parsed.value.full, Requested(range);
      if f.get {
        return Err(Internal);
      }
      if full !in store.datasets {
        return Err(NotFound);
      }
      var d := store.datasets[full];
      var nodeExpansion := false;
      if d.ztype == "filesystem" {
        capacity := RoundUp(capacity, MiB);
        d := d.(quota := capacity);
      } else if d.ztype == "volume" {
        d := d.(volsize := capacity);
        nodeExpansion := cap.Some? && cap.value.Mount?;
      } else {
        return Err(Internal);
      }
      if f.change || f.dataset {
        return Err(Internal);
      }
      store := store.(datasets := store.datasets[full := d]);
      if f.wait {
        return Err(Internal);
      }
      return Ok(Expansion(capacity, nodeExpansion));
    }

    /** Any sequence of calls: every answer is that of the run so far; a volume no call
        clashes with is as if only the calls about it had been made; and careful calls keep
        every export on its dataset. */
    method Serve(rpcs: seq<Rpc>) returns (answers: seq<Answer>)
      modifies this
      ensures store == Run(cfg, old(store), rpcs) && answers == Answers(cfg, old(store), rpcs)
      ensures forall full | NoClash(cfg, rpcs, full) ::
                At(store, full) == At(Run(cfg, old(store), Only(cfg, rpcs, full)), full)
      ensures StoreOk(old(store)) && AllCareful(rpcs) ==> StoreOk(store)
    {
      answers := ServeAll(rpcs);
      RunsAreSound(cfg, old(store), rpcs);
    }

    method ServeAll(rpcs: seq<Rpc>) returns (answers: seq<Answer>)
      modifies this
      ensures store == Run(cfg, old(store), rpcs) && answers == Answers(cfg, old(store), rpcs)
    {
      answers := [];
      for i := 0 to |rpcs|
        invariant store == Run(cfg, old(store), rpcs[..i]) && answers == Answers(cfg, old(store), rpcs[..i])
      {
        RunStep(cfg, old(store), rpcs, i);
        var answer := Answered(rpcs[i]);
        answers := answers + [answer];
      }
      assert rpcs[..|rpcs|] == rpcs;
    }

    method Answered(rpc: Rpc) returns (answer: Answer)
      modifies this
      ensures (store, answer) == Exec(cfg, old(store), rpc)
    {
      match rpc {
        case RpcCreate(req, f) =>
          var r := CreateVolume(req, f);
          return Created(r);
        case RpcDelete(id, f) =>
          var r := DeleteVolume(id, f);
          return Deleted(r);
        case RpcExpand(id, range, cap, f) =>
          var r := ControllerExpandVolume(id, range, cap, f);
          return Expanded(r);
      }
    }
  }
}
