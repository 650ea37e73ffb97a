/** Runs of controller calls on many volumes: volumes interfere exactly through exports of one
    name, and retries of one request converge exactly when nothing is left half-made. */
module ControllerRuns {
  import opened Prelude
  import opened VolumeId
  import opened Capacity
  import opened Controller

  datatype Rpc = RpcCreate(req: CreateRequest, f: Faults)
               | RpcDelete(id: string, f: Faults)
               | RpcExpand(id: string, range: Option<Range>, cap: Option<Access>, f: Faults)

  datatype Answer = Created(v: Result<Volume, RpcError>) | Deleted(d: Result<(), RpcError>)
                  | Expanded(e: Result<Expansion, RpcError>)

  ghost function Exec(cfg: Config, s: Store, rpc: Rpc): (r: (Store, Answer)) {
    match rpc
    case RpcCreate(req, f) => var (s', v) := Create(cfg, s, req, f); (s', Created(v))
    case RpcDelete(id, f) => var (s', d) := Delete(s, id, f); (s', Deleted(d))
    case RpcExpand(id, range, cap, f) => var (s', e) := Expand(s, id, range, cap, f); (s', Expanded(e))
  }

  ghost function Run(cfg: Config, s: Store, rpcs: seq<Rpc>): (r: Store) {
    if rpcs == [] then s else Exec(cfg, Run(cfg, s, rpcs[..|rpcs| - 1]), rpcs[|rpcs| - 1]).0
  }

  /** The answers of a run, in order. */
  ghost function Answers(cfg: Config, s: Store, rpcs: seq<Rpc>): (r: seq<Answer>)
    ensures |r| == |rpcs|
  {
    if rpcs == [] then []
    else
      var init := rpcs[..|rpcs| - 1];
      Answers(cfg, s, init) + [Exec(cfg, Run(cfg, s, init), rpcs[|rpcs| - 1]).1]
  }

  lemma RunStep(cfg: Config, s: Store, rpcs: seq<Rpc>, i: nat)
    requires i < |rpcs|
    ensures Run(cfg, s, rpcs[..i + 1]) == Exec(cfg, Run(cfg, s, rpcs[..i]), rpcs[i]).0
    ensures Answers(cfg, s, rpcs[..i + 1]) == Answers(cfg, s, rpcs[..i]) + [Exec(cfg, Run(cfg, s, rpcs[..i]), rpcs[i]).1]
  {
    assert rpcs[..i + 1][..i] == rpcs[..i];
  }

  /** The volume a call is about. */
  ghost predicate About(cfg: Config, rpc: Rpc, full: string) {
    match rpc
    case RpcCreate(req, _) => TargetOf(cfg, req).Ok? && TargetOf(cfg, req).value.full == full
    case RpcDelete(id, _) => id == full
    case RpcExpand(id, _, _, _) => id == full
  }

  /** A call about another volume of the same last segment that may touch its export: an NFS
      create, or any delete. */
  ghost predicate Clashes(cfg: Config, rpc: Rpc, full: string) {
    && !About(cfg, rpc, full)
    && match rpc
       case RpcCreate(req, _) => TargetOf(cfg, req).Ok? && TargetOf(cfg, req).value.kind.Nfs? && req.name == LeafOf(full)
       case RpcDelete(id, _) => Parse(id).Ok? && LeafOf(id) == LeafOf(full)
       case RpcExpand(_, _, _, _) => false
  }

  /** What the store holds for one volume: its dataset, and what the export file of its last
      segment exports. */
  ghost function At(s: Store, full: string): (r: (Option<Dataset>, Option<string>)) {
    (if full in s.datasets then Some(s.datasets[full]) else None,
     if LeafOf(full) in s.exports then Some(s.exports[LeafOf(full)]) else None)
  }

  /** A call about another volume that does not clash leaves this one's entry alone. */
  lemma {:induction false} Elsewhere(cfg: Config, s: Store, rpc: Rpc, full: string)
    requires !About(cfg, rpc, full) && !Clashes(cfg, rpc, full)
    ensures At(Exec(cfg, s, rpc).0, full) == At(s, full)
  {
    match rpc {
      case RpcCreate(req, f) =>
        if TargetOf(cfg, req).Ok? {
          CreateElsewhere(cfg, s, TargetOf(cfg, req).value, req.params, f, full);
        }
      case RpcDelete(id, f) =>
        if Parse(id).Ok? {
          EncodeParse(id);
          DeleteElsewhere(s, id, f, full);
        }
      case RpcExpand(id, range, cap, f) =>
        if Parse(id).Ok? {
          EncodeParse(id);
          ExpandElsewhere(s, id, range, cap, f, full);
        }
    }
  }

  lemma ExpandElsewhere(s: Store, id: string, range: Option<Range>, cap: Option<Access>, f: Faults, full: string)
    requires Parse(id).Ok? && Parse(id).value.full == id != full
    ensures At(Expand(s, id, range, cap, f).0, full) == At(s, full)
  {
  }

  lemma CreateElsewhere(cfg: Config, s: Store, t: Target, params: Params, f: Faults, full: string)
    requires t.full != full
    ensures At(CreatePlain(s, t, params, f).0, full) == At(s, full)
    ensures t.leaf != LeafOf(full) ==> At(CreateNfs(cfg, s, t, params, f).0, full) == At(s, full)
  {
    JobElsewhere(s, t, f, full);
  }

  lemma JobElsewhere(s: Store, t: Target, f: Faults, full: string)
    requires t.full != full
    ensures t.leaf != LeafOf(full) ==> At(ShareJob(s, t, f).0, full) == At(s, full)
  {
  }

  lemma DeleteElsewhere(s: Store, id: string, f: Faults, full: string)
    requires Parse(id).Ok? && Parse(id).value.full == id != full && LeafOf(id) != LeafOf(full)
    ensures At(Delete(s, id, f).0, full) == At(s, full)
  {
  }

  /** What a call does to its volume, and answers, depends only on that volume's entry. */
  lemma {:induction false} Local(cfg: Config, s: Store, t: Store, rpc: Rpc, full: string)
    requires About(cfg, rpc, full) && At(s, full) == At(t, full)
    ensures At(Exec(cfg, s, rpc).0, full) == At(Exec(cfg, t, rpc).0, full)
    ensures Exec(cfg, s, rpc).1 == Exec(cfg, t, rpc).1
  {
    match rpc {
      case RpcCreate(req, f) =>
        var target := TargetOf(cfg, req).value;
        if target.kind.Nfs? {
          if ShareName(req.name) {
            ShareNameIsLeaf(cfg, req);
          }
          LocalNfs(cfg, s, t, target, req.params, f);
        } else {
          LocalPlain(s, t, target, req.params, f);
        }
      case RpcDelete(id, f) => LocalDelete(s, t, id, f);
      case RpcExpand(id, range, cap, f) => LocalExpand(s, t, id, range, cap, f);
    }
  }

  lemma LocalDelete(s: Store, t: Store, id: string, f: Faults)
    requires At(s, id) == At(t, id)
    ensures At(Delete(s, id, f).0, id) == At(Delete(t, id, f).0, id) && Delete(s, id, f).1 == Delete(t, id, f).1
  {
    if Parse(id).Ok? {
      EncodeParse(id);
    }
  }

  lemma LocalExpand(s: Store, t: Store, id: string, range: Option<Range>, cap: Option<Access>, f: Faults)
    requires At(s, id) == At(t, id)
    ensures At(Expand(s, id, range, cap, f).0, id) == At(Expand(t, id, range, cap, f).0, id)
    ensures Expand(s, id, range, cap, f).1 == Expand(t, id, range, cap, f).1
  {
  }

  lemma LocalPlain(s: Store, t: Store, target: Target, params: Params, f: Faults)
    requires At(s, target.full) == At(t, target.full)
    ensures At(CreatePlain(s, target, params, f).0, target.full) == At(CreatePlain(t, target, params, f).0, target.full)
    ensures CreatePlain(s, target, params, f).1 == CreatePlain(t, target, params, f).1
  {
  }

  lemma LocalNfs(cfg: Config, s: Store, t: Store, target: Target, params: Params, f: Faults)
    requires At(s, target.full) == At(t, target.full)
    requires ShareName(target.leaf) ==> LeafOf(target.full) == target.leaf
    ensures At(CreateNfs(cfg, s, target, params, f).0, target.full) == At(CreateNfs(cfg, t, target, params, f).0, target.full)
    ensures CreateNfs(cfg, s, target, params, f).1 == CreateNfs(cfg, t, target, params, f).1
  {
    if ShareName(target.leaf) {
      LocalJob(s, t, target, f);
    }
  }

  lemma LocalJob(s: Store, t: Store, target: Target, f: Faults)
    requires At(s, target.full) == At(t, target.full) && LeafOf(target.full) == target.leaf
    ensures At(ShareJob(s, target, f).0, target.full) == At(ShareJob(t, target, f).0, target.full)
    ensures ShareJob(s, target, f).1 == ShareJob(t, target, f).1
  {
  }

  /** The calls of a run that are about `full`. */
  ghost function Only(cfg: Config, rpcs: seq<Rpc>, full: string): (r: seq<Rpc>) {
    if rpcs == [] then []
    else
      var init, last := Only(cfg, rpcs[..|rpcs| - 1], full), rpcs[|rpcs| - 1];
      if About(cfg, last, full) then init + [last] else init
  }

  ghost predicate NoClash(cfg: Config, rpcs: seq<Rpc>, full: string) {
    forall i | 0 <= i < |rpcs| :: !Clashes(cfg, rpcs[i], full)
  }

  /** After any run without a clash, with any failures, a volume is as if only the calls
      about it had been made. */
  lemma {:induction false} VolumesAreIndependent(cfg: Config, s: Store, rpcs: seq<Rpc>, full: string)
    requires NoClash(cfg, rpcs, full)
    ensures At(Run(cfg, s, rpcs), full) == At(Run(cfg, s, Only(cfg, rpcs, full)), full)
  {
    if rpcs != [] {
      var init, last := rpcs[..|rpcs| - 1], rpcs[|rpcs| - 1];
      VolumesAreIndependent(cfg, s, init, full);
      var kept := Only(cfg, init, full);
      if About(cfg, last, full) {
        Local(cfg, Run(cfg, s, init), Run(cfg, s, kept), last, full);
        assert (kept + [last])[..|kept|] == kept;
      } else {
        Elsewhere(cfg, Run(cfg, s, init), last, full);
      }
    }
  }

  /** Two different new NFS volumes of one last segment: the first create makes a clean
      second one fail, which alone is accepted. */
  lemma {:induction false} NamesakesInterfere(cfg: Config, s: Store, a: CreateRequest, b: CreateRequest)
    requires Create(cfg, s, a, NoFaults).1.Ok? && Create(cfg, s, b, NoFaults).1.Ok? && a.name == b.name
    requires var t, u := TargetOf(cfg, a).value, TargetOf(cfg, b).value;
             t.kind.Nfs? && u.kind.Nfs? && t.full != u.full && t.full !in s.datasets && u.full !in s.datasets
    ensures var s1 := Create(cfg, s, a, NoFaults).0; Create(cfg, s1, b, NoFaults) == (s1, Err(Internal))
  {
    AcceptedCreate(cfg, s, a, NoFaults);
    AcceptedCreate(cfg, s, b, NoFaults);
    Refused(cfg, Create(cfg, s, a, NoFaults).0, TargetOf(cfg, b).value, b.params);
  }

  /** A name that is exported is refused to a new volume, whose dataset is destroyed again. */
  lemma Refused(cfg: Config, s: Store, t: Target, params: Params)
    requires DatasetSubpath(t.pool, t.full) != "" && t.full !in s.datasets && t.leaf in s.exports
    ensures CreateNfs(cfg, s, t, params, NoFaults) == (s, Err(Internal))
  {
  }

  /** Deleting a volume takes away the export of another with the same last segment, whose
      dataset stays, exactly when the deleted one is a filesystem the share lookup finds; a
      zvol takes nothing. */
  lemma {:induction false} DeleteTakesNamesakesExport(s: Store, full: string, other: string, lost: bool)
    requires full in s.datasets && other in s.datasets && full != other && Parse(other).Ok? && LeafOf(other) == LeafOf(full)
    requires LeafOf(full) in s.exports && s.exports[LeafOf(full)] == full
    ensures var (s1, r) := Delete(s, other, NoFaults.(get := lost));
            && r.Ok?
            && At(s1, full) == (Some(s.datasets[full]),
                                if !lost && ShareName(LeafOf(full)) && IsShare(s, other) then None else Some(full))
  {
    DeleteClean(s, other, lost);
  }

  /** No attempt at the request in the run leaves its volume half-made. */
  ghost predicate NeverHalf(cfg: Config, s: Store, rpcs: seq<Rpc>, req: CreateRequest)
    requires TargetOf(cfg, req).Ok?
  {
    forall i | 0 <= i < |rpcs| && rpcs[i].RpcCreate? && rpcs[i].req == req ::
      !Half(Run(cfg, s, rpcs[..i]), TargetOf(cfg, req).value, rpcs[i].f)
  }

  /** Any number of attempts at one request, none leaving its volume half-made, among any
      calls about other volumes that do not clash: a clean attempt then answers as it would
      have at the start, and leaves the volume as it would have been then. */
  lemma {:induction false} AttemptsConverge(cfg: Config, s: Store, rpcs: seq<Rpc>, req: CreateRequest, full: string)
    requires TargetOf(cfg, req).Ok? && TargetOf(cfg, req).value.full == full
    requires NoClash(cfg, rpcs, full) && NeverHalf(cfg, s, rpcs, req)
    requires forall i | 0 <= i < |rpcs| && About(cfg, rpcs[i], full) :: rpcs[i].RpcCreate? && rpcs[i].req == req
    ensures var after := Run(cfg, s, rpcs);
            && At(Create(cfg, after, req, NoFaults).0, full) == At(Create(cfg, s, req, NoFaults).0, full)
            && Create(cfg, after, req, NoFaults).1 == Create(cfg, s, req, NoFaults).1
  {
    if rpcs != [] {
      var init, last := rpcs[..|rpcs| - 1], rpcs[|rpcs| - 1];
      assert forall i | 0 <= i < |init| :: init[..i] == rpcs[..i];
      AttemptsConverge(cfg, s, init, req, full);
      var before := Run(cfg, s, init);
      var clean := RpcCreate(req, NoFaults);
      if About(cfg, last, full) {
        RetryConvergesExactly(cfg, before, req, last.f);
      } else {
        Elsewhere(cfg, before, last, full);
        Local(cfg, before, Run(cfg, s, rpcs), clean, full);
        assert Exec(cfg, before, clean).1 == Created(Create(cfg, before, req, NoFaults).1);
      }
    }
  }

  /** Every export of a run stays on its dataset if no attempt leaves an export unloaded and
      no delete misses the share lookup. */
  ghost predicate Careful(rpc: Rpc) {
    match rpc
    case RpcCreate(_, f) => !f.file.Unloaded?
    case RpcDelete(id, f) => !f.get && !f.file.Unwritten? && Parse(id).Ok? && ShareName(LeafOf(id))
    case RpcExpand(_, _, _, _) => true
  }

  ghost predicate AllCareful(rpcs: seq<Rpc>) {
    forall i | 0 <= i < |rpcs| :: Careful(rpcs[i])
  }

  /** Independence and soundness of a run, for all volumes at once. */
  lemma {:induction false} RunsAreSound(cfg: Config, s: Store, rpcs: seq<Rpc>)
    ensures forall full | NoClash(cfg, rpcs, full) :: At(Run(cfg, s, rpcs), full) == At(Run(cfg, s, Only(cfg, rpcs, full)), full)
    ensures StoreOk(s) && AllCareful(rpcs) ==> StoreOk(Run(cfg, s, rpcs))
  {
    forall full | NoClash(cfg, rpcs, full)
      ensures At(Run(cfg, s, rpcs), full) == At(Run(cfg, s, Only(cfg, rpcs, full)), full)
    {
      VolumesAreIndependent(cfg, s, rpcs, full);
    }
    if StoreOk(s) && AllCareful(rpcs) {
      CarefulRunsStaySound(cfg, s, rpcs);
    }
  }

  lemma {:induction false} CarefulRunsStaySound(cfg: Config, s: Store, rpcs: seq<Rpc>)
    requires StoreOk(s) && AllCareful(rpcs)
    ensures StoreOk(Run(cfg, s, rpcs))
  {
    if rpcs != [] {
      var init, last := rpcs[..|rpcs| - 1], rpcs[|rpcs| - 1];
      CarefulRunsStaySound(cfg, s, init);
      var before := Run(cfg, s, init);
      match last {
        case RpcCreate(req, f) =>
          if TargetOf(cfg, req).Ok? {
            CreateKeepsStoreOkExactly(cfg, before, req, f);
          }
        case RpcDelete(id, f) => CarefulDelete(before, id, f);
        case RpcExpand(_, _, _, _) =>
      }
    }
  }

  /** The server of this repository: its share handler answers a lookup that finds nothing
      with an error, and a destroy of a missing dataset is a job that fails. */
  ghost predicate OwnServer(cfg: Config, s: Store, rpc: Rpc) {
    match rpc
    case RpcCreate(req, f) =>
      TargetOf(cfg, req).Ok? && TargetOf(cfg, req).value.kind.Nfs? && TargetOf(cfg, req).value.full !in s.datasets ==> f.get
    case RpcDelete(id, f) => id !in s.datasets ==> f.change
    case RpcExpand(_, _, _, _) => true
  }

  /** Every export there was before, as it was. */
  ghost predicate ExportsWithin(s: Store, s1: Store) {
    forall n | n in s1.exports :: n in s.exports && s1.exports[n] == s.exports[n]
  }

  /** On that server no run ever makes an export. */
  lemma {:induction false} OwnServerNeverExports(cfg: Config, s: Store, rpcs: seq<Rpc>)
    requires forall i | 0 <= i < |rpcs| :: OwnServer(cfg, Run(cfg, s, rpcs[..i]), rpcs[i])
    ensures ExportsWithin(s, Run(cfg, s, rpcs))
  {
    if rpcs != [] {
      var init := rpcs[..|rpcs| - 1];
      forall i | 0 <= i < |init| ensures OwnServer(cfg, Run(cfg, s, init[..i]), init[i]) {
        assert init[..i] == rpcs[..i] && init[i] == rpcs[i];
      }
      OwnServerNeverExports(cfg, s, init);
      assert rpcs[..|init|] == init;
      OwnServerStep(cfg, Run(cfg, s, init), rpcs[|init|]);
    }
  }

  /** A volume that is gone stays gone until a create about it. */
  lemma {:induction false} GoneStaysGone(cfg: Config, s: Store, rpcs: seq<Rpc>, id: string)
    requires id !in s.datasets && forall i | 0 <= i < |rpcs| && rpcs[i].RpcCreate? :: !About(cfg, rpcs[i], id)
    ensures id !in Run(cfg, s, rpcs).datasets
  {
    if rpcs != [] {
      GoneStaysGone(cfg, s, rpcs[..|rpcs| - 1], id);
      GoneStep(cfg, Run(cfg, s, rpcs[..|rpcs| - 1]), rpcs[|rpcs| - 1], id);
    }
  }

  lemma GoneStep(cfg: Config, s: Store, rpc: Rpc, id: string)
    requires id !in s.datasets && (rpc.RpcCreate? ==> !About(cfg, rpc, id))
    ensures id !in Exec(cfg, s, rpc).0.datasets
  {
    match rpc {
      case RpcCreate(req, f) =>
        if TargetOf(cfg, req).Ok? {
          CreateElsewhere(cfg, s, TargetOf(cfg, req).value, req.params, f, id);
          NfsElsewhere(cfg, s, TargetOf(cfg, req).value, req.params, f, id);
        }
      case RpcDelete(_, _) =>
      case RpcExpand(_, _, _, _) =>
    }
  }

  lemma NfsElsewhere(cfg: Config, s: Store, t: Target, params: Params, f: Faults, id: string)
    requires t.full != id && id !in s.datasets
    ensures id !in CreateNfs(cfg, s, t, params, f).0.datasets
  {
  }

  /** On that server a volume once deleted cannot be deleted again, whatever calls come in
      between, unless one of them creates it anew. */
  lemma {:induction false} OwnServerDeletesOnce(cfg: Config, s: Store, id: string, f: Faults, rpcs: seq<Rpc>, g: Faults)
    requires Delete(s, id, f).1.Ok?
    requires forall i | 0 <= i < |rpcs| && rpcs[i].RpcCreate? :: !About(cfg, rpcs[i], id)
    requires OwnServer(cfg, Run(cfg, Delete(s, id, f).0, rpcs), RpcDelete(id, g))
    ensures Delete(Run(cfg, Delete(s, id, f).0, rpcs), id, g).1.Err?
  {
    DeleteRemoves(s, id, f);
    GoneStaysGone(cfg, Delete(s, id, f).0, rpcs, id);
    RefusedWhenGone(Run(cfg, Delete(s, id, f).0, rpcs), id, g);
  }

  lemma OwnServerStep(cfg: Config, s: Store, rpc: Rpc)
    requires OwnServer(cfg, s, rpc)
    ensures ExportsWithin(s, Exec(cfg, s, rpc).0)
  {
    match rpc {
      case RpcCreate(req, f) =>
        if TargetOf(cfg, req).Ok? && TargetOf(cfg, req).value.kind.Nfs? {
          LookupErrorStopsNfs(cfg, s, TargetOf(cfg, req).value, req.params, f);
        }
      case RpcDelete(id, f) => DeleteShrinks(s, id, f);
      case RpcExpand(_, _, _, _) =>
    }
  }

  lemma DeleteShrinks(s: Store, id: string, f: Faults)
    ensures ExportsWithin(s, Delete(s, id, f).0)
  {
  }

  lemma RefusedWhenGone(s: Store, id: string, f: Faults)
    requires id !in s.datasets && f.change
    ensures Delete(s, id, f).1.Err?
  {
    if Parse(id).Ok? {
      EncodeParse(id);
    }
  }

  lemma {:induction false} CarefulDelete(s: Store, id: string, f: Faults)
    requires StoreOk(s) && Careful(RpcDelete(id, f))
    ensures StoreOk(Delete(s, id, f).0)
  {
    PoolPrefixLeavesRest(id);
    EncodeParse(id);
    var s1 := Delete(s, id, f).0;
    if s1.datasets == s.datasets - {id} {
      SoundWithout(s, s1, id);
    }
  }
}
