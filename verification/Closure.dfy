/** Whole-run results about the plugin lifecycle: dependency closure, constraint
    satisfaction, freedom from self-deadlock, and agreement of the live tables. */
module Closure {
  import opened Prelude
  import opened Resolver
  import opened Lifecycle

  // ----- dependency closure -----

  ghost predicate TierTwo(m: Manifest, d: Dependency) {
    d in m.deps && d.source.Tier2?
  }

  /** Every tier-2 dependency of every installed plugin is installed. */
  ghost predicate Closed(rows: map<string, Row>) {
    forall n, d | n in rows && TierTwo(rows[n].manifest, d) :: d.name in rows
  }

  /** No release declares a tier-2 dependency after declaring the same name as bundled. */
  ghost predicate TierTwoFirst(reg: Registry) {
    forall n, r, d | n in reg && r in reg[n] && TierTwo(r.manifest, d) ::
      FirstSource(r.manifest.deps, d.name) != Some(Bundled)
  }

  /** When the loop over a plan has run, the dependencies the plan knew as tier-2 are present. */
  lemma PlannedDepPresent(reg: Registry, s: State, s1: State, m: Manifest, plan: seq<PlanStep>, d: Dependency) returns (step: PlanStep)
    requires Plan(EnvOf(reg, s.rows), m) == Ok(plan) && Extends(s.rows, s1.rows)
    requires forall i | 0 <= i < |plan| :: !Pulls(s1, m.name, plan[i])
    requires TierTwo(m, d) && FirstSource(m.deps, d.name) != Some(Bundled)
    ensures d.name in s1.rows
    ensures step.name == d.name && StepFor(EnvOf(reg, s.rows), m.deps, d.name, step)
    ensures DepOk(EnvOf(reg, s.rows), m.name, Declared(m.deps, d.name), d)
  {
    var env := EnvOf(reg, s.rows);
    PlanIsSettled(env, m);
    assert d.name in Names(m.deps);
    var i :| 0 <= i < |plan| - 1 && plan[i].name == d.name;
    step := plan[i];
    assert StepFor(env, m.deps, d.name, step);
    assert DepOk(env, m.name, Declared(m.deps, d.name), d);
    assert !Pulls(s1, m.name, plan[i]);
  }

  lemma {:induction false} InstallKeepsClosed(reg: Registry, s: State, name: string, version: string, o: Oracle, chain: seq<string>)
    requires TierTwoFirst(reg) && Closed(s.rows)
    ensures Closed(Install(reg, s, name, version, o, chain).0.rows)
    decreases reg.Keys - Elems(chain), 0
  {
    if name != "" && name !in chain && name !in s.rows && o(name).planFetch && Find(reg, name, version).Some? {
      var m := Find(reg, name, version).value.manifest;
      var plan := Plan(EnvOf(reg, s.rows), m);
      var inner := chain + [name];
      assert name in Elems(inner) && name !in Elems(chain) && Elems(chain) <= Elems(inner);
      if plan.Ok? {
        StepsKeepClosed(reg, s, name, plan.value, o, inner);
        StepsGrow(reg, s, name, plan.value, o, inner);
        var (s1, stop) := InstallSteps(reg, s, name, plan.value, o, inner);
        if stop.None? && m.name == name {
          forall d | TierTwo(m, d) ensures d.name in s1.rows {
            var _ := PlannedDepPresent(reg, s, s1, m, plan.value, d);
          }
          CompleteKeepsClosed(s1, name, m, plan.value, o(name));
        }
      }
    }
  }

  /** Finishing an install successfully keeps closure exactly when every tier-2 dependency
      is in the rows by then, whatever was planned earlier. */
  lemma CompleteClosedExactly(s: State, name: string, m: Manifest, plan: seq<PlanStep>, o: Outcome)
    requires Closed(s.rows) && Complete(s, name, m, plan, o).1.Installed?
    ensures Closed(Complete(s, name, m, plan, o).0.rows) <==> forall d | TierTwo(m, d) :: d.name in s.rows || d.name == name
  {
    var rows := Complete(s, name, m, plan, o).0.rows;
    assert rows == s.rows[name := Row(m.version, m)];
    if Closed(rows) {
      forall d | TierTwo(m, d) ensures d.name in s.rows || d.name == name {
        assert TierTwo(rows[name].manifest, d);
      }
    }
  }

  lemma CompleteKeepsClosed(s: State, name: string, m: Manifest, plan: seq<PlanStep>, o: Outcome)
    requires Closed(s.rows) && forall d | TierTwo(m, d) :: d.name in s.rows
    ensures Closed(Complete(s, name, m, plan, o).0.rows)
  {
  }

  lemma {:induction false} StepsKeepClosed(reg: Registry, s: State, root: string, steps: seq<PlanStep>, o: Oracle, chain: seq<string>)
    requires TierTwoFirst(reg) && Closed(s.rows)
    ensures Closed(InstallSteps(reg, s, root, steps, o, chain).0.rows)
    decreases reg.Keys - Elems(chain), 1 + |steps|
  {
    if steps != [] {
      var s1 := s;
      if Pulls(s, root, steps[0]) {
        InstallKeepsClosed(reg, s, steps[0].name, steps[0].version.raw, o, chain);
        s1 := Install(reg, s, steps[0].name, steps[0].version.raw, o, chain).0;
      }
      StepsKeepClosed(reg, s1, root, steps[1..], o, chain);
    }
  }

  lemma UninstallKeepsClosed(s: State, name: string, deleted: bool)
    requires Closed(s.rows)
    ensures Closed(Uninstall(s, name, false, true, deleted).0.rows)
  {
  }

  // ----- runs -----

  /** One API call: the registry may differ from call to call. */
  datatype Op = OpInstall(reg: Registry, name: string, version: string, oracle: Oracle)
              | OpUninstall(name: string, force: bool, known: bool, deleted: bool)

  ghost function Exec(s: State, op: Op): (r: State) {
    match op
    case OpInstall(reg, name, version, o) => Install(reg, s, name, version, o, []).0
    case OpUninstall(name, force, known, deleted) => Uninstall(s, name, force, known, deleted).0
  }

  ghost function Run(s: State, ops: seq<Op>): (r: State) {
    if ops == [] then s else Exec(Run(s, ops[..|ops| - 1]), ops[|ops| - 1])
  }

  const Fresh := State(map[], map[], {}, {})

  /** Installs read registries that put tier-2 first; uninstalls are unforced and their dependents query succeeds. */
  ghost predicate Guarded(op: Op) {
    match op
    case OpInstall(reg, _, _, _) => TierTwoFirst(reg)
    case OpUninstall(_, force, known, _) => !force && known
  }

  /** Closure holds after every run, whatever fails in it. */
  lemma {:induction false} RunsStayClosed(s: State, ops: seq<Op>)
    requires Closed(s.rows) && forall i | 0 <= i < |ops| :: Guarded(ops[i])
    ensures Closed(Run(s, ops).rows)
  {
    if ops != [] {
      var init, last := ops[..|ops| - 1], ops[|ops| - 1];
      RunsStayClosed(s, init);
      match last {
        case OpInstall(reg, name, version, o) => InstallKeepsClosed(reg, Run(s, init), name, version, o, []);
        case OpUninstall(name, _, _, deleted) => UninstallKeepsClosed(Run(s, init), name, deleted);
      }
    }
  }

  // ----- locks -----

  /** Some release of `a` makes Install take the lock of `b` while holding that of `a`. */
  ghost predicate Edge(reg: Registry, a: string, b: string) {
    a in reg && exists r :: r in reg[a] && Reaches(r.manifest, a, b)
  }

  ghost predicate Reaches(m: Manifest, a: string, b: string) {
    (b != a && m.name == b) || exists d :: TierTwo(m, d) && d.name == b
  }

  ghost predicate IsPath(reg: Registry, p: seq<string>) {
    forall i | 0 <= i < |p| - 1 :: Edge(reg, p[i], p[i + 1])
  }

  ghost predicate Cyclic(reg: Registry) {
    exists p :: IsPath(reg, p) && |p| >= 2 && p[0] == p[|p| - 1]
  }

  lemma PulledStepIsEdge(reg: Registry, s: State, name: string, version: string, plan: seq<PlanStep>, i: int)
    requires Find(reg, name, version).Some?
    requires Plan(EnvOf(reg, s.rows), Find(reg, name, version).value.manifest) == Ok(plan)
    requires 0 <= i < |plan| && plan[i].action.ActInstall? && plan[i].name != name
    ensures Edge(reg, name, plan[i].name)
  {
    var r := Find(reg, name, version).value;
    var m := r.manifest;
    var env := EnvOf(reg, s.rows);
    PlanIsSettled(env, m);
    if i < |plan| - 1 {
      assert StepFor(env, m.deps, plan[i].name, plan[i]);
      FirstSourceOf(m.deps, plan[i].name);
      var d :| d in m.deps && d.name == plan[i].name && FirstSource(m.deps, plan[i].name) == Some(d.source);
      assert DepOk(env, m.name, Declared(m.deps, d.name), d);
      assert TierTwo(m, d);
    } else {
      assert plan[i] == RootStep(m);
    }
  }

  /** A call that blocks on its own chain exhibits a cycle of the registry. */
  lemma {:induction false} BlockedMeansCyclic(reg: Registry, s: State, name: string, version: string, o: Oracle, chain: seq<string>)
    requires IsPath(reg, chain + [name])
    ensures Install(reg, s, name, version, o, chain).1.Blocked? ==> Cyclic(reg)
    decreases reg.Keys - Elems(chain), 0
  {
    if name in chain {
      var k :| 0 <= k < |chain| && chain[k] == name;
      var p := (chain + [name])[k..];
      assert forall i | 0 <= i < |p| :: p[i] == (chain + [name])[k + i];
      assert IsPath(reg, p) && p[0] == p[|p| - 1] && |p| >= 2;
    } else if name != "" && name !in s.rows && o(name).planFetch && Find(reg, name, version).Some? {
      var m := Find(reg, name, version).value.manifest;
      var plan := Plan(EnvOf(reg, s.rows), m);
      var inner := chain + [name];
      assert name in Elems(inner) && name !in Elems(chain) && Elems(chain) <= Elems(inner);
      if plan.Ok? {
        forall i | 0 <= i < |plan.value| && plan.value[i].action.ActInstall? && plan.value[i].name != name
          ensures Edge(reg, name, plan.value[i].name)
        {
          PulledStepIsEdge(reg, s, name, version, plan.value, i);
        }
        StepsBlockedMeansCyclic(reg, s, name, plan.value, o, inner);
      }
    }
  }

  lemma {:induction false} StepsBlockedMeansCyclic(reg: Registry, s: State, root: string, steps: seq<PlanStep>, o: Oracle, chain: seq<string>)
    requires chain != [] && IsPath(reg, chain) && chain[|chain| - 1] == root
    requires forall i | 0 <= i < |steps| && steps[i].action.ActInstall? && steps[i].name != root ::
               Edge(reg, root, steps[i].name)
    ensures InstallSteps(reg, s, root, steps, o, chain).1 == Some(Blocked) ==> Cyclic(reg)
    decreases reg.Keys - Elems(chain), 1 + |steps|
  {
    if steps != [] {
      var s1 := s;
      if Pulls(s, root, steps[0]) {
        var longer := chain + [steps[0].name];
        assert forall i | 0 <= i < |longer| - 1 :: Edge(reg, longer[i], longer[i + 1]);
        BlockedMeansCyclic(reg, s, steps[0].name, steps[0].version.raw, o, chain);
        s1 := Install(reg, s, steps[0].name, steps[0].version.raw, o, chain).0;
      }
      assert forall i | 0 <= i < |steps[1..]| :: steps[1..][i] == steps[i + 1];
      StepsBlockedMeansCyclic(reg, s1, root, steps[1..], o, chain);
    }
  }

  /** On an acyclic registry no call ever waits for a lock of its own chain. */
  lemma {:induction false} AcyclicNeverBlocks(reg: Registry, s: State, name: string, version: string, o: Oracle)
    requires !Cyclic(reg)
    ensures !Install(reg, s, name, version, o, []).1.Blocked?
  {
    BlockedMeansCyclic(reg, s, name, version, o, []);
  }

  // ----- the live tables -----

  /** The router and the UI registrations are exactly what the rows call for, and the
      on-disk trees agree with the rows. */
  ghost predicate Live(s: State) {
    && s.routes == RoutesOf(s.rows)
    && s.ui == UiOf(s.rows)
    && forall n | n in s.rows :: n in s.trees <==> s.rows[n].manifest.hasUI
  }

  /** The router accepts every mount and the rollback's row delete succeeds. */
  ghost predicate Working(o: Oracle) {
    forall n :: o(n).mount && o(n).unpersist
  }

  lemma CompleteKeepsLive(s: State, name: string, m: Manifest, plan: seq<PlanStep>, o: Outcome)
    requires Live(s) && name !in s.rows && o.mount && o.unpersist
    ensures Live(Complete(s, name, m, plan, o).0)
  {
  }

  lemma {:induction false} InstallKeepsLive(reg: Registry, s: State, name: string, version: string, o: Oracle, chain: seq<string>)
    requires Live(s) && Working(o)
    ensures Live(Install(reg, s, name, version, o, chain).0)
    decreases reg.Keys - Elems(chain), 0
  {
    if name != "" && name !in chain && name !in s.rows && o(name).planFetch && Find(reg, name, version).Some? {
      var m := Find(reg, name, version).value.manifest;
      var plan := Plan(EnvOf(reg, s.rows), m);
      var inner := chain + [name];
      assert name in Elems(inner) && name !in Elems(chain) && Elems(chain) <= Elems(inner);
      if plan.Ok? {
        StepsKeepLive(reg, s, name, plan.value, o, inner);
        StepsGrow(reg, s, name, plan.value, o, inner);
        var (s1, stop) := InstallSteps(reg, s, name, plan.value, o, inner);
        if stop.None? {
          assert name in inner;
          CompleteKeepsLive(s1, name, m, plan.value, o(name));
        }
      }
    }
  }

  lemma {:induction false} StepsKeepLive(reg: Registry, s: State, root: string, steps: seq<PlanStep>, o: Oracle, chain: seq<string>)
    requires Live(s) && Working(o)
    ensures Live(InstallSteps(reg, s, root, steps, o, chain).0)
    decreases reg.Keys - Elems(chain), 1 + |steps|
  {
    if steps != [] {
      var s1 := s;
      if Pulls(s, root, steps[0]) {
        InstallKeepsLive(reg, s, steps[0].name, steps[0].version.raw, o, chain);
        s1 := Install(reg, s, steps[0].name, steps[0].version.raw, o, chain).0;
      }
      StepsKeepLive(reg, s1, root, steps[1..], o, chain);
    }
  }

  lemma UninstallKeepsLive(s: State, name: string, force: bool, known: bool)
    requires Live(s)
    ensures Live(Uninstall(s, name, force, known, true).0)
  {
  }

  ghost predicate Reliable(op: Op) {
    match op
    case OpInstall(_, _, _, o) => Working(o)
    case OpUninstall(_, _, _, deleted) => deleted
  }

  /** With a working store and router the live tables follow the rows through every run,
      and a restart from empty tables rebuilds exactly what was live. */
  lemma {:induction false} RunsStayLive(ops: seq<Op>)
    requires forall i | 0 <= i < |ops| :: Reliable(ops[i])
    ensures Live(Run(Fresh, ops))
    ensures Restore(Run(Fresh, ops).(routes := map[], ui := {})) == Run(Fresh, ops)
  {
    if ops == [] {
      assert RoutesOf(Fresh.rows) == map[];
    } else {
      var init, last := ops[..|ops| - 1], ops[|ops| - 1];
      RunsStayLive(init);
      match last {
        case OpInstall(reg, name, version, o) => InstallKeepsLive(reg, Run(Fresh, init), name, version, o, []);
        case OpUninstall(name, force, known, _) => UninstallKeepsLive(Run(Fresh, init), name, force, known);
      }
    }
    RestoreRebuilds(Run(Fresh, ops));
  }

  lemma RestoreRebuilds(s: State)
    requires Live(s)
    ensures Restore(s.(routes := map[], ui := {})) == s
  {
  }
}
