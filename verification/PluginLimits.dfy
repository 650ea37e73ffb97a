/** Where the lifecycle's guarantees end: exact conditions and concrete runs. */
module PluginLimits {
  import opened Prelude
  import Semver
  import opened Resolver
  import opened Lifecycle
  import opened Closure
  import opened Satisfaction

  /** After a successful install the plugin's tier-2 dependencies are all present exactly
      when those first declared as bundled are: the resolver never pulls the latter. */
  lemma InstalledDepsExactly(reg: Registry, s: State, name: string, version: string, o: Oracle, chain: seq<string>)
    requires Install(reg, s, name, version, o, chain).1.Installed?
    ensures var s' := Install(reg, s, name, version, o, chain).0;
            var m := Find(reg, name, version).value.manifest;
            (forall d | TierTwo(m, d) :: d.name in s'.rows) <==>
            (forall d | TierTwo(m, d) && FirstSource(m.deps, d.name) == Some(Bundled) :: d.name in s'.rows)
  {
    var s' := Install(reg, s, name, version, o, chain).0;
    var m := Find(reg, name, version).value.manifest;
    var plan := Plan(EnvOf(reg, s.rows), m).value;
    StepsGrow(reg, s, name, plan, o, chain + [name]);
    var (s1, stop) := InstallSteps(reg, s, name, plan, o, chain + [name]);
    forall d | TierTwo(m, d) && FirstSource(m.deps, d.name) != Some(Bundled) ensures d.name in s'.rows {
      var _ := PlannedDepPresent(reg, s, s1, m, plan, d);
    }
  }

  /** Seen from before the call, where the plan has nothing to pull: a successful install
      keeps closure exactly when every tier-2 dependency first declared bundled is installed. */
  lemma {:induction false} ClosureKeptExactly(reg: Registry, s: State, name: string, version: string, o: Oracle, chain: seq<string>)
    requires Closed(s.rows) && Install(reg, s, name, version, o, chain).1.Installed?
    requires var plan := Plan(EnvOf(reg, s.rows), Find(reg, name, version).value.manifest).value;
             forall i | 0 <= i < |plan| :: !Pulls(s, name, plan[i])
    ensures var m := Find(reg, name, version).value.manifest;
            Closed(Install(reg, s, name, version, o, chain).0.rows) <==>
            forall d | TierTwo(m, d) && FirstSource(m.deps, d.name) == Some(Bundled) :: d.name in s.rows
  {
    var m := Find(reg, name, version).value.manifest;
    var env := EnvOf(reg, s.rows);
    var plan := Plan(env, m).value;
    NothingToPull(reg, s, name, plan, o, chain + [name]);
    CompleteClosedExactly(s, name, m, plan, o(name));
    PlanIsSettled(env, m);
    forall d | TierTwo(m, d) ensures d.name != name {
      assert DepOk(env, m.name, Declared(m.deps, d.name), d);
    }
    forall d | TierTwo(m, d) && FirstSource(m.deps, d.name) != Some(Bundled) ensures d.name in s.rows {
      var _ := PlannedDepPresent(reg, s, s, m, plan, d);
    }
  }

  /** A failed install leaves the plugin's row out, except exactly where the row was there
      before or a failed deployment could not delete it again. */
  lemma FailedInstallLeavesNoRow(reg: Registry, s: State, name: string, version: string, o: Oracle)
    requires !Install(reg, s, name, version, o, []).1.Installed?
    ensures var (s', r) := Install(reg, s, name, version, o, []);
            name in s'.rows <==> name in s.rows || (r == Failed(DeployFailed) && !o(name).unpersist)
  {
    if name != "" && name !in s.rows && o(name).planFetch && Find(reg, name, version).Some? {
      var plan := Plan(EnvOf(reg, s.rows), Find(reg, name, version).value.manifest);
      if plan.Ok? {
        StepsGrow(reg, s, name, plan.value, o, [] + [name]);
        assert name in [] + [name];
        StepsNeverDeployFail(reg, s, name, plan.value, o, [] + [name]);
      }
    }
  }

  /** A failing dependency is reported as such, never under its own reason. */
  lemma {:induction false} StepsNeverDeployFail(reg: Registry, s: State, root: string, steps: seq<PlanStep>, o: Oracle, chain: seq<string>)
    ensures InstallSteps(reg, s, root, steps, o, chain).1 != Some(Failed(DeployFailed))
    decreases |steps|
  {
    if steps != [] {
      StepsNeverDeployFail(reg, s, root, steps[1..], o, chain);
      StepsNeverDeployFail(reg, Install(reg, s, steps[0].name, steps[0].version.raw, o, chain).0, root, steps[1..], o, chain);
    }
  }

  // ----- dependency knots -----

  /** Every release of every plugin in `knot` needs a plugin in `knot`. */
  ghost predicate Knot(reg: Registry, knot: set<string>) {
    forall n, r | n in knot && n in reg && r in reg[n] ::
      exists d :: TierTwo(r.manifest, d) && d.name in knot
  }

  ghost predicate Avoids(rows: map<string, Row>, knot: set<string>) {
    forall n | n in rows :: n !in knot
  }

  lemma {:induction false} InstallAvoidsKnot(reg: Registry, knot: set<string>, s: State, name: string, version: string, o: Oracle, chain: seq<string>)
    requires TierTwoFirst(reg) && Knot(reg, knot) && Avoids(s.rows, knot)
    ensures Avoids(Install(reg, s, name, version, o, chain).0.rows, knot)
    decreases reg.Keys - Elems(chain), 0
  {
    if name != "" && name !in chain && name !in s.rows && o(name).planFetch && Find(reg, name, version).Some? {
      var m := Find(reg, name, version).value.manifest;
      var plan := Plan(EnvOf(reg, s.rows), m);
      var inner := chain + [name];
      assert name in Elems(inner) && name !in Elems(chain) && Elems(chain) <= Elems(inner);
      if plan.Ok? {
        StepsAvoidKnot(reg, knot, s, name, plan.value, o, inner);
        StepsGrow(reg, s, name, plan.value, o, inner);
        var (s1, stop) := InstallSteps(reg, s, name, plan.value, o, inner);
        if stop.None? && m.name == name && name in knot {
          var d :| TierTwo(m, d) && d.name in knot;
          var _ := PlannedDepPresent(reg, s, s1, m, plan.value, d);
        }
      }
    }
  }

  lemma {:induction false} StepsAvoidKnot(reg: Registry, knot: set<string>, s: State, root: string, steps: seq<PlanStep>, o: Oracle, chain: seq<string>)
    requires TierTwoFirst(reg) && Knot(reg, knot) && Avoids(s.rows, knot)
    ensures Avoids(InstallSteps(reg, s, root, steps, o, chain).0.rows, knot)
    decreases reg.Keys - Elems(chain), 1 + |steps|
  {
    if steps != [] {
      var s1 := s;
      if Pulls(s, root, steps[0]) {
        InstallAvoidsKnot(reg, knot, s, steps[0].name, steps[0].version.raw, o, chain);
        s1 := Install(reg, s, steps[0].name, steps[0].version.raw, o, chain).0;
      }
      StepsAvoidKnot(reg, knot, s1, root, steps[1..], o, chain);
    }
  }

  /** Plugins that need one another in a circle are never installed, by any run. */
  lemma {:induction false} KnotNeverInstalls(knot: set<string>, ops: seq<Op>)
    requires forall i | 0 <= i < |ops| && ops[i].OpInstall? :: TierTwoFirst(ops[i].reg) && Knot(ops[i].reg, knot)
    ensures Avoids(Run(Fresh, ops).rows, knot)
  {
    if ops != [] {
      var init, last := ops[..|ops| - 1], ops[|ops| - 1];
      KnotNeverInstalls(knot, init);
      if last.OpInstall? {
        InstallAvoidsKnot(last.reg, knot, Run(Fresh, init), last.name, last.version, last.oracle, []);
      }
    }
  }

  // ----- concrete registries -----

  function Text(raw: string, major: nat): (v: VersionText) {
    VersionText(raw, Some(Semver.Version(major, 0, 0, [])))
  }

  function PluginAt(name: string, v: VersionText, deps: seq<Dependency>): (r: Release) {
    Release(v, Manifest(name, v, deps, [], false))
  }

  function Needs(name: string, c: Constraint): (d: Dependency) {
    Dependency(name, c, Tier2)
  }

  /** "<2.0.0" */
  const BelowTwo: Constraint :=
    Clauses([Clause((v: Semver.Version) => Semver.Compare(v, Semver.Version(2, 0, 0, [])) < 0, false)])

  /** ">=1.0.0-alpha" */
  const FromAlpha: Constraint :=
    Clauses([Clause((v: Semver.Version) => Semver.Compare(v, Semver.Version(1, 0, 0, [Semver.Alpha("alpha")])) >= 0, true)])

  const AllGood: Oracle := (n: string) => Outcome(true, true, true, true, true, true, true, true)

  /** A plan whose install steps all exist already leaves the loop nothing to do. */
  lemma {:induction false} NothingToPull(reg: Registry, s: State, root: string, steps: seq<PlanStep>, o: Oracle, chain: seq<string>)
    requires forall i | 0 <= i < |steps| :: !Pulls(s, root, steps[i])
    ensures InstallSteps(reg, s, root, steps, o, chain) == (s, None)
    decreases |steps|
  {
    if steps != [] {
      assert forall i | 0 <= i < |steps[1..]| :: steps[1..][i] == steps[i + 1];
      NothingToPull(reg, s, root, steps[1..], o, chain);
    }
  }

  /** With a single-entry list of candidates the pick is that entry. */
  lemma PickOnly(vs: seq<VersionText>, cs: seq<Constraint>, i: int)
    requires 0 <= i < |vs| && Candidate(vs[i], cs) && Malformed !in cs
    requires forall j | 0 <= j < |vs| && j != i :: !Candidate(vs[j], cs)
    ensures Pick(vs, cs) == Ok(vs[i])
  {
    Semver.PrecedenceOrder(vs[i].parsed.value, vs[i].parsed.value, vs[i].parsed.value);
    PickIsBest(vs, cs, i);
  }

  lemma OnlyIsBest(vs: seq<VersionText>)
    requires |vs| == 1 && vs[0].parsed.Some?
    ensures IsBest(vs, [Blank], 0)
  {
    Semver.PrecedenceOrder(vs[0].parsed.value, vs[0].parsed.value, vs[0].parsed.value);
  }

  /** Install once its plan and the loop over it are known. */
  lemma InstallByPlan(reg: Registry, s: State, name: string, version: string, chain: seq<string>,
                      inner: seq<string>, m: Manifest, plan: seq<PlanStep>, s1: State)
    requires name != "" && name !in chain && name !in s.rows && inner == chain + [name]
    requires Find(reg, name, version).Some? && Find(reg, name, version).value.manifest == m
    requires Plan(EnvOf(reg, s.rows), m) == Ok(plan)
    requires InstallSteps(reg, s, name, plan, AllGood, inner) == (s1, None)
    ensures Install(reg, s, name, version, AllGood, chain) == Complete(s1, name, m, plan, AllGood(name))
  {
  }

  lemma PullFirst(reg: Registry, s: State, root: string, steps: seq<PlanStep>, chain: seq<string>, s1: State)
    requires steps != [] && Pulls(s, root, steps[0])
    requires Install(reg, s, steps[0].name, steps[0].version.raw, AllGood, chain).0 == s1
    requires Install(reg, s, steps[0].name, steps[0].version.raw, AllGood, chain).1.Installed?
    requires forall i | 1 <= i < |steps| :: !Pulls(s1, root, steps[i])
    ensures InstallSteps(reg, s, root, steps, AllGood, chain) == (s1, None)
  {
    NothingToPull(reg, s1, root, steps[1..], AllGood, chain);
  }

  /** A plugin without dependencies, on its own. */
  lemma InstallLeaf(reg: Registry, s: State, name: string, version: string, chain: seq<string>)
    requires name != "" && name !in chain && name !in s.rows && Find(reg, name, version).Some?
    requires var m := Find(reg, name, version).value.manifest; m.name == name && m.deps == [] && m.routes == [] && !m.hasUI
    ensures var m := Find(reg, name, version).value.manifest;
            Install(reg, s, name, version, AllGood, chain).1.Installed? &&
            Install(reg, s, name, version, AllGood, chain).0.rows == s.rows[name := Row(m.version, m)]
  {
    var m := Find(reg, name, version).value.manifest;
    PlanIsSettled(EnvOf(reg, s.rows), m);
    var plan := Plan(EnvOf(reg, s.rows), m).value;
    NothingToPull(reg, s, name, plan, AllGood, chain + [name]);
    InstallByPlan(reg, s, name, version, chain, chain + [name], m, plan, s);
  }

  const MixedRegistry: Registry := map[
    "a" := [PluginAt("a", Text("1.0.0", 1), [Dependency("b", Blank, Bundled), Needs("b", Blank)])],
    "b" := [PluginAt("b", Text("1.0.0", 1), [])]]

  /** Declaring a name both ways, bundled first, installs the plugin without its tier-2
      dependency: closure fails, so the hypothesis of RunsStayClosed is needed. */
  lemma MixedBreaksClosure()
    ensures var (s, r) := Install(MixedRegistry, Fresh, "a", "", AllGood, []);
            r.Installed? && "a" in s.rows && "b" !in s.rows && !Closed(s.rows)
  {
    var m := MixedRegistry["a"][0].manifest;
    var plan := MixedPlan();
    NothingToPull(MixedRegistry, Fresh, "a", plan, AllGood, ["a"]);
    InstallByPlan(MixedRegistry, Fresh, "a", "", [], ["a"], m, plan, Fresh);
    var s := Install(MixedRegistry, Fresh, "a", "", AllGood, []).0;
    assert s.rows == map["a" := Row(m.version, m)];
    assert m.deps[1] in m.deps && TierTwo(s.rows["a"].manifest, m.deps[1]);
  }

  lemma MixedPlan() returns (plan: seq<PlanStep>)
    ensures Plan(EnvOf(MixedRegistry, Fresh.rows), MixedRegistry["a"][0].manifest) == Ok(plan)
    ensures forall i | 0 <= i < |plan| :: plan[i].name == "a" || plan[i].action == ActBundled
  {
    var m := MixedRegistry["a"][0].manifest;
    var env := EnvOf(MixedRegistry, Fresh.rows);
    PickOnly(Versions(MixedRegistry["b"]), [Blank], 0);
    BundledFirstPlan(env, m, "b");
    plan := Plan(env, m).value;
  }

  /** A name declared bundled and then tier-2 is planned as bundled. */
  lemma BundledFirstPlan(env: Env, m: Manifest, name: string)
    requires m.deps == [Dependency(name, Blank, Bundled), Needs(name, Blank)] && m.name != name
    requires env.installed(name).Absent? && env.market(name).Some? && Pick(env.market(name).value, [Blank]).Ok?
    ensures Plan(env, m).Ok?
    ensures forall i | 0 <= i < |Plan(env, m).value| :: Plan(env, m).value[i].name == m.name || Plan(env, m).value[i].action == ActBundled
  {
    TwoDeps(m.deps[0], m.deps[1], name);
    SettledFirst(env.market(name).value, Blank);
    PlanIsSettled(env, m);
    BundledFirstPlannable(env, m, name);
    BundledSteps(env, m, name, Plan(env, m).value);
  }

  lemma BundledFirstPlannable(env: Env, m: Manifest, name: string)
    requires m.deps == [Dependency(name, Blank, Bundled), Needs(name, Blank)] && m.name != name && Declared(m.deps, name) == [Blank]
    requires env.installed(name).Absent? && env.market(name).Some? && Settled(env.market(name).value, [Blank]).Some?
    ensures Plannable(env, m.name, m.deps)
  {
  }

  lemma BundledSteps(env: Env, m: Manifest, name: string, plan: seq<PlanStep>)
    requires SettledPlan(env, m, plan) && NamesInOrder(m.deps) == [name] && FirstSource(m.deps, name) == Some(Bundled)
    ensures forall i | 0 <= i < |plan| :: plan[i].name == m.name || plan[i].action == ActBundled
  {
    assert plan[0].name == NamesInOrder(m.deps)[0];
    assert StepFor(env, m.deps, name, plan[0]);
  }

  /** What a list of one or two dependencies declares. */
  lemma OneDep(d: Dependency, name: string)
    ensures Declared([d], name) == if d.source.Tier2? && d.name == name then [d.constraint] else []
    ensures FirstSource([d], name) == if d.name == name then Some(d.source) else None
    ensures NamesInOrder([d]) == [d.name]
  {
  }

  lemma TwoDeps(d: Dependency, e: Dependency, name: string)
    ensures Declared([d, e], name) == Declared([d], name) + Declared([e], name)
    ensures FirstSource([d, e], name) == if d.name == name then Some(d.source) else FirstSource([e], name)
    ensures NamesInOrder([d, e]) == if d.name == e.name then [d.name] else [d.name, e.name]
    ensures Declared([d], name) == if d.source.Tier2? && d.name == name then [d.constraint] else []
    ensures Declared([e], name) == if e.source.Tier2? && e.name == name then [e.constraint] else []
  {
    OneDep(d, name);
    OneDep(e, name);
    Extend([d], e, name);
    assert [d] + [e] == [d, e] && [d, e][..1] == [d];
  }

  const CyclicRegistry: Registry := map[
    "a" := [PluginAt("a", Text("1.0.0", 1), [Needs("b", Blank)])],
    "b" := [PluginAt("b", Text("1.0.0", 1), [Needs("a", Blank)])]]

  /** The list declares one name as tier-2 throughout, with the constraints `cs`. */
  ghost predicate NeedsOnly(deps: seq<Dependency>, name: string, cs: seq<Constraint>) {
    |deps| == |cs| > 0 && forall i | 0 <= i < |deps| :: deps[i] == Needs(name, cs[i])
  }

  lemma {:induction false} NeedsOnlyDeclares(deps: seq<Dependency>, name: string, cs: seq<Constraint>)
    requires NeedsOnly(deps, name, cs)
    ensures Declared(deps, name) == cs && NamesInOrder(deps) == [name] && FirstSource(deps, name) == Some(Tier2)
  {
    var n := |deps| - 1;
    var init := deps[..n];
    assert deps == init + [deps[n]] && cs == cs[..n] + [cs[n]];
    Extend(init, deps[n], name);
    NamesInOrderExtend(init, deps[n]);
    if n > 0 {
      NeedsOnlyDeclares(init, name, cs[..n]);
      assert init[0] in init && name in Names(init);
    } else {
      assert init == [];
    }
  }

  /** The plan installs that one name at the version and then the root. */
  ghost predicate PlansOne(m: Manifest, name: string, v: VersionText, plan: seq<PlanStep>) {
    |plan| == 2 && plan[0].name == name && plan[0].action == ActInstall && plan[0].version == v && plan[1] == RootStep(m)
  }

  /** The plan of a list that declares one name, absent and in the marketplace. */
  lemma OneNamePlan(env: Env, m: Manifest, name: string, cs: seq<Constraint>, v: Option<VersionText>)
    requires NeedsOnly(m.deps, name, cs) && m.name != name && env.installed(name).Absent? && env.market(name).Some?
    requires v == Settled(env.market(name).value, cs)
    ensures Plan(env, m).Ok? <==> v.Some?
    ensures v.Some? ==> PlansOne(m, name, v.value, Plan(env, m).value)
  {
    PlanIsSettled(env, m);
    NeedsOnlyDeclares(m.deps, name, cs);
    OneNamePlannable(env, m, name, cs);
    if v.Some? {
      OneNameSteps(env, m, name, v.value, Plan(env, m).value);
    }
  }

  lemma OneNamePlannable(env: Env, m: Manifest, name: string, cs: seq<Constraint>)
    requires NeedsOnly(m.deps, name, cs) && m.name != name && env.installed(name).Absent? && env.market(name).Some?
    requires Declared(m.deps, name) == cs
    ensures Plannable(env, m.name, m.deps) <==> Settled(env.market(name).value, cs).Some?
  {
    assert m.deps[0] in m.deps;
  }

  lemma OneNameSteps(env: Env, m: Manifest, name: string, v: VersionText, plan: seq<PlanStep>)
    requires NamesInOrder(m.deps) == [name] && FirstSource(m.deps, name) == Some(Tier2)
    requires env.installed(name).Absent? && env.market(name).Some? && SettledPlan(env, m, plan)
    requires Settled(env.market(name).value, Declared(m.deps, name)) == Some(v)
    ensures PlansOne(m, name, v, plan)
  {
    assert plan[0].name == NamesInOrder(m.deps)[0];
    assert StepFor(env, m.deps, name, plan[0]);
  }

  /** The plan of a plugin with one absent tier-2 dependency, any version of which will do. */
  lemma PlanOfOne(env: Env, m: Manifest, name: string, k: int)
    requires m.deps == [Needs(name, Blank)] && m.name != name && env.installed(name).Absent?
    requires env.market(name).Some? && IsBest(env.market(name).value, [Blank], k)
    ensures Plan(env, m).Ok? && PlansOne(m, name, env.market(name).value[k], Plan(env, m).value)
  {
    PickIsBest(env.market(name).value, [Blank], k);
    SettledFirst(env.market(name).value, Blank);
    OneNamePlan(env, m, name, [Blank], Some(env.market(name).value[k]));
  }

  /** Installing a plugin whose plan pulls one plugin without dependencies. */
  lemma InstallWithLeaf(reg: Registry, name: string, version: string, dep: string, v: VersionText, chain: seq<string>, m: Manifest, k: Manifest)
    requires name != "" && dep != "" && name != dep && name !in chain && dep !in chain
    requires Find(reg, name, version).Some? && Find(reg, name, version).value.manifest == m && IsLeafless(m, name)
    requires Find(reg, dep, v.raw).Some? && Find(reg, dep, v.raw).value.manifest == k && IsLeafless(k, dep) && k.deps == []
    requires Plan(EnvOf(reg, Fresh.rows), m).Ok? && PlansOne(m, dep, v, Plan(EnvOf(reg, Fresh.rows), m).value)
    ensures var (s, r) := Install(reg, Fresh, name, version, AllGood, chain);
            r.Installed? && s.rows == map[dep := Row(k.version, k), name := Row(m.version, m)]
  {
    var plan := Plan(EnvOf(reg, Fresh.rows), m).value;
    var inner := chain + [name];
    InstallLeaf(reg, Fresh, dep, v.raw, inner);
    var s1 := Install(reg, Fresh, dep, v.raw, AllGood, inner).0;
    PullFirst(reg, Fresh, name, plan, inner, s1);
    InstallByPlan(reg, Fresh, name, version, chain, inner, m, plan, s1);
  }

  /** The manifest bears the name and declares neither routes nor a UI. */
  predicate IsLeafless(m: Manifest, name: string) {
    m.name == name && m.routes == [] && !m.hasUI
  }

  /** The plan of a plugin with two absent tier-2 dependencies. */
  lemma PlanOfTwo(env: Env, m: Manifest, d: Dependency, e: Dependency, v: VersionText)
    requires m.deps == [d, e] && d.source.Tier2? && e.source.Tier2? && d.name != e.name && m.name !in [d.name, e.name]
    requires env.installed(d.name).Absent? && env.installed(e.name).Absent?
    requires env.market(d.name).Some? && Pick(env.market(d.name).value, [d.constraint]) == Ok(v)
    requires env.market(e.name).Some? && Pick(env.market(e.name).value, [e.constraint]).Ok?
    ensures Plan(env, m).Ok?
    ensures var plan := Plan(env, m).value;
            |plan| == 3 && plan[0].name == d.name && plan[0].action == ActInstall && plan[0].version == v &&
            plan[1].name == e.name && plan[2] == RootStep(m)
  {
    PlanOfTwoOk(env, m, d, e);
    TwoDeps(d, e, d.name);
    SettledFirst(env.market(d.name).value, d.constraint);
    PlanIsSettled(env, m);
    StepsOfTwo(env, m, d.name, e.name, v, Plan(env, m).value);
  }

  lemma StepsOfTwo(env: Env, m: Manifest, name: string, other: string, v: VersionText, plan: seq<PlanStep>)
    requires SettledPlan(env, m, plan) && NamesInOrder(m.deps) == [name, other] && FirstSource(m.deps, name) == Some(Tier2)
    requires env.installed(name).Absent? && env.market(name).Some?
    requires Settled(env.market(name).value, Declared(m.deps, name)) == Some(v)
    ensures |plan| == 3 && plan[0].name == name && plan[0].action == ActInstall && plan[0].version == v
    ensures plan[1].name == other && plan[2] == RootStep(m)
  {
    assert plan[0].name == NamesInOrder(m.deps)[0] && plan[1].name == NamesInOrder(m.deps)[1];
    assert StepFor(env, m.deps, name, plan[0]);
  }

  lemma PlanOfTwoOk(env: Env, m: Manifest, d: Dependency, e: Dependency)
    requires m.deps == [d, e] && d.source.Tier2? && e.source.Tier2? && d.name != e.name && m.name !in [d.name, e.name]
    requires env.installed(d.name).Absent? && env.installed(e.name).Absent?
    requires env.market(d.name).Some? && Pick(env.market(d.name).value, [d.constraint]).Ok?
    requires env.market(e.name).Some? && Pick(env.market(e.name).value, [e.constraint]).Ok?
    ensures Plan(env, m).Ok?
  {
    TwoDeps(d, e, d.name);
    TwoDeps(d, e, e.name);
    SettledFirst(env.market(d.name).value, d.constraint);
    SettledFirst(env.market(e.name).value, e.constraint);
    PlanIsSettled(env, m);
  }

  /** Two plugins that need each other: the call waits for its own lock forever. */
  lemma CycleBlocks()
    ensures Install(CyclicRegistry, Fresh, "a", "", AllGood, []).1.Blocked?
    ensures Cyclic(CyclicRegistry)
  {
    var reg: Registry := CyclicRegistry;
    var ma, mb := reg["a"][0].manifest, reg["b"][0].manifest;
    OnlyIsBest(Versions(reg["b"]));
    OnlyIsBest(Versions(reg["a"]));
    PlanOfOne(EnvOf(reg, Fresh.rows), ma, "b", 0);
    PlanOfOne(EnvOf(reg, Fresh.rows), mb, "a", 0);
    BlockedOnFirst(reg, Fresh, "b", "1.0.0", ["a"], ["a", "b"], mb);
    BlockedOnFirst(reg, Fresh, "a", "", [], ["a"], ma);
    BlockedMeansCyclic(reg, Fresh, "a", "", AllGood, []);
  }

  /** A call whose first dependency blocks is itself blocked. */
  lemma BlockedOnFirst(reg: Registry, s: State, name: string, version: string, chain: seq<string>, inner: seq<string>, m: Manifest)
    requires name != "" && name !in chain && name !in s.rows && inner == chain + [name]
    requires Find(reg, name, version).Some? && Find(reg, name, version).value.manifest == m
    requires Plan(EnvOf(reg, s.rows), m).Ok?
    requires var plan := Plan(EnvOf(reg, s.rows), m).value;
             plan != [] && Pulls(s, name, plan[0]) &&
             Install(reg, s, plan[0].name, plan[0].version.raw, AllGood, inner) == (s, Blocked)
    ensures Install(reg, s, name, version, AllGood, chain) == (s, Blocked)
  {
  }

  const TwoVersions: Registry := map[
    "a" := [PluginAt("a", Text("1.0.0", 1), [Needs("b", Blank), Needs("c", BelowTwo)])],
    "b" := [PluginAt("b", Text("1.0.0", 1), [Needs("c", Blank)])],
    "c" := [PluginAt("c", Text("2.0.0", 2), []), PluginAt("c", Text("1.0.0", 1), [])]]

  /** With several versions listed, a dependency pulled in through a sibling is accepted at
      a version the declaring plugin's own constraint rejects. */
  lemma SiblingPullsWrongVersion() returns (s: State)
    ensures var r := Install(TwoVersions, Fresh, "a", "", AllGood, []); r.0 == s && r.1.Installed?
    ensures "a" in s.rows && TierTwo(s.rows["a"].manifest, Needs("c", BelowTwo))
    ensures "c" in s.rows && !Satisfied(BelowTwo, s.rows["c"].version)
  {
    var ma := TwoVersions["a"][0].manifest;
    var plan, sb := LoopOfA(TwoVersions, "a");
    InstallByPlan(TwoVersions, Fresh, "a", "", [], ["a"], ma, plan, sb);
    s := Complete(sb, "a", ma, plan, AllGood("a")).0;
    assert s.rows == sb.rows["a" := Row(ma.version, ma)];
    NotBelowTwo();
    assert ma.deps[1] == Needs("c", BelowTwo);
  }

  lemma LoopOfA(reg: Registry, root: string) returns (plan: seq<PlanStep>, s: State)
    requires reg == TwoVersions && root == "a"
    ensures Plan(EnvOf(reg, Fresh.rows), reg["a"][0].manifest) == Ok(plan)
    ensures InstallSteps(reg, Fresh, root, plan, AllGood, [root]) == (s, None)
    ensures "a" !in s.rows && "b" in s.rows && "c" in s.rows && s.rows["c"].version == Text("2.0.0", 2)
  {
    plan := PlanOfA();
    s := InstallOfB();
    assert !Pulls(s, root, plan[1]) && !Pulls(s, root, plan[2]);
    forall i | 1 <= i < |plan| ensures !Pulls(s, root, plan[i]) {
      assert i == 1 || i == 2;
    }
    PullFirst(reg, Fresh, root, plan, [root], s);
  }

  lemma NotBelowTwo()
    ensures Satisfied(BelowTwo, Text("1.0.0", 1)) && !Satisfied(BelowTwo, Text("2.0.0", 2))
  {
    assert !BelowTwo.clauses[0].admits(Semver.Version(2, 0, 0, []));
  }

  lemma PlanOfA() returns (plan: seq<PlanStep>)
    ensures Plan(EnvOf(TwoVersions, Fresh.rows), TwoVersions["a"][0].manifest) == Ok(plan)
    ensures |plan| == 3 && plan[0].name == "b" && plan[0].action == ActInstall && plan[0].version == Text("1.0.0", 1)
    ensures plan[1].name == "c" && plan[2].name == "a"
  {
    var env := EnvOf(TwoVersions, Fresh.rows);
    var m := TwoVersions["a"][0].manifest;
    PickOnly(Versions(TwoVersions["b"]), [Blank], 0);
    NotBelowTwo();
    assert BelowTwo in [BelowTwo];
    assert !Candidate(Versions(TwoVersions["c"])[0], [BelowTwo]);
    PickOnly(Versions(TwoVersions["c"]), [BelowTwo], 1);
    PlanOfTwo(env, m, m.deps[0], m.deps[1], Text("1.0.0", 1));
    plan := Plan(env, m).value;
  }

  lemma InstallOfB() returns (s: State)
    ensures var r := Install(TwoVersions, Fresh, "b", "1.0.0", AllGood, ["a"]); r.0 == s && r.1.Installed?
    ensures "a" !in s.rows && "b" in s.rows && "c" in s.rows && s.rows["c"].version == Text("2.0.0", 2)
  {
    var reg: Registry := TwoVersions;
    var env := EnvOf(reg, Fresh.rows);
    var m := reg["b"][0].manifest;
    assert IsBest(Versions(reg["c"]), [Blank], 0);
    PlanOfOne(env, m, "c", 0);
    InstallWithLeaf(reg, "b", "1.0.0", "c", Text("2.0.0", 2), ["a"], m, reg["c"][0].manifest);
    s := Install(reg, Fresh, "b", "1.0.0", AllGood, ["a"]).0;
  }

  // ----- pre-releases -----

  const Beta := VersionText("1.5.0-beta.1", Some(Semver.Version(1, 5, 0, [Semver.Alpha("beta"), Semver.Numeric(1)])))
  const OneFour := VersionText("1.4.0", Some(Semver.Version(1, 4, 0, [])))

  lemma AlphaBelowBeta()
    ensures Admits(BelowTwo, Beta) && Admits(FromAlpha, Beta) && IsPre(Beta) && !Satisfied(BelowTwo, Beta)
    ensures Satisfied(BelowTwo, OneFour) && Satisfied(FromAlpha, OneFour)
    ensures !NamesPre(BelowTwo) && NamesPre(FromAlpha)
    ensures Semver.Compare(OneFour.parsed.value, Beta.parsed.value) < 0
  {
    assert FromAlpha.clauses[0].namesPre;
  }

  /** "<2.0.0" first plans 1.4.0 although both constraints together select 1.5.0-beta.1,
      which the other order plans. */
  lemma KeptPickMissesPreRelease(env: Env, m: Manifest)
    requires m.name != "c" && env.installed("c").Absent? && env.market("c") == Some([Beta, OneFour])
    ensures Pick([Beta, OneFour], [BelowTwo, FromAlpha]) == Ok(Beta)
    ensures Assigns(env, m.(deps := [Needs("c", BelowTwo), Needs("c", FromAlpha)]), "c", ActInstall, OneFour)
    ensures Assigns(env, m.(deps := [Needs("c", FromAlpha), Needs("c", BelowTwo)]), "c", ActInstall, Beta)
  {
    var vs := [Beta, OneFour];
    AlphaBelowBeta();
    Below(vs);
    Both(vs, [BelowTwo, FromAlpha]);
    Both(vs, [FromAlpha, BelowTwo]);
    Heads();
    PlanOfPair(env, m.(deps := [Needs("c", BelowTwo), Needs("c", FromAlpha)]), "c", BelowTwo, FromAlpha, Some(OneFour));
    PlanOfPair(env, m.(deps := [Needs("c", FromAlpha), Needs("c", BelowTwo)]), "c", FromAlpha, BelowTwo, Some(Beta));
  }

  /** With only a pre-release listed, "<2.0.0" first refuses the plan; the other order plans
      a version that "<2.0.0" rejects. */
  lemma OrderDecidesSuccess(env: Env, m: Manifest)
    requires m.name != "c" && env.installed("c").Absent? && env.market("c") == Some([Beta])
    ensures Plan(env, m.(deps := [Needs("c", BelowTwo), Needs("c", FromAlpha)])).Err?
    ensures Assigns(env, m.(deps := [Needs("c", FromAlpha), Needs("c", BelowTwo)]), "c", ActInstall, Beta)
    ensures !Satisfied(BelowTwo, Beta)
  {
    AlphaBelowBeta();
    BetaSettles();
    PlanOfPair(env, m.(deps := [Needs("c", BelowTwo), Needs("c", FromAlpha)]), "c", BelowTwo, FromAlpha, None);
    PlanOfPair(env, m.(deps := [Needs("c", FromAlpha), Needs("c", BelowTwo)]), "c", FromAlpha, BelowTwo, Some(Beta));
  }

  lemma PlanOfPair(env: Env, m: Manifest, name: string, c: Constraint, e: Constraint, v: Option<VersionText>)
    requires m.name != name && env.installed(name).Absent? && env.market(name).Some?
    requires m.deps == [Needs(name, c), Needs(name, e)] && v == Settled(env.market(name).value, [c, e])
    ensures (Plan(env, m).Ok? <==> v.Some?) && (v.Some? ==> Assigns(env, m, name, ActInstall, v.value))
  {
    OneNamePlan(env, m, name, [c, e], v);
  }

  const OnlyBeta: Registry := map[
    "a" := [PluginAt("a", Text("1.0.0", 1), [Needs("c", FromAlpha), Needs("c", BelowTwo)])],
    "c" := [PluginAt("c", Beta, [])]]

  /** Even with one version per plugin a dependency can be installed at a pre-release that a
      declared constraint rejects. */
  lemma PreReleaseInstalledUnaccepted() returns (s: State)
    ensures var r := Install(OnlyBeta, Fresh, "a", "", AllGood, []); r.0 == s && r.1.Installed?
    ensures "a" in s.rows && !Meets(s.rows)
  {
    var m := OnlyBeta["a"][0].manifest;
    InstallOnBeta(OnlyBeta, "a", "c", m);
    s := Install(OnlyBeta, Fresh, "a", "", AllGood, []).0;
    BetaUnaccepted(s.rows, "a", "c", m);
  }

  lemma InstallOnBeta(reg: Registry, a: string, c: string, m: Manifest)
    requires a != c && a != "" && c != "" && a in reg && c in reg && reg[a] != [] && reg[a][0].manifest == m
    requires reg[c] == [PluginAt(c, Beta, [])] && IsLeafless(m, a) && m.deps == [Needs(c, FromAlpha), Needs(c, BelowTwo)]
    ensures var (s, r) := Install(reg, Fresh, a, "", AllGood, []);
            r.Installed? && s.rows == map[c := Row(Beta, reg[c][0].manifest), a := Row(m.version, m)]
  {
    assert Versions(reg[c]) == [Beta] && reg[c][0].version == Beta;
    PlanOnBeta(EnvOf(reg, Fresh.rows), m, c);
    InstallWithLeaf(reg, a, "", c, Beta, [], m, reg[c][0].manifest);
  }

  lemma PlanOnBeta(env: Env, m: Manifest, c: string)
    requires m.name != c && m.deps == [Needs(c, FromAlpha), Needs(c, BelowTwo)]
    requires env.installed(c).Absent? && env.market(c) == Some([Beta])
    ensures Plan(env, m).Ok? && PlansOne(m, c, Beta, Plan(env, m).value)
  {
    BetaSettles();
    OneNamePlan(env, m, c, [FromAlpha, BelowTwo], Some(Beta));
  }

  lemma BetaUnaccepted(rows: map<string, Row>, a: string, c: string, m: Manifest)
    requires a in rows && c in rows && rows[a].manifest == m && rows[c].version == Beta
    requires m.deps == [Needs(c, FromAlpha), Needs(c, BelowTwo)]
    ensures !Meets(rows)
  {
    AlphaBelowBeta();
    assert m.deps[1] in m.deps && TierTwo(rows[a].manifest, m.deps[1]);
  }

  lemma BetaSettles()
    ensures Settled([Beta], [FromAlpha, BelowTwo]) == Some(Beta)
    ensures Settled([Beta], [BelowTwo, FromAlpha]) == None
  {
    AlphaBelowBeta();
    PickSucceedsExactly([Beta], [BelowTwo]);
    Heads();
    Both([Beta], [FromAlpha, BelowTwo]);
  }

  lemma Heads()
    ensures Plain([BelowTwo, FromAlpha]) == [BelowTwo] && Plain([FromAlpha, BelowTwo]) == []
  {
    AlphaBelowBeta();
    PlainOfSplit([BelowTwo], [FromAlpha]);
    assert [BelowTwo] + [FromAlpha] == [BelowTwo, FromAlpha];
    LoudHead([FromAlpha, BelowTwo]);
  }

  lemma Below(vs: seq<VersionText>)
    requires vs == [Beta, OneFour]
    ensures Pick(vs, [BelowTwo]) == Ok(OneFour)
  {
    AlphaBelowBeta();
    PickOnly(vs, [BelowTwo], 1);
  }

  lemma Both(vs: seq<VersionText>, cs: seq<Constraint>)
    requires vs == [Beta, OneFour] || vs == [Beta]
    requires cs == [BelowTwo, FromAlpha] || cs == [FromAlpha, BelowTwo]
    ensures Pick(vs, cs) == Ok(Beta) && Pick(vs, []) == Ok(Beta)
  {
    AlphaBelowBeta();
    Semver.PrecedenceOrder(Beta.parsed.value, Beta.parsed.value, Beta.parsed.value);
    assert FromAlpha in cs && Candidate(Beta, cs) && IsBest(vs, cs, 0) && IsBest(vs, [], 0);
    PickIsBest(vs, cs, 0);
    PickIsBest(vs, [], 0);
  }
}
