/** Whether installed dependencies sit at versions their declared constraints accept: exactly
    when for one install, and a condition on the registry that keeps it so over every run. */
module Satisfaction {
  import opened Prelude
  import opened Resolver
  import opened Lifecycle
  import opened Closure

  /** Every dependency is installed at a version its declared constraint accepts. */
  ghost predicate Meets(rows: map<string, Row>) {
    forall n, d | n in rows && TierTwo(rows[n].manifest, d) ::
      d.name in rows && Satisfied(d.constraint, rows[d.name].version)
  }

  /** Tarballs carry the name and version they are listed under, and a version string
      parses one way, the empty one not at all. */
  ghost predicate Honest(reg: Registry) {
    && (forall n, r | n in reg && r in reg[n] :: r.manifest.name == n && r.manifest.version == r.version)
    && (forall n, r | n in reg && r in reg[n] && r.version.parsed.Some? :: r.version.raw != "")
    && (forall n, r, t | n in reg && r in reg[n] && t in reg[n] && r.version.raw == t.version.raw :: r.version == t.version)
  }

  /** Every declared constraint of `m` for the name accepts the version. */
  ghost predicate Accepts(m: Manifest, name: string, v: VersionText) {
    forall d | TierTwo(m, d) && d.name == name :: Satisfied(d.constraint, v)
  }

  /** `m` declares the name, and its constraints settle on the version. */
  ghost predicate Picks(reg: Registry, m: Manifest, name: string, v: VersionText) {
    name in reg && Declared(m.deps, name) != [] && Settled(Versions(reg[name]), Declared(m.deps, name)) == Some(v)
  }

  ghost predicate Lists(reg: Registry, m: Manifest) {
    exists n, r :: n in reg && r in reg[n] && r.manifest == m
  }

  /** What one listed manifest picks for a name, every other that has a pick for it accepts. */
  ghost predicate Compatible(reg: Registry) {
    forall m, k, name, v, w | Lists(reg, m) && Lists(reg, k) && Picks(reg, m, name, v) && Picks(reg, k, name, w) ::
      Accepts(k, name, v)
  }

  ghost predicate WasPicked(reg: Registry, name: string, v: VersionText) {
    exists m :: Lists(reg, m) && Picks(reg, m, name, v)
  }

  // ----- what an install adds -----

  /** The release found for a picked version is at that version. */
  lemma FoundAsPicked(reg: Registry, m: Manifest, name: string, v: VersionText)
    requires Honest(reg) && Picks(reg, m, name, v)
    ensures Find(reg, name, v.raw).Some? && Find(reg, name, v.raw).value.manifest.version == v
  {
    SettledAcceptedExactly(Versions(reg[name]), Declared(m.deps, name));
    var i :| 0 <= i < |reg[name]| && Versions(reg[name])[i] == v;
    assert reg[name][i] in reg[name] && reg[name][i].version == v;
  }

  /** An install step of a plan was picked by the manifest planned. */
  lemma PlannedIsPicked(reg: Registry, rows: map<string, Row>, m: Manifest, plan: seq<PlanStep>, i: int)
    requires Plan(EnvOf(reg, rows), m) == Ok(plan) && 0 <= i < |plan| - 1 && plan[i].action.ActInstall?
    ensures Picks(reg, m, plan[i].name, plan[i].version) && plan[i].name != m.name
  {
    var env := EnvOf(reg, rows);
    PlanIsSettled(env, m);
    assert StepFor(env, m.deps, plan[i].name, plan[i]);
    var d := InstallStepDeclared(env, m, plan, i);
    DeclaredElements(m.deps, d.name, d.constraint);
    assert DepOk(env, m.name, Declared(m.deps, d.name), d);
  }

  ghost predicate StepsPicked(reg: Registry, root: string, steps: seq<PlanStep>) {
    forall i | 0 <= i < |steps| && steps[i].action.ActInstall? && steps[i].name != root ::
      WasPicked(reg, steps[i].name, steps[i].version)
  }

  /** Everything an install adds besides the plugin itself is at a version some listed
      manifest picks. */
  lemma {:induction false} InstallAddsPicks(reg: Registry, s: State, name: string, version: string, o: Oracle, chain: seq<string>)
    requires Honest(reg)
    ensures var s' := Install(reg, s, name, version, o, chain).0;
            forall n | n in s'.rows && n !in s.rows && n != name :: WasPicked(reg, n, s'.rows[n].version)
    decreases reg.Keys - Elems(chain), 0
  {
    if name != "" && name !in chain && name !in s.rows && o(name).planFetch && Find(reg, name, version).Some? {
      var m := Find(reg, name, version).value.manifest;
      var plan := Plan(EnvOf(reg, s.rows), m);
      var inner := chain + [name];
      assert name in Elems(inner) && name !in Elems(chain) && Elems(chain) <= Elems(inner);
      if plan.Ok? {
        PlanPicked(reg, s, name, version, plan.value);
        StepsAddPicks(reg, s, name, plan.value, o, inner);
        CompleteAddsSelf(InstallSteps(reg, s, name, plan.value, o, inner).0, name, m, plan.value, o(name));
      }
    }
  }

  lemma CompleteAddsSelf(s: State, name: string, m: Manifest, plan: seq<PlanStep>, o: Outcome)
    ensures var rows := Complete(s, name, m, plan, o).0.rows;
            forall n | n in rows && n != name :: n in s.rows && rows[n] == s.rows[n]
  {
  }

  lemma PlanPicked(reg: Registry, s: State, name: string, version: string, plan: seq<PlanStep>)
    requires Honest(reg) && Find(reg, name, version).Some?
    requires Plan(EnvOf(reg, s.rows), Find(reg, name, version).value.manifest) == Ok(plan)
    ensures StepsPicked(reg, name, plan)
  {
    var m := Find(reg, name, version).value.manifest;
    PlanIsSettled(EnvOf(reg, s.rows), m);
    assert Lists(reg, m);
    forall i | 0 <= i < |plan| && plan[i].action.ActInstall? && plan[i].name != name
      ensures WasPicked(reg, plan[i].name, plan[i].version)
    {
      PlannedIsPicked(reg, s.rows, m, plan, i);
    }
  }

  /** Every row beyond `rows` is at a picked version. */
  ghost predicate AddsPicks(reg: Registry, rows: map<string, Row>, more: map<string, Row>) {
    forall n | n in more && n !in rows :: WasPicked(reg, n, more[n].version)
  }

  lemma {:induction false} StepsAddPicks(reg: Registry, s: State, root: string, steps: seq<PlanStep>, o: Oracle, chain: seq<string>)
    requires Honest(reg) && StepsPicked(reg, root, steps)
    ensures AddsPicks(reg, s.rows, InstallSteps(reg, s, root, steps, o, chain).0.rows)
    decreases reg.Keys - Elems(chain), 1 + |steps|
  {
    if steps != [] {
      var s1 := s;
      if Pulls(s, root, steps[0]) {
        InstallAddsPicks(reg, s, steps[0].name, steps[0].version.raw, o, chain);
        PulledRow(reg, s, steps[0].name, steps[0].version, o, chain);
        s1 := Install(reg, s, steps[0].name, steps[0].version.raw, o, chain).0;
      }
      assert forall i | 0 <= i < |steps[1..]| :: steps[1..][i] == steps[i + 1];
      StepsAddPicks(reg, s1, root, steps[1..], o, chain);
      StepsGrow(reg, s1, root, steps[1..], o, chain);
      PicksCompose(reg, s.rows, s1.rows, InstallSteps(reg, s1, root, steps[1..], o, chain).0.rows);
    }
  }

  lemma PicksCompose(reg: Registry, a: map<string, Row>, b: map<string, Row>, c: map<string, Row>)
    requires AddsPicks(reg, a, b) && AddsPicks(reg, b, c) && Extends(b, c)
    ensures AddsPicks(reg, a, c)
  {
  }

  /** Pulling a picked step adds its plugin at the picked version. */
  lemma PulledRow(reg: Registry, s: State, name: string, v: VersionText, o: Oracle, chain: seq<string>)
    requires Honest(reg) && WasPicked(reg, name, v) && name !in s.rows
    requires var s' := Install(reg, s, name, v.raw, o, chain).0;
             forall n | n in s'.rows && n !in s.rows && n != name :: WasPicked(reg, n, s'.rows[n].version)
    ensures AddsPicks(reg, s.rows, Install(reg, s, name, v.raw, o, chain).0.rows)
  {
    var m :| Lists(reg, m) && Picks(reg, m, name, v);
    FoundAsPicked(reg, m, name, v);
    InstallGrows(reg, s, name, v.raw, o, chain);
  }

  // ----- every run over compatible registries -----

  /** In a compatible registry the dependencies of the plugin being installed are met once
      the loop has run. */
  lemma CompatibleDep(reg: Registry, s: State, s1: State, m: Manifest, plan: seq<PlanStep>, d: Dependency)
    requires Compatible(reg) && Lists(reg, m) && Plan(EnvOf(reg, s.rows), m) == Ok(plan) && Extends(s.rows, s1.rows)
    requires AddsPicks(reg, s.rows, s1.rows)
    requires forall i | 0 <= i < |plan| :: !Pulls(s1, m.name, plan[i])
    requires TierTwo(m, d) && FirstSource(m.deps, d.name) != Some(Bundled)
    ensures d.name in s1.rows && Satisfied(d.constraint, s1.rows[d.name].version)
  {
    var step := PlannedDepPresent(reg, s, s1, m, plan, d);
    if d.name !in s.rows {
      DeclaredElements(m.deps, d.name, d.constraint);
      assert Picks(reg, m, d.name, step.version);
      var k :| Lists(reg, k) && Picks(reg, k, d.name, s1.rows[d.name].version);
      assert Accepts(m, d.name, s1.rows[d.name].version);
    }
  }

  lemma {:induction false} InstallKeepsMeets(reg: Registry, s: State, name: string, version: string, o: Oracle, chain: seq<string>)
    requires TierTwoFirst(reg) && Honest(reg) && Compatible(reg) && Meets(s.rows)
    ensures Meets(Install(reg, s, name, version, o, chain).0.rows)
    decreases reg.Keys - Elems(chain), 0
  {
    if name != "" && name !in chain && name !in s.rows && o(name).planFetch && Find(reg, name, version).Some? {
      var m := Find(reg, name, version).value.manifest;
      var plan := Plan(EnvOf(reg, s.rows), m);
      var inner := chain + [name];
      assert name in Elems(inner) && name !in Elems(chain) && Elems(chain) <= Elems(inner);
      if plan.Ok? {
        StepsKeepMeets(reg, s, name, plan.value, o, inner);
        StepsGrow(reg, s, name, plan.value, o, inner);
        PlanPicked(reg, s, name, version, plan.value);
        StepsAddPicks(reg, s, name, plan.value, o, inner);
        var (s1, stop) := InstallSteps(reg, s, name, plan.value, o, inner);
        if stop.None? {
          assert Lists(reg, m);
          forall d | TierTwo(m, d) ensures d.name in s1.rows && Satisfied(d.constraint, s1.rows[d.name].version) {
            CompatibleDep(reg, s, s1, m, plan.value, d);
          }
          CompleteKeepsMeets(s1, name, m, plan.value, o(name));
        }
      }
    }
  }

  lemma CompleteKeepsMeets(s: State, name: string, m: Manifest, plan: seq<PlanStep>, o: Outcome)
    requires Meets(s.rows)
    requires forall d | TierTwo(m, d) :: d.name in s.rows && Satisfied(d.constraint, s.rows[d.name].version)
    ensures Meets(Complete(s, name, m, plan, o).0.rows)
  {
  }

  lemma {:induction false} StepsKeepMeets(reg: Registry, s: State, root: string, steps: seq<PlanStep>, o: Oracle, chain: seq<string>)
    requires TierTwoFirst(reg) && Honest(reg) && Compatible(reg) && Meets(s.rows)
    ensures Meets(InstallSteps(reg, s, root, steps, o, chain).0.rows)
    decreases reg.Keys - Elems(chain), 1 + |steps|
  {
    if steps != [] {
      var s1 := s;
      if Pulls(s, root, steps[0]) {
        InstallKeepsMeets(reg, s, steps[0].name, steps[0].version.raw, o, chain);
        s1 := Install(reg, s, steps[0].name, steps[0].version.raw, o, chain).0;
      }
      StepsKeepMeets(reg, s1, root, steps[1..], o, chain);
    }
  }

  lemma UninstallKeepsMeets(s: State, name: string, deleted: bool)
    requires Meets(s.rows)
    ensures Meets(Uninstall(s, name, false, true, deleted).0.rows)
  {
  }

  /** Over registries, possibly different for every call, whose manifests accept one
      another's picks, every run leaves every dependency at an accepted version. */
  lemma {:induction false} CompatibleRunsMeet(s: State, ops: seq<Op>)
    requires Meets(s.rows) && forall i | 0 <= i < |ops| :: Guarded(ops[i])
    requires forall i | 0 <= i < |ops| && ops[i].OpInstall? :: Honest(ops[i].reg) && Compatible(ops[i].reg)
    ensures Meets(Run(s, ops).rows)
  {
    if ops != [] {
      var init, last := ops[..|ops| - 1], ops[|ops| - 1];
      CompatibleRunsMeet(s, init);
      match last {
        case OpInstall(reg, name, version, o) => InstallKeepsMeets(reg, Run(s, init), name, version, o, []);
        case OpUninstall(name, _, _, deleted) => UninstallKeepsMeets(Run(s, init), name, deleted);
      }
    }
  }

  /** One version per plugin, and where it is a pre-release the constraints on it agree. */
  ghost predicate SingleVersion(reg: Registry) {
    && (forall n | n in reg :: |reg[n]| == 1)
    && (forall m, n | Lists(reg, m) && n in reg && IsPre(reg[n][0].version) :: Agree(Declared(m.deps, n)))
  }

  /** One version per plugin makes a registry compatible. */
  lemma SingleVersionCompatible(reg: Registry)
    requires SingleVersion(reg)
    ensures Compatible(reg)
  {
    forall m, k, name, v, w | Lists(reg, m) && Lists(reg, k) && Picks(reg, m, name, v) && Picks(reg, k, name, w)
      ensures Accepts(k, name, v)
    {
      OnlyPick(reg, m, name, v);
      OnlyPick(reg, k, name, w);
      PickAccepted(reg, k, name, w);
    }
  }

  lemma OnlyPick(reg: Registry, m: Manifest, name: string, v: VersionText)
    requires Picks(reg, m, name, v) && |reg[name]| == 1
    ensures v == reg[name][0].version
  {
    SettledAcceptedExactly(Versions(reg[name]), Declared(m.deps, name));
  }

  /** A picked pre-release is accepted by constraints that agree, and a release always is. */
  lemma PickAccepted(reg: Registry, k: Manifest, name: string, w: VersionText)
    requires Picks(reg, k, name, w) && (IsPre(w) ==> Agree(Declared(k.deps, name)))
    ensures Accepts(k, name, w)
  {
    var cs := Declared(k.deps, name);
    SettledAcceptedExactly(Versions(reg[name]), cs);
    AcceptsDeclared(k, name, w);
  }

  // ----- one install, exactly -----

  /** The state in which the loop over a plan reaches step `i`. */
  ghost function Reached(reg: Registry, s: State, root: string, plan: seq<PlanStep>, o: Oracle, chain: seq<string>, i: nat): (r: State)
    requires i <= |plan|
  {
    InstallSteps(reg, s, root, plan[..i], o, chain).0
  }

  lemma {:induction false} StepsSplit(reg: Registry, s: State, root: string, a: seq<PlanStep>, b: seq<PlanStep>, o: Oracle, chain: seq<string>)
    ensures var (s1, stop) := InstallSteps(reg, s, root, a, o, chain);
            InstallSteps(reg, s, root, a + b, o, chain) == if stop.Some? then (s1, stop) else InstallSteps(reg, s1, root, b, o, chain)
    decreases |a|
  {
    if a == [] {
      assert a + b == b;
    } else {
      var s1 := if Pulls(s, root, a[0]) then Install(reg, s, a[0].name, a[0].version.raw, o, chain).0 else s;
      assert (a + b)[0] == a[0] && (a + b)[1..] == a[1..] + b;
      StepsSplit(reg, s1, root, a[1..], b, o, chain);
    }
  }

  /** Where an install step's plugin ends up: as found on reaching the step, or as planned. */
  ghost function EndsAt(reg: Registry, s: State, root: string, plan: seq<PlanStep>, o: Oracle, chain: seq<string>, i: nat): (v: VersionText)
    requires i < |plan|
  {
    var at := Reached(reg, s, root, plan, o, chain, i);
    if plan[i].name in at.rows then at.rows[plan[i].name].version else plan[i].version
  }

  lemma EndsAtIsFinal(reg: Registry, s: State, m: Manifest, plan: seq<PlanStep>, o: Oracle, chain: seq<string>, i: nat)
    requires Honest(reg) && Plan(EnvOf(reg, s.rows), m) == Ok(plan) && i < |plan| - 1 && plan[i].action.ActInstall?
    requires InstallSteps(reg, s, m.name, plan, o, chain).1.None?
    ensures var s1 := InstallSteps(reg, s, m.name, plan, o, chain).0;
            plan[i].name in s1.rows && s1.rows[plan[i].name].version == EndsAt(reg, s, m.name, plan, o, chain, i)
  {
    FoundAsPlanned(reg, s.rows, m, plan, i);
    assert plan == plan[..i] + plan[i..];
    StepsSplit(reg, s, m.name, plan[..i], plan[i..], o, chain);
    FirstStepEnds(reg, Reached(reg, s, m.name, plan, o, chain, i), m.name, plan[i..], o, chain);
  }

  /** An install step's version is found in the registry again, and it is not the root's. */
  lemma FoundAsPlanned(reg: Registry, rows: map<string, Row>, m: Manifest, plan: seq<PlanStep>, i: nat)
    requires Honest(reg) && Plan(EnvOf(reg, rows), m) == Ok(plan) && i < |plan| - 1 && plan[i].action.ActInstall?
    ensures var found := Find(reg, plan[i].name, plan[i].version.raw); found.Some? && found.value.manifest.version == plan[i].version
    ensures plan[i].name != m.name
  {
    PlannedIsPicked(reg, rows, m, plan, i);
    FoundAsPicked(reg, m, plan[i].name, plan[i].version);
  }

  /** The plugin of the loop's first install step, however the rest goes. */
  lemma FirstStepEnds(reg: Registry, at: State, root: string, steps: seq<PlanStep>, o: Oracle, chain: seq<string>)
    requires steps != [] && steps[0].action.ActInstall? && steps[0].name != root
    requires var found := Find(reg, steps[0].name, steps[0].version.raw); found.Some? && found.value.manifest.version == steps[0].version
    requires InstallSteps(reg, at, root, steps, o, chain).1.None?
    ensures var s1 := InstallSteps(reg, at, root, steps, o, chain).0;
            steps[0].name in s1.rows &&
            s1.rows[steps[0].name].version == if steps[0].name in at.rows then at.rows[steps[0].name].version else steps[0].version
  {
    if steps[0].name in at.rows {
      StepsGrow(reg, at, root, steps, o, chain);
    } else {
      InstallGrows(reg, at, steps[0].name, steps[0].version.raw, o, chain);
      StepsGrow(reg, Install(reg, at, steps[0].name, steps[0].version.raw, o, chain).0, root, steps[1..], o, chain);
    }
  }

  /** What makes a step fit: found in place it must be at an accepted version; pulled, it
      is, unless it is a pre-release that some constraint does not consider. */
  ghost predicate StepFits(reg: Registry, s: State, m: Manifest, plan: seq<PlanStep>, o: Oracle, chain: seq<string>, i: nat)
    requires i < |plan|
  {
    var at := Reached(reg, s, m.name, plan, o, chain, i);
    if plan[i].name in at.rows then Accepts(m, plan[i].name, at.rows[plan[i].name].version)
    else !IsPre(plan[i].version) || forall c | c in Declared(m.deps, plan[i].name) && !c.Blank? :: NamesPre(c)
  }

  lemma StepFitsExactly(reg: Registry, s: State, m: Manifest, plan: seq<PlanStep>, o: Oracle, chain: seq<string>, i: nat)
    requires Plan(EnvOf(reg, s.rows), m) == Ok(plan) && i < |plan| - 1 && plan[i].action.ActInstall?
    ensures StepFits(reg, s, m, plan, o, chain, i) <==> Accepts(m, plan[i].name, EndsAt(reg, s, m.name, plan, o, chain, i))
  {
    PlannedIsPicked(reg, s.rows, m, plan, i);
    SettledAcceptedExactly(Versions(reg[plan[i].name]), Declared(m.deps, plan[i].name));
    AcceptsDeclared(m, plan[i].name, plan[i].version);
  }

  lemma AcceptsDeclared(m: Manifest, name: string, v: VersionText)
    ensures Accepts(m, name, v) <==> forall c | c in Declared(m.deps, name) :: Satisfied(c, v)
  {
    forall c ensures c in Declared(m.deps, name) <==> exists d :: TierTwo(m, d) && d.name == name && d.constraint == c {
      DeclaredElements(m.deps, name, c);
    }
    if forall c | c in Declared(m.deps, name) :: Satisfied(c, v) {
      forall d | TierTwo(m, d) && d.name == name ensures Satisfied(d.constraint, v) {
        assert d.constraint in Declared(m.deps, name);
      }
    }
  }

  /** The dependency is in the rows at a version it accepts. */
  ghost predicate DepMet(rows: map<string, Row>, d: Dependency) {
    d.name in rows && Satisfied(d.constraint, rows[d.name].version)
  }

  ghost predicate StepMet(rows: map<string, Row>, m: Manifest, step: PlanStep) {
    step.name in rows && Accepts(m, step.name, rows[step.name].version)
  }

  /** After a successful install every dependency not first declared bundled is at a version
      its constraint accepts if and only if every install step of the plan fits when the
      loop reaches it. */
  lemma {:induction false} InstalledMeetsExactly(reg: Registry, s: State, name: string, version: string, o: Oracle, chain: seq<string>)
    requires Honest(reg) && Install(reg, s, name, version, o, chain).1.Installed?
    ensures var s' := Install(reg, s, name, version, o, chain).0;
            var m := Find(reg, name, version).value.manifest;
            var plan := Plan(EnvOf(reg, s.rows), m).value;
            (forall d | TierTwo(m, d) && FirstSource(m.deps, d.name) != Some(Bundled) :: DepMet(s'.rows, d)) <==>
            (forall i: nat | i < |plan| - 1 && plan[i].action.ActInstall? :: StepFits(reg, s, m, plan, o, chain + [name], i))
  {
    var m := Find(reg, name, version).value.manifest;
    var plan := Plan(EnvOf(reg, s.rows), m).value;
    var s1 := InstallSteps(reg, s, name, plan, o, chain + [name]).0;
    StepsGrow(reg, s, name, plan, o, chain + [name]);
    LoopMeetsExactly(reg, s, s1, m, plan, o, chain + [name]);
    CompleteAddsOne(reg, s, s1, m, plan, o(name));
  }

  lemma CompleteAddsOne(reg: Registry, s: State, s1: State, m: Manifest, plan: seq<PlanStep>, o: Outcome)
    requires Plan(EnvOf(reg, s.rows), m) == Ok(plan) && Complete(s1, m.name, m, plan, o).1.Installed?
    ensures forall d | TierTwo(m, d) :: DepMet(Complete(s1, m.name, m, plan, o).0.rows, d) <==> DepMet(s1.rows, d)
  {
    PlanIsSettled(EnvOf(reg, s.rows), m);
    forall d | TierTwo(m, d) ensures d.name != m.name {
      assert DepOk(EnvOf(reg, s.rows), m.name, Declared(m.deps, d.name), d);
    }
  }

  lemma LoopMeetsExactly(reg: Registry, s: State, s1: State, m: Manifest, plan: seq<PlanStep>, o: Oracle, chain: seq<string>)
    requires Honest(reg) && Plan(EnvOf(reg, s.rows), m) == Ok(plan) && InstallSteps(reg, s, m.name, plan, o, chain) == (s1, None)
    ensures (forall d | TierTwo(m, d) && FirstSource(m.deps, d.name) != Some(Bundled) :: DepMet(s1.rows, d)) <==>
            (forall i: nat | i < |plan| - 1 && plan[i].action.ActInstall? :: StepFits(reg, s, m, plan, o, chain, i))
  {
    forall i: nat | i < |plan| - 1 && plan[i].action.ActInstall?
      ensures StepFits(reg, s, m, plan, o, chain, i) <==> StepMet(s1.rows, m, plan[i])
    {
      EndsAtIsFinal(reg, s, m, plan, o, chain, i);
      StepFitsExactly(reg, s, m, plan, o, chain, i);
    }
    StepsGrow(reg, s, m.name, plan, o, chain);
    DepsMetBySteps(EnvOf(reg, s.rows), s, s1, m, plan);
  }

  lemma DepsMetBySteps(env: Env, s: State, s1: State, m: Manifest, plan: seq<PlanStep>)
    requires Plan(env, m) == Ok(plan) && Extends(s.rows, s1.rows)
    requires forall n | n in s.rows :: env.installed(n) == Present(s.rows[n].version)
    requires forall n | n !in s.rows :: env.installed(n).Absent?
    ensures (forall d | TierTwo(m, d) && FirstSource(m.deps, d.name) != Some(Bundled) :: DepMet(s1.rows, d)) <==>
            (forall i: nat | i < |plan| - 1 && plan[i].action.ActInstall? :: StepMet(s1.rows, m, plan[i]))
  {
    PlanIsSettled(env, m);
    if forall d | TierTwo(m, d) && FirstSource(m.deps, d.name) != Some(Bundled) :: DepMet(s1.rows, d) {
      forall i: nat | i < |plan| - 1 && plan[i].action.ActInstall? ensures StepMet(s1.rows, m, plan[i]) {
        var e := InstallStepDeclared(env, m, plan, i);
        assert DepMet(s1.rows, e);
        forall d | TierTwo(m, d) && d.name == plan[i].name ensures Satisfied(d.constraint, s1.rows[plan[i].name].version) {
          assert DepMet(s1.rows, d);
        }
      }
    }
    if forall i: nat | i < |plan| - 1 && plan[i].action.ActInstall? :: StepMet(s1.rows, m, plan[i]) {
      forall d | TierTwo(m, d) && FirstSource(m.deps, d.name) != Some(Bundled) ensures DepMet(s1.rows, d) {
        var i := StepOfName(env, m, plan, d.name);
        assert DepOk(env, m.name, Declared(m.deps, d.name), d);
        if d.name !in s.rows {
          assert StepMet(s1.rows, m, plan[i]);
        }
      }
    }
  }
}
