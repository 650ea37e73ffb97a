/** What the lifecycle calls answer, and what each answer means for the stored and the live
    tables, in terms of the state before the call and how its steps turn out. */
module LifecycleAnswers {
  import opened Prelude
  import opened Resolver
  import opened Lifecycle

  // ----- finishing an install -----

  /** The steps after the dependencies end in success exactly when each of them is good, the
      manifest bears the name and no row is in the way; routes and UI decide nothing. */
  ghost predicate Completes(s: State, name: string, m: Manifest, o: Outcome) {
    o.fetch && o.unpack && m.name == name && o.needs && o.persist && name !in s.rows && o.deploy
  }

  /** What success leaves behind: the row; the routes if there are any and the router takes
      them; the UI registration and the tree if there is a UI. */
  ghost predicate Carries(s: State, s': State, name: string, m: Manifest, o: Outcome) {
    && s'.rows == s.rows[name := Row(m.version, m)]
    && (forall n | n != name :: (n in s'.routes <==> n in s.routes) && (n in s.routes ==> s'.routes[n] == s.routes[n]))
    && (if m.routes != [] && o.mount then name in s'.routes && s'.routes[name] == m.routes
        else (name in s'.routes <==> name in s.routes) && (name in s.routes ==> s'.routes[name] == s.routes[name]))
    && (forall n :: n in s'.ui <==> n in s.ui || (n == name && m.hasUI))
    && (forall n :: n in s'.trees <==> if n == name then m.hasUI else n in s.trees)
  }

  lemma CompleteInstallsExactly(s: State, name: string, m: Manifest, plan: seq<PlanStep>, o: Outcome)
    ensures var (s', r) := Complete(s, name, m, plan, o);
            && !r.Blocked? && (r.Installed? <==> Completes(s, name, m, o))
            && (r.Installed? ==> Carries(s, s', name, m, o))
  {
  }

  /** The first step that is not good names the reason. */
  lemma CompleteFailsExactly(s: State, name: string, m: Manifest, plan: seq<PlanStep>, o: Outcome)
    ensures var r := Complete(s, name, m, plan, o).1;
            var unpacked := o.fetch && o.unpack;
            var provisioned := unpacked && m.name == name && o.needs;
            var persisted := provisioned && o.persist && name !in s.rows;
            && (r == Failed(Unavailable) <==> !unpacked)
            && (r == Failed(WrongManifest) <==> unpacked && m.name != name)
            && (r == Failed(NeedsFailed) <==> unpacked && m.name == name && !o.needs)
            && (r == Failed(PersistFailed) <==> provisioned && !persisted)
            && (r == Failed(DeployFailed) <==> persisted && !o.deploy)
  {
  }

  /** What failure leaves behind: other names are untouched and this one's routes and UI too,
      unless a deployment failed, which takes them down; the tree is gone once an unpack
      began; the row stays only if a failed deployment could not delete it. */
  lemma CompleteFailureLeaves(s: State, name: string, m: Manifest, plan: seq<PlanStep>, o: Outcome)
    requires Complete(s, name, m, plan, o).1.Failed?
    ensures var (s', r) := Complete(s, name, m, plan, o);
            var gone := if r == Failed(DeployFailed) then {name} else {};
            && s'.routes == s.routes - gone && s'.ui == s.ui - gone
            && s'.trees == (if o.fetch then s.trees - {name} else s.trees)
            && s'.rows == if r == Failed(DeployFailed) && !o.unpersist then s.rows[name := Row(m.version, m)] else s.rows
  {
  }

  /** A successful install reports every plan step not named like the plugin, in plan order. */
  lemma {:induction false} ReportsOtherSteps(plan: seq<PlanStep>, name: string, other: PlanStep -> bool)
    requires forall step :: other(step) <==> step.name != name
    ensures Sifts(plan, OtherSteps(plan, name), other)
  {
    if plan == [] {
      SiftsNothing(other);
    } else {
      var init, last := plan[..|plan| - 1], plan[|plan| - 1];
      assert plan == init + [last];
      ReportsOtherSteps(init, name, other);
      SiftsOne(init, OtherSteps(init, name), other, last, plan, OtherSteps(plan, name));
    }
  }

  // ----- install -----

  /** The call gets as far as planning: the name is given, not locked by its own chain, not
      installed, and its release can be fetched. */
  ghost predicate Plans(reg: Registry, s: State, name: string, version: string, o: Oracle, chain: seq<string>) {
    name != "" && name !in chain && name !in s.rows && o(name).planFetch && Find(reg, name, version).Some?
  }

  /** The loop over the plan, with the name's own lock held. */
  ghost function Loop(reg: Registry, s: State, name: string, version: string, o: Oracle, chain: seq<string>)
    : (r: (State, Option<InstallResult>))
    requires Planned(reg, s, name, version, o, chain)
  {
    InstallSteps(reg, s, name, PlanFor(reg, s, name, version), o, chain + [name])
  }

  ghost predicate Planned(reg: Registry, s: State, name: string, version: string, o: Oracle, chain: seq<string>) {
    Plans(reg, s, name, version, o, chain) && Plan(EnvOf(reg, s.rows), Find(reg, name, version).value.manifest).Ok?
  }

  ghost function PlanFor(reg: Registry, s: State, name: string, version: string): (r: seq<PlanStep>)
    requires Find(reg, name, version).Some? && Plan(EnvOf(reg, s.rows), Find(reg, name, version).value.manifest).Ok?
  {
    Plan(EnvOf(reg, s.rows), Find(reg, name, version).value.manifest).value
  }

  /** Install answers Installed if and only if it gets to plan, the plan is found, the loop
      over it runs to its end, and every later step is good. */
  lemma {:induction false} InstallSucceedsExactly(reg: Registry, s: State, name: string, version: string, o: Oracle, chain: seq<string>)
    ensures Install(reg, s, name, version, o, chain).1.Installed? <==>
            && Planned(reg, s, name, version, o, chain) && Loop(reg, s, name, version, o, chain).1.None?
            && Find(reg, name, version).value.manifest.name == name
            && o(name).fetch && o(name).unpack && o(name).needs && o(name).persist && o(name).deploy
  {
    if Planned(reg, s, name, version, o, chain) {
      InstallCompletes(reg, s, name, version, o, chain);
    }
  }

  /** A planned install whose loop ends finishes on the state the loop left, without a row of
      its own name there. */
  lemma {:induction false} InstallCompletes(reg: Registry, s: State, name: string, version: string, o: Oracle, chain: seq<string>)
    requires Planned(reg, s, name, version, o, chain)
    ensures var (s1, stop) := Loop(reg, s, name, version, o, chain);
            var m, plan := Find(reg, name, version).value.manifest, PlanFor(reg, s, name, version);
            && name !in s1.rows
            && Install(reg, s, name, version, o, chain) == (if stop.Some? then (s1, stop.value) else Complete(s1, name, m, plan, o(name)))
            && (stop.Some? ==> !stop.value.Installed?)
  {
    var plan := PlanFor(reg, s, name, version);
    StepsGrow(reg, s, name, plan, o, chain + [name]);
    StopIsDependency(reg, s, name, plan, o, chain + [name]);
    assert name in chain + [name];
  }

  /** A successful install reports the other steps of the plan in order and leaves, on top of
      what the loop left, what the manifest calls for. */
  lemma {:induction false} InstallLeaves(reg: Registry, s: State, name: string, version: string, o: Oracle,
                                         chain: seq<string>, other: PlanStep -> bool)
    requires Install(reg, s, name, version, o, chain).1.Installed? && Planned(reg, s, name, version, o, chain)
    requires forall step :: other(step) <==> step.name != name
    ensures var (s', r) := Install(reg, s, name, version, o, chain);
            && Sifts(PlanFor(reg, s, name, version), r.deps, other)
            && Carries(Loop(reg, s, name, version, o, chain).0, s', name, Find(reg, name, version).value.manifest, o(name))
  {
    InstallCompletes(reg, s, name, version, o, chain);
    var m, plan := Find(reg, name, version).value.manifest, PlanFor(reg, s, name, version);
    CompleteInstallsExactly(Loop(reg, s, name, version, o, chain).0, name, m, plan, o(name));
    ReportsOtherSteps(plan, name, other);
  }

  /** Why an install is refused before its dependencies are touched; nothing changes then. */
  lemma {:induction false} InstallRefusesExactly(reg: Registry, s: State, name: string, version: string, o: Oracle, chain: seq<string>)
    ensures var r := Install(reg, s, name, version, o, chain).1;
            && (r == Failed(InvalidName) <==> name == "")
            && (name != "" && name in chain ==> r.Blocked?)
            && (r == Failed(AlreadyInstalled) <==> name != "" && name !in chain && name in s.rows)
            && (forall e :: r == Failed(NotPlannable(e)) <==>
                  Plans(reg, s, name, version, o, chain) &&
                  Plan(EnvOf(reg, s.rows), Find(reg, name, version).value.manifest) == Err(e))
            && (name != "" && name !in chain && name !in s.rows && (!o(name).planFetch || Find(reg, name, version).None?) ==>
                  r == Failed(Unavailable))
    ensures var (s', r) := Install(reg, s, name, version, o, chain);
            !Plans(reg, s, name, version, o, chain) || (r.Failed? && r.reason.NotPlannable?) ==> s' == s
  {
    if Plans(reg, s, name, version, o, chain) {
      var m := Find(reg, name, version).value.manifest;
      var plan := Plan(EnvOf(reg, s.rows), m);
      if plan.Ok? {
        StopIsDependency(reg, s, name, plan.value, o, chain + [name]);
        CompleteFailsExactly(InstallSteps(reg, s, name, plan.value, o, chain + [name]).0, name, m, plan.value, o(name));
      }
    }
  }

  /** The loop stops on a dependency's failure under that dependency's name, or on a block. */
  lemma {:induction false} StopIsDependency(reg: Registry, s: State, root: string, steps: seq<PlanStep>, o: Oracle, chain: seq<string>)
    ensures var stop := InstallSteps(reg, s, root, steps, o, chain).1;
            stop.Some? && !stop.value.Blocked? ==>
              stop.value.Failed? && stop.value.reason.DependencyFailed? &&
              exists i :: 0 <= i < |steps| && steps[i].name == stop.value.reason.dependency && steps[i].name != root
    decreases |steps|
  {
    if steps != [] {
      var s1 := if Pulls(s, root, steps[0]) then Install(reg, s, steps[0].name, steps[0].version.raw, o, chain).0 else s;
      StopIsDependency(reg, s1, root, steps[1..], o, chain);
      assert forall i | 0 <= i < |steps[1..]| :: steps[1..][i] == steps[i + 1];
    }
  }

  // ----- uninstall and restore -----

  /** Some other installed plugin declares `name` as a tier-2 dependency. */
  ghost predicate Needed(s: State, name: string) {
    exists n, d :: n in s.rows && n != name && d in s.rows[n].manifest.deps && d.source.Tier2? && d.name == name
  }

  lemma NeededMeansDependents(s: State, name: string)
    ensures Needed(s, name) <==> Dependents(s.rows, name) != {}
  {
    if n, d :| n in s.rows && n != name && d in s.rows[n].manifest.deps && d.source.Tier2? && d.name == name {
      var i :| 0 <= i < |s.rows[n].manifest.deps| && s.rows[n].manifest.deps[i] == d;
      assert n in Dependents(s.rows, name);
    }
    if Dependents(s.rows, name) != {} {
      var n :| n in Dependents(s.rows, name);
      var i :| 0 <= i < |s.rows[n].manifest.deps| && s.rows[n].manifest.deps[i].source.Tier2? && s.rows[n].manifest.deps[i].name == name;
      assert s.rows[n].manifest.deps[i] in s.rows[n].manifest.deps;
    }
  }

  /** Uninstall is refused for dependents exactly when the query shows some and force is off;
      otherwise an installed plugin loses its routes, UI registration and tree, and its row
      too if the delete works. Nothing else is touched. */
  lemma UninstallAnswersExactly(s: State, name: string, force: bool, known: bool, deleted: bool)
    ensures var (s', r) := Uninstall(s, name, force, known, deleted);
            var kept := known && !force && Needed(s, name);
            && (r == NotFound <==> name !in s.rows)
            && (r == HasDependents <==> name in s.rows && kept)
            && (r == Removed <==> name in s.rows && !kept && deleted)
            && (r == DeleteFailed <==> name in s.rows && !kept && !deleted)
            && (r == NotFound || r == HasDependents ==> s' == s)
            && (r == Removed || r == DeleteFailed ==>
                  s'.routes == s.routes - {name} && s'.ui == s.ui - {name} && s'.trees == s.trees - {name} &&
                  s'.rows == if r == Removed then s.rows - {name} else s.rows)
  {
    NeededMeansDependents(s, name);
  }

  /** Restore mounts the routes of every row that has some and registers every row whose tree
      is there; whatever was live stays. */
  lemma RestoreExactly(s: State, n: string)
    ensures var s' := Restore(s);
            && s'.rows == s.rows && s'.trees == s.trees
            && (if n in s.rows && s.rows[n].manifest.routes != [] then n in s'.routes && s'.routes[n] == s.rows[n].manifest.routes
                else (n in s'.routes <==> n in s.routes) && (n in s.routes ==> s'.routes[n] == s.routes[n]))
            && (n in s'.ui <==> n in s.ui || (n in s.rows && n in s.trees))
  {
  }
}
