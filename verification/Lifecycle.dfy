/** The plugin lifecycle as functions on states: Install with its recursion through
    dependencies, Uninstall, RestoreAtStartup, and what every run of them keeps. */
module Lifecycle {
  import opened Prelude
  import opened Resolver

  /** A release in the marketplace index with the manifest its tarball holds. */
  datatype Release = Release(version: VersionText, manifest: Manifest)
  type Registry = map<string, seq<Release>>

  datatype Row = Row(version: VersionText, manifest: Manifest)

  /** `trees` holds the plugins whose on-disk tree has a ui directory. */
  datatype State = State(rows: map<string, Row>, routes: map<string, seq<Route>>,
                         ui: set<string>, trees: set<string>)

  /** How the fallible steps of installing one plugin turn out. Within one call each
      plugin's steps run at most once, so an outcome per name covers every failure. */
  datatype Outcome = Outcome(planFetch: bool, fetch: bool, unpack: bool, needs: bool, persist: bool,
                             mount: bool, deploy: bool, unpersist: bool)
  type Oracle = string -> Outcome

  datatype Reason = InvalidName | AlreadyInstalled | Unavailable | NotPlannable(error: PlanError)
                  | DependencyFailed(dependency: string) | WrongManifest | NeedsFailed
                  | PersistFailed | DeployFailed

  /** `Blocked` is a call waiting for a name lock that its own call chain holds. */
  datatype InstallResult = Installed(deps: seq<PlanStep>) | Failed(reason: Reason) | Blocked

  // ----- looking up the registry -----

  function Versions(rs: seq<Release>): (r: seq<VersionText>)
    ensures |r| == |rs| && forall i | 0 <= i < |rs| :: r[i] == rs[i].version
  {
    seq(|rs|, i requires 0 <= i < |rs| => rs[i].version)
  }

  /** What the resolver sees: the stored rows and the registry. */
  function EnvOf(reg: Registry, rows: map<string, Row>): (env: Env) {
    Env(n => if n in rows then Present(rows[n].version) else Absent,
        n => if n in reg && reg[n] != [] then Some(Versions(reg[n])) else None)
  }

  function FirstNamed(rs: seq<Release>, version: string): (r: Option<Release>)
    ensures r.Some? <==> exists i :: 0 <= i < |rs| && rs[i].version.raw == version
    ensures r.Some? ==> exists i :: 0 <= i < |rs| && r.value == rs[i] && IsFirstNamed(rs, version, i)
  {
    if rs == [] then None
    else if rs[0].version.raw == version then assert IsFirstNamed(rs, version, 0); Some(rs[0])
    else
      var later := FirstNamed(rs[1..], version);
      assert later.Some? ==> exists i :: 0 <= i < |rs| && later.value == rs[i] && IsFirstNamed(rs, version, i) by {
        if later.Some? {
          var i :| 0 <= i < |rs| - 1 && later.value == rs[1..][i] && IsFirstNamed(rs[1..], version, i);
          assert forall j | 1 <= j < |rs| :: rs[j] == rs[1..][j - 1];
          assert IsFirstNamed(rs, version, i + 1);
        }
      }
      later
  }

  predicate IsFirstNamed(rs: seq<Release>, version: string, i: int) {
    0 <= i < |rs| && rs[i].version.raw == version && forall j | 0 <= j < i :: rs[j].version.raw != version
  }

  /** FindVersion: the empty version means the one listed first, any other the first entry
      with exactly that version string. */
  function Find(reg: Registry, name: string, version: string): (r: Option<Release>)
    ensures r.Some? ==> name in reg && r.value in reg[name]
    ensures version == "" ==> (r.Some? <==> name in reg && reg[name] != []) && (r.Some? ==> r.value == reg[name][0])
    ensures version != "" ==> (r.Some? <==> name in reg && exists i :: 0 <= i < |reg[name]| && reg[name][i].version.raw == version)
    ensures version != "" && r.Some? ==> exists i :: 0 <= i < |reg[name]| && r.value == reg[name][i] && IsFirstNamed(reg[name], version, i)
  {
    if name !in reg || reg[name] == [] then None
    else if version == "" then Some(reg[name][0])
    else FirstNamed(reg[name], version)
  }

  // ----- install -----

  /** Install, called while the locks in `chain` are held by the calls above it. */
  ghost function Install(reg: Registry, s: State, name: string, version: string, o: Oracle, chain: seq<string>)
    : (r: (State, InstallResult))
    decreases reg.Keys - Elems(chain), 0
  {
    if name == "" then (s, Failed(InvalidName))
    else if name in chain then (s, Blocked)
    else if name in s.rows then (s, Failed(AlreadyInstalled))
    else
      var release := Find(reg, name, version);
      if !o(name).planFetch || release.None? then (s, Failed(Unavailable))
      else match Plan(EnvOf(reg, s.rows), release.value.manifest)
        case Err(e) => (s, Failed(NotPlannable(e)))
        case Ok(plan) =>
          var inner := chain + [name];
          assert name in Elems(inner) && name !in Elems(chain) && Elems(chain) <= Elems(inner);
          var (s1, stop) := InstallSteps(reg, s, name, plan, o, inner);
          if stop.Some? then (s1, stop.value)
          else Complete(s1, name, release.value.manifest, plan, o(name))
  }

  /** The loop over a plan's steps; None when it runs to the end. */
  ghost function InstallSteps(reg: Registry, s: State, root: string, steps: seq<PlanStep>, o: Oracle, chain: seq<string>)
    : (r: (State, Option<InstallResult>))
    decreases reg.Keys - Elems(chain), 1 + |steps|
  {
    if steps == [] then (s, None)
    else if !Pulls(s, root, steps[0]) then InstallSteps(reg, s, root, steps[1..], o, chain)
    else
      var step := steps[0];
      var (s1, r) := Install(reg, s, step.name, step.version.raw, o, chain);
      match r
      case Installed(_) => InstallSteps(reg, s1, root, steps[1..], o, chain)
      case Failed(_) => (s1, Some(Failed(DependencyFailed(step.name))))
      case Blocked => (s1, Some(Blocked))
  }

  /** The loop's three guards: not the root, an install step, and not present by now. */
  predicate Pulls(s: State, root: string, step: PlanStep) {
    step.name != root && step.action.ActInstall? && step.name !in s.rows
  }

  /** Everything after the dependencies: unpack, provision, persist, mount, deploy, and
      the rollback of each. */
  function Complete(s: State, name: string, m: Manifest, plan: seq<PlanStep>, o: Outcome): (r: (State, InstallResult)) {
    if !o.fetch then (s, Failed(Unavailable))
    else
      var wiped := s.(trees := s.trees - {name});
      if !o.unpack then (wiped, Failed(Unavailable))
      else if m.name != name then (wiped, Failed(WrongManifest))
      else if !o.needs then (wiped, Failed(NeedsFailed))
      else if !o.persist || name in s.rows then (wiped, Failed(PersistFailed))
      else
        var rows := s.rows[name := Row(m.version, m)];
        if !o.deploy then
          (State(if o.unpersist then s.rows else rows, s.routes - {name}, s.ui - {name}, s.trees - {name}),
           Failed(DeployFailed))
        else
          (State(rows,
                 if m.routes != [] && o.mount then s.routes[name := m.routes] else s.routes,
                 if m.hasUI then s.ui + {name} else s.ui,
                 if m.hasUI then s.trees + {name} else s.trees - {name}),
           Installed(OtherSteps(plan, name)))
  }

  /** InstalledDeps: the plan without the root's own steps. */
  function OtherSteps(plan: seq<PlanStep>, name: string): (r: seq<PlanStep>) {
    if plan == [] then []
    else
      var init, last := OtherSteps(plan[..|plan| - 1], name), plan[|plan| - 1];
      if last.name == name then init else init + [last]
  }

  // ----- uninstall and restore -----

  datatype UninstallResult = Removed | NotFound | HasDependents | DeleteFailed

  predicate NeedsPlugin(m: Manifest, name: string) {
    exists i :: 0 <= i < |m.deps| && m.deps[i].source.Tier2? && m.deps[i].name == name
  }

  /** The installed plugins that declare `name` as a tier-2 dependency. */
  function Dependents(rows: map<string, Row>, name: string): (r: set<string>) {
    set n | n in rows && n != name && NeedsPlugin(rows[n].manifest, name)
  }

  /** `known` says whether the dependents query succeeds, `deleted` whether the row delete does. */
  function Uninstall(s: State, name: string, force: bool, known: bool, deleted: bool): (r: (State, UninstallResult)) {
    if name !in s.rows then (s, NotFound)
    else if known && Dependents(s.rows, name) != {} && !force then (s, HasDependents)
    else (State(if deleted then s.rows - {name} else s.rows, s.routes - {name}, s.ui - {name}, s.trees - {name}),
          if deleted then Removed else DeleteFailed)
  }

  /** The route table the stored rows call for. */
  function RoutesOf(rows: map<string, Row>): (r: map<string, seq<Route>>) {
    map n | n in rows && rows[n].manifest.routes != [] :: rows[n].manifest.routes
  }

  /** The UI registrations the stored rows call for. */
  function UiOf(rows: map<string, Row>): (r: set<string>) {
    set n | n in rows && rows[n].manifest.hasUI
  }

  /** RestoreAtStartup on whatever the process holds. */
  function Restore(s: State): (r: State) {
    s.(routes := s.routes + RoutesOf(s.rows), ui := s.ui + s.rows.Keys * s.trees)
  }

  // ----- what one install does to the rows -----

  ghost predicate Extends(rows: map<string, Row>, more: map<string, Row>) {
    forall n | n in rows :: n in more && more[n] == rows[n]
  }

  ghost predicate FromRegistry(reg: Registry, name: string, row: Row) {
    name in reg && row.version == row.manifest.version && row.manifest.name == name &&
    exists r :: r in reg[name] && r.manifest == row.manifest
  }

  ghost predicate IsRowOf(release: Option<Release>, row: Row) {
    release.Some? && row == Row(release.value.manifest.version, release.value.manifest)
  }

  /** Rows only get added, from the registry, and never under a name the chain has locked. */
  ghost predicate Grows(reg: Registry, s: State, s': State, chain: seq<string>) {
    && Extends(s.rows, s'.rows)
    && forall n | n in s'.rows && n !in s.rows :: n !in chain && FromRegistry(reg, n, s'.rows[n])
  }

  lemma {:induction false} InstallGrows(reg: Registry, s: State, name: string, version: string, o: Oracle, chain: seq<string>)
    ensures var (s', r) := Install(reg, s, name, version, o, chain);
            && Grows(reg, s, s', chain)
            && (r.Installed? ==> name in s'.rows && name !in s.rows)
            && (name in s'.rows && name !in s.rows ==> IsRowOf(Find(reg, name, version), s'.rows[name]))
    decreases reg.Keys - Elems(chain), 0
  {
    if name != "" && name !in chain && name !in s.rows && o(name).planFetch && Find(reg, name, version).Some? {
      var m := Find(reg, name, version).value.manifest;
      var plan := Plan(EnvOf(reg, s.rows), m);
      var inner := chain + [name];
      assert name in Elems(inner) && name !in Elems(chain) && Elems(chain) <= Elems(inner);
      if plan.Ok? {
        StepsGrow(reg, s, name, plan.value, o, inner);
        var (s1, stop) := InstallSteps(reg, s, name, plan.value, o, inner);
        if stop.None? {
          CompleteGrows(reg, s1, name, Find(reg, name, version).value, plan.value, o(name), chain);
        }
      }
    }
  }

  lemma CompleteGrows(reg: Registry, s: State, name: string, release: Release, plan: seq<PlanStep>, o: Outcome, chain: seq<string>)
    requires name !in chain && name in reg && release in reg[name]
    ensures Grows(reg, s, Complete(s, name, release.manifest, plan, o).0, chain)
  {
  }

  lemma {:induction false} StepsGrow(reg: Registry, s: State, root: string, steps: seq<PlanStep>, o: Oracle, chain: seq<string>)
    ensures var (s', stop) := InstallSteps(reg, s, root, steps, o, chain);
            && Grows(reg, s, s', chain)
            && (stop.Some? ==> !stop.value.Installed?)
            && (stop.None? ==> forall i | 0 <= i < |steps| :: !Pulls(s', root, steps[i]))
    decreases reg.Keys - Elems(chain), 1 + |steps|
  {
    if steps != [] {
      var s1 := s;
      if Pulls(s, root, steps[0]) {
        InstallGrows(reg, s, steps[0].name, steps[0].version.raw, o, chain);
        s1 := Install(reg, s, steps[0].name, steps[0].version.raw, o, chain).0;
      }
      StepsGrow(reg, s1, root, steps[1..], o, chain);
      assert forall i | 1 <= i < |steps| :: steps[i] == steps[1..][i - 1];
    }
  }
}
