/** Several lifecycle calls at once: in no reachable state of the name locks do calls on an
    acyclic registry deadlock, but the locks do not protect the dependency closure. */
module Concurrency {
  import opened Prelude
  import opened Resolver
  import opened Lifecycle
  import opened Closure
  import opened PluginLimits

  /** An Install call that has locked the names of `chain`, outermost first, and waits for
      the lock of `wants`. Uninstall and Restart wait while holding nothing. */
  datatype Waiter = Waiter(chain: seq<string>, wants: string)

  ghost predicate Holds(w: Waiter, name: string) {
    name in w.chain
  }

  /** The names a call has locked and the one it wants next follow the dependency graph. */
  ghost predicate Follows(reg: Registry, w: Waiter) {
    IsPath(reg, w.chain + [w.wants])
  }

  /** Every call waits for a lock that some call in the group holds. */
  ghost predicate Deadlocked(ws: seq<Waiter>) {
    ws != [] && forall i | 0 <= i < |ws| :: Stalled(ws, i)
  }

  ghost predicate Stalled(ws: seq<Waiter>, i: nat)
    requires i < |ws|
  {
    exists j :: 0 <= j < |ws| && Holds(ws[j], ws[i].wants)
  }

  /** A nested call extends its caller's path: the lock it will wait for is one edge on. */
  lemma NestedCallFollows(reg: Registry, s: State, chain: seq<string>, name: string, version: string, plan: seq<PlanStep>, i: int)
    requires Follows(reg, Waiter(chain, name)) && Find(reg, name, version).Some?
    requires Plan(EnvOf(reg, s.rows), Find(reg, name, version).value.manifest) == Ok(plan)
    requires 0 <= i < |plan| && plan[i].action.ActInstall? && plan[i].name != name
    ensures Follows(reg, Waiter(chain + [name], plan[i].name))
  {
    PulledStepIsEdge(reg, s, name, version, plan, i);
    var p := chain + [name] + [plan[i].name];
    assert forall k | 0 <= k < |p| - 1 :: Edge(reg, p[k], p[k + 1]);
  }

  /** Who holds what call `i` waits for. */
  ghost function Holder(ws: seq<Waiter>, i: nat): (j: nat)
    requires Deadlocked(ws) && i < |ws|
    ensures j < |ws| && Holds(ws[j], ws[i].wants)
  {
    assert Stalled(ws, i);
    var j :| 0 <= j < |ws| && Holds(ws[j], ws[i].wants); j
  }

  /** Following holders from call 0. */
  ghost function Trail(ws: seq<Waiter>, k: nat): (i: nat)
    requires Deadlocked(ws)
    ensures i < |ws|
  {
    if k == 0 then 0 else Holder(ws, Trail(ws, k - 1))
  }

  /** There is a path of at least one edge. */
  ghost predicate Leads(reg: Registry, a: string, b: string) {
    exists p :: IsPath(reg, p) && |p| >= 2 && p[0] == a && p[|p| - 1] == b
  }

  lemma SuffixPath(reg: Registry, p: seq<string>, k: nat)
    requires IsPath(reg, p) && k <= |p|
    ensures IsPath(reg, p[k..])
  {
  }

  lemma LeadsOn(reg: Registry, a: string, b: string, c: string)
    requires Leads(reg, a, b) && Leads(reg, b, c)
    ensures Leads(reg, a, c)
  {
    var p :| IsPath(reg, p) && |p| >= 2 && p[0] == a && p[|p| - 1] == b;
    var q :| IsPath(reg, q) && |q| >= 2 && q[0] == b && q[|q| - 1] == c;
    var r := p + q[1..];
    forall i | 0 <= i < |r| - 1 ensures Edge(reg, r[i], r[i + 1]) {
      if i < |p| - 1 {
        assert Edge(reg, p[i], p[i + 1]);
      } else {
        var k := i - (|p| - 1);
        assert r[i] == q[k] && r[i + 1] == q[k + 1] && Edge(reg, q[k], q[k + 1]);
      }
    }
    assert IsPath(reg, r) && r[0] == a && r[|r| - 1] == c;
  }

  /** What a call holds leads to what it wants. */
  lemma HeldLeadsToWanted(reg: Registry, w: Waiter, name: string)
    requires Follows(reg, w) && Holds(w, name)
    ensures Leads(reg, name, w.wants)
  {
    var k :| 0 <= k < |w.chain| && w.chain[k] == name;
    var p := (w.chain + [w.wants])[k..];
    SuffixPath(reg, w.chain + [w.wants], k);
    assert p[0] == name && p[|p| - 1] == w.wants;
  }

  ghost predicate AllFollow(reg: Registry, ws: seq<Waiter>) {
    forall i | 0 <= i < |ws| :: Follows(reg, ws[i])
  }

  lemma {:induction false} TrailLeads(reg: Registry, ws: seq<Waiter>, a: nat, b: nat)
    requires Deadlocked(ws) && a < b && AllFollow(reg, ws)
    ensures Leads(reg, ws[Trail(ws, a)].wants, ws[Trail(ws, b)].wants)
    decreases b
  {
    HolderLeads(reg, ws, Trail(ws, b - 1));
    if a < b - 1 {
      TrailLeads(reg, ws, a, b - 1);
      LeadsOn(reg, ws[Trail(ws, a)].wants, ws[Trail(ws, b - 1)].wants, ws[Trail(ws, b)].wants);
    }
  }

  lemma HolderLeads(reg: Registry, ws: seq<Waiter>, i: nat)
    requires Deadlocked(ws) && AllFollow(reg, ws) && i < |ws|
    ensures Leads(reg, ws[i].wants, ws[Holder(ws, i)].wants)
  {
    var j := Holder(ws, i);
    assert Follows(reg, ws[j]);
    HeldLeadsToWanted(reg, ws[j], ws[i].wants);
  }

  ghost function Below(n: nat): (r: set<nat>)
    ensures |r| == n && forall i: nat :: i in r <==> i < n
  {
    if n == 0 then {} else Below(n - 1) + {n - 1}
  }

  /** A sequence of more than `n` numbers below `n` repeats one. */
  lemma Pigeonhole(s: seq<nat>, n: nat)
    requires |s| > n && forall i | 0 <= i < |s| :: s[i] < n
    ensures !Distinct(s)
  {
    var below := Below(n);
    assert Elems(s) <= below;
    assert below == Elems(s) + (below - Elems(s));
    if Distinct(s) {
      DistinctSize(s);
      assert false;
    }
  }

  lemma {:induction false} DistinctSize(s: seq<nat>)
    requires Distinct(s)
    ensures |Elems(s)| == |s|
  {
    if s != [] {
      var init, last := s[..|s| - 1], s[|s| - 1];
      DistinctSize(init);
      assert s == init + [last];
      ElemsAppend(init, last);
      assert last !in Elems(init);
    }
  }

  /** Any number of concurrent installs: if they wait for one another in a circle, the
      registry's dependency graph has a cycle. */
  lemma DeadlockMeansCyclic(reg: Registry, ws: seq<Waiter>)
    requires Deadlocked(ws) && AllFollow(reg, ws)
    ensures Cyclic(reg)
  {
    var trail := seq(|ws| + 1, k requires 0 <= k => Trail(ws, k));
    Pigeonhole(trail, |ws|);
    var a, b :| 0 <= a < b < |trail| && trail[a] == trail[b];
    TrailLeads(reg, ws, a, b);
  }

  // ----- every reachable state of the locks -----

  /** A call in progress: the names it has locked, outermost first, and the lock it has
      asked for. Uninstall and Restart are calls that never descend. */
  datatype Thread = Thread(chain: seq<string>, wants: Option<string>)

  /** `Descend` is the loop over a plan reaching install step `k`; the plan was made in any
      state `s`, for any version of the innermost plugin. */
  datatype LockStep = Start(name: string) | Take(i: nat) | Descend(i: nat, s: State, version: string, k: nat) | Release(i: nat)

  ghost predicate Held(ts: seq<Thread>, name: string) {
    exists j :: 0 <= j < |ts| && name in ts[j].chain
  }

  ghost predicate CanDescend(reg: Registry, t: Thread, s: State, version: string, k: nat) {
    && t.chain != [] && t.wants.None?
    && var name := t.chain[|t.chain| - 1];
       && Find(reg, name, version).Some?
       && var plan := Plan(EnvOf(reg, s.rows), Find(reg, name, version).value.manifest);
          plan.Ok? && k < |plan.value| && plan.value[k].action.ActInstall? && plan.value[k].name != name
  }

  ghost function Asked(reg: Registry, t: Thread, s: State, version: string, k: nat): (r: Thread)
    requires CanDescend(reg, t, s, version, k)
  {
    Thread(t.chain, Some(Plan(EnvOf(reg, s.rows), Find(reg, t.chain[|t.chain| - 1], version).value.manifest).value[k].name))
  }

  /** A step that is not enabled changes nothing. */
  ghost function LockExec(reg: Registry, ts: seq<Thread>, step: LockStep): (r: seq<Thread>) {
    match step
    case Start(name) => ts + [Thread([], Some(name))]
    case Take(i) =>
      if i < |ts| && ts[i].wants.Some? && !Held(ts, ts[i].wants.value)
      then ts[i := Thread(ts[i].chain + [ts[i].wants.value], None)] else ts
    case Descend(i, s, version, k) =>
      if i < |ts| && CanDescend(reg, ts[i], s, version, k) then ts[i := Asked(reg, ts[i], s, version, k)] else ts
    case Release(i) =>
      if i < |ts| && ts[i].chain != [] && ts[i].wants.None?
      then ts[i := Thread(ts[i].chain[..|ts[i].chain| - 1], None)] else ts
  }

  ghost function LockRun(reg: Registry, steps: seq<LockStep>): (ts: seq<Thread>) {
    if steps == [] then [] else LockExec(reg, LockRun(reg, steps[..|steps| - 1]), steps[|steps| - 1])
  }

  /** What a call has locked and asked for follows the dependency graph. */
  ghost predicate OnPath(reg: Registry, t: Thread) {
    IsPath(reg, if t.wants.Some? then t.chain + [t.wants.value] else t.chain)
  }

  /** A lock has one holder, who took it once. */
  ghost predicate Exclusive(ts: seq<Thread>) {
    && (forall i | 0 <= i < |ts| :: Distinct(ts[i].chain))
    && (forall i, j, n | 0 <= i < |ts| && 0 <= j < |ts| && n in ts[i].chain && n in ts[j].chain :: i == j)
  }

  lemma StepStaysOnPath(reg: Registry, ts: seq<Thread>, step: LockStep)
    requires forall t | t in ts :: OnPath(reg, t)
    ensures forall t | t in LockExec(reg, ts, step) :: OnPath(reg, t)
  {
    var ts' := LockExec(reg, ts, step);
    forall t | t in ts' ensures OnPath(reg, t) {
      if t !in ts {
        match step {
          case Start(_) =>
          case Take(i) =>
            assert OnPath(reg, ts[i]);
          case Descend(i, s, version, k) =>
            assert OnPath(reg, ts[i]);
            DescendStaysOnPath(reg, ts[i], s, version, k);
          case Release(i) =>
            assert OnPath(reg, ts[i]);
            PrefixPath(reg, ts[i].chain, |ts[i].chain| - 1);
        }
      }
    }
  }

  lemma PrefixPath(reg: Registry, p: seq<string>, k: nat)
    requires IsPath(reg, p) && k <= |p|
    ensures IsPath(reg, p[..k])
  {
  }

  lemma DescendStaysOnPath(reg: Registry, t: Thread, s: State, version: string, k: nat)
    requires OnPath(reg, t) && CanDescend(reg, t, s, version, k)
    ensures OnPath(reg, Asked(reg, t, s, version, k))
  {
    var n := |t.chain| - 1;
    var plan := Plan(EnvOf(reg, s.rows), Find(reg, t.chain[n], version).value.manifest).value;
    assert t.chain[..n] + [t.chain[n]] == t.chain;
    NestedCallFollows(reg, s, t.chain[..n], t.chain[n], version, plan, k);
  }

  lemma StepStaysExclusive(reg: Registry, ts: seq<Thread>, step: LockStep)
    requires Exclusive(ts)
    ensures Exclusive(LockExec(reg, ts, step))
  {
  }

  lemma {:induction false} LockRunsKeep(reg: Registry, steps: seq<LockStep>)
    ensures Exclusive(LockRun(reg, steps))
    ensures forall t | t in LockRun(reg, steps) :: OnPath(reg, t)
  {
    if steps != [] {
      LockRunsKeep(reg, steps[..|steps| - 1]);
      StepStaysExclusive(reg, LockRun(reg, steps[..|steps| - 1]), steps[|steps| - 1]);
      StepStaysOnPath(reg, LockRun(reg, steps[..|steps| - 1]), steps[|steps| - 1]);
    }
  }

  /** The waiting calls of a state. */
  ghost function Waiters(ts: seq<Thread>): (ws: seq<Waiter>)
    ensures forall w :: w in ws <==> exists t :: t in ts && t.wants == Some(w.wants) && t.chain == w.chain
  {
    if ts == [] then []
    else
      var init, last := Waiters(ts[..|ts| - 1]), ts[|ts| - 1];
      assert ts == ts[..|ts| - 1] + [last];
      if last.wants.Some? then init + [Waiter(last.chain, last.wants.value)] else init
  }

  /** In every reachable state, a group of calls that wait for one another shows a cycle. */
  lemma {:induction false} ReachableDeadlockMeansCyclic(reg: Registry, steps: seq<LockStep>, ws: seq<Waiter>)
    requires (forall w | w in ws :: w in Waiters(LockRun(reg, steps))) && Deadlocked(ws)
    ensures Cyclic(reg)
  {
    LockRunsKeep(reg, steps);
    forall i | 0 <= i < |ws| ensures Follows(reg, ws[i]) {
      assert ws[i] in Waiters(LockRun(reg, steps));
      var t :| t in LockRun(reg, steps) && t.wants == Some(ws[i].wants) && t.chain == ws[i].chain;
      assert OnPath(reg, t);
    }
    DeadlockMeansCyclic(reg, ws);
  }

  /** On an acyclic registry, whenever calls wait, one of them waits for a lock that is free
      or held by a call that is not waiting. */
  lemma {:induction false} NeverAtAStandstill(reg: Registry, steps: seq<LockStep>)
    requires !Cyclic(reg) && Waiters(LockRun(reg, steps)) != []
    ensures exists w :: w in Waiters(LockRun(reg, steps)) &&
              forall t | t in LockRun(reg, steps) && w.wants in t.chain :: t.wants.None?
  {
    var ts := LockRun(reg, steps);
    var ws := Waiters(ts);
    if Deadlocked(ws) {
      ReachableDeadlockMeansCyclic(reg, steps, ws);
    }
    var i :| 0 <= i < |ws| && !Stalled(ws, i);
    assert forall t | t in ts && t.wants.Some? :: Waiter(t.chain, t.wants.value) in ws;
    assert forall w | w in ws :: !Holds(w, ws[i].wants);
    assert ws[i] in ws;
  }

  // ----- what the locks do not cover -----

  const Pair: Registry := map[
    "a" := [PluginAt("a", Text("1.0.0", 1), [Needs("b", Blank)])],
    "b" := [PluginAt("b", Text("1.0.0", 1), [])]]

  /** Install of "a" plans while "b" is installed, an unforced Uninstall of "b" then finds no
      dependents, and the install completes: the locks are on different names, so nothing
      orders the two, and closure is lost. */
  lemma RacingUninstallBreaksClosure(s: State)
    requires "b" in s.rows && s.rows["b"].manifest.deps == [] && "a" !in s.rows && s.rows.Keys == {"b"}
    ensures var m := Pair["a"][0].manifest;
            var plan := Plan(EnvOf(Pair, s.rows), m);
            var (s1, removed) := Uninstall(s, "b", false, true, true);
            && plan.Ok? && removed == Removed
            && (forall i | 0 <= i < |plan.value| :: !Pulls(s, "a", plan.value[i]))
            && var (s2, r) := Complete(s1, "a", m, plan.value, AllGood("a"));
               r.Installed? && Closed(s.rows) && !Closed(s2.rows)
  {
    var m := Pair["a"][0].manifest;
    PlanOfPresent(Pair, s, m, "a", "b");
    assert m.deps[0] in m.deps && TierTwo(m, m.deps[0]);
    assert Closed(s.rows) && Dependents(s.rows, "b") == {};
    RaceKeepsClosureExactly(s, "a", "b", m, Plan(EnvOf(Pair, s.rows), m).value, AllGood("a"));
  }

  /** The plan of a plugin whose one dependency is installed pulls nothing. */
  lemma PlanOfPresent(reg: Registry, s: State, m: Manifest, a: string, b: string)
    requires m.name == a != b && m.deps == [Needs(b, Blank)] && b in s.rows
    ensures var plan := Plan(EnvOf(reg, s.rows), m);
            plan.Ok? && forall i | 0 <= i < |plan.value| :: !Pulls(s, a, plan.value[i])
  {
    var env := EnvOf(reg, s.rows);
    OneDep(Needs(b, Blank), b);
    PlanIsSettled(env, m);
    var plan := Plan(env, m).value;
    assert plan[0].name == NamesInOrder(m.deps)[0];
    assert StepFor(env, m.deps, b, plan[0]);
  }

  /** An unforced uninstall slips between another plugin's plan, when all its dependencies
      were there, and its persist: the finished install keeps closure exactly when it does
      not need what was removed. */
  lemma RaceKeepsClosureExactly(s: State, a: string, b: string, m: Manifest, plan: seq<PlanStep>, o: Outcome)
    requires Closed(s.rows) && forall d | TierTwo(m, d) :: d.name in s.rows
    requires a != b && Uninstall(s, b, false, true, true).1 == Removed
    requires Complete(Uninstall(s, b, false, true, true).0, a, m, plan, o).1.Installed?
    ensures var s2 := Complete(Uninstall(s, b, false, true, true).0, a, m, plan, o).0;
            Closed(s2.rows) <==> forall d | TierTwo(m, d) :: d.name != b
  {
    UninstallKeepsClosed(s, b, true);
    CompleteClosedExactly(Uninstall(s, b, false, true, true).0, a, m, plan, o);
  }
}
