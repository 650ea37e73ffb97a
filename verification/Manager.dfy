/** The plugin manager as it runs: one object whose calls update the rows, the router, the
    UI registrations and the name locks in place, each proved against its function. */
module PluginManager {
  import opened Prelude
  import opened Resolver
  import L = Lifecycle
  import A = LifecycleAnswers
  import C = Closure

  lemma RestoreOne(base: map<string, seq<Route>>, rows: map<string, L.Row>, todo: set<string>, n: string)
    requires n in todo && n in rows
    ensures base + L.RoutesOf(rows - (todo - {n}))
         == if rows[n].manifest.routes != [] then (base + L.RoutesOf(rows - todo))[n := rows[n].manifest.routes]
            else base + L.RoutesOf(rows - todo)
  {
  }

  class Manager {
    var rows: map<string, L.Row>
    var routes: map<string, seq<Route>>
    var ui: set<string>
    var trees: set<string>
    /** The name locks held by the current call chain, outermost first. */
    var held: seq<string>

    constructor ()
      ensures View() == C.Fresh && held == []
    {
      rows, routes, ui, trees, held := map[], map[], {}, {}, [];
    }

    ghost function View(): (s: L.State)
      reads this
    {
      L.State(rows, routes, ui, trees)
    }

    /** Install. The recursion ends because every call locks one more registry name; a call
        that finds its own lock taken is reported as blocked instead of waiting. */
    method Install(reg: L.Registry, name: string, version: string, o: L.Oracle) returns (r: L.InstallResult)
      modifies this
      ensures (View(), r) == L.Install(reg, old(View()), name, version, o, old(held))
      ensures held == old(held)
      decreases reg.Keys - Elems(held), 0
    {
      if name == "" {
        return L.Failed(L.InvalidName);
      }
      if name in held {
        return L.Blocked;
      }
      if name in rows {
        return L.Failed(L.AlreadyInstalled);
      }
      var release := L.Find(reg, name, version);
      if !o(name).planFetch || release.None? {
        return L.Failed(L.Unavailable);
      }
      var m := release.value.manifest;
      var planned := ComputePlan(L.EnvOf(reg, rows), m, 32);
      if planned.Err? {
        return L.Failed(L.NotPlannable(planned.error));
      }
      assert name !in Elems(held);
      held := held + [name];
      assert name in Elems(held) && Elems(old(held)) <= Elems(held);
      var stop := InstallDependencies(reg, name, planned.value, o);
      if stop.Some? {
        r := stop.value;
      } else {
        r := Finish(name, m, planned.value, o(name));
      }
      held := held[..|held| - 1];
    }

    /** The loop over the plan. */
    method InstallDependencies(reg: L.Registry, root: string, plan: seq<PlanStep>, o: L.Oracle)
      returns (stop: Option<L.InstallResult>)
      modifies this
      ensures (View(), stop) == L.InstallSteps(reg, old(View()), root, plan, o, old(held))
      ensures held == old(held)
      decreases reg.Keys - Elems(held), 1
    {
      for i := 0 to |plan|
        invariant held == old(held)
        invariant L.InstallSteps(reg, View(), root, plan[i..], o, held)
               == L.InstallSteps(reg, old(View()), root, plan, o, held)
      {
        var step := plan[i];
        assert plan[i..][0] == step && plan[i..][1..] == plan[i + 1..];
        if step.name == root || !step.action.ActInstall? || step.name in rows {
          continue;
        }
        var r := Install(reg, step.name, step.version.raw, o);
        if r.Failed? {
          return Some(L.Failed(L.DependencyFailed(step.name)));
        }
        if r.Blocked? {
          return Some(L.Blocked);
        }
      }
      return None;
    }

    /** Unpack, provision, persist, mount, register, deploy, with the rollback of each. It
        succeeds exactly when every step is good, and then leaves what the manifest calls for. */
    method Finish(name: string, m: Manifest, plan: seq<PlanStep>, o: L.Outcome) returns (r: L.InstallResult)
      modifies this`rows, this`routes, this`ui, this`trees
      ensures (View(), r) == L.Complete(old(View()), name, m, plan, o)
      ensures r.Installed? <==> A.Completes(old(View()), name, m, o)
      ensures r.Installed? ==> A.Carries(old(View()), View(), name, m, o)
    {
      if !o.fetch {
        return L.Failed(L.Unavailable);
      }
      trees := trees - {name};
      if !o.unpack {
        return L.Failed(L.Unavailable);
      }
      if m.hasUI {
        trees := trees + {name};
      }
      if m.name != name || !o.needs || !o.persist || name in rows {
        trees := trees - {name};
        assert trees == old(trees) - {name};
        return L.Failed(if m.name != name then L.WrongManifest
                        else if !o.needs then L.NeedsFailed
                        else L.PersistFailed);
      }
      rows := rows[name := L.Row(m.version, m)];
      if m.routes != [] && o.mount {
        routes := routes[name := m.routes];
      }
      if m.hasUI {
        ui := ui + {name};
      }
      if !o.deploy {
        RollBack(name, o.unpersist, old(View()));
        assert routes == old(routes) - {name} && ui == old(ui) - {name} && trees == old(trees) - {name};
        return L.Failed(L.DeployFailed);
      }
      var deps := ReportedSteps(plan, name);
      assert m.hasUI ==> trees == old(trees) + {name};
      A.CompleteInstallsExactly(old(View()), name, m, plan, o);
      return L.Installed(deps);
    }

    /** What a failed deployment undoes. From any state reached by installing `name` on top of
        `before`, the name's traces go; if the row can be deleted, the rows are those of
        `before` again, and so are the live tables if they agreed with the rows then. */
    method RollBack(name: string, unpersist: bool, ghost before: L.State)
      requires name !in before.rows && name in rows && rows == before.rows[name := rows[name]]
      requires routes - {name} == before.routes - {name} && ui - {name} == before.ui - {name} && trees - {name} == before.trees - {name}
      modifies this`rows, this`routes, this`ui, this`trees
      ensures rows == (if unpersist then before.rows else old(rows))
      ensures routes == before.routes - {name} && ui == before.ui - {name} && trees == before.trees - {name}
      ensures unpersist && C.Live(before) ==> C.Live(View()) && rows == before.rows && routes == before.routes && ui == before.ui
    {
      routes := routes - {name};
      ui := ui - {name};
      if unpersist {
        rows := rows - {name};
      }
      trees := trees - {name};
    }

    method ReportedSteps(plan: seq<PlanStep>, name: string) returns (deps: seq<PlanStep>)
      ensures deps == L.OtherSteps(plan, name)
    {
      deps := [];
      for i := 0 to |plan|
        invariant deps == L.OtherSteps(plan[..i], name)
      {
        assert plan[..i + 1][..i] == plan[..i];
        if plan[i].name != name {
          deps := deps + [plan[i]];
        }
      }
      assert plan[..|plan|] == plan;
    }

    /** dependentsOf: every installed plugin other than `name` that needs it, each once. */
    method DependentsOf(name: string) returns (out: seq<string>)
      ensures Elems(out) == L.Dependents(rows, name) && Distinct(out)
    {
      out := [];
      var todo := rows.Keys;
      while todo != {}
        invariant todo <= rows.Keys
        invariant forall n :: n in out <==> n in L.Dependents(rows, name) && n !in todo
        invariant Distinct(out)
        decreases todo
      {
        var n :| n in todo;
        todo := todo - {n};
        if n != name {
          var deps := rows[n].manifest.deps;
          var i := 0;
          while i < |deps| && !(deps[i].source.Tier2? && deps[i].name == name)
            invariant 0 <= i <= |deps|
            invariant forall j | 0 <= j < i :: !(deps[j].source.Tier2? && deps[j].name == name)
          {
            i := i + 1;
          }
          assert i < |deps| <==> L.NeedsPlugin(rows[n].manifest, name);
          if i < |deps| {
            out := out + [n];
          }
        }
      }
    }

    /** Uninstall; the lock on `name` is taken and released around the whole call. It is
        refused for dependents exactly when the query shows some and force is off. */
    method Uninstall(name: string, force: bool, known: bool, deleted: bool) returns (r: L.UninstallResult)
      requires held == []
      modifies this
      ensures (View(), r) == L.Uninstall(old(View()), name, force, known, deleted)
      ensures r == L.HasDependents <==> name in old(rows) && known && !force && A.Needed(old(View()), name)
      ensures rows == if r == L.Removed then old(rows) - {name} else old(rows)
      ensures held == []
    {
      A.NeededMeansDependents(View(), name);
      if name !in rows {
        return L.NotFound;
      }
      if known {
        var dependents := DependentsOf(name);
        assert dependents == [] <==> L.Dependents(rows, name) == {} by {
          if dependents != [] {
            assert dependents[0] in Elems(dependents);
          }
        }
        if dependents != [] && !force {
          return L.HasDependents;
        }
      }
      routes := routes - {name};
      ui := ui - {name};
      trees := trees - {name};
      if !deleted {
        return L.DeleteFailed;
      }
      rows := rows - {name};
      return L.Removed;
    }

    /** RestoreAtStartup: re-mount and re-register, row by row. */
    method RestoreAtStartup()
      modifies this`routes, this`ui
      ensures View() == L.Restore(old(View()))
    {
      var todo := rows.Keys;
      while todo != {}
        invariant todo <= rows.Keys
        invariant routes == old(routes) + L.RoutesOf(rows - todo)
        invariant ui == old(ui) + (rows.Keys - todo) * trees
        decreases todo
      {
        var n :| n in todo;
        RestoreOne(old(routes), rows, todo, n);
        todo := todo - {n};
        if rows[n].manifest.routes != [] {
          routes := routes[n := rows[n].manifest.routes];
        }
        if n in trees {
          ui := ui + {n};
        }
      }
      assert rows - todo == rows;
      assert ui == old(ui) + rows.Keys * trees;
    }

    /** Any sequence of calls on the object is the run of the same operations, so closure
        holds throughout when the calls are guarded. */
    method Serve(ops: seq<C.Op>)
      requires held == []
      modifies this
      ensures held == [] && View() == C.Run(old(View()), ops)
      ensures C.Closed(old(rows)) && (forall i | 0 <= i < |ops| :: C.Guarded(ops[i])) ==> C.Closed(rows)
    {
      for i := 0 to |ops|
        invariant held == []
        invariant View() == C.Run(old(View()), ops[..i])
      {
        assert ops[..i + 1][..i] == ops[..i];
        match ops[i] {
          case OpInstall(reg, name, version, o) => var _ := Install(reg, name, version, o);
          case OpUninstall(name, force, known, deleted) => var _ := Uninstall(name, force, known, deleted);
        }
      }
      assert ops[..|ops|] == ops;
      if C.Closed(old(rows)) && forall i | 0 <= i < |ops| :: C.Guarded(ops[i]) {
        C.RunsStayClosed(old(View()), ops);
      }
    }
  }
}
