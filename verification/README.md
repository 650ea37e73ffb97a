# NovaNAS control plane: a verified model

This project models the parts of NovaNAS whose behaviour is hardest to see from the code,
and proves what holds of them on every input, every run and every interleaving. It has five
components.

* **Plugin engine** (`Strings`, `Semver`, `Resolver`, `Lifecycle`, `LifecycleAnswers`, `Closure`,
  `Satisfaction`, `PluginLimits`, `Concurrency`, `PluginManager`). The dependency resolver picks versions one
  constraint at a time; `Install` recurses through dependencies while holding name locks;
  `Uninstall` is guarded by dependents; `RestoreAtStartup` rebuilds the live tables.
* **Kerberos sync** (`Principals`, `Reconcile`, `Keycloak`). Which principals a user should
  have, which ones the loop takes for its own, one reconcile pass under any failures, many
  passes, and the paged user listing.
* **Job dispatch** (`JobQueue`, `Dispatcher`). Row insert, enqueue and commit as small steps,
  interleaved with other dispatchers, workers, cancellations, restarts and crashes.
* **Notification centre** (`NotifyBus`, `Aggregator`). Bounded lossy fan-out, and cursor
  polling of event sources.
* **CSI driver** (`VolumeId`, `Capacity`, `Controller`, `ControllerAnswers`, `ControllerRuns`,
  `CsiController`, `Node`). Volume identifiers, int64 capacities, the controller calls over the server's
  datasets and export files with the jobs behind them, and the node calls over a mount table.

Code that changes state is modelled twice: as a class whose methods follow the source's
statements and loops, and as a function on values that the method is proved equal to. The
results are lemmas about those functions and about runs of them. Code that only computes is a
function.

Outside effects are parameters: a registry, an outcome per fallible step, the replies of the
queue and the database, the failures of host commands. Every theorem is over all of them
unless its statement says otherwise.

## Reading guide

* A *version string* carries what the SemVer parser makes of it, and precedence is that of
  section 11 of Semantic Versioning 2.0.0, written out. A *constraint* is blank, malformed, or
  a group of clauses, each with the versions it admits and whether its own version is a
  pre-release. As in Masterminds/semver 3.5.0, which `go.mod` pins, a group considers
  pre-releases exactly when one of its clauses names one, and joining with a comma makes one
  group of several.
* `Resolver.Pick` is the batch choice, defined without an algorithm: no candidate ranks above
  it and of equals it is listed first. `PickHighestSatisfying` is the source's loop.
  `Settled` is where the incremental walk ends, in terms of two batch picks; constraints are
  *torn* when that is not the batch pick over all of them, which needs one that names a
  pre-release and one that does not.
* `Lifecycle.Install` takes an outcome per plugin name. Within one call a plugin's steps run
  at most once, so this covers every pattern of failures. It takes the chain of names already
  locked; asking for one of them again is the result `Blocked`, where the program would wait
  for ever. The set of registry names not yet locked shrinks with every nested call, which is
  why the recursion ends.
* In `JobQueue` a step that is not enabled changes nothing, so a run is any sequence of steps.
  The job id of a call is fresh, as a random UUID is taken to be.
* In `Controller` an export is one file per share name, the last segment of the volume, as the
  server keeps it. The share lookup reads the dataset and then the ACL at its path, so it finds
  filesystems only; a filesystem whose ACL cannot be read is a lookup that fails. A lookup, a
  request, each step of a job, its rollback and the wait for it can each fail; a lookup or
  destroy that finds nothing is reported as not found unless it fails. This repository's own
  handlers report a missing share as an error and a destroy of a missing dataset as a failed
  job: `OwnServer` is that behaviour, and the `OwnServer` lemmas say what follows.
* Many guarantees are false without a condition, and the condition is proved exact. A plan
  depends on the order of the list if and only if a name is declared both bundled and tier-2
  or its constraints are torn in some order (`OrderFreeExactly`). An install keeps closure, or
  accepted versions, exactly as `ClosureKeptExactly`, `CompleteClosedExactly` and
  `InstalledMeetsExactly` say. Two usernames can share a principal if and only if one goes
  beyond the other (`UsersCollideExactly`), and exactly which users' principals are recognised
  later is `ExpectedRecognisedExactly`. A job row can still finish if and only if it has a live
  task (`CanFinishExactly`). A subscriber loses nothing if and only if no publish finds 16
  events waiting (`LosslessExactly`). A retry of CreateVolume converges if and only if nothing
  was left half-made (`RetryConvergesExactly`), a delete undoes a create exactly as
  `DeleteUndoesCreateExactly` says, and the exported NFS path is the dataset's if and only if
  the pool is one segment (`ExportPathExactly`).

## Model

| member | source | states |
|---|---|---|
| Semver.PrecedenceOrder | internal/plugins/dependencies.go:363-377 | Version precedence is a total preorder: any two versions compare and both weak and strict comparison compose. |
| Semver.PrecedenceExactly | internal/plugins/dependencies.go:363-377 | A version compares below another if and only if section 11 of Semantic Versioning 2.0.0 puts it below: the first of major, minor and patch that differs is smaller, or all agree and it is a pre-release of the other's release, or its pre-release fields come first at the first field that differs or end first; two compare equal only if they are the same. |
| Resolver.JoinIsOneGroup | internal/plugins/dependencies.go:353-362 | Joining constraints with commas makes one group of clauses: every constraint must admit the version, a pre-release is considered exactly when some constraint of the group names one (or all are blank), and one malformed constraint spoils the whole. |
| Resolver.BestIsUnique | internal/plugins/dependencies.go:363-382 | At most one listed version is the highest satisfying one, ties going to the one listed first. |
| Resolver.PickHighestSatisfying | internal/plugins/dependencies.go:353-382 | The scanning loop returns exactly the batch choice over all constraints, an error when one is malformed, and another when nothing satisfies them. |
| Resolver.PickSucceedsExactly | internal/plugins/dependencies.go:363-382 | A pick fails exactly on a malformed constraint or when no listed version is selected, and what it returns is listed and selected. |
| Resolver.KeptPickIsBatchPick | internal/plugins/dependencies.go:287-298 | An earlier pick that satisfies the new constraint stays selectable, and is the batch pick over old and new if and only if the old ones already considered pre-releases or the batch pick is a release. |
| Resolver.PickSurvivesRelaxing | internal/plugins/dependencies.go:353-382 | If a pick over more constraints succeeds, one over fewer does exactly when they consider pre-releases or a listed release meets them. |
| Resolver.PickIgnoresOrder | internal/plugins/dependencies.go:353-382 | The pick depends only on which constraints are listed. |
| Resolver.PickIgnoresBlanks | internal/plugins/dependencies.go:393-401 | Filtering out blank constraints changes no pick. |
| Resolver.SettledExtends | internal/plugins/dependencies.go:251-298 | Keeping a step that fits the next constraint and narrowing any other ends, after the whole list, at a choice given by two batch picks: the one over the constraints before the first that names a pre-release if all accept it, else the one over all. |
| Resolver.SettledIsBatchExactly | internal/plugins/dependencies.go:287-308 | That choice is the batch pick over all constraints if and only if the batch pick is a release, or the constraints before the first naming a pre-release are blank, or their pick exists and another constraint rejects it. |
| Resolver.SettledAcceptedExactly | internal/plugins/dependencies.go:287-308 | The choice is accepted by each constraint on its own exactly when it is a release or all non-blank constraints name a pre-release. |
| Resolver.UntornInEveryOrder | internal/plugins/dependencies.go:251-308 | If the constraints that name no pre-release, taken first, lead to the batch pick, every order does. |
| Resolver.AgreementExactly | internal/plugins/dependencies.go:353-382 | Over every marketplace, constraints lead to their batch pick in every order if and only if the non-blank ones agree on naming a pre-release or no pre-release meets them all. |
| Resolver.WalkDepDescribed | internal/plugins/dependencies.go:230-320 | One turn of the walk succeeds exactly when the dependency can be planned against all constraints declared so far, and keeps every recorded step equal to what the list seen so far calls for. |
| Resolver.WalkDescribed | internal/plugins/dependencies.go:220-322 | The walk succeeds exactly on lists in which every dependency is plannable against all constraints declared for its name, and its result is the one the whole list calls for. |
| Resolver.PlanIsSettled | internal/plugins/dependencies.go:101-140 | Plan succeeds exactly on plannable lists and lists one step per declared name in order of first declaration, each the installed version, a bundled note, or the settled choice over every declared constraint (which the reported constraint selects too), with the root last. |
| Resolver.PlanFollowsList | internal/plugins/dependencies.go:110-140 | Of any two dependency steps of a plan, the name of the earlier one is declared before the name of the later one is declared at all. |
| Resolver.PlanNotesFirst | internal/plugins/dependencies.go:231-273 | A bundled or skipped step reports exactly the constraint its name is first declared with. |
| Resolver.PlanRefusesExactly | internal/plugins/dependencies.go:220-322 | Plan fails with the error of the first dependency in the list that can not be planned, and only then: an unknown source, the root's own name, a failed lookup, an installed version the constraint rejects, a name the marketplace does not have, a malformed constraint, or nothing that satisfies all constraints so far. |
| Resolver.FilterBlankInOrder | internal/plugins/dependencies.go:393-401 | The constraints reported are exactly the non-blank ones, in order. |
| Resolver.PlanIsBatchExactly | internal/plugins/dependencies.go:101-140 | An install step carries the batch pick over its declared constraints if and only if they are not torn by a pre-release in the order given. |
| Resolver.EveryOrderPlansExactly | internal/plugins/dependencies.go:220-322 | A manifest that plans does so under every permutation of its list if and only if, for each name the marketplace decides, the constraints naming no pre-release have a pick among themselves. |
| Resolver.OrderIrrelevant | internal/plugins/dependencies.go:220-322 | In an unmixed list whose constraints are not order-sensitive, the action and version of every name are the same for every order. |
| Resolver.OrderFreeExactly | internal/plugins/dependencies.go:231-308 | For a successful plan, invariance under all permutations holds if and only if no name is declared both bundled and tier-2 and no name has constraints whose order tells. |
| Resolver.MixedDependsOnOrder | internal/plugins/dependencies.go:231-243 | With a mixed declaration some permutation changes that name's action. |
| Resolver.TornDependsOnOrder | internal/plugins/dependencies.go:251-308 | With constraints whose order tells, some permutation changes the version or refuses the plan. |
| Resolver.ResolveState.constructor | internal/plugins/dependencies.go:114-120 | A walk starts with nothing recorded and nothing being visited. |
| Resolver.ResolveState.WalkManifest | internal/plugins/dependencies.go:220-322 | The walk refuses a depth above the cap and a name being visited, and otherwise leaves exactly the fold of the loop body over the list, or its first error. |
| Resolver.ResolveState.WalkOne | internal/plugins/dependencies.go:230-308 | The loop body in place: bundled, unknown source, self-reference, installed, and marketplace branches. |
| Resolver.ResolveState.WalkPresent | internal/plugins/dependencies.go:253-277 | Step 1 of the loop body: an installed plugin is skipped or refused as in the walk. |
| Resolver.ResolveState.RecordPick | internal/plugins/dependencies.go:292-308 | Step 3 of the loop body: a pick is recorded, or narrows a recorded one its constraint rejects, as in the walk. |
| Resolver.ComputePlan | internal/plugins/dependencies.go:110-140 | Running the resolver yields exactly the plan, for any depth cap. |
| Lifecycle.Find | internal/plugins/marketplace.go:106-132 | The empty version finds the release listed first, any other the first entry with exactly that version string, and nothing is found exactly when there is none. |
| Lifecycle.InstallGrows | internal/plugins/lifecycle.go:202-335 | Install only adds rows, each from the registry and never under a name its chain has locked, whatever fails; success adds the row of the requested release. |
| Lifecycle.StepsGrow | internal/plugins/lifecycle.go:239-260 | The dependency loop only adds rows, and if it runs to its end every install step is present. |
| LifecycleAnswers.CompleteInstallsExactly | internal/plugins/lifecycle.go:262-334 | After the dependencies an install succeeds if and only if every step is good, the manifest bears the name and no row is in the way; success leaves exactly the row, the routes the router takes, and the UI registration and tree if there is a UI. |
| LifecycleAnswers.CompleteFailsExactly | internal/plugins/lifecycle.go:262-334 | The first step that is not good names the reason. |
| LifecycleAnswers.CompleteFailureLeaves | internal/plugins/lifecycle.go:262-334 | What a failure after the dependencies leaves: no row unless a failed deployment could not delete it, no route or UI of the name after a failed deployment and all of them untouched after any other failure, no tree once the unpack began, and nothing of any other name touched. |
| LifecycleAnswers.ReportsOtherSteps | internal/plugins/lifecycle.go:323-334 | The dependencies reported are exactly the plan steps not named like the plugin, in plan order. |
| LifecycleAnswers.InstallSucceedsExactly | internal/plugins/lifecycle.go:215-335 | Install succeeds if and only if the name is given, not locked by its own chain and not installed, its release is found, its plan exists, the loop over the plan ends, and every later step is good. |
| LifecycleAnswers.InstallLeaves | internal/plugins/lifecycle.go:262-335 | A successful install reports exactly the plan steps not named like the plugin, in order, and leaves on top of what the dependency loop left exactly the row, routes, UI registration and tree its manifest calls for. |
| LifecycleAnswers.InstallRefusesExactly | internal/plugins/lifecycle.go:215-237 | Exactly when each early refusal is given, and that nothing changes then. |
| LifecycleAnswers.UninstallAnswersExactly | internal/plugins/lifecycle.go:342-399 | Refused for dependents if and only if the query shows an installed plugin that needs the name and force is off; otherwise an installed plugin loses routes, UI and tree, and its row if the delete works; nothing else is touched. |
| LifecycleAnswers.RestoreExactly | internal/plugins/lifecycle.go:546-578 | Restore mounts the routes of every row that has some, registers every row whose tree is there, and leaves the rest as it was. |
| Closure.PlannedDepPresent | internal/plugins/lifecycle.go:239-260 | After the loop every tier-2 dependency not first declared bundled is installed. |
| Closure.InstallKeepsClosed | internal/plugins/lifecycle.go:215-335 | Install keeps the set of installed plugins closed under tier-2 dependencies, at whatever step it fails. |
| Closure.CompleteClosedExactly | internal/plugins/lifecycle.go:262-334 | Finishing an install keeps closure if and only if every tier-2 dependency is in the rows at the persist. |
| Closure.UninstallKeepsClosed | internal/plugins/lifecycle.go:342-399 | An unforced uninstall whose dependents query succeeds keeps it closed. |
| Closure.RunsStayClosed | internal/plugins/lifecycle.go:215-399 | Closure holds after every run of installs and guarded uninstalls, over registries that may change between calls. |
| Satisfaction.InstallAddsPicks | internal/plugins/lifecycle.go:239-260 | Everything an install adds besides the plugin itself is at a version some listed manifest picks. |
| Satisfaction.InstallKeepsMeets | internal/plugins/lifecycle.go:215-335 | Where listed manifests accept one another's picks, install keeps every dependency at a version its constraint accepts, at whatever step it fails. |
| Satisfaction.CompatibleRunsMeet | internal/plugins/lifecycle.go:215-399 | Over such registries, possibly different for every call, every run leaves every dependency at an accepted version. |
| Satisfaction.SingleVersionCompatible | internal/plugins/lifecycle.go:215-335 | A registry with one version per plugin, whose constraints agree where that is a pre-release, is of that kind. |
| Satisfaction.StepFitsExactly | internal/plugins/lifecycle.go:246-260 | A step found in place fits if its version is accepted; a pulled one fits unless it is a pre-release some constraint does not consider. |
| Satisfaction.InstalledMeetsExactly | internal/plugins/lifecycle.go:239-260 | After a successful install every dependency not first declared bundled is at an accepted version if and only if every install step fits when the loop reaches it. |
| Closure.PulledStepIsEdge | internal/plugins/lifecycle.go:239-249 | A nested install goes along an edge of the dependency graph. |
| Closure.BlockedMeansCyclic | internal/plugins/lifecycle.go:160-169 | A call that waits for a lock of its own chain exhibits a dependency cycle. |
| Closure.AcyclicNeverBlocks | internal/plugins/lifecycle.go:222-260 | On an acyclic registry no call waits for its own lock. |
| Closure.InstallKeepsLive | internal/plugins/lifecycle.go:294-322 | With a working store and router, install (deploy rollback included) keeps routes, UI registrations and on-disk trees equal to what the rows call for. |
| Closure.UninstallKeepsLive | internal/plugins/lifecycle.go:363-398 | So does uninstall, forced or not. |
| Closure.RunsStayLive | internal/plugins/lifecycle.go:215-399 | The live tables follow the rows through every run, and restoring from empty tables rebuilds exactly them. |
| Closure.RestoreRebuilds | internal/plugins/lifecycle.go:542-578 | Restore from empty tables gives back the live state. |
| PluginLimits.InstalledDepsExactly | internal/plugins/dependencies.go:231-243 | After a successful install all tier-2 dependencies are present exactly when those first declared bundled are. |
| PluginLimits.ClosureKeptExactly | internal/plugins/dependencies.go:231-243 | Where the plan pulls nothing, a successful install keeps closure if and only if every tier-2 dependency first declared bundled was installed before the call. |
| PluginLimits.FailedInstallLeavesNoRow | internal/plugins/lifecycle.go:281-322 | A failed install leaves the plugin's row exactly where it was there before or a failed deployment could not delete it. |
| PluginLimits.InstallAvoidsKnot | internal/plugins/lifecycle.go:215-335 | Install never adds a plugin of a group that need one another in a circle. |
| PluginLimits.KnotNeverInstalls | internal/plugins/lifecycle.go:215-399 | No run ever installs a plugin of such a group. |
| PluginLimits.MixedBreaksClosure | internal/plugins/dependencies.go:231-243 | A concrete registry with a mixed declaration installs a plugin without its dependency. |
| PluginLimits.CycleBlocks | internal/plugins/lifecycle.go:222-249 | Two plugins needing each other: the install blocks on its own lock. |
| PluginLimits.SiblingPullsWrongVersion | internal/plugins/lifecycle.go:246-248 | With several versions listed, a dependency pulled in through a sibling is accepted at a version the plugin's own constraint rejects. |
| PluginLimits.KeptPickMissesPreRelease | internal/plugins/dependencies.go:287-298 | "<2.0.0" then ">=1.0.0-alpha" plans 1.4.0, the other order 1.5.0-beta.1, which is what both together select. |
| PluginLimits.OrderDecidesSuccess | internal/plugins/dependencies.go:353-382 | With only 1.5.0-beta.1 listed, one order refuses the plan and the other plans a version "<2.0.0" rejects. |
| PluginLimits.PreReleaseInstalledUnaccepted | internal/plugins/lifecycle.go:215-335 | Even with one version per plugin, an install can leave a dependency at a pre-release a declared constraint rejects. |
| Concurrency.NestedCallFollows | internal/plugins/lifecycle.go:222-249 | The names a call chain has locked and the one it asks for next follow the dependency graph. |
| Concurrency.DeadlockMeansCyclic | internal/plugins/lifecycle.go:84-110 | Any group of concurrent installs that wait for one another shows a dependency cycle. |
| Concurrency.LockRunsKeep | internal/plugins/lifecycle.go:160-169 | In every reachable state of any number of calls starting, taking, descending and releasing, each lock has one holder and every call's locks follow the dependency graph. |
| Concurrency.ReachableDeadlockMeansCyclic | internal/plugins/lifecycle.go:160-249 | In every reachable state a group of calls that wait for one another shows a dependency cycle. |
| Concurrency.NeverAtAStandstill | internal/plugins/lifecycle.go:160-249 | On an acyclic registry, whenever calls wait, one waits for a lock that is free or held by a call that is not waiting. |
| Concurrency.RacingUninstallBreaksClosure | internal/plugins/lifecycle.go:342-399 | An unforced uninstall between another plugin's plan and its persist removes the dependency: the name locks do not protect closure. |
| Concurrency.RaceKeepsClosureExactly | internal/plugins/lifecycle.go:342-399 | An unforced uninstall between another plugin's plan and its persist keeps closure if and only if that plugin does not need what was removed. |
| PluginManager.Manager.constructor | internal/plugins/lifecycle.go:142-158 | A manager starts with no rows, tables or held locks. |
| PluginManager.Manager.Install | internal/plugins/lifecycle.go:215-335 | Install in place leaves the state and result of the install function, whose answers `InstallSucceedsExactly` and `InstallRefusesExactly` give, and releases its lock; it terminates on every registry. |
| PluginManager.Manager.InstallDependencies | internal/plugins/lifecycle.go:239-260 | The loop over the plan in place. |
| PluginManager.Manager.Finish | internal/plugins/lifecycle.go:262-334 | Unpack, provision, persist, mount, register, deploy and their rollbacks in place: succeeds if and only if every step is good, and then leaves the row, routes, UI registration and tree the manifest calls for. |
| PluginManager.Manager.RollBack | internal/plugins/lifecycle.go:307-321 | From any state reached by installing a plugin on top of an earlier one: the rows are the earlier ones again if the delete works, and if the live tables agreed with the rows then, they are those tables and agree again. |
| PluginManager.Manager.DependentsOf | internal/plugins/lifecycle.go:768-793 | Lists each installed plugin, other than the one asked about, that declares it as a tier-2 dependency, once. |
| PluginManager.Manager.Uninstall | internal/plugins/lifecycle.go:342-399 | Uninstall in place: refused for dependents if and only if some installed plugin needs the name, the query shows it and force is off; the row goes exactly when it reports removal. |
| PluginManager.Manager.RestoreAtStartup | internal/plugins/lifecycle.go:546-578 | The restore loop, in any row order, leaves exactly the restored state. |
| PluginManager.Manager.Serve | internal/plugins/lifecycle.go:215-399 | Any sequence of calls on the object is the run of those operations, and keeps closure when they are guarded. |
| Principals.PlatformNFSEnabled | internal/krb5sync/keycloak.go:39-49 | True exactly when some trimmed value of the flag is "true" in any case. |
| Strings.TrimExactly | internal/krb5sync/sync.go:57-84 | Trimming takes white space off both ends and nothing else, and leaves none there. |
| Principals.ExpectedPrincipals | internal/krb5sync/sync.go:47-84 | Returns the one strictly sorted listing of the principals the user should have. |
| Principals.ExpectedExactly | internal/krb5sync/sync.go:57-84 | A name is expected if and only if the user is enabled with a username that is not blank, and it is username, slash, trimmed non-blank tenant, at, realm, or without any tenant entry and with the platform flag set it is username, at, realm. |
| Principals.ExpectedDependsOnTenantSet | internal/krb5sync/sync.go:68-83 | Only the set of trimmed non-empty tenants matters. |
| Principals.ExpectedDisjoint | internal/krb5sync/sync.go:57-84 | Users with different usernames, neither of which is the other followed by a slash and something that does not start with white space, share no principal, whatever their tenants. |
| Principals.UsersCollideExactly | internal/krb5sync/sync.go:57-84 | Of two different usernames, some users bearing them share a principal if and only if one goes beyond the other in that way. |
| Principals.SlashedUsernamesCollide | internal/krb5sync/sync.go:64-75 | User "a" of tenant "b" and user "a/b" with platform NFS expect the same single principal. |
| Principals.IsServicePrincipal | internal/krb5sync/sync.go:28-45 | True exactly for names under one of the five service prefixes. |
| Principals.ServiceTenantNames | internal/krb5sync/sync.go:28-45 | A tenant principal of a slash-free username is a service name exactly for the reserved usernames (and K with a tenant starting with M). |
| Principals.ServiceBareNames | internal/krb5sync/sync.go:28-45 | A bare principal is a service name exactly when the username is under a service prefix, which a slash-free one never is. |
| Principals.TenantNameRecognised | internal/krb5sync/sync.go:86-108 | A tenant principal is recognised exactly when neither username nor tenant holds a slash and the name is not reserved. |
| Principals.BareNameRecognised | internal/krb5sync/sync.go:86-108 | A bare principal is recognised exactly when the username holds at most one slash and is under no service prefix. |
| Principals.ExpectedRecognisedExactly | internal/krb5sync/sync.go:57-108 | For every user, all expected principals are ones the loop can later delete if and only if, with tenants, neither username nor tenants hold a slash or make a service name, and without, the username has at most one slash and no service prefix. |
| Reconcile.PassConserves | internal/krb5sync/sync.go:178-221 | After a pass the drift is exactly the failed calls that had no effect, and it fell by exactly the rest, whatever failed and whichever failing calls took effect all the same. |
| Reconcile.PassSparesForeign | internal/krb5sync/sync.go:199-211 | No service or other-realm principal is ever deleted. |
| Reconcile.CleanPassConverges | internal/krb5sync/sync.go:178-221 | A pass without failures lands on (KDC minus stale names) plus desired, and any further pass changes nothing. |
| Reconcile.DriftIsWhatAlwaysFailed | internal/krb5sync/sync.go:144-221 | After any number of passes a name drifts exactly when it drifted at the start and its call failed without effect every time. |
| Reconcile.UnrecognisedIsNeverDeleted | internal/krb5sync/sync.go:199-211 | A name the loop does not recognise survives every pass, whatever becomes desired. |
| Reconcile.MemState.SetUserPrincipals | internal/krb5sync/state.go:140-156 | A user has a record exactly when there is something to record, with the same names and repeats, sorted; all other records stay, and every record stays non-empty and sorted. |
| Reconcile.MemState.AllPrincipals | internal/krb5sync/state.go:182-199 | Returns the strictly sorted listing of the union of all records. |
| Reconcile.Reconciler.constructor | internal/krb5sync/sync.go:132-142 | A blank realm becomes NOVANAS.LOCAL. |
| Reconcile.LastWithExactly | internal/krb5sync/sync.go:159-171 | The user recorded under an id is the last listed one with that id who should have a principal; there is none if and only if no listed user is such. |
| Reconcile.Reconciler.ReconcileOnce | internal/krb5sync/sync.go:149-242 | One pass in place: the KDC afterwards, the sorted created and deleted names, the error counts, the drift equations (errors are the drift left plus the calls that took effect unreported), and for every user id, in terms of the listing, what is recorded: the names of the last listed user with that id who has some; for an id listed only without names the old record; for an unlisted id nothing; the empty id keeps its record. |
| Reconcile.Reconciler.DesiredOf | internal/krb5sync/sync.go:159-171 | Builds the desired set and, per id, the listing of the last user with that id that has one; an id is in the table if and only if some listed user with it has a name. |
| Reconcile.Reconciler.Converge | internal/krb5sync/sync.go:178-221 | The create and delete calls of a pass leave exactly the KDC of the pass, with the sorted listings and counts of what was reported done. |
| Reconcile.Reconciler.CreateAll | internal/krb5sync/sync.go:180-197 | Creates every name whose call takes effect, listing in order those reported done and counting the rest. |
| Reconcile.Reconciler.DeleteAll | internal/krb5sync/sync.go:212-221 | Deletes every name whose call takes effect, listing in order those reported done and counting the rest. |
| Reconcile.Reconciler.UpdateState | internal/krb5sync/sync.go:223-236 | Records the new listings and drops unlisted ids. |
| Keycloak.ListUsers | internal/krb5sync/keycloak.go:168-203 | Against a stable server of n users: n/100 + 1 requests return the whole list in order, and the call fails exactly when one of those requests does. |
| Keycloak.Sync | internal/krb5sync/sync.go:149-157 | A failed listing changes nothing; a pass never deletes an expected principal of a user the server holds. |
| Keycloak.TruncatedListDeletes | internal/krb5sync/sync.go:199-221 | A pass over a list missing a user deletes that user's recognised principals. |
| JobQueue.LogAppend | internal/jobs/dispatcher.go:60-127 | How one more event changes the history of stores, removals and commits. |
| JobQueue.StepKeeps | internal/jobs/dispatcher.go:76-127 | Every step of dispatchers, workers, cancels, restarts and crashes keeps the invariant. |
| JobQueue.RowAppearsExactly | internal/jobs/dispatcher.go:122-126 | A row appears in exactly one kind of step, a commit that is not refused after the enqueue, and it appears queued. |
| JobQueue.RowMovesExactly | internal/store/queries/jobs.sql:15-43 | Which step moves a row from which state to which: running from queued or interrupted, succeeded or failed from running as the work went, cancelled from queued or running, interrupted from queued or running at restart, and no other move. |
| JobQueue.TasksMoveExactly | internal/jobs/dispatcher.go:109-121 | What each step does to the queue: one pending task appended by an enqueue that takes effect, one task moved along its phases by a worker step, one removed by an acknowledgement or purge, all else unchanged. |
| JobQueue.CallMovesExactly | internal/jobs/dispatcher.go:76-127 | How each step moves a dispatch call, with each ending given exactly when it occurs. |
| JobQueue.RunsKeep | internal/jobs/dispatcher.go:60-127 | The invariant holds in every reachable state. |
| JobQueue.DispatchIsSafe | internal/jobs/dispatcher.go:60-127 | In every reachable state: a committed row's task was stored first; a duplicate, early or refused dispatch, or a crash before the enqueue, leaves neither row nor task; success leaves a row; a task without a row belongs to a call before its commit or ended by a lost reply, a refused commit or a crash. |
| JobQueue.UniqueKeysExclude | internal/jobs/dispatcher.go:109-121 | At most one retained task holds an id; stores and removals of an id alternate; a duplicate is reported exactly when the id is retained. |
| JobQueue.RetainedKeyRefuses | internal/jobs/dispatcher.go:115-121 | While a key is retained, every dispatch with it that reaches its enqueue ends without row or task. |
| JobQueue.RowsPersist | internal/store/queries/jobs.sql:15-43 | Rows never disappear and a terminal row never changes, so a finish after a cancel is dropped. |
| JobQueue.StrandedForEver | internal/jobs/worker.go:208-238 | An unfinished row that is cancelled or has no live task stays so through every run: it is never marked running and never succeeds or errors, though a cancel or restart may rename it. |
| JobQueue.CanFinishExactly | internal/jobs/worker.go:208-238 | An unfinished row can still be brought to success or error by some run if and only if it is not cancelled and a task of its job is waiting or running. |
| JobQueue.CommitStrandsExactly | internal/jobs/dispatcher.go:109-126 | A commit strands its own row if and only if a worker has by then finished with the task. |
| JobQueue.WorkerMayOvertakeCommit | internal/jobs/dispatcher.go:109-126 | A worker can finish before the commit; the committed row is then never run, whatever happens next. |
| Dispatcher.DispatchRun | internal/jobs/dispatcher.go:76-127 | An undisturbed call is the protocol run of its script. |
| Dispatcher.DispatchedExactly | internal/jobs/dispatcher.go:76-127 | An undisturbed call is accepted if and only if every step works and no task is retained under its id, is a duplicate if and only if one is, and leaves a task and a queued row exactly when its enqueue and its commit took effect. |
| Dispatcher.Backend.Dispatch | internal/jobs/dispatcher.go:76-127 | Dispatch in place: a job id if and only if every step works and no task is retained under the key, ErrDuplicate if and only if one is, the tasks and rows afterwards spelled out for every outcome, and the counter moved only on acceptance. |
| Dispatcher.Backend.EnqueueTask | internal/jobs/dispatcher.go:109-121 | The enqueue with its conflict check in place. |
| Dispatcher.Backend.CommitRow | internal/jobs/dispatcher.go:122-126 | Success means the row is there and queued; failure changes no row unless only the reply was lost; the protocol invariant is kept, and the row is stranded exactly when no live task is left. |
| Dispatcher.Worker.Handle | internal/jobs/worker.go:66-90 | The shape every handler has, inside the metrics middleware, is the protocol run of its script: its task is archived if it failed and is kept, else gone, every other task is as it was, and the in-flight gauge returns to where it was. |
| Dispatcher.HandlerMovesRow | internal/jobs/worker.go:208-250 | A handler creates no row and touches no other; its own becomes running if the mark lands on a queued or interrupted row, and then succeeded or failed as the work went if the finish is written. |
| Dispatcher.HandlerStrandsExactly | internal/jobs/worker.go:208-250 | An undisturbed handler leaves an unfinished row stranded if and only if its body does not decode, its finish is not written, or its mark was needed and did not land. |
| Dispatcher.KeysSeparate | internal/jobs/scrub_task.go:26-39 | Scrub dispatches collide exactly on the pool, whatever the action or requester, replications exactly on the job, the two never, and all are keyed. |
| Dispatcher.OneInFlightPerKey | internal/jobs/replication_task.go:38-58 | Of any number of dispatches under one key at most one has its task in the queue. |
| Dispatcher.ScrubKeyMeetsPoolKey | internal/api/handlers/pools_lifecycle.go:40-47 | A scrub key equals another pool operation's key exactly for the pool named with ":scrub" appended. |
| NotifyBus.ExecKeeps | internal/notifycenter/sse.go:31-63 | Every operation keeps received plus buffered equal to what was kept of what was offered. |
| NotifyBus.DeliveryIsInOrder | internal/notifycenter/sse.go:26-63 | After every run, received followed by buffer is an in-order subsequence of what was published while subscribed; received, buffered and shed add up; the buffer holds at most 16. |
| NotifyBus.ReceivedIsReturned | internal/notifycenter/sse.go:31-63 | Over any run, what a subscriber has received is exactly what its receives returned, one by one: each the oldest event then waiting, and nothing where none was. |
| NotifyBus.LosslessExactly | internal/notifycenter/sse.go:51-63 | Nothing is lost if and only if no publish finds 16 events waiting. |
| NotifyBus.ClosedIsSealed | internal/notifycenter/sse.go:41-48 | A closed channel is never sent to or reopened; its contents only move from buffered to received. |
| NotifyBus.Bus.Subscribe | internal/notifycenter/sse.go:34-40 | The id is one no subscriber has or had, the channel starts empty and is offered exactly what is published from then on, the others notice nothing, and the delivery invariant is kept. |
| NotifyBus.Bus.Cleanup | internal/notifycenter/sse.go:41-48 | Moves the channel, with what it still holds, from the table to the closed ones; a second call does nothing. |
| NotifyBus.Bus.Broadcast | internal/notifycenter/sse.go:53-63 | Every current subscriber with fewer than 16 events waiting gets the event last, a full one and every closed one nothing, in any order of the table. |
| NotifyBus.Bus.Drain | internal/notifycenter/sse.go:31-40 | A receive returns the oldest waiting event and takes that one away, or nothing if none waits; no other channel is touched. |
| Aggregator.PollLoop | internal/notifycenter/aggregator.go:134-162 | Hands over exactly the items later than the cursor, in order, and returns the newest stamp seen. |
| Aggregator.FreshInOrder | internal/notifycenter/aggregator.go:134-162 | The items handed over are exactly the listed ones later than the cursor, in the order listed. |
| Aggregator.HandedOnce | internal/notifycenter/aggregator.go:115-252 | Over any polls the cursor never goes back and nothing is handed over twice. |
| Aggregator.PassedIsLost | internal/notifycenter/aggregator.go:166-185 | An item the cursor has passed is never handed over later; so what a limited query leaves out is lost. |
| Aggregator.HandedExactly | internal/notifycenter/aggregator.go:134-162 | Once a poll succeeds after an item appeared, it has been handed over if and only if it was later than the cursor when it appeared. |
| Aggregator.CompleteWhenInOrder | internal/notifycenter/aggregator.go:134-162 | If items appear in stamp order, after a successful poll exactly the visible items later than the start have been handed over, however many polls failed. |
| Aggregator.TiesAreLost | internal/notifycenter/aggregator.go:134-141 | In any history, an item that appears after another with an equal or later stamp was visible to a successful poll is never handed over. |
| Aggregator.Sources.constructor | internal/notifycenter/aggregator.go:46-70 | Every cursor starts at the current time. |
| Aggregator.Sources.PollSource | internal/notifycenter/aggregator.go:166-205 | One source's poll in place; a failed poll changes nothing and no other source is touched. |
| Aggregator.Sources.Tick | internal/notifycenter/aggregator.go:89-103 | A failing source does not silence the others. |
| VolumeId.ParseEncodeExactly | internal/csi/volume_id.go:27-55 | Parsing undoes encoding if and only if the parent has no empty segment and the leaf is one non-empty segment. |
| VolumeId.EncodeParse | internal/csi/volume_id.go:27-55 | Encoding undoes parsing, and pool and leaf are single non-empty segments. |
| VolumeId.ParseRefusesExactly | internal/csi/volume_id.go:36-55 | Why an id is refused, read off its text: it is empty; it has no slash; or it starts or ends with one or has two in a row. Every other id parses. |
| VolumeId.DevicePathsApart | internal/csi/volume_id.go:78-83 | Different volumes have different device paths. |
| Controller.CapacityServesRange | internal/csi/controller.go:564-585 | A required size is met, exactly by a zvol and within a MiB by a filesystem, up to the overflow; a limit given alone is kept if and only if the volume is a zvol, the limit is a multiple of a MiB, or rounding overflows. |
| Controller.CapacityPositiveExactly | internal/csi/controller.go:131-135 | The capacity used is positive if and only if the volume is a zvol or the request is at most 2^63 - 2^20. |
| Capacity.RoundUpExactly | internal/csi/controller.go:577-585 | Up to 2^63 - 2^20 rounding gives the next MiB multiple; beyond, it overflows to -2^63. |
| Capacity.RoundUpIsLeast | internal/csi/controller.go:577-585 | It is the least such multiple. |
| Capacity.RoundUpIdempotentMonotone | internal/csi/controller.go:577-585 | Rounding is idempotent and monotone. |
| Controller.Classify | internal/csi/controller.go:76-111 | The loop accepts exactly non-empty lists of one access type, with NFS only for mounts. |
| ControllerAnswers.TargetExactly | internal/csi/controller.go:114-135 | A request is understood if and only if it has a name, capabilities of one access type that suits the protocol, and a pool in the parameters or the configuration; its volume is the parent parameter, else the configured parent, else "csi" in the pool parameter or, only without one, the default pool; then a slash and the name. Every other request is an invalid argument. |
| ControllerAnswers.CapacityDefault | internal/csi/controller.go:564-575 | Without a positive size the capacity is 1 GiB. |
| ControllerAnswers.ShareNamesByLetter | internal/host/protocolshare/protocolshare.go:195-213 | Exactly which letters a share name can start and go on with, that it ends at 64 of them, and that every name of the form "pvc-" and a UUID is one. |
| ControllerAnswers.AcceptedVolume | internal/csi/controller.go:201-288 | The volume returned for an accepted request: its id and capacity, and the context with its kind, filesystem type, server and mount options. |
| ControllerAnswers.ExistingAcceptedExactly | internal/csi/controller.go:587-597 | An existing dataset is accepted if and only if it has the type asked for and its size (volume size of a zvol, quota of a filesystem) is unset or the one asked for; otherwise the answer is AlreadyExists. Nothing changes. |
| ControllerAnswers.NewAcceptedExactly | internal/csi/controller.go:165-199 | A new volume is accepted if and only if nothing fails, and its dataset is there if and only if lookup, request and dataset step work. |
| ControllerAnswers.NfsAcceptedExactly | internal/csi/controller.go:225-265 | An NFS request is accepted if and only if the volume lies inside the pool, the lookup works on a valid share name, and either a filesystem is there or nothing fails and no export has the name; outside the pool it is an invalid argument. |
| ControllerAnswers.NewDatasetExactly | internal/csi/controller.go:144-192 | What a new dataset is made with: type, size, compression as asked or lz4, and record size or block size exactly when asked. |
| Controller.CreateIsIdempotent | internal/csi/controller.go:165-199 | Repeating an accepted request returns the same volume and leaves the store alone. |
| Controller.RetryConvergesExactly | internal/csi/controller.go:114-265 | After an attempt that failed anywhere, a clean retry gives the store and answer of a clean first attempt if and only if the attempt did not leave a new NFS volume's dataset or export without the other. |
| Controller.UnloadedExportBlocks | internal/host/nfs/nfs.go:347-369 | An export file written but not loaded stays while its dataset is destroyed, and every later attempt is refused. |
| Controller.CreateKeepsStoreOkExactly | internal/csi/controller.go:225-265 | Create keeps every export on its own existing dataset if and only if it does not end with an export written but not loaded and its dataset destroyed. |
| Controller.AcceptedCreate | internal/csi/controller.go:182-265 | An accepted request names its volume, whose dataset is then there; a new one is mounted at its own name, and nothing else changed but, for a new NFS volume, the export of a name that had none. |
| Controller.DeleteUndoesCreateExactly | internal/csi/controller.go:326-368 | Deleting a freshly created volume, whether or not the share lookup fails, restores the store if and only if: the lookup finds it and its last segment named no export before; or the lookup does not find it, as for a zvol, and it is no NFS volume. |
| Controller.DeleteIsIdempotentExactly | internal/csi/controller.go:357-368 | After a successful delete any further one, whatever fails in it, changes nothing, and succeeds if and only if its request to destroy is not refused. |
| Controller.DeleteLeavesExactly | internal/csi/controller.go:337-357 | A successful delete removes the dataset; the export of its last segment, whoever made it, goes exactly when the share lookup found a filesystem; what is left is sound exactly unless the volume's own export stays. |
| ControllerAnswers.DeleteAnswersExactly | internal/csi/controller.go:332-368 | A delete succeeds if and only if the id parses, the request is not refused and, of dataset and export that are there to remove, nothing fails; the id is refused as invalid if and only if it does not parse. |
| ControllerAnswers.DeleteRemovesExactly | internal/csi/controller.go:332-368 | For every pattern of failures, which dataset and which export are gone after a delete, success or not. |
| ControllerAnswers.ExpandAnswersExactly | internal/csi/controller.go:371-421 | When an expansion succeeds, is not found or is refused; the node has to grow the filesystem if and only if the volume is a zvol asked for as a mount; only the one size changes. |
| Controller.ExpandMatchesCreate | internal/csi/controller.go:371-421 | Expanding sets the size a create with the same range would set. |
| Controller.ExportPathExactly | internal/csi/controller.go:270-304 | The exported path is the dataset's mountpoint if and only if the pool is one segment. |
| ControllerRuns.Elsewhere | internal/csi/controller.go:114-421 | A call about another volume leaves this one's dataset and export alone unless it is an NFS create or a delete of one with the same last segment. |
| ControllerRuns.Local | internal/csi/controller.go:114-421 | What a call does to its volume and answers depends only on that volume's dataset and the export of its last segment. |
| ControllerRuns.VolumesAreIndependent | internal/csi/controller.go:114-421 | After any run without such a clash, with any failures, a volume is as if only the calls about it had been made. |
| ControllerRuns.NamesakesInterfere | internal/host/nfs/nfs.go:347-369 | Of any two different new NFS volumes with one last segment, creating the first makes a clean create of the second fail, which alone is accepted. |
| ControllerRuns.DeleteTakesNamesakesExport | internal/host/protocolshare/protocolshare.go:490-540 | Deleting a volume takes away the export of another with the same last segment, whose dataset stays, if and only if the deleted one is a filesystem the share lookup finds; a zvol takes nothing. |
| ControllerRuns.AttemptsConverge | internal/csi/controller.go:114-265 | Any attempts at a request, none leaving its volume half-made, among any calls that do not clash, then a clean one: it answers and leaves the volume as at the start. |
| ControllerRuns.CarefulRunsStaySound | internal/csi/controller.go:114-368 | If no create leaves an export unloaded and no delete misses the share lookup, every export stays on an existing filesystem of its name through every run. |
| ControllerRuns.OwnServerNeverExports | internal/api/handlers/protocolshare.go:57-69 | On this repository's server, whose share handler answers a missing share with an error, no run of calls ever makes an export. |
| ControllerRuns.OwnServerDeletesOnce | internal/api/handlers/datasets_write.go:71-86 | On that server, whose destroy of a missing dataset is a job that fails, a volume once deleted cannot be deleted again whatever calls come between, unless one creates it anew. |
| CsiController.ControllerService.CreateVolume | internal/csi/controller.go:114-199 | An accepted volume is there under the id spelled out from parameters, configuration and name, and asking again, whatever else fails, returns it and changes nothing. |
| CsiController.ControllerService.CreatePlainVolume | internal/csi/controller.go:144-199 | Touches no export and no other dataset; accepted means the dataset is there with the type and size asked for, refused as existing means with another. |
| CsiController.ControllerService.CreateNfsVolume | internal/csi/controller.go:225-265 | No export or other dataset is lost; accepted means a filesystem is there, exported if and only if it is new or was exported before; the only export that can appear is the volume's own under a name that had none; a zvol of the name is refused. |
| CsiController.ControllerService.ProvisionShare | internal/host/protocolshare/protocolshare.go:329-380 | The job succeeds with dataset and export both in place; failing with a working rollback it leaves the datasets as they were, and the exports too unless only the reload failed. |
| CsiController.ControllerService.CreateExport | internal/host/nfs/nfs.go:347-369 | A name that has an export file is refused and keeps it; otherwise the file is written before the reload that decides success. |
| CsiController.ControllerService.DeleteVolume | internal/csi/controller.go:332-368 | Success means the dataset is gone and deleting again, whatever fails, changes nothing and succeeds exactly when not refused; only this dataset and, for a filesystem, the export of its last segment are ever removed. |
| CsiController.ControllerService.RemoveShare | internal/host/protocolshare/protocolshare.go:490-517 | Each removal is tried whatever became of the other, and success means both are gone. |
| CsiController.ControllerService.ControllerExpandVolume | internal/csi/controller.go:371-421 | Success means the dataset has exactly the size reported; exports and other datasets never change. |
| CsiController.ControllerService.Serve | internal/csi/controller.go:114-421 | Any sequence of calls on the object: each answer is that of the run so far, volumes nothing clashes with are independent, and careful calls keep every export on its dataset. |
| Node.RunsKeep | internal/csi/node.go:42-193 | Over any node calls with any failures, no device is formatted twice or over a filesystem, and a driver mount is always alone on its path. |
| Node.UnmountClears | internal/csi/node.go:100-109 | One unmount clears what the driver put on a path; repeating it is a no-op. |
| Node.RepeatsAreNoOps | internal/csi/node.go:85-97 | Repeating a successful stage or publish changes nothing. |
| Node.HostPathExactly | internal/csi/driver.go:91-99 | A path is reached under the host root prefix, which is added exactly when there is one and it is not there yet; the empty path stays. |
| Node.MountMadeExactly | internal/csi/node.go:160-181 | A mount is made if and only if the path carried nothing and making, checking and mounting work; it stays even if the read-only remount fails, which is reported; no other path and no device is touched. |
| Node.StageAnswersExactly | internal/csi/node.go:42-98 | Staging succeeds if and only if id and capability are good and there is nothing to stage, or the device holds or can be given the filesystem asked for and the staging path mounts. |
| Node.SourceExactly | internal/csi/node.go:131-158 | What publishing mounts, case by case: server and path of the context, the device, the dataset's mountpoint, or the staging path, and which error is given when that is missing. |
| Node.PublishAnswersExactly | internal/csi/node.go:115-182 | Publishing succeeds if and only if id, capability and target are good, the source is there and it mounts. |
| Node.SourceOfCreated | internal/csi/node.go:131-158 | Publishing picks the source that belongs to the created volume's kind. |
| Node.CreatedVolumeMounts | internal/csi/node.go:42-182 | For every request CreateVolume accepts, new or existing and after any failures: the id parses back, staging touches nothing whatever fails, and publishing mounts exactly server and path, the dataset's mountpoint, or the device of the volume. |
| Node.NodeService.NodeStageVolume | internal/csi/node.go:42-98 | Formats at most the volume's own device, once and only if it held nothing; success on a zvol leaves it formatted as asked and something mounted on the staging path. |
| Node.NodeService.NodePublishVolume | internal/csi/node.go:115-182 | Formats nothing and touches only the target; success leaves a mount there, the volume's source if the target was free. |
| Node.NodeService.MountAt | internal/csi/node.go:160-181 | Touches only the path and only if it carries nothing; succeeds if and only if the path is made and checked and is mounted already or takes the mount, read-only included; the path then carries exactly the mount asked for where there was none, and keeps it if only the read-only remount failed. |
| Node.NodeService.UnmountPath | internal/csi/node.go:100-109 | Touches only the path; succeeds if and only if a path is given and umount works, and then exactly the latest mount is gone; failure changes nothing. |
| Node.NodeService.Serve | internal/csi/node.go:42-193 | Any sequence of calls on a host where driver mounts are alone on their paths keeps that and never formats a device twice or over a filesystem. |

## Left out

- The `||` operator inside one version constraint: the resolver joins constraint strings with a comma, which regroups it; constraints here are single groups of clauses.
- The version library itself: its source is not in the repository; how it groups clauses and treats pre-releases is taken from its 3.4 and 3.5 releases.
- A tarball whose name or version differs from its index entry: the closure, lock and live-table results cover it, those of `Satisfaction` do not.
- Upgrade: it resolves no dependencies and leaves old routes mounted, so it is in none of the runs.
- Store reads that fail during Install: the program treats them as "not installed"; reads here succeed, writes may fail.
- Provisioned needs (datasets, OIDC clients, certificates, permissions) and the resource ledger: only whether provisioning succeeds is modelled.
- Several marketplaces and signature checks: one registry, and a fetch that succeeds or fails.
- A nil router, UI registry, deployer or marketplace: the manager is modelled fully wired.
- Resolver.Tree: a display of direct dependencies.
- Samba shares and ACLs of a protocol share, and the server's checks of client rules and export options: a refusal is an export file that is not written.
- NFS client rules, snapshots, access-mode validation and NodeExpandVolume: single lookups or calls.
- Mounter commands and their output, and partial formatting by a failed mkfs.
- The in-place sort of the state file and its atomic write.
- Admin-event polling, back-off timing and token refresh in the Kerberos daemon.
- Per-kind job handlers: one shape stands for all; the replication handler, which never writes the row, is the worker that acks straight after taking the task.
- RecordEvent's database write: an item handed to it counts as handed over, as it does for the cursor.
- RunsStayClosed: does not cover calls that run at the same time; RacingUninstallBreaksClosure shows why.
