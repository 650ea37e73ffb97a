/** The reconcile pass between Keycloak users and KDC principals: what one pass does under
    any pattern of failures, and what any sequence of passes converges to. */
module Reconcile {
  import opened Prelude
  import opened Strings
  import opened Principals

  // ----- the pass on sets -----

  /** Every principal some listed user should have. */
  ghost function Desired(users: seq<User>, realm: string): (r: set<string>) {
    set u, n | u in users && n in Expected(u, realm) :: n
  }

  ghost function Missing(kdc: set<string>, desired: set<string>): (r: set<string>) {
    desired - kdc
  }

  /** Principals the loop takes for its own but no user should have. */
  function Stale(kdc: set<string>, desired: set<string>, realm: string): (r: set<string>) {
    set n | n in kdc && n !in desired && UserShaped(n, realm)
  }

  /** Which create and delete calls report failure in one pass, by principal; those in `lost`
      took effect all the same. */
  datatype Faults = Faults(create: set<string>, delete: set<string>, lost: set<string>)

  /** The KDC after a pass. */
  ghost function After(kdc: set<string>, desired: set<string>, realm: string, f: Faults): (r: set<string>) {
    kdc + (Missing(kdc, desired) - (f.create - f.lost)) - (Stale(kdc, desired, realm) - (f.delete - f.lost))
  }

  /** Desired names that are missing and stale names that are present. */
  ghost function Drift(kdc: set<string>, desired: set<string>, realm: string): (r: set<string>) {
    Missing(kdc, desired) + Stale(kdc, desired, realm)
  }

  // ----- one pass -----

  /** The drift left is exactly the failed calls that had no effect, and the pass removed
      exactly the rest. */
  lemma PassConserves(kdc: set<string>, desired: set<string>, realm: string, f: Faults)
    ensures var missing, stale := Missing(kdc, desired), Stale(kdc, desired, realm);
            var left := Drift(After(kdc, desired, realm, f), desired, realm);
            var create, delete := f.create - f.lost, f.delete - f.lost;
            && left == missing * create + stale * delete
            && |left| == |missing * create| + |stale * delete|
            && |Drift(kdc, desired, realm)| - |left| == |missing - create| + |stale - delete|
  {
    DriftLeft(kdc, desired, realm, f);
    DisjointSizes(Missing(kdc, desired), Stale(kdc, desired, realm), f.create - f.lost, f.delete - f.lost);
  }

  lemma DriftLeft(kdc: set<string>, desired: set<string>, realm: string, f: Faults)
    ensures Drift(After(kdc, desired, realm, f), desired, realm)
         == Missing(kdc, desired) * (f.create - f.lost) + Stale(kdc, desired, realm) * (f.delete - f.lost)
  {
    forall n
      ensures n in Drift(After(kdc, desired, realm, f), desired, realm) <==>
              n in Missing(kdc, desired) * (f.create - f.lost) + Stale(kdc, desired, realm) * (f.delete - f.lost)
    {
      DriftAfter(kdc, desired, realm, f, n);
    }
  }

  /** One name through one pass. */
  lemma DriftAfter(kdc: set<string>, desired: set<string>, realm: string, f: Faults, n: string)
    ensures n in Drift(After(kdc, desired, realm, f), desired, realm) <==>
            n in Drift(kdc, desired, realm) && Fails(n, desired, f)
  {
  }

  lemma DisjointSizes<T>(a: set<T>, b: set<T>, f: set<T>, g: set<T>)
    requires a !! b
    ensures |a * f + b * g| == |a * f| + |b * g|
    ensures |a + b| == |a * f| + |b * g| + |a - f| + |b - g|
  {
  }

  /** Creating and then deleting what takes effect is the pass. */
  lemma AfterCalls(kdc: set<string>, desired: set<string>, realm: string, f: Faults, creates: seq<string>, deletes: seq<string>)
    requires Elems(creates) == Missing(kdc, desired) && Elems(deletes) == Stale(kdc, desired, realm)
    ensures After(kdc, desired, realm, f) == kdc + Effect(creates, f.create, f.lost) - Effect(deletes, f.delete, f.lost)
  {
  }

  /** The calls of a pass that report failure but took effect. */
  ghost function LostCalls(kdc: set<string>, desired: set<string>, realm: string, f: Faults): (r: set<string>) {
    (Missing(kdc, desired) * f.create + Stale(kdc, desired, realm) * f.delete) * f.lost
  }

  /** The counts a pass reports, from what it managed to do. */
  lemma PassCounts(kdc: set<string>, desired: set<string>, realm: string, f: Faults,
                   created: seq<string>, deleted: seq<string>, createErrors: nat, deleteErrors: nat)
    requires Lists(created, Missing(kdc, desired) - f.create) && Lists(deleted, Stale(kdc, desired, realm) - f.delete)
    requires |created| + createErrors == |Missing(kdc, desired)|
    requires |deleted| + deleteErrors == |Stale(kdc, desired, realm)|
    ensures createErrors == |Missing(kdc, desired) * f.create| && deleteErrors == |Stale(kdc, desired, realm) * f.delete|
    ensures var lost := |LostCalls(kdc, desired, realm, f)|;
            var left := |Drift(After(kdc, desired, realm, f), desired, realm)|;
            left + lost == createErrors + deleteErrors && |Drift(kdc, desired, realm)| - left == |created| + |deleted| + lost
  {
    var missing, stale := Missing(kdc, desired), Stale(kdc, desired, realm);
    SizeOfListing(created, missing - f.create);
    SizeOfListing(deleted, stale - f.delete);
    SplitSize(missing, f.create);
    SplitSize(stale, f.delete);
    PassConserves(kdc, desired, realm, f);
    LostSize(missing, stale, f);
  }

  lemma LostSize(missing: set<string>, stale: set<string>, f: Faults)
    requires missing !! stale
    ensures |missing * f.create| + |stale * f.delete| ==
            |missing * (f.create - f.lost)| + |stale * (f.delete - f.lost)| + |(missing * f.create + stale * f.delete) * f.lost|
    ensures |missing - (f.create - f.lost)| + |stale - (f.delete - f.lost)| ==
            |missing - f.create| + |stale - f.delete| + |(missing * f.create + stale * f.delete) * f.lost|
  {
    var a, b := missing * f.create, stale * f.delete;
    SplitSize(a, f.lost);
    SplitSize(b, f.lost);
    assert a - f.lost == missing * (f.create - f.lost) && b - f.lost == stale * (f.delete - f.lost);
    DisjointSizes(a, b, f.lost, f.lost);
    assert (a + b) * f.lost == a * f.lost + b * f.lost;
    SplitSize(missing, f.create);
    SplitSize(stale, f.delete);
    SplitSize(missing, f.create - f.lost);
    SplitSize(stale, f.delete - f.lost);
  }

  lemma SplitSize<T>(s: set<T>, t: set<T>)
    ensures |s| == |s * t| + |s - t|
  {
  }

  /** Principals of a service or of another realm are never deleted. */
  lemma PassSparesForeign(kdc: set<string>, desired: set<string>, realm: string, f: Faults, n: string)
    requires n in kdc && (IsService(n) || !HasSuffix(n, "@" + realm))
    ensures n in After(kdc, desired, realm, f)
  {
  }

  const NoFaults := Faults({}, {}, {})

  /** A pass without failures lands on the target, and a second one changes nothing. */
  lemma CleanPassConverges(kdc: set<string>, desired: set<string>, realm: string)
    ensures var after := After(kdc, desired, realm, NoFaults);
            && after == (kdc - Stale(kdc, desired, realm)) + desired
            && Drift(after, desired, realm) == {}
            && forall f :: After(after, desired, realm, f) == after
  {
  }

  // ----- many passes -----

  ghost function AfterAll(kdc: set<string>, desired: set<string>, realm: string, fs: seq<Faults>): (r: set<string>) {
    if fs == [] then kdc
    else After(AfterAll(kdc, desired, realm, fs[..|fs| - 1]), desired, realm, fs[|fs| - 1])
  }

  /** The call for `n` fails in pass `f` and has no effect. */
  ghost predicate Fails(n: string, desired: set<string>, f: Faults) {
    n !in f.lost && if n in desired then n in f.create else n in f.delete
  }

  /** With the users unchanged, whatever fails in between, a name drifts at the end exactly
      when it drifted at the start and its call failed without effect in every single pass. */
  lemma {:induction false} DriftIsWhatAlwaysFailed(kdc: set<string>, desired: set<string>, realm: string, fs: seq<Faults>, n: string)
    ensures n in Drift(AfterAll(kdc, desired, realm, fs), desired, realm) <==>
            n in Drift(kdc, desired, realm) && forall i | 0 <= i < |fs| :: Fails(n, desired, fs[i])
  {
    if fs != [] {
      var init, last := fs[..|fs| - 1], fs[|fs| - 1];
      DriftIsWhatAlwaysFailed(kdc, desired, realm, init, n);
      var before := AfterAll(kdc, desired, realm, init);
      DriftAfter(before, desired, realm, last, n);
      assert fs == init + [last];
    }
  }

  /** A principal the loop does not recognise survives every pass, wanted or not. */
  lemma {:induction false} UnrecognisedIsNeverDeleted(kdc: set<string>, passes: seq<(set<string>, Faults)>, realm: string, n: string)
    requires n in kdc && !UserShaped(n, realm)
    ensures n in AfterChanging(kdc, passes, realm)
  {
    if passes != [] {
      UnrecognisedIsNeverDeleted(kdc, passes[..|passes| - 1], realm, n);
    }
  }

  /** Passes between which the desired set may change. */
  ghost function AfterChanging(kdc: set<string>, passes: seq<(set<string>, Faults)>, realm: string): (r: set<string>) {
    if passes == [] then kdc
    else
      var (desired, f) := passes[|passes| - 1];
      After(AfterChanging(kdc, passes[..|passes| - 1], realm), desired, realm, f)
  }

  // ----- the recorded state -----

  /** The last listed user with this id that should have any principal. */
  ghost function LastWith(users: seq<User>, realm: string, id: string): (r: Option<User>) {
    if users == [] then None
    else
      var u := users[|users| - 1];
      if u.id == id && Expected(u, realm) != {} then Some(u) else LastWith(users[..|users| - 1], realm, id)
  }

  /** Listing `i` is of a user with this id that should have some principal. */
  ghost predicate Counts(users: seq<User>, realm: string, id: string, i: int) {
    0 <= i < |users| && users[i].id == id && Expected(users[i], realm) != {}
  }

  /** It is the last such listing. */
  ghost predicate CountsLast(users: seq<User>, realm: string, id: string, i: int) {
    Counts(users, realm, id, i) && forall j | i < j < |users| :: !Counts(users, realm, id, j)
  }

  lemma {:induction false} LastWithExactly(users: seq<User>, realm: string, id: string, i: int)
    ensures CountsLast(users, realm, id, i) ==> LastWith(users, realm, id) == Some(users[i])
    ensures LastWith(users, realm, id).Some? ==> exists j :: CountsLast(users, realm, id, j)
    ensures LastWith(users, realm, id).None? ==> forall j :: !Counts(users, realm, id, j)
    decreases |users|
  {
    if users != [] {
      var n := |users| - 1;
      var init := users[..n];
      if Counts(users, realm, id, n) {
        assert CountsLast(users, realm, id, n);
      } else {
        assert forall j :: Counts(init, realm, id, j) <==> Counts(users, realm, id, j);
        LastWithExactly(init, realm, id, i);
        assert forall j :: CountsLast(init, realm, id, j) <==> CountsLast(users, realm, id, j);
      }
    }
  }

  ghost function Ids(users: seq<User>): (r: set<string>) {
    set u | u in users :: u.id
  }

  ghost predicate SameRecord(a: map<string, seq<string>>, b: map<string, seq<string>>, id: string) {
    (id in a <==> id in b) && (id in a ==> a[id] == b[id])
  }

  /** What a pass records for one user id: the new listing if the user should have any
      principal; the old record if the user is listed but should have none; else nothing.
      The empty id is never written. */
  ghost predicate RecordedFor(before: map<string, seq<string>>, after: map<string, seq<string>>,
                              users: seq<User>, realm: string, id: string) {
    if id == "" then SameRecord(before, after, id)
    else match LastWith(users, realm, id)
      case Some(u) => id in after && Lists(after[id], Expected(u, realm))
      case None => if id in Ids(users) then SameRecord(before, after, id) else id !in after
  }

  /** What a pass records for one user id, listing by listing. */
  ghost predicate RecordedByListing(before: map<string, seq<string>>, after: map<string, seq<string>>,
                                    users: seq<User>, realm: string, id: string) {
    && (id == "" ==> SameRecord(before, after, id))
    && (id != "" ==> forall i | CountsLast(users, realm, id, i) :: id in after && Lists(after[id], Expected(users[i], realm)))
    && (id != "" && (forall i :: !Counts(users, realm, id, i)) ==>
          if exists i :: 0 <= i < |users| && users[i].id == id then SameRecord(before, after, id) else id !in after)
  }

  lemma RecordedListings(before: map<string, seq<string>>, after: map<string, seq<string>>, users: seq<User>, realm: string, id: string)
    requires RecordedFor(before, after, users, realm, id)
    ensures RecordedByListing(before, after, users, realm, id)
  {
    forall i ensures CountsLast(users, realm, id, i) ==> LastWith(users, realm, id) == Some(users[i]) {
      LastWithExactly(users, realm, id, i);
    }
    LastWithExactly(users, realm, id, 0);
    assert id in Ids(users) <==> exists i :: 0 <= i < |users| && users[i].id == id by {
      if i :| 0 <= i < |users| && users[i].id == id {
        assert users[i] in users;
      }
    }
  }

  /** MemState: the per-user record, updated in place. */
  class MemState {
    var userPrincipals: map<string, seq<string>>

    constructor ()
      ensures userPrincipals == map[]
    {
      userPrincipals := map[];
    }

    /** Every record is non-empty and sorted, and belongs to a user. */
    ghost predicate Tidy()
      reads this
    {
      forall id | id in userPrincipals :: id != "" && userPrincipals[id] != [] && Sorted(userPrincipals[id])
    }

    /** Stores a sorted copy; nothing to store deletes the record; the empty id is ignored. So
        a user has a record exactly when there is something to record, its record has the
        same names with the same number of repeats, and all records stay sorted. */
    method SetUserPrincipals(id: string, principals: seq<string>)
      modifies this
      ensures userPrincipals == if id == "" then old(userPrincipals)
                                else if principals == [] then old(userPrincipals) - {id}
                                else old(userPrincipals)[id := Sort(principals)]
      ensures id != "" ==> (id in userPrincipals <==> principals != [])
      ensures id != "" && principals != [] ==>
                Sorted(userPrincipals[id]) && multiset(userPrincipals[id]) == multiset(principals)
      ensures old(Tidy()) ==> Tidy()
    {
      SortSorts(principals);
      if id == "" {
        return;
      }
      if principals == [] {
        userPrincipals := userPrincipals - {id};
        return;
      }
      userPrincipals := userPrincipals[id := Sort(principals)];
    }

    /** AllPrincipals: the sorted, deduplicated union of the records. */
    method AllPrincipals() returns (out: seq<string>)
      ensures Lists(out, set id, p | id in userPrincipals && p in userPrincipals[id] :: p)
    {
      var seen: set<string> := {};
      var todo := userPrincipals.Keys;
      while todo != {}
        invariant todo <= userPrincipals.Keys
        invariant seen == set id, p | id in userPrincipals && id !in todo && p in userPrincipals[id] :: p
        decreases todo
      {
        var id :| id in todo;
        todo := todo - {id};
        seen := seen + set p | p in userPrincipals[id];
      }
      out := SortedSet(seen);
    }
  }

  /** Collect a map's keys in whatever order, then sort. */
  method SortedSet(names: set<string>) returns (out: seq<string>)
    ensures Lists(out, names) && |out| == |names|
  {
    var picked: seq<string> := [];
    var todo := names;
    while todo != {}
      invariant todo <= names && Distinct(picked) && Elems(picked) == names - todo
      invariant |picked| + |todo| == |names|
      decreases todo
    {
      var n :| n in todo;
      todo := todo - {n};
      assert n !in Elems(picked);
      ElemsAppend(picked, n);
      picked := picked + [n];
    }
    SortDistinct(picked);
    out := Sort(picked);
  }

  datatype Summary = Summary(usersConsidered: nat, principalsDesired: nat, principalsInKDC: nat,
                             created: seq<string>, deleted: seq<string>, createErrors: nat, deleteErrors: nat)

  class Reconciler {
    const realm: string
    const state: MemState
    /** The principals in the KDC, which create and delete calls change. */
    var kdc: set<string>

    constructor (realm: string, state: MemState, kdc: set<string>)
      ensures this.state == state && this.kdc == kdc
      ensures this.realm == if Trim(realm) == "" then "NOVANAS.LOCAL" else realm
    {
      this.realm := if Trim(realm) == "" then "NOVANAS.LOCAL" else realm;
      this.state := state;
      this.kdc := kdc;
    }

    /** ReconcileOnce, given what the two listings returned. */
    method ReconcileOnce(users: seq<User>, kdcList: seq<string>, f: Faults) returns (res: Summary)
      requires Elems(kdcList) == kdc
      modifies this, state
      ensures var desired := Desired(users, realm);
              var missing, stale := Missing(old(kdc), desired), Stale(old(kdc), desired, realm);
              && kdc == After(old(kdc), desired, realm, f)
              && Lists(res.created, missing - f.create) && res.createErrors == |missing * f.create|
              && Lists(res.deleted, stale - f.delete) && res.deleteErrors == |stale * f.delete|
              && res.principalsDesired == |desired| && res.principalsInKDC == |kdcList|
              && res.usersConsidered == |users|
      ensures var lost := |LostCalls(old(kdc), Desired(users, realm), realm, f)|;
              var left := |Drift(kdc, Desired(users, realm), realm)|;
              && left + lost == res.createErrors + res.deleteErrors
              && |Drift(old(kdc), Desired(users, realm), realm)| - left == |res.created| + |res.deleted| + lost
      ensures forall id :: RecordedByListing(old(state.userPrincipals), state.userPrincipals, users, realm, id)
    {
      var desired, byUser := DesiredOf(users);
      var created, deleted, createErrors, deleteErrors := Converge(desired, kdcList, f);
      PassCounts(old(kdc), desired, realm, f, created, deleted, createErrors, deleteErrors);
      UpdateState(users, byUser);
      forall id ensures RecordedByListing(old(state.userPrincipals), state.userPrincipals, users, realm, id) {
        RecordedListings(old(state.userPrincipals), state.userPrincipals, users, realm, id);
      }
      return Summary(|users|, |desired|, |kdcList|, created, deleted, createErrors, deleteErrors);
    }

    /** The create and delete calls of a pass. */
    method Converge(desired: set<string>, kdcList: seq<string>, f: Faults)
      returns (created: seq<string>, deleted: seq<string>, createErrors: nat, deleteErrors: nat)
      requires Elems(kdcList) == kdc
      modifies this`kdc
      ensures kdc == After(old(kdc), desired, realm, f)
      ensures Lists(created, Missing(old(kdc), desired) - f.create) && |created| + createErrors == |Missing(old(kdc), desired)|
      ensures Lists(deleted, Stale(old(kdc), desired, realm) - f.delete)
      ensures |deleted| + deleteErrors == |Stale(old(kdc), desired, realm)|
    {
      var have := set n | n in kdcList;
      assert have == kdc;
      var createNames := SortedSet(desired - have);
      created, createErrors := CreateAll(createNames, f.create, f.lost);
      var deleteCandidates := SortedSet(Stale(have, desired, realm));
      deleted, deleteErrors := DeleteAll(deleteCandidates, f.delete, f.lost);
      AfterCalls(old(kdc), desired, realm, f, createNames, deleteCandidates);
    }

    /** The desired set and the listing per user id. */
    method DesiredOf(users: seq<User>) returns (desired: set<string>, byUser: map<string, seq<string>>)
      ensures desired == Desired(users, realm)
      ensures ListedByUser(byUser, users, realm)
      ensures forall id, i | CountsLast(users, realm, id, i) :: id in byUser && Lists(byUser[id], Expected(users[i], realm))
      ensures forall id | id in byUser :: exists i :: Counts(users, realm, id, i)
    {
      desired, byUser := {}, map[];
      for i := 0 to |users|
        invariant desired == Desired(users[..i], realm)
        invariant ListedByUser(byUser, users[..i], realm)
      {
        var u := users[i];
        var exp := ExpectedPrincipals(u, realm);
        NonemptyElems(exp);
        assert users[..i + 1] == users[..i] + [u] && users[..i + 1][..i] == users[..i];
        DesiredExtends(users[..i], u, realm);
        if exp != [] {
          byUser := byUser[u.id := exp];
          desired := desired + set n | n in exp;
        }
        assert Elems(exp) == set n | n in exp;
      }
      assert users[..|users|] == users;
      forall id, i | CountsLast(users, realm, id, i) ensures id in byUser && Lists(byUser[id], Expected(users[i], realm)) {
        LastWithExactly(users, realm, id, i);
      }
      forall id | id in byUser ensures exists i :: Counts(users, realm, id, i) {
        LastWithExactly(users, realm, id, 0);
      }
    }

    method CreateAll(names: seq<string>, failing: set<string>, lost: set<string>) returns (created: seq<string>, errors: nat)
      requires Ascending(names)
      modifies this`kdc
      ensures kdc == old(kdc) + Effect(names, failing, lost)
      ensures Lists(created, Elems(names) - failing) && |created| + errors == |names|
    {
      created, errors := [], 0;
      for i := 0 to |names|
        invariant kdc == old(kdc) + Effect(names[..i], failing, lost)
        invariant Ascending(created) && Elems(created) == Elems(names[..i]) - failing
        invariant |created| + errors == i
      {
        var name := names[i];
        AppendStep(names, i, created, failing);
        EffectStep(names, i, failing, lost);
        if name !in failing || name in lost {
          kdc := kdc + {name};
        }
        if name in failing {
          errors := errors + 1;
          continue;
        }
        created := created + [name];
      }
      assert names[..|names|] == names;
    }

    method DeleteAll(names: seq<string>, failing: set<string>, lost: set<string>) returns (deleted: seq<string>, errors: nat)
      requires Ascending(names)
      modifies this`kdc
      ensures kdc == old(kdc) - Effect(names, failing, lost)
      ensures Lists(deleted, Elems(names) - failing) && |deleted| + errors == |names|
    {
      deleted, errors := [], 0;
      for i := 0 to |names|
        invariant kdc == old(kdc) - Effect(names[..i], failing, lost)
        invariant Ascending(deleted) && Elems(deleted) == Elems(names[..i]) - failing
        invariant |deleted| + errors == i
      {
        var name := names[i];
        AppendStep(names, i, deleted, failing);
        EffectStep(names, i, failing, lost);
        if name !in failing || name in lost {
          kdc := kdc - {name};
        }
        if name in failing {
          errors := errors + 1;
          continue;
        }
        deleted := deleted + [name];
      }
      assert names[..|names|] == names;
    }

    /** Record the new listings, then drop ids that are no longer listed. */
    method UpdateState(users: seq<User>, byUser: map<string, seq<string>>)
      requires ListedByUser(byUser, users, realm)
      modifies state
      ensures forall id :: RecordedFor(old(state.userPrincipals), state.userPrincipals, users, realm, id)
    {
      ghost var before := state.userPrincipals;
      RecordListings(byUser);
      ghost var recorded := state.userPrincipals;
      var current := set u | u in users :: u.id;
      DropUnlisted(current);
      forall id ensures RecordedFor(before, state.userPrincipals, users, realm, id) {
        LastWithListed(users, realm, id);
        assert SameRecord(before, recorded, id) || (id in byUser && id != "");
        assert id in current || id == "" ==> SameRecord(recorded, state.userPrincipals, id);
      }
    }

    method RecordListings(byUser: map<string, seq<string>>)
      requires forall id | id in byUser :: byUser[id] != [] && Ascending(byUser[id])
      modifies state
      ensures forall id | id in byUser && id != "" ::
                id in state.userPrincipals && Lists(state.userPrincipals[id], Elems(byUser[id]))
      ensures forall id | id !in byUser || id == "" :: SameRecord(old(state.userPrincipals), state.userPrincipals, id)
    {
      var todo := byUser.Keys;
      while todo != {}
        invariant todo <= byUser.Keys
        invariant Recorded(old(state.userPrincipals), state.userPrincipals, byUser, byUser.Keys - todo)
        decreases todo
      {
        var id :| id in todo;
        ghost var before := state.userPrincipals;
        state.SetUserPrincipals(id, byUser[id]);
        RecordTurn(old(state.userPrincipals), before, state.userPrincipals, byUser, byUser.Keys - todo, id);
        todo := todo - {id};
        assert byUser.Keys - todo == byUser.Keys - (todo + {id}) + {id};
      }
    }

    method DropUnlisted(current: set<string>)
      modifies state
      ensures forall id | id in current || id == "" :: SameRecord(old(state.userPrincipals), state.userPrincipals, id)
      ensures forall id | id !in current && id != "" :: id !in state.userPrincipals
    {
      var todo := state.userPrincipals.Keys;
      while todo != {}
        invariant todo <= old(state.userPrincipals).Keys
        invariant forall id | id in current || id == "" || id in todo || id !in old(state.userPrincipals) ::
                    SameRecord(old(state.userPrincipals), state.userPrincipals, id)
        invariant forall id | id in old(state.userPrincipals) && id !in todo && id !in current && id != "" ::
                    id !in state.userPrincipals
        decreases todo
      {
        var id :| id in todo;
        todo := todo - {id};
        if id !in current {
          state.SetUserPrincipals(id, []);
        }
      }
    }
  }

  /** The ids in `done` have their listing recorded; every other record is as at the start. */
  ghost predicate Recorded(start: map<string, seq<string>>, now: map<string, seq<string>>,
                           byUser: map<string, seq<string>>, done: set<string>) {
    && done <= byUser.Keys
    && (forall id | id in done && id != "" :: id in now && Lists(now[id], Elems(byUser[id])))
    && (forall id | id !in done || id == "" :: SameRecord(start, now, id))
  }

  /** One listing recorded. */
  lemma RecordTurn(start: map<string, seq<string>>, before: map<string, seq<string>>, now: map<string, seq<string>>,
                   byUser: map<string, seq<string>>, done: set<string>, id: string)
    requires Recorded(start, before, byUser, done) && id in byUser && Ascending(byUser[id])
    requires now == if id == "" then before else before[id := Sort(byUser[id])]
    ensures Recorded(start, now, byUser, done + {id})
  {
    AscendingDistinct(byUser[id]);
    SortDistinct(byUser[id]);
    forall other | other !in done + {id} || other == "" ensures SameRecord(start, now, other) {
      assert SameRecord(start, before, other);
    }
  }

  /** `byUser` holds, for each id, the listing of the last user with that id that has one. */
  ghost predicate ListedByUser(byUser: map<string, seq<string>>, users: seq<User>, realm: string) {
    forall id :: match LastWith(users, realm, id)
                 case Some(u) => id in byUser && byUser[id] != [] && Lists(byUser[id], Expected(u, realm))
                 case None => id !in byUser
  }

  lemma {:induction false} LastWithListed(users: seq<User>, realm: string, id: string)
    ensures LastWith(users, realm, id).Some? ==> id in Ids(users)
  {
    if users != [] {
      LastWithListed(users[..|users| - 1], realm, id);
    }
  }

  lemma DesiredExtends(users: seq<User>, u: User, realm: string)
    ensures Desired(users + [u], realm) == Desired(users, realm) + Expected(u, realm)
  {
  }

  lemma AscendingAppend(names: seq<string>, i: int, kept: seq<string>)
    requires Ascending(names) && 0 <= i < |names|
    requires Ascending(kept) && Elems(kept) <= Elems(names[..i])
    ensures Ascending(kept + [names[i]])
  {
    forall k | 0 <= k < |kept| ensures CompareText(kept[k], names[i]) < 0 {
      assert kept[k] in Elems(kept);
    }
  }

  /** One turn of the create and delete loops, on the listing built so far. */
  lemma AppendStep(names: seq<string>, i: int, kept: seq<string>, failing: set<string>)
    requires Ascending(names) && 0 <= i < |names|
    requires Ascending(kept) && Elems(kept) == Elems(names[..i]) - failing
    ensures names[i] in failing ==> Elems(kept) == Elems(names[..i + 1]) - failing
    ensures names[i] !in failing ==> Ascending(kept + [names[i]]) && Elems(kept + [names[i]]) == Elems(names[..i + 1]) - failing
  {
    assert names[..i + 1] == names[..i] + [names[i]];
    ElemsAppend(names[..i], names[i]);
    ElemsAppend(kept, names[i]);
    AscendingAppend(names, i, kept);
  }

  /** The names of a list whose calls take effect. */
  ghost function Effect(names: seq<string>, failing: set<string>, lost: set<string>): (r: set<string>) {
    Elems(names) - (failing - lost)
  }

  lemma EffectStep(names: seq<string>, i: int, failing: set<string>, lost: set<string>)
    requires 0 <= i < |names|
    ensures Effect(names[..i + 1], failing, lost)
         == Effect(names[..i], failing, lost) + if names[i] !in failing || names[i] in lost then {names[i]} else {}
  {
    assert names[..i + 1] == names[..i] + [names[i]];
    ElemsAppend(names[..i], names[i]);
  }

  lemma AscendingDistinct(s: seq<string>)
    requires Ascending(s)
    ensures Distinct(s)
  {
    forall i, j | 0 <= i < j < |s| ensures s[i] != s[j] {
      TextOrder(s[i], s[j], s[i]);
    }
  }

  lemma {:induction false} SizeOfListing(s: seq<string>, names: set<string>)
    requires Lists(s, names)
    ensures |s| == |names|
  {
    NonemptyElems(s);
    if s != [] {
      AscendingTail(s);
      SizeOfListing(s[1..], names - {s[0]});
    }
  }
}
