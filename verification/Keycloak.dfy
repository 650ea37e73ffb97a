/** Paged listing of Keycloak users, and the full sync pass built on it. */
module Keycloak {
  import opened Prelude
  import opened Principals
  import opened Reconcile

  const PageSize := 100

  /** A stable server: its users in order, and which requests (by number) it fails. */
  datatype Server = Server(users: seq<User>, failing: set<nat>)

  /** The answer to one request: at most PageSize users starting at `first`. */
  function Page(server: Server, request: nat, first: nat): (r: Option<seq<User>>)
    ensures r.Some? && first <= |server.users| ==>
              first + |r.value| <= |server.users| && r.value == server.users[first..first + |r.value|]
  {
    if request in server.failing then None
    else if first >= |server.users| then Some([])
    else if first + PageSize <= |server.users| then Some(server.users[first..first + PageSize])
    else Some(server.users[first..])
  }

  /** ListUsers: asks page after page until a short one. The last request is number n / 100,
      so exactly n / 100 + 1 requests answer with the whole list in order, and the call fails
      exactly when one of them does. */
  method ListUsers(server: Server) returns (r: Option<seq<User>>, requests: nat)
    ensures r.Some? ==> r.value == server.users && requests == |server.users| / 100 + 1
    ensures r.None? <==> exists k :: 0 <= k <= |server.users| / 100 && k in server.failing
    ensures r.None? ==> requests >= 1 && requests - 1 in server.failing
  {
    var out: seq<User>, first := [], 0;
    requests := 0;
    while true
      invariant first == requests * PageSize <= |server.users|
      invariant out == server.users[..first]
      invariant forall k | 0 <= k < requests :: k !in server.failing
      decreases |server.users| - first
    {
      var page := Page(server, requests, first);
      requests := requests + 1;
      if page.None? {
        assert requests - 1 <= |server.users| / PageSize;
        return None, requests;
      }
      out := out + page.value;
      if |page.value| < PageSize {
        assert requests - 1 == |server.users| / PageSize;
        return Some(out), requests;
      }
      first := first + |page.value|;
    }
  }

  /** A whole pass against the server: a failed listing changes nothing, and a pass never
      deletes an expected principal of any user the server holds. */
  method Sync(r: Reconciler, server: Server, kdcList: Option<seq<string>>, f: Faults) returns (done: bool)
    requires kdcList.Some? ==> Elems(kdcList.value) == r.kdc
    modifies r, r.state
    ensures !done ==> r.kdc == old(r.kdc) && r.state.userPrincipals == old(r.state.userPrincipals)
    ensures done ==> r.kdc == After(old(r.kdc), Desired(server.users, r.realm), r.realm, f)
    ensures forall u, n | u in server.users && n in Expected(u, r.realm) && n in old(r.kdc) :: n in r.kdc
  {
    var users, _ := ListUsers(server);
    if users.None? || kdcList.None? {
      return false;
    }
    var _ := r.ReconcileOnce(users.value, kdcList.value, f);
    forall u, n | u in server.users && n in Expected(u, r.realm) && n in old(r.kdc) ensures n in r.kdc {
      assert n in Desired(server.users, r.realm);
    }
    return true;
  }

  /** Why the list must be complete: a pass over a list without `u` deletes every recognised
      principal that only `u` should have. */
  lemma TruncatedListDeletes(users: seq<User>, u: User, realm: string, kdc: set<string>, n: string)
    requires n in Expected(u, realm) && n in kdc && UserShaped(n, realm)
    requires forall v | v in users :: n !in Expected(v, realm)
    ensures n !in After(kdc, Desired(users, realm), realm, NoFaults)
  {
  }
}
