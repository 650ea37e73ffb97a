/** Kerberos principal names: which ones a Keycloak user should have, which ones the sync
    loop recognises as its own, and how the two fit together. */
module Principals {
  import opened Prelude
  import opened Strings

  datatype User = User(id: string, username: string, enabled: bool, attributes: map<string, seq<string>>)

  const TenantAttribute := "nova-tenant"
  const PlatformNFSAttribute := "nova-platform-nfs"
  const ServicePrefixes: seq<string> := ["krbtgt/", "kadmin/", "nfs/", "host/", "K/M"]

  function Values(u: User, attribute: string): (r: seq<string>) {
    if attribute in u.attributes then u.attributes[attribute] else []
  }

  function Tenants(u: User): (r: seq<string>) {
    Values(u, TenantAttribute)
  }

  /** strings.EqualFold(s, "true"): no letter outside ASCII folds to one of these. */
  predicate IsTrue(s: string) {
    |s| == 4 && s[0] in "tT" && s[1] in "rR" && s[2] in "uU" && s[3] in "eE"
  }

  method PlatformNFSEnabled(u: User) returns (on: bool)
    ensures on <==> PlatformEnabled(u)
  {
    var flags := Values(u, PlatformNFSAttribute);
    for i := 0 to |flags|
      invariant forall j | 0 <= j < i :: !IsTrue(Trim(flags[j]))
    {
      if IsTrue(Trim(flags[i])) {
        return true;
      }
    }
    return false;
  }

  predicate PlatformEnabled(u: User) {
    exists v :: v in Values(u, PlatformNFSAttribute) && IsTrue(Trim(v))
  }

  // ----- names -----

  function BareName(user: string, realm: string): (r: string) {
    user + ("@" + realm)
  }

  function TenantName(user: string, tenant: string, realm: string): (r: string) {
    (user + "/" + tenant) + ("@" + realm)
  }

  /** The principals a user should have, as a set. */
  ghost function Expected(u: User, realm: string): (r: set<string>) {
    if !u.enabled || Trim(u.username) == "" then {}
    else if Tenants(u) == [] then (if PlatformEnabled(u) then {BareName(u.username, realm)} else {})
    else set t | t in Tenants(u) && Trim(t) != "" :: TenantName(u.username, Trim(t), realm)
  }

  /** The strictly sorted listing of a set of names; there is only one. */
  ghost predicate Lists(out: seq<string>, names: set<string>) {
    Ascending(out) && Elems(out) == names
  }

  /** ExpectedPrincipals: deduplicate in a loop, then sort. */
  method ExpectedPrincipals(u: User, realm: string) returns (out: seq<string>)
    ensures Lists(out, Expected(u, realm))
  {
    if !u.enabled || Trim(u.username) == "" {
      return [];
    }
    var tenants := Tenants(u);
    if tenants == [] {
      var on := PlatformNFSEnabled(u);
      if on {
        return [u.username + ("@" + realm)];
      }
      return [];
    }
    var names: seq<string> := [];
    var seen: set<string> := {};
    for i := 0 to |tenants|
      invariant Distinct(names) && Elems(names) == seen
      invariant seen == set t | t in tenants[..i] && Trim(t) != "" :: TenantName(u.username, Trim(t), realm)
    {
      var t := Trim(tenants[i]);
      assert tenants[..i + 1] == tenants[..i] + [tenants[i]];
      if t != "" {
        var name := (u.username + "/" + t) + ("@" + realm);
        if name !in seen {
          assert name !in Elems(names);
          seen := seen + {name};
          names := names + [name];
        }
      }
    }
    assert tenants[..|tenants|] == tenants;
    SortDistinct(names);
    return Sort(names);
  }

  /** The result depends on the tenant attribute only through its trimmed non-empty values. */
  lemma ExpectedDependsOnTenantSet(u: User, v: User, realm: string)
    requires u.enabled == v.enabled && u.username == v.username
    requires Tenants(u) != [] && Tenants(v) != []
    requires (set t | t in Tenants(u) && Trim(t) != "" :: Trim(t)) == (set t | t in Tenants(v) && Trim(t) != "" :: Trim(t))
    ensures Expected(u, realm) == Expected(v, realm)
  {
    var tu := set t | t in Tenants(u) && Trim(t) != "" :: Trim(t);
    var tv := set t | t in Tenants(v) && Trim(t) != "" :: Trim(t);
    if u.enabled && Trim(u.username) != "" {
      forall n ensures n in Expected(u, realm) <==> n in Expected(v, realm) {
        assert n in Expected(u, realm) <==> exists t :: t in tu && n == TenantName(u.username, t, realm);
        assert n in Expected(v, realm) <==> exists t :: t in tv && n == TenantName(u.username, t, realm);
      }
    }
  }

  /** Which principals a user should have, name by name. */
  lemma ExpectedExactly(u: User, realm: string, n: string)
    ensures var tenants := if "nova-tenant" in u.attributes then u.attributes["nova-tenant"] else [];
            var flags := if "nova-platform-nfs" in u.attributes then u.attributes["nova-platform-nfs"] else [];
            n in Expected(u, realm) <==>
            && u.enabled && Trim(u.username) != ""
            && if tenants == [] then n == u.username + "@" + realm && exists v :: v in flags && Folds(Trim(v), "true")
               else exists t :: t in tenants && Trim(t) != "" && n == u.username + "/" + Trim(t) + "@" + realm
  {
    forall s: string ensures IsTrue(s) <==> Folds(s, "true") {
      IsTrueExactly(s);
    }
    assert u.username + ("@" + realm) == u.username + "@" + realm;
    forall t: string ensures TenantName(u.username, t, realm) == u.username + "/" + t + "@" + realm {
      assert (u.username + "/" + t) + ("@" + realm) == u.username + "/" + t + "@" + realm;
    }
  }

  lemma IsTrueExactly(s: string)
    ensures IsTrue(s) <==> Folds(s, "true")
  {
  }

  // ----- when two users share a principal -----

  /** `b` is `a`, a slash, and nothing or something that does not start with white space. */
  predicate Beyond(a: string, b: string) {
    HasPrefix(b, a + "/") && (|b| > |a| + 1 ==> !IsSpace(b[|a| + 1]))
  }

  /** Two paths of one text, the first cut earlier: the second head goes on from the first. */
  lemma LaterCut(a: string, t: string, b: string, w: string)
    requires a + "/" + t == b + "/" + w && |a| < |b| && t != "" && !IsSpace(t[0])
    ensures Beyond(a, b)
  {
    var l := a + "/" + t;
    assert b == l[..|b|] && a + "/" == l[..|a| + 1];
    assert l[|a| + 1] == t[0];
  }

  lemma WholeCut(a: string, t: string, b: string)
    requires a + "/" + t == b && t != "" && !IsSpace(t[0])
    ensures Beyond(a, b)
  {
    assert b[|a| + 1] == t[0];
  }

  /** What a principal of a user says before the realm, with the tenant it names, if any. */
  lemma LocalPart(u: User, realm: string, n: string) returns (local: string, t: string)
    requires n in Expected(u, realm)
    ensures n == local + ("@" + realm) && Trim(u.username) != "" && u.enabled
    ensures if Tenants(u) == [] then local == u.username else local == u.username + "/" + t && t != "" && !IsSpace(t[0])
  {
    local, t := u.username, "";
    if Tenants(u) != [] {
      var raw :| raw in Tenants(u) && Trim(raw) != "" && n == TenantName(u.username, Trim(raw), realm);
      local, t := u.username + "/" + Trim(raw), Trim(raw);
      TrimStarts(raw);
    }
  }

  /** Users with different usernames, neither going beyond the other, share no principal. */
  lemma ExpectedDisjoint(u: User, v: User, realm: string)
    requires u.username != v.username && !Beyond(u.username, v.username) && !Beyond(v.username, u.username)
    ensures Expected(u, realm) !! Expected(v, realm)
  {
    forall n | n in Expected(u, realm) ensures n !in Expected(v, realm) {
      if n in Expected(v, realm) {
        SharedMeansBeyond(u, v, realm, n);
      }
    }
  }

  lemma SharedMeansBeyond(u: User, v: User, realm: string, n: string)
    requires u.username != v.username && n in Expected(u, realm) && n in Expected(v, realm)
    ensures Beyond(u.username, v.username) || Beyond(v.username, u.username)
  {
    var a, b := u.username, v.username;
    var local, t := LocalPart(u, realm, n);
    var local', w := LocalPart(v, realm, n);
    StripSuffix(local, "@" + realm);
    StripSuffix(local', "@" + realm);
    assert a == local[..|a|] && b == local'[..|b|];
    if Tenants(u) == [] {
      if Tenants(v) != [] {
        WholeCut(b, w, a);
      }
    } else if Tenants(v) == [] {
      WholeCut(a, t, b);
    } else if |a| < |b| {
      LaterCut(a, t, b, w);
    } else if |b| < |a| {
      LaterCut(b, w, a, t);
    }
  }

  ghost predicate Shares(u: User, v: User, realm: string) {
    exists n :: n in Expected(u, realm) && n in Expected(v, realm)
  }

  /** Of two different usernames, some users who bear them share a principal if and only if
      one name goes beyond the other. */
  lemma UsersCollideExactly(a: string, b: string, realm: string)
    requires a != b && Trim(a) != "" && Trim(b) != ""
    ensures (exists u: User, v: User :: u.username == a && v.username == b && Shares(u, v, realm)) <==> Beyond(a, b) || Beyond(b, a)
  {
    if u: User, v: User :| u.username == a && v.username == b && Shares(u, v, realm) {
      var n :| n in Expected(u, realm) && n in Expected(v, realm);
      SharedMeansBeyond(u, v, realm, n);
    }
    if Beyond(a, b) {
      var u, v := Colliding(a, b, realm);
      assert Shares(u, v, realm);
    }
    if Beyond(b, a) {
      var v, u := Colliding(b, a, realm);
      assert Shares(u, v, realm);
    }
  }

  /** Users who share one: the longer name with tenant "x", the shorter with the rest of the
      longer, a slash and "x" as its tenant. */
  lemma Colliding(a: string, b: string, realm: string) returns (u: User, v: User)
    requires Beyond(a, b) && Trim(a) != "" && Trim(b) != ""
    ensures u.username == a && v.username == b
    ensures exists n :: n in Expected(u, realm) && n in Expected(v, realm)
  {
    var rest := b[|a| + 1..] + "/x";
    u := User("1", a, true, map[TenantAttribute := [rest]]);
    v := User("2", b, true, map[TenantAttribute := ["x"]]);
    TrimFixes(rest);
    TrimFixes("x");
    assert a + "/" + rest == b + "/" + "x";
    var n := TenantName(b, "x", realm);
    assert Tenants(u) == [rest] && Tenants(v) == ["x"];
    assert n == TenantName(a, rest, realm);
    assert rest in Tenants(u) && Trim(rest) == rest && "x" in Tenants(v) && Trim("x") == "x";
    assert n in Expected(u, realm) && n in Expected(v, realm);
  }

  /** User "a" of tenant "b" and user "a/b" with platform NFS are one principal. */
  lemma SlashedUsernamesCollide(realm: string)
    ensures var u := User("1", "a", true, map[TenantAttribute := ["b"]]);
            var v := User("2", "a/b", true, map[PlatformNFSAttribute := ["true"]]);
            Expected(u, realm) == Expected(v, realm) == {"a/b" + ("@" + realm)}
  {
    var u := User("1", "a", true, map[TenantAttribute := ["b"]]);
    var v := User("2", "a/b", true, map[PlatformNFSAttribute := ["true"]]);
    TrimFixes("a");
    TrimFixes("b");
    TrimFixes("a/b");
    TrimFixes("true");
    assert Tenants(u) == ["b"] && Tenants(v) == [] && Values(v, PlatformNFSAttribute) == ["true"];
    assert "true" in Values(v, PlatformNFSAttribute) && PlatformEnabled(v);
    assert "a" + "/" + "b" == "a/b";
    assert "b" in Tenants(u) && TenantName("a", "b", realm) == "a/b" + ("@" + realm);
    assert forall n :: n in Expected(u, realm) <==> n == "a/b" + ("@" + realm);
  }

  // ----- what the loop recognises -----

  /** IsServicePrincipal */
  predicate IsService(name: string) {
    exists i :: 0 <= i < |ServicePrefixes| && HasPrefix(name, ServicePrefixes[i])
  }

  method IsServicePrincipal(name: string) returns (r: bool)
    ensures r <==> IsService(name)
  {
    for i := 0 to |ServicePrefixes|
      invariant forall j | 0 <= j < i :: !HasPrefix(name, ServicePrefixes[j])
    {
      var p := ServicePrefixes[i];
      if name == p || HasPrefix(name, p) {
        return true;
      }
    }
    return false;
  }

  /** PrincipalUserPattern: shaped like user@realm or user/instance@realm, and not a service. */
  predicate UserShaped(name: string, realm: string) {
    var suffix := "@" + realm;
    && !IsService(name)
    && HasSuffix(name, suffix)
    && var local := name[..|name| - |suffix|]; local != "" && Count(local, '/') <= 1
  }

  /** Usernames whose tenant principals fall under a service prefix. */
  predicate Reserved(user: string, tenant: string) {
    user in ["krbtgt", "kadmin", "nfs", "host"] || (user == "K" && HasPrefix(tenant, "M"))
  }

  lemma ServiceTenantNames(user: string, tenant: string, realm: string)
    requires '/' !in user && tenant != ""
    ensures IsService(TenantName(user, tenant, realm)) <==> Reserved(user, tenant)
  {
    var name := TenantName(user, tenant, realm);
    SlashPrefix(user, tenant + ("@" + realm), "krbtgt", "");
    SlashPrefix(user, tenant + ("@" + realm), "kadmin", "");
    SlashPrefix(user, tenant + ("@" + realm), "nfs", "");
    SlashPrefix(user, tenant + ("@" + realm), "host", "");
    SlashPrefix(user, tenant + ("@" + realm), "K", "M");
    assert name == user + "/" + (tenant + ("@" + realm));
    assert "krbtgt" + "/" + "" == ServicePrefixes[0] && "kadmin" + "/" + "" == ServicePrefixes[1]
        && "nfs" + "/" + "" == ServicePrefixes[2] && "host" + "/" + "" == ServicePrefixes[3]
        && "K" + "/" + "M" == ServicePrefixes[4];
    assert HasPrefix(tenant + ("@" + realm), "M") <==> HasPrefix(tenant, "M");
  }

  lemma SlashPrefix(user: string, rest: string, head: string, tail: string)
    requires '/' !in user && '/' !in head
    ensures HasPrefix(user + "/" + rest, head + "/" + tail) <==> user == head && HasPrefix(rest, tail)
  {
    var s, p := user + "/" + rest, head + "/" + tail;
    if HasPrefix(s, p) {
      var more := s[|p|..];
      assert s == head + ['/'] + (tail + more);
      FirstSeparator(user, rest, head, tail + more, '/');
    }
  }

  /** A bare principal is a service name exactly when the username is under a service prefix,
      which a slash-free one never is. */
  lemma ServiceBareNames(user: string, realm: string)
    ensures IsService(BareName(user, realm)) <==> IsService(user)
    ensures '/' !in user ==> !IsService(user)
  {
    forall i | 0 <= i < |ServicePrefixes|
      ensures HasPrefix(BareName(user, realm), ServicePrefixes[i]) <==> HasPrefix(user, ServicePrefixes[i])
      ensures '/' in ServicePrefixes[i]
    {
      var k := if i < 2 then 6 else if i == 2 then 3 else if i == 3 then 4 else 1;
      assert ServicePrefixes[i][k] == '/';
      PrefixBeforeAt(user, realm, ServicePrefixes[i]);
    }
  }

  lemma PrefixBeforeAt(user: string, realm: string, prefix: string)
    requires '@' !in prefix
    ensures HasPrefix(BareName(user, realm), prefix) <==> HasPrefix(user, prefix)
  {
    var name := BareName(user, realm);
    assert name[|user|] == '@' && (|user| < |prefix| ==> prefix[|user|] in prefix);
  }

  /** Exactly when the loop can later recognise, and so delete, a principal it creates. */
  lemma TenantNameRecognised(user: string, tenant: string, realm: string)
    requires tenant != ""
    ensures UserShaped(TenantName(user, tenant, realm), realm) <==> '/' !in user && '/' !in tenant && !Reserved(user, tenant)
  {
    if '/' !in user {
      ServiceTenantNames(user, tenant, realm);
    }
    StripSuffix(user + "/" + tenant, "@" + realm);
    CountAppend(user + "/", tenant, '/');
    CountAppend(user, "/", '/');
  }

  lemma BareNameRecognised(user: string, realm: string)
    requires user != ""
    ensures UserShaped(BareName(user, realm), realm) <==> Count(user, '/') <= 1 && !IsService(user)
  {
    ServiceBareNames(user, realm);
    StripSuffix(user, "@" + realm);
  }

  /** What the user's name and tenants must be like for the loop to manage the user. */
  ghost predicate Manageable(u: User) {
    u.enabled && Trim(u.username) != "" ==>
      if Tenants(u) == [] then PlatformEnabled(u) ==> Count(u.username, '/') <= 1 && !IsService(u.username)
      else forall t | t in Tenants(u) && Trim(t) != "" ::
             '/' !in u.username && '/' !in Trim(t) && !Reserved(u.username, Trim(t))
  }

  /** For every user: all expected principals are recognisable if and only if, with tenants,
      neither username nor any tenant holds a slash or makes a service name, and without, the
      username holds at most one slash and is under no service prefix. */
  lemma ExpectedRecognisedExactly(u: User, realm: string)
    ensures (forall n | n in Expected(u, realm) :: UserShaped(n, realm)) <==> Manageable(u)
  {
    if u.enabled && Trim(u.username) != "" {
      assert u.username != "" by {
        assert TrimLeft("") == "" && TrimRight("") == "";
      }
      forall t | t in Tenants(u) && Trim(t) != ""
        ensures UserShaped(TenantName(u.username, Trim(t), realm), realm)
            <==> '/' !in u.username && '/' !in Trim(t) && !Reserved(u.username, Trim(t))
        ensures TenantName(u.username, Trim(t), realm) in Expected(u, realm)
      {
        TenantNameRecognised(u.username, Trim(t), realm);
      }
      BareNameRecognised(u.username, realm);
    }
  }
}
