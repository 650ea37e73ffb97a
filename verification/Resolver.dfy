/** The plugin dependency resolver: constraint matching, the incremental walk over a
    manifest's dependency list, and the install plan it yields. */
module Resolver {
  import opened Prelude
  import opened Semver

  /** A version string together with what the SemVer parser makes of it. */
  datatype VersionText = VersionText(raw: string, parsed: Option<Version>)

  /** One clause of a constraint, such as ">=1.0.0-alpha": the versions it admits when
      pre-releases are considered, and whether its own version is a pre-release. */
  datatype Clause = Clause(admits: Version -> bool, namesPre: bool)

  /** A constraint string: blank, rejected by the parser, or one group of clauses. */
  datatype Constraint = Blank | Malformed | Clauses(clauses: seq<Clause>)

  datatype Source = Tier2 | Bundled | UnknownSource
  datatype Dependency = Dependency(name: string, constraint: Constraint, source: Source)
  datatype Route = Route(path: string, upstream: string)
  datatype Manifest = Manifest(name: string, version: VersionText, deps: seq<Dependency>,
                               routes: seq<Route>, hasUI: bool)

  datatype Action = ActInstall | ActSkip | ActBundled

  /** `constraints` lists the constraint strings whose comma-join the step reports. */
  datatype PlanStep = PlanStep(name: string, version: VersionText, source: Source,
                               action: Action, constraints: seq<Constraint>)

  datatype PlanError = Cycle | Unsatisfiable | BadSource | InstalledLookupFailed
                     | MarketLookupFailed | BadConstraint | NoVersion | TooDeep

  datatype InstalledAnswer = Absent | Present(version: VersionText) | LookupFailed

  /** What the resolver reads. `market` is None when the marketplace is not configured
      or has no entry (or no versions) under the name. */
  datatype Env = Env(installed: string -> InstalledAnswer, market: string -> Option<seq<VersionText>>)

  const NoText := VersionText("", None)

  // ----- constraints -----

  predicate IsPre(v: VersionText) {
    v.parsed.Some? && v.parsed.value.pre != []
  }

  predicate NamesPre(c: Constraint) {
    c.Clauses? && exists i | 0 <= i < |c.clauses| :: c.clauses[i].namesPre
  }

  /** Every clause admits the version, pre-releases considered. */
  predicate Admits(c: Constraint, v: VersionText) {
    match c
    case Blank => true
    case Malformed => false
    case Clauses(cs) => v.parsed.Some? && forall i | 0 <= i < |cs| :: cs[i].admits(v.parsed.value)
  }

  /** constraintSatisfied: a group considers pre-releases only if one of its clauses names one. */
  predicate Satisfied(c: Constraint, v: VersionText) {
    c.Blank? || (Admits(c, v) && (IsPre(v) ==> NamesPre(c)))
  }

  /** filterEmpty */
  function FilterBlank(cs: seq<Constraint>): (r: seq<Constraint>) {
    if cs == [] then []
    else if cs[|cs| - 1].Blank? then FilterBlank(cs[..|cs| - 1])
    else FilterBlank(cs[..|cs| - 1]) + [cs[|cs| - 1]]
  }

  /** The parse of the comma-joined non-blank constraints. */
  function Join(cs: seq<Constraint>): (r: Constraint) {
    if cs == [] then Blank
    else
      var init, last := Join(cs[..|cs| - 1]), cs[|cs| - 1];
      if last.Blank? then init
      else if init.Blank? then last
      else if init.Malformed? || last.Malformed? then Malformed
      else Clauses(init.clauses + last.clauses)
  }

  /** A list of constraints considers pre-releases: one of them names one, or none says anything. */
  ghost predicate Opens(cs: seq<Constraint>) {
    (exists c :: c in cs && NamesPre(c)) || (forall c | c in cs :: c.Blank?)
  }

  /** A version the constraints select together. */
  ghost predicate Candidate(v: VersionText, cs: seq<Constraint>) {
    v.parsed.Some? && (forall c | c in cs :: Admits(c, v)) && (IsPre(v) ==> Opens(cs))
  }

  /** Joining with commas makes one group: every constraint must admit the version, one
      that names a pre-release opens the group for all, and a malformed one spoils it. */
  lemma {:induction false} JoinIsOneGroup(cs: seq<Constraint>, v: VersionText)
    ensures Join(FilterBlank(cs)) == Join(cs)
    ensures Join(cs).Malformed? <==> Malformed in cs
    ensures v.parsed.Some? ==> (Satisfied(Join(cs), v) <==> Candidate(v, cs))
  {
    JoinParts(cs, v);
  }

  lemma {:induction false} JoinParts(cs: seq<Constraint>, v: VersionText)
    ensures Join(FilterBlank(cs)) == Join(cs)
    ensures Join(cs).Malformed? <==> Malformed in cs
    ensures Join(cs).Blank? <==> forall c | c in cs :: c.Blank?
    ensures !Join(cs).Malformed? ==> (NamesPre(Join(cs)) <==> exists c :: c in cs && NamesPre(c))
    ensures v.parsed.Some? ==> (Admits(Join(cs), v) <==> forall c | c in cs :: Admits(c, v))
  {
    if cs != [] {
      var init, last := cs[..|cs| - 1], cs[|cs| - 1];
      JoinParts(init, v);
      assert cs == init + [last];
      assert forall c :: c in cs <==> c in init || c == last;
      if !last.Blank? {
        assert FilterBlank(cs)[..|FilterBlank(cs)| - 1] == FilterBlank(init);
      }
      if Join(init).Clauses? && last.Clauses? {
        ClausesAppend(Join(init).clauses, last.clauses, v);
      }
    }
  }

  lemma ClausesAppend(a: seq<Clause>, b: seq<Clause>, v: VersionText)
    ensures Admits(Clauses(a + b), v) <==> Admits(Clauses(a), v) && Admits(Clauses(b), v)
    ensures NamesPre(Clauses(a + b)) <==> NamesPre(Clauses(a)) || NamesPre(Clauses(b))
  {
    assert forall i | 0 <= i < |a| :: (a + b)[i] == a[i];
    assert forall i | 0 <= i < |b| :: (a + b)[|a| + i] == b[i];
  }

  // ----- the highest satisfying version -----

  /** `i` is the batch choice: no candidate ranks above it, and of equals it is listed first. */
  ghost predicate IsBest(vs: seq<VersionText>, cs: seq<Constraint>, i: int) {
    && 0 <= i < |vs| && Candidate(vs[i], cs)
    && forall j | 0 <= j < |vs| && Candidate(vs[j], cs) ::
         var rank := Compare(vs[j].parsed.value, vs[i].parsed.value);
         rank <= 0 && (j < i ==> rank < 0)
  }

  /** The single pick over a whole list of constraints, stated without any algorithm. */
  ghost function Pick(vs: seq<VersionText>, cs: seq<Constraint>): (r: Result<VersionText, PlanError>) {
    if Malformed in cs then Err(BadConstraint)
    else if i :| IsBest(vs, cs, i) then Ok(vs[i])
    else Err(NoVersion)
  }

  lemma BestIsUnique(vs: seq<VersionText>, cs: seq<Constraint>, i: int, j: int)
    requires IsBest(vs, cs, i) && IsBest(vs, cs, j)
    ensures i == j
  {
    PrecedenceOrder(vs[i].parsed.value, vs[j].parsed.value, vs[i].parsed.value);
  }

  lemma PickIsBest(vs: seq<VersionText>, cs: seq<Constraint>, i: int)
    requires Malformed !in cs && IsBest(vs, cs, i)
    ensures Pick(vs, cs) == Ok(vs[i])
  {
    var k :| IsBest(vs, cs, k) && Pick(vs, cs) == Ok(vs[k]);
    BestIsUnique(vs, cs, i, k);
  }

  /** A pick fails exactly on a malformed constraint or when no listed version is a candidate. */
  lemma PickSucceedsExactly(vs: seq<VersionText>, cs: seq<Constraint>)
    ensures Pick(vs, cs).Ok? <==> Malformed !in cs && exists i :: 0 <= i < |vs| && Candidate(vs[i], cs)
    ensures Pick(vs, cs).Ok? ==> Pick(vs, cs).value in vs && Candidate(Pick(vs, cs).value, cs)
  {
    if Malformed !in cs && exists i :: 0 <= i < |vs| && Candidate(vs[i], cs) {
      var i :| 0 <= i < |vs| && Candidate(vs[i], cs);
      var k := BestExists(vs, cs, i);
      PickIsBest(vs, cs, k);
    }
  }

  /** Two picks that are candidates of one another's constraints are one. */
  lemma MutualPicks(vs: seq<VersionText>, cs: seq<Constraint>, ds: seq<Constraint>)
    requires Pick(vs, cs).Ok? && Candidate(Pick(vs, cs).value, ds)
    requires Pick(vs, ds).Ok? && Candidate(Pick(vs, ds).value, cs)
    ensures Pick(vs, cs) == Pick(vs, ds)
  {
    var i :| IsBest(vs, cs, i) && Pick(vs, cs) == Ok(vs[i]);
    var j :| IsBest(vs, ds, j) && Pick(vs, ds) == Ok(vs[j]);
    PrecedenceOrder(vs[i].parsed.value, vs[j].parsed.value, vs[i].parsed.value);
    assert i == j;
  }

  /** An earlier pick that satisfies the new constraint stays selectable, and is the batch
      pick over old and new exactly when those already considered pre-releases or the batch
      pick is a release. */
  lemma KeptPickIsBatchPick(vs: seq<VersionText>, cs: seq<Constraint>, c: Constraint, v: VersionText)
    requires Pick(vs, cs) == Ok(v) && Satisfied(c, v)
    ensures Pick(vs, cs + [c]).Ok? && Candidate(v, cs + [c])
    ensures Pick(vs, cs + [c]) == Ok(v) <==> Opens(cs) || !IsPre(Pick(vs, cs + [c]).value)
  {
    var all := cs + [c];
    PickSucceedsExactly(vs, cs);
    PickSucceedsExactly(vs, all);
    assert forall d :: d in all <==> d in cs || d == c;
    assert Candidate(v, all) && exists i :: 0 <= i < |vs| && vs[i] == v;
    var b := Pick(vs, all).value;
    if Opens(cs) || !IsPre(b) {
      MutualPicks(vs, all, cs);
    }
  }

  /** If a pick over more constraints succeeds, one over fewer does exactly when they
      consider pre-releases or a listed release meets them. */
  lemma PickSurvivesRelaxing(vs: seq<VersionText>, cs: seq<Constraint>, more: seq<Constraint>)
    requires (forall c | c in cs :: c in more) && Pick(vs, more).Ok?
    ensures Pick(vs, cs).Ok? <==> Opens(cs) || exists v :: v in vs && !IsPre(v) && Candidate(v, cs)
  {
    PickSucceedsExactly(vs, more);
    PickSucceedsExactly(vs, cs);
    var b := Pick(vs, more).value;
    var i :| 0 <= i < |vs| && vs[i] == b;
    if Opens(cs) {
      assert Candidate(vs[i], cs);
    }
  }

  /** Only which constraints are listed matters, not their order or number. */
  lemma PickIgnoresOrder(vs: seq<VersionText>, cs: seq<Constraint>, ds: seq<Constraint>)
    requires forall c :: c in cs <==> c in ds
    ensures Pick(vs, cs) == Pick(vs, ds)
  {
    assert forall v :: Candidate(v, cs) <==> Candidate(v, ds);
    assert forall i :: IsBest(vs, cs, i) <==> IsBest(vs, ds, i);
    if i :| IsBest(vs, cs, i) && Malformed !in cs {
      PickIsBest(vs, cs, i);
      PickIsBest(vs, ds, i);
    }
  }

  /** Dropping blank constraints changes nothing. */
  lemma PickIgnoresBlanks(vs: seq<VersionText>, cs: seq<Constraint>)
    ensures Pick(vs, FilterBlank(cs)) == Pick(vs, cs)
  {
    forall c: Constraint ensures c in FilterBlank(cs) <==> c in cs && !c.Blank? {
      FilterBlankElements(cs, c);
    }
    assert forall v :: Candidate(v, cs) <==> Candidate(v, FilterBlank(cs));
    assert forall i :: IsBest(vs, cs, i) <==> IsBest(vs, FilterBlank(cs), i);
    if i :| IsBest(vs, cs, i) && Malformed !in cs {
      PickIsBest(vs, cs, i);
      PickIsBest(vs, FilterBlank(cs), i);
    }
  }

  /** The reported constraints are the non-blank ones, in order. */
  lemma {:induction false} FilterBlankInOrder(cs: seq<Constraint>, said: Constraint -> bool)
    requires forall c :: said(c) <==> c != Blank
    ensures Sifts(cs, FilterBlank(cs), said)
  {
    if cs == [] {
      SiftsNothing(said);
    } else {
      var init, last := cs[..|cs| - 1], cs[|cs| - 1];
      assert cs == init + [last];
      FilterBlankInOrder(init, said);
      SiftsOne(init, FilterBlank(init), said, last, cs, FilterBlank(cs));
    }
  }

  lemma {:induction false} FilterBlankElements(cs: seq<Constraint>, c: Constraint)
    ensures c in FilterBlank(cs) <==> c in cs && !c.Blank?
  {
    if cs != [] {
      assert cs == cs[..|cs| - 1] + [cs[|cs| - 1]];
      FilterBlankElements(cs[..|cs| - 1], c);
    }
  }

  lemma {:induction false} BestExists(vs: seq<VersionText>, cs: seq<Constraint>, i: int) returns (k: int)
    requires 0 <= i < |vs| && Candidate(vs[i], cs)
    ensures IsBest(vs, cs, k)
  {
    var init := vs[..|vs| - 1];
    var last := |vs| - 1;
    if j :| 0 <= j < last && Candidate(init[j], cs) {
      k := BestExists(init, cs, j);
      k := BestSoFar(vs, cs, last, k);
    } else {
      k := last;
      PrecedenceOrder(vs[k].parsed.value, vs[k].parsed.value, vs[k].parsed.value);
    }
    assert vs == vs[..last + 1];
  }

  /** One turn of the scanning loop: `k` best among the first `n`, then version `n`. */
  lemma BestSoFar(vs: seq<VersionText>, cs: seq<Constraint>, n: int, k: int) returns (r: int)
    requires 0 <= n < |vs| && IsBest(vs[..n], cs, k)
    ensures IsBest(vs[..n + 1], cs, r)
    ensures r == if Candidate(vs[n], cs) && Compare(vs[n].parsed.value, vs[k].parsed.value) > 0 then n else k
  {
    r := k;
    if Candidate(vs[n], cs) {
      if Compare(vs[n].parsed.value, vs[k].parsed.value) > 0 {
        r := n;
      }
      forall j | 0 <= j <= n && Candidate(vs[j], cs)
        ensures Compare(vs[j].parsed.value, vs[r].parsed.value) <= 0
        ensures j < r ==> Compare(vs[j].parsed.value, vs[r].parsed.value) < 0
      {
        assert j < n ==> vs[..n][j] == vs[j];
        PrecedenceOrder(vs[j].parsed.value, vs[k].parsed.value, vs[n].parsed.value);
        PrecedenceOrder(vs[k].parsed.value, vs[n].parsed.value, vs[n].parsed.value);
        PrecedenceOrder(vs[n].parsed.value, vs[n].parsed.value, vs[n].parsed.value);
      }
    }
    assert forall j | 0 <= j < n :: vs[..n][j] == vs[..n + 1][j];
  }

  /** pickHighestSatisfying: the scanning loop computes exactly the batch choice. */
  method PickHighestSatisfying(versions: seq<VersionText>, constraints: seq<Constraint>)
    returns (r: Result<VersionText, PlanError>)
    ensures r == Pick(versions, constraints)
  {
    var combined := Join(FilterBlank(constraints));
    JoinIsOneGroup(constraints, NoText);
    if combined.Malformed? {
      return Err(BadConstraint);
    }
    var best: Option<nat> := None;
    for n := 0 to |versions|
      invariant best.None? ==> forall j | 0 <= j < n :: !Candidate(versions[j], constraints)
      invariant best.Some? ==> IsBest(versions[..n], constraints, best.value)
    {
      var v := versions[n];
      JoinIsOneGroup(constraints, v);
      ghost var before := best;
      if v.parsed.Some? && Satisfied(combined, v) {
        if best.None? || Compare(v.parsed.value, versions[best.value].parsed.value) > 0 {
          best := Some(n);
        }
      }
      if before.Some? {
        var _ := BestSoFar(versions, constraints, n, before.value);
      } else if best.Some? {
        PrecedenceOrder(v.parsed.value, v.parsed.value, v.parsed.value);
        assert forall j | 0 <= j < n :: versions[..n + 1][j] == versions[j];
      }
    }
    assert versions[..|versions|] == versions;
    if best.None? {
      return Err(NoVersion);
    }
    PickIsBest(versions, constraints, best.value);
    return Ok(versions[best.value]);
  }

  // ----- what the incremental choice comes to -----

  /** None of the constraints names a pre-release. */
  ghost predicate Quiet(cs: seq<Constraint>) {
    forall c | c in cs :: !NamesPre(c)
  }

  /** The constraints before the first one that names a pre-release. */
  ghost function Plain(cs: seq<Constraint>): (r: seq<Constraint>) {
    if Quiet(cs) then cs else Plain(cs[..|cs| - 1])
  }

  /** All the constraints that name no pre-release. */
  ghost function Quiets(cs: seq<Constraint>): (r: seq<Constraint>) {
    if cs == [] then []
    else
      var init, last := Quiets(cs[..|cs| - 1]), cs[|cs| - 1];
      if NamesPre(last) then init else init + [last]
  }

  /** The pick over `head`, kept if every constraint of `all` accepts it, else the batch pick. */
  ghost function Choice(vs: seq<VersionText>, head: seq<Constraint>, all: seq<Constraint>): (r: Option<VersionText>) {
    if Pick(vs, head).Err? || Pick(vs, all).Err? then None
    else if forall c | c in all :: Satisfied(c, Pick(vs, head).value) then Some(Pick(vs, head).value)
    else Some(Pick(vs, all).value)
  }

  /** Where taking the constraints one at a time ends, in terms of two batch picks. */
  ghost function Settled(vs: seq<VersionText>, cs: seq<Constraint>): (r: Option<VersionText>) {
    Choice(vs, Plain(cs), cs)
  }

  lemma {:induction false} PlainIsQuiet(cs: seq<Constraint>)
    ensures Quiet(Plain(cs)) && |Plain(cs)| <= |cs| && Plain(cs) == cs[..|Plain(cs)|]
    ensures forall c | c in Plain(cs) :: c in cs
  {
    if !Quiet(cs) {
      PlainIsQuiet(cs[..|cs| - 1]);
      assert cs[..|cs| - 1][..|Plain(cs)|] == cs[..|Plain(cs)|];
    }
  }

  lemma {:induction false} QuietsElements(cs: seq<Constraint>, c: Constraint)
    ensures c in Quiets(cs) <==> c in cs && !NamesPre(c)
  {
    if cs != [] {
      assert cs == cs[..|cs| - 1] + [cs[|cs| - 1]];
      QuietsElements(cs[..|cs| - 1], c);
    }
  }

  /** A version picked by quiet constraints is accepted by each of them on its own. */
  lemma QuietPickAccepted(vs: seq<VersionText>, cs: seq<Constraint>, c: Constraint)
    requires Quiet(cs) && Pick(vs, cs).Ok? && c in cs
    ensures Satisfied(c, Pick(vs, cs).value)
  {
    PickSucceedsExactly(vs, cs);
  }

  lemma AcceptedIsCandidate(v: VersionText, head: seq<Constraint>, all: seq<Constraint>)
    requires Candidate(v, head) && forall c | c in all :: Satisfied(c, v)
    ensures Candidate(v, all)
  {
  }

  lemma QuietSettled(vs: seq<VersionText>, cs: seq<Constraint>)
    requires Quiet(cs)
    ensures Settled(vs, cs) == if Pick(vs, cs).Ok? then Some(Pick(vs, cs).value) else None
  {
    if Pick(vs, cs).Ok? {
      forall d | d in cs ensures Satisfied(d, Pick(vs, cs).value) { QuietPickAccepted(vs, cs, d); }
    }
  }

  /** A pick that fits one more constraint stays if that one opens nothing new. */
  lemma PickKept(vs: seq<VersionText>, cs: seq<Constraint>, c: Constraint)
    requires Pick(vs, cs).Ok? && Pick(vs, cs + [c]).Ok? && Satisfied(c, Pick(vs, cs).value)
    requires Quiet(cs + [c]) || !Quiet(cs)
    ensures Pick(vs, cs + [c]) == Pick(vs, cs)
  {
    var all := cs + [c];
    assert forall d :: d in all <==> d in cs || d == c;
    PickSucceedsExactly(vs, cs);
    PickSucceedsExactly(vs, all);
    assert Candidate(Pick(vs, all).value, cs);
    assert Candidate(Pick(vs, cs).value, all);
    MutualPicks(vs, cs, all);
  }

  /** One more constraint: the turn of the walk that keeps a step still fitting it and
      narrows any other goes from one settled choice to the next. */
  lemma SettledExtends(vs: seq<VersionText>, cs: seq<Constraint>, c: Constraint)
    requires Settled(vs, cs).Some? && Pick(vs, cs + [c]).Ok?
    ensures var v := Settled(vs, cs).value;
            Settled(vs, cs + [c]) == Some(if Satisfied(c, v) then v else Pick(vs, cs + [c]).value)
  {
    var all := cs + [c];
    assert all[..|all| - 1] == cs;
    assert forall d :: d in all <==> d in cs || d == c;
    if Quiet(all) {
      QuietSettled(vs, cs);
      QuietSettled(vs, all);
    } else {
      assert Plain(all) == Plain(cs);
      if Quiet(cs) {
        QuietSettled(vs, cs);
        forall d | d in cs ensures Satisfied(d, Pick(vs, cs).value) { QuietPickAccepted(vs, cs, d); }
      }
    }
    if Satisfied(c, Pick(vs, cs).value) && (Quiet(all) || !Quiet(cs)) {
      PickKept(vs, cs, c);
    }
  }

  /** The first constraint of all settles on its own pick. */
  lemma SettledFirst(vs: seq<VersionText>, c: Constraint)
    ensures Settled(vs, [c]) == if Pick(vs, [c]).Ok? then Some(Pick(vs, [c]).value) else None
  {
    PickSucceedsExactly(vs, [c]);
    PickSucceedsExactly(vs, []);
    if NamesPre(c) {
      assert [c][..0] == [] && Plain([c]) == [];
      if Pick(vs, [c]).Ok? {
        var b := Pick(vs, [c]).value;
        assert Candidate(b, []);
        var v := Pick(vs, []).value;
        if Satisfied(c, v) {
          AcceptedIsCandidate(v, [], [c]);
          MutualPicks(vs, [], [c]);
        }
      }
    } else if Pick(vs, [c]).Ok? {
      QuietPickAccepted(vs, [c], c);
    }
  }

  /** Every prefix of a settled list is settled. */
  lemma SettledShrinks(vs: seq<VersionText>, cs: seq<Constraint>, c: Constraint)
    requires Settled(vs, cs + [c]).Some? && cs != []
    ensures Settled(vs, cs).Some?
  {
    var all := cs + [c];
    assert all[..|all| - 1] == cs;
    assert forall d :: d in all <==> d in cs || d == c;
    if Quiet(all) || !Quiet(cs) {
      PickShrinks(vs, cs, c);
    }
    if Quiet(cs) {
      assert Plain(cs) == cs;
    }
  }

  lemma PickShrinks(vs: seq<VersionText>, cs: seq<Constraint>, c: Constraint)
    requires Pick(vs, cs + [c]).Ok? && (Quiet(cs + [c]) || !Quiet(cs))
    ensures Pick(vs, cs).Ok?
  {
    var all := cs + [c];
    assert forall d :: d in all <==> d in cs || d == c;
    PickSucceedsExactly(vs, all);
    PickSucceedsExactly(vs, cs);
    assert Candidate(Pick(vs, all).value, cs);
  }

  /** `head` picks what every constraint accepts, or nothing, while the batch pick is a
      pre-release that `head` does not consider. */
  ghost predicate Torn(vs: seq<VersionText>, head: seq<Constraint>, all: seq<Constraint>) {
    && Pick(vs, all).Ok? && IsPre(Pick(vs, all).value) && !Opens(head)
    && (Pick(vs, head).Err? || forall c | c in all :: Satisfied(c, Pick(vs, head).value))
  }

  /** The choice is the batch pick exactly when it is not torn away from it. */
  lemma ChoiceIsBatchExactly(vs: seq<VersionText>, head: seq<Constraint>, all: seq<Constraint>)
    requires Quiet(head) && (forall c | c in head :: c in all) && Pick(vs, all).Ok?
    ensures Choice(vs, head, all) == Some(Pick(vs, all).value) <==> !Torn(vs, head, all)
  {
    var b := Pick(vs, all).value;
    PickSucceedsExactly(vs, all);
    PickSucceedsExactly(vs, head);
    if !IsPre(b) || Opens(head) {
      assert Candidate(b, head) && exists i :: 0 <= i < |vs| && vs[i] == b;
      var v := Pick(vs, head).value;
      if forall c | c in all :: Satisfied(c, v) {
        AcceptedIsCandidate(v, head, all);
        MutualPicks(vs, head, all);
      }
    }
  }

  /** Taking constraints in the order given ends at the batch pick over all of them exactly
      when that pick is a release, or the constraints before the first that names a
      pre-release are blank, or their pick exists and a later constraint rejects it. */
  lemma SettledIsBatchExactly(vs: seq<VersionText>, cs: seq<Constraint>)
    requires Pick(vs, cs).Ok?
    ensures Settled(vs, cs) == Some(Pick(vs, cs).value) <==> !Torn(vs, Plain(cs), cs)
  {
    PlainIsQuiet(cs);
    ChoiceIsBatchExactly(vs, Plain(cs), cs);
  }

  lemma ChoiceIgnoresOrder(vs: seq<VersionText>, h: seq<Constraint>, h': seq<Constraint>, a: seq<Constraint>, a': seq<Constraint>)
    requires (forall c :: c in h <==> c in h') && (forall c :: c in a <==> c in a')
    ensures Choice(vs, h, a) == Choice(vs, h', a')
    ensures Torn(vs, h, a) <==> Torn(vs, h', a')
  {
    PickIgnoresOrder(vs, h, h');
    PickIgnoresOrder(vs, a, a');
  }

  /** The quiet constraints, all taken first, tear the choice away from the batch pick. */
  ghost predicate OrderTells(vs: seq<VersionText>, cs: seq<Constraint>) {
    Torn(vs, Quiets(cs), cs)
  }

  /** If the quiet constraints together do not tear the choice away, no order does. */
  lemma UntornInEveryOrder(vs: seq<VersionText>, cs: seq<Constraint>, ds: seq<Constraint>)
    requires (forall c :: c in cs <==> c in ds) && Pick(vs, cs).Ok? && !OrderTells(vs, cs)
    ensures Settled(vs, ds) == Some(Pick(vs, cs).value)
  {
    PickIgnoresOrder(vs, cs, ds);
    PlainIsQuiet(ds);
    forall c ensures c in Quiets(cs) <==> c in cs && !NamesPre(c) { QuietsElements(cs, c); }
    var q, p := Quiets(cs), Plain(ds);
    PickSucceedsExactly(vs, q);
    PickSucceedsExactly(vs, p);
    PickSucceedsExactly(vs, cs);
    if Torn(vs, p, ds) {
      assert !Opens(q);
      if Pick(vs, q).Ok? {
        assert Candidate(Pick(vs, q).value, p);
        assert Candidate(Pick(vs, p).value, q);
        MutualPicks(vs, p, q);
      }
    }
    SettledIsBatchExactly(vs, ds);
  }

  /** Every order settles if the quiet constraints have a pick. */
  lemma SettlesInEveryOrder(vs: seq<VersionText>, cs: seq<Constraint>, ds: seq<Constraint>)
    requires (forall c :: c in cs <==> c in ds) && Pick(vs, cs).Ok? && Pick(vs, Quiets(cs)).Ok?
    ensures Settled(vs, ds).Some?
  {
    PickIgnoresOrder(vs, cs, ds);
    PlainIsQuiet(ds);
    forall c ensures c in Quiets(cs) <==> c in cs && !NamesPre(c) { QuietsElements(cs, c); }
    PickAmongFewer(vs, Plain(ds), Quiets(cs));
  }

  lemma PickAmongFewer(vs: seq<VersionText>, cs: seq<Constraint>, more: seq<Constraint>)
    requires Quiet(more) && (forall c | c in cs :: c in more) && Pick(vs, more).Ok?
    ensures Pick(vs, cs).Ok?
  {
    PickSucceedsExactly(vs, more);
    PickSucceedsExactly(vs, cs);
    assert Candidate(Pick(vs, more).value, cs);
  }

  /** A settled choice is selected by all the constraints together, and accepted by each on
      its own exactly when it is a release or all of them consider pre-releases. */
  lemma SettledAcceptedExactly(vs: seq<VersionText>, cs: seq<Constraint>)
    requires Settled(vs, cs).Some?
    ensures var v := Settled(vs, cs).value;
            && v in vs && Candidate(v, cs)
            && ((forall c | c in cs :: Satisfied(c, v)) <==> !IsPre(v) || forall c | c in cs && !c.Blank? :: NamesPre(c))
  {
    PlainIsQuiet(cs);
    PickSucceedsExactly(vs, cs);
    PickSucceedsExactly(vs, Plain(cs));
    var v := Settled(vs, cs).value;
    if forall c | c in cs :: Satisfied(c, v) {
      assert v.parsed.Some?;
    }
  }

  /** The non-blank constraints all name a pre-release or none does. */
  ghost predicate Agree(cs: seq<Constraint>) {
    Quiet(cs) || forall c | c in cs && !c.Blank? :: NamesPre(c)
  }

  /** Constraints that agree, or a list without pre-releases, never tear the choice. */
  lemma AgreementSuffices(vs: seq<VersionText>, cs: seq<Constraint>)
    requires Agree(cs) || forall v | v in vs :: !IsPre(v)
    ensures !OrderTells(vs, cs)
  {
    PickSucceedsExactly(vs, cs);
    forall c ensures c in Quiets(cs) <==> c in cs && !NamesPre(c) { QuietsElements(cs, c); }
  }

  /** Over every marketplace, a set of constraints yields its batch pick in every order if
      and only if they agree or no pre-release meets them all. */
  lemma AgreementExactly(cs: seq<Constraint>)
    requires Malformed !in cs
    ensures (forall vs :: !OrderTells(vs, cs)) <==>
            Agree(cs) || forall p: VersionText | IsPre(p) :: exists c :: c in cs && !Admits(c, p)
  {
    forall c ensures c in Quiets(cs) <==> c in cs && !NamesPre(c) { QuietsElements(cs, c); }
    if Agree(cs) {
      forall vs ensures !OrderTells(vs, cs) { AgreementSuffices(vs, cs); }
    } else if p: VersionText :| IsPre(p) && forall c | c in cs :: Admits(c, p) {
      var vs := [p];
      PickSucceedsExactly(vs, cs);
      PickSucceedsExactly(vs, Quiets(cs));
      assert Candidate(vs[0], cs);
      assert OrderTells(vs, cs) && !(exists c :: c in cs && !Admits(c, p));
    } else {
      forall vs ensures !OrderTells(vs, cs) { PickSucceedsExactly(vs, cs); }
    }
  }

  // ----- the walk over a dependency list -----

  /** The fields of resolveState that a walk accumulates. */
  datatype Walk = Walk(resolved: map<string, PlanStep>, order: seq<string>,
                       constraints: map<string, seq<Constraint>>)

  const Start := Walk(map[], [], map[])

  function Seen(w: Walk, name: string): (r: seq<Constraint>) {
    if name in w.constraints then w.constraints[name] else []
  }

  function Record(w: Walk, step: PlanStep): (r: Walk) {
    w.(resolved := w.resolved[step.name := step], order := w.order + [step.name])
  }

  /** One turn of the walk's loop, on dependency `d` of the plugin named `root`. */
  ghost function WalkDep(env: Env, root: string, w: Walk, d: Dependency): (r: Result<Walk, PlanError>) {
    match d.source
    case Bundled =>
      Ok(if d.name in w.resolved then w
         else Record(w, PlanStep(d.name, NoText, Bundled, ActBundled, [d.constraint])))
    case UnknownSource => Err(BadSource)
    case Tier2 =>
      if d.name == root then Err(Cycle)
      else
        var cs := Seen(w, d.name) + [d.constraint];
        var w' := w.(constraints := w.constraints[d.name := cs]);
        match env.installed(d.name)
        case LookupFailed => Err(InstalledLookupFailed)
        case Present(v) => WalkInstalled(w', d, v)
        case Absent =>
          if env.market(d.name).None? then Err(MarketLookupFailed)
          else match Pick(env.market(d.name).value, cs)
            case Err(e) => Err(e)
            case Ok(picked) => Ok(WalkPicked(w', d, cs, picked))
  }

  /** Step 1 of the loop: a plugin that is already installed is skipped or refused. */
  function WalkInstalled(w: Walk, d: Dependency, v: VersionText): (r: Result<Walk, PlanError>) {
    if !Satisfied(d.constraint, v) then Err(Unsatisfiable)
    else if d.name !in w.resolved then Ok(Record(w, PlanStep(d.name, v, Tier2, ActSkip, [d.constraint])))
    else if w.resolved[d.name].action.ActSkip? && !Satisfied(d.constraint, w.resolved[d.name].version)
      then Err(Unsatisfiable)
    else Ok(w)
  }

  /** Step 3 of the loop: record the pick, or narrow a recorded one it no longer fits. */
  function WalkPicked(w: Walk, d: Dependency, cs: seq<Constraint>, picked: VersionText): (r: Walk) {
    if d.name !in w.resolved then
      Record(w, PlanStep(d.name, picked, Tier2, ActInstall, FilterBlank(cs)))
    else
      var existing := w.resolved[d.name];
      if existing.action.ActInstall? && !Satisfied(d.constraint, existing.version) then
        w.(resolved := w.resolved[d.name := existing.(version := picked, constraints := FilterBlank(cs))])
      else w
  }

  ghost function WalkDeps(env: Env, root: string, w: Walk, deps: seq<Dependency>): (r: Result<Walk, PlanError>) {
    if deps == [] then Ok(w)
    else match WalkDeps(env, root, w, deps[..|deps| - 1])
      case Err(e) => Err(e)
      case Ok(w') => WalkDep(env, root, w', deps[|deps| - 1])
  }

  function RootStep(m: Manifest): (r: PlanStep) {
    PlanStep(m.name, m.version, Tier2, ActInstall, [])
  }

  function StepsInOrder(resolved: map<string, PlanStep>, order: seq<string>): (r: seq<PlanStep>)
    requires forall n | n in order :: n in resolved
    ensures |r| == |order| && forall i | 0 <= i < |r| :: r[i] == resolved[order[i]]
  {
    seq(|order|, i requires 0 <= i < |order| => resolved[order[i]])
  }

  /** Resolver.Plan as a function: dependency steps in discovery order, the root last. */
  ghost function Plan(env: Env, m: Manifest): (r: Result<seq<PlanStep>, PlanError>) {
    match WalkDeps(env, m.name, Start, m.deps)
    case Err(e) => Err(e)
    case Ok(w) =>
      WalkDescribed(env, m.name, m.deps);
      OrderResolved(env, m.deps, w);
      Ok(StepsInOrder(w.resolved, w.order) + [RootStep(m)])
  }

  // ----- what a walk means, independently of its order -----

  /** The tier-2 constraints a dependency list declares for `name`. */
  ghost function Declared(deps: seq<Dependency>, name: string): (r: seq<Constraint>) {
    if deps == [] then []
    else
      var earlier, d := Declared(deps[..|deps| - 1], name), deps[|deps| - 1];
      if d.source.Tier2? && d.name == name then earlier + [d.constraint] else earlier
  }

  /** The source under which `name` is first declared. */
  ghost function FirstSource(deps: seq<Dependency>, name: string): (r: Option<Source>) {
    if deps == [] then None
    else
      var earlier := FirstSource(deps[..|deps| - 1], name);
      var d := deps[|deps| - 1];
      if earlier.None? && d.name == name then Some(d.source) else earlier
  }

  ghost function Names(deps: seq<Dependency>): (r: set<string>) {
    set d | d in deps :: d.name
  }

  /** The declared names, each where it is first declared. */
  ghost function NamesInOrder(deps: seq<Dependency>): (r: seq<string>) {
    if deps == [] then []
    else
      var earlier, d := NamesInOrder(deps[..|deps| - 1]), deps[|deps| - 1];
      if d.name in earlier then earlier else earlier + [d.name]
  }

  lemma {:induction false} NamesInOrderDistinct(deps: seq<Dependency>)
    ensures Distinct(NamesInOrder(deps)) && Elems(NamesInOrder(deps)) == Names(deps)
  {
    if deps != [] {
      var init, last := deps[..|deps| - 1], deps[|deps| - 1];
      assert deps == init + [last];
      NamesInOrderDistinct(init);
      NamesExtend(init, last);
      assert last.name in Elems(NamesInOrder(init)) <==> last.name in NamesInOrder(init);
      assert forall n :: n in NamesInOrder(deps) <==> n in NamesInOrder(init) || n == last.name;
    }
  }

  /** The step a name calls for that is first declared under `first` and carries the
      constraints `cs`: the installed version, or the settled choice over `cs`, which the
      constraint the step reports selects as well. */
  ghost predicate StepGiven(env: Env, first: Option<Source>, cs: seq<Constraint>, name: string, step: PlanStep) {
    && step.name == name
    && if first == Some(Bundled) then step.action.ActBundled? && step.source.Bundled? && step.version == NoText
       else step.source.Tier2? && match env.installed(name)
         case Present(v) => step.action.ActSkip? && step.version == v
         case _ => step.action.ActInstall? && env.market(name).Some?
                   && Settled(env.market(name).value, cs) == Some(step.version)
                   && Pick(env.market(name).value, step.constraints) == Ok(step.version)
  }

  /** The step the whole list calls for. */
  ghost predicate StepFor(env: Env, deps: seq<Dependency>, name: string, step: PlanStep) {
    StepGiven(env, FirstSource(deps, name), Declared(deps, name), name, step)
  }

  ghost predicate Describes(env: Env, deps: seq<Dependency>, w: Walk) {
    && (forall n :: Seen(w, n) == Declared(deps, n))
    && w.order == NamesInOrder(deps) && w.resolved.Keys == Names(deps)
    && forall n | n in w.resolved :: StepFor(env, deps, n, w.resolved[n])
  }

  /** Dependency `d` can be planned when its name carries the constraints `cs` in all. */
  ghost predicate DepOk(env: Env, root: string, cs: seq<Constraint>, d: Dependency) {
    d.source.Bundled? ||
    (d.source.Tier2? && d.name != root &&
     match env.installed(d.name)
     case LookupFailed => false
     case Present(v) => Satisfied(d.constraint, v)
     case Absent => env.market(d.name).Some? && Settled(env.market(d.name).value, cs).Some?)
  }

  ghost predicate Plannable(env: Env, root: string, deps: seq<Dependency>) {
    forall d | d in deps :: DepOk(env, root, Declared(deps, d.name), d)
  }

  lemma {:induction false} DeclaredElements(deps: seq<Dependency>, name: string, c: Constraint)
    ensures c in Declared(deps, name) <==>
            exists d :: d in deps && d.source.Tier2? && d.name == name && d.constraint == c
  {
    if deps != [] {
      var init, last := deps[..|deps| - 1], deps[|deps| - 1];
      assert deps == init + [last];
      DeclaredElements(init, name, c);
      assert forall d :: d in deps <==> d in init || d == last;
    }
  }

  lemma {:induction false} FirstSourceOf(deps: seq<Dependency>, name: string)
    ensures FirstSource(deps, name).Some? <==> name in Names(deps)
    ensures FirstSource(deps, name).Some? ==>
              exists d :: d in deps && d.name == name && FirstSource(deps, name) == Some(d.source)
  {
    if deps != [] {
      var init, last := deps[..|deps| - 1], deps[|deps| - 1];
      assert deps == init + [last];
      FirstSourceOf(init, name);
      assert forall d :: d in deps <==> d in init || d == last;
    }
  }

  lemma NamesExtend(deps: seq<Dependency>, d: Dependency)
    ensures Names(deps + [d]) == Names(deps) + {d.name}
  {
  }

  lemma Extend(deps: seq<Dependency>, d: Dependency, name: string)
    ensures Declared(deps + [d], name)
         == if d.source.Tier2? && d.name == name then Declared(deps, name) + [d.constraint] else Declared(deps, name)
    ensures FirstSource(deps + [d], name)
         == if FirstSource(deps, name).None? && d.name == name then Some(d.source) else FirstSource(deps, name)
  {
  }

  /** One turn succeeds exactly when the dependency can be planned, and then keeps the description. */
  lemma WalkDepDescribed(env: Env, root: string, w: Walk, deps: seq<Dependency>, d: Dependency)
    requires Describes(env, deps, w) && Plannable(env, root, deps)
    ensures WalkDep(env, root, w, d).Ok? <==> DepOk(env, root, Declared(deps + [d], d.name), d)
    ensures WalkDep(env, root, w, d).Ok? ==> Describes(env, deps + [d], WalkDep(env, root, w, d).value)
  {
    WalkDepSucceeds(env, root, w, deps, d);
    if WalkDep(env, root, w, d).Ok? {
      NamesExtend(deps, d);
      WalkDepShape(env, root, w, d);
      var w' := WalkDep(env, root, w, d).value;
      OrderExtends(deps, d, w, w');
      forall n ensures Seen(w', n) == Declared(deps + [d], n) {
        SeenExtends(deps, d, w, w', n);
      }
      WalkDepSteps(env, root, w, deps, d);
    }
  }

  lemma WalkDepSucceeds(env: Env, root: string, w: Walk, deps: seq<Dependency>, d: Dependency)
    requires Describes(env, deps, w) && Plannable(env, root, deps)
    ensures WalkDep(env, root, w, d).Ok? <==> DepOk(env, root, Declared(deps + [d], d.name), d)
  {
    Extend(deps, d, d.name);
    assert Seen(w, d.name) == Declared(deps, d.name);
    if d.name in w.resolved {
      assert StepFor(env, deps, d.name, w.resolved[d.name]);
    }
    if d.source.Tier2? && env.installed(d.name).Absent? && env.market(d.name).Some? {
      DeclaredSettle(env, root, deps, d.name);
      SettledMeansPicked(env.market(d.name).value, Declared(deps, d.name), d.constraint);
    }
  }

  /** In a plannable list the constraints of an absent name have settled. */
  lemma DeclaredSettle(env: Env, root: string, deps: seq<Dependency>, name: string)
    requires Plannable(env, root, deps) && env.installed(name).Absent? && env.market(name).Some?
    ensures Declared(deps, name) == [] || Settled(env.market(name).value, Declared(deps, name)).Some?
  {
    if Declared(deps, name) != [] {
      DeclaredElements(deps, name, Declared(deps, name)[0]);
      var d :| d in deps && d.source.Tier2? && d.name == name;
      assert DepOk(env, root, Declared(deps, d.name), d);
    }
  }

  lemma SettledMeansPicked(vs: seq<VersionText>, cs: seq<Constraint>, c: Constraint)
    requires cs == [] || Settled(vs, cs).Some?
    ensures Settled(vs, cs + [c]).Some? <==> Pick(vs, cs + [c]).Ok?
  {
    if cs == [] {
      SettledFirst(vs, c);
      assert cs + [c] == [c];
    } else if Pick(vs, cs + [c]).Ok? {
      SettledExtends(vs, cs, c);
    }
  }

  /** What one successful turn may touch. */
  lemma WalkDepShape(env: Env, root: string, w: Walk, d: Dependency)
    requires WalkDep(env, root, w, d).Ok?
    ensures var w' := WalkDep(env, root, w, d).value;
            && w'.order == (if d.name in w.resolved then w.order else w.order + [d.name])
            && w'.resolved.Keys == w.resolved.Keys + {d.name}
            && w'.constraints == (if d.source.Tier2? then w.constraints[d.name := Seen(w, d.name) + [d.constraint]]
                                  else w.constraints)
            && forall n | n in w.resolved && n != d.name :: w'.resolved[n] == w.resolved[n]
  {
  }

  lemma OrderExtends(deps: seq<Dependency>, d: Dependency, w: Walk, w': Walk)
    requires w.order == NamesInOrder(deps) && w.resolved.Keys == Names(deps)
    requires w'.order == if d.name in w.resolved then w.order else w.order + [d.name]
    requires w'.resolved.Keys == w.resolved.Keys + {d.name}
    ensures w'.order == NamesInOrder(deps + [d]) && w'.resolved.Keys == Names(deps + [d])
  {
    NamesExtend(deps, d);
    NamesInOrderExtend(deps, d);
  }

  lemma NamesInOrderExtend(deps: seq<Dependency>, d: Dependency)
    ensures NamesInOrder(deps + [d]) == if d.name in Names(deps) then NamesInOrder(deps) else NamesInOrder(deps) + [d.name]
  {
    NamesInOrderDistinct(deps);
    assert d.name in Elems(NamesInOrder(deps)) <==> d.name in NamesInOrder(deps);
    assert (deps + [d])[..|deps|] == deps;
  }

  lemma SeenExtends(deps: seq<Dependency>, d: Dependency, w: Walk, w': Walk, n: string)
    requires Seen(w, n) == Declared(deps, n)
    requires w'.constraints == if d.source.Tier2? then w.constraints[d.name := Seen(w, d.name) + [d.constraint]]
                               else w.constraints
    ensures Seen(w', n) == Declared(deps + [d], n)
  {
  }

  lemma WalkDepSteps(env: Env, root: string, w: Walk, deps: seq<Dependency>, d: Dependency)
    requires Describes(env, deps, w) && Plannable(env, root, deps) && WalkDep(env, root, w, d).Ok?
    ensures var w' := WalkDep(env, root, w, d).value;
            forall n | n in w'.resolved :: StepFor(env, deps + [d], n, w'.resolved[n])
  {
    WalkDepShape(env, root, w, d);
    NarrowedStep(env, root, w, deps, d);
    OtherNames(env, deps, d, w, WalkDep(env, root, w, d).value);
  }

  lemma OtherNames(env: Env, deps: seq<Dependency>, d: Dependency, w: Walk, w': Walk)
    requires forall n | n in w.resolved :: StepFor(env, deps, n, w.resolved[n])
    requires w'.resolved.Keys == w.resolved.Keys + {d.name}
    requires forall n | n in w.resolved && n != d.name :: w'.resolved[n] == w.resolved[n]
    requires StepFor(env, deps + [d], d.name, w'.resolved[d.name])
    ensures forall n | n in w'.resolved :: StepFor(env, deps + [d], n, w'.resolved[n])
  {
    forall n | n in w'.resolved && n != d.name ensures StepFor(env, deps + [d], n, w'.resolved[n]) {
      Extend(deps, d, n);
      assert StepFor(env, deps, n, w.resolved[n]);
    }
  }

  /** The step of the very dependency being walked. */
  lemma NarrowedStep(env: Env, root: string, w: Walk, deps: seq<Dependency>, d: Dependency)
    requires Describes(env, deps, w) && Plannable(env, root, deps) && WalkDep(env, root, w, d).Ok?
    ensures var w' := WalkDep(env, root, w, d).value;
            d.name in w'.resolved && StepFor(env, deps + [d], d.name, w'.resolved[d.name])
  {
    var first, cs := FirstSource(deps, d.name), Declared(deps, d.name);
    Extend(deps, d, d.name);
    FirstSourceOf(deps, d.name);
    assert Seen(w, d.name) == cs;
    if d.name in w.resolved {
      assert StepFor(env, deps, d.name, w.resolved[d.name]);
    } else {
      NoneDeclared(deps, d.name);
    }
    if d.source.Tier2? && env.installed(d.name).Absent? {
      DeclaredSettle(env, root, deps, d.name);
      if first.Some? && first != Some(Bundled) { FirstMeansDeclared(env, root, deps, d.name); }
      PickedStep(env, first, cs, w, d);
    } else {
      KnownStep(env, root, first, cs, w, d);
    }
  }

  /** A turn that does not: a bundled dependency, or one that is installed. */
  lemma KnownStep(env: Env, root: string, first: Option<Source>, cs: seq<Constraint>, w: Walk, d: Dependency)
    requires WalkDep(env, root, w, d).Ok? && !(d.source.Tier2? && env.installed(d.name).Absent?)
    requires if d.name in w.resolved then StepGiven(env, first, cs, d.name, w.resolved[d.name]) && first.Some? else first.None?
    ensures var w' := WalkDep(env, root, w, d).value;
            && d.name in w'.resolved
            && StepGiven(env, if first.None? then Some(d.source) else first,
                         if d.source.Tier2? then cs + [d.constraint] else cs, d.name, w'.resolved[d.name])
  {
  }

  lemma FirstMeansDeclared(env: Env, root: string, deps: seq<Dependency>, name: string)
    requires Plannable(env, root, deps) && FirstSource(deps, name).Some? && FirstSource(deps, name) != Some(Bundled)
    ensures Declared(deps, name) != []
  {
    FirstSourceOf(deps, name);
    var d :| d in deps && d.name == name && FirstSource(deps, name) == Some(d.source);
    assert DepOk(env, root, Declared(deps, d.name), d);
    DeclaredElements(deps, name, d.constraint);
  }

  /** A turn that consults the marketplace. */
  lemma PickedStep(env: Env, first: Option<Source>, cs: seq<Constraint>, w: Walk, d: Dependency)
    requires d.source.Tier2? && env.installed(d.name).Absent? && env.market(d.name).Some?
    requires Pick(env.market(d.name).value, cs + [d.constraint]).Ok?
    requires cs == [] || Settled(env.market(d.name).value, cs).Some?
    requires if d.name in w.resolved then StepGiven(env, first, cs, d.name, w.resolved[d.name]) && first.Some?
             else first.None? && cs == []
    requires first.Some? && first != Some(Bundled) ==> cs != []
    ensures var w' := WalkPicked(w, d, cs + [d.constraint], Pick(env.market(d.name).value, cs + [d.constraint]).value);
            StepGiven(env, if first.None? then Some(Tier2) else first, cs + [d.constraint], d.name, w'.resolved[d.name])
  {
    var vs := env.market(d.name).value;
    PickIgnoresBlanks(vs, cs + [d.constraint]);
    if d.name in w.resolved {
      if cs != [] { SettledExtends(vs, cs, d.constraint); }
    } else {
      assert cs + [d.constraint] == [d.constraint];
      SettledFirst(vs, d.constraint);
    }
  }

  lemma NoneDeclared(deps: seq<Dependency>, name: string)
    requires name !in Names(deps)
    ensures Declared(deps, name) == []
  {
    if Declared(deps, name) != [] {
      DeclaredElements(deps, name, Declared(deps, name)[0]);
    }
  }

  lemma PlannableExtends(env: Env, root: string, deps: seq<Dependency>, d: Dependency)
    ensures Plannable(env, root, deps + [d]) <==>
            Plannable(env, root, deps) && DepOk(env, root, Declared(deps + [d], d.name), d)
  {
    var all := deps + [d];
    assert d in all && forall e :: e in all <==> e in deps || e == d;
    forall e | e in deps
      ensures DepOk(env, root, Declared(all, e.name), e) ==> DepOk(env, root, Declared(deps, e.name), e)
      ensures DepOk(env, root, Declared(deps, e.name), e) && DepOk(env, root, Declared(all, d.name), d)
              ==> DepOk(env, root, Declared(all, e.name), e)
    {
      Extend(deps, d, e.name);
      if DepOk(env, root, Declared(all, e.name), e) && e.source.Tier2? && env.installed(e.name).Absent? {
        DeclaredElements(deps, e.name, e.constraint);
        if d.source.Tier2? && d.name == e.name {
          SettledShrinks(env.market(e.name).value, Declared(deps, e.name), d.constraint);
        }
      }
    }
  }

  /** The walk succeeds exactly when every dependency is plannable against all the
      constraints declared for its name, and its result is described by the list as a whole. */
  lemma {:induction false} WalkDescribed(env: Env, root: string, deps: seq<Dependency>)
    ensures WalkDeps(env, root, Start, deps).Ok? <==> Plannable(env, root, deps)
    ensures WalkDeps(env, root, Start, deps).Ok? ==> Describes(env, deps, WalkDeps(env, root, Start, deps).value)
  {
    if deps != [] {
      var init, last := deps[..|deps| - 1], deps[|deps| - 1];
      assert deps == init + [last];
      WalkDescribed(env, root, init);
      PlannableExtends(env, root, init, last);
      if WalkDeps(env, root, Start, init).Ok? {
        WalkDepDescribed(env, root, WalkDeps(env, root, Start, init).value, init, last);
      }
    }
  }

  // ----- main results -----

  /** Dependency steps come first under distinct names, exactly one per declared name, in
      the order of first declaration, each carrying the batch choice; the root is last. */
  ghost predicate SettledPlan(env: Env, m: Manifest, plan: seq<PlanStep>) {
    var k := |plan| - 1;
    && k == |NamesInOrder(m.deps)| && plan[k] == PlanStep(m.name, m.version, Tier2, ActInstall, [])
    && (forall i | 0 <= i < k :: plan[i].name == NamesInOrder(m.deps)[i])
    && (forall i, j | 0 <= i < j < k :: plan[i].name != plan[j].name)
    && (forall i | 0 <= i < k :: plan[i].name in Names(m.deps) && StepFor(env, m.deps, plan[i].name, plan[i]))
    && (forall n | n in Names(m.deps) :: exists i :: 0 <= i < k && plan[i].name == n)
  }

  lemma OrderResolved(env: Env, deps: seq<Dependency>, w: Walk)
    requires Describes(env, deps, w)
    ensures forall n | n in w.order :: n in w.resolved
  {
    NamesInOrderDistinct(deps);
    forall n | n in w.order ensures n in w.resolved {
      assert n in Elems(w.order);
    }
  }

  lemma DescribedStepsAreBatch(env: Env, m: Manifest, w: Walk)
    requires Describes(env, m.deps, w) && forall n | n in w.order :: n in w.resolved
    ensures SettledPlan(env, m, StepsInOrder(w.resolved, w.order) + [RootStep(m)])
  {
    var plan := StepsInOrder(w.resolved, w.order) + [RootStep(m)];
    var k := |plan| - 1;
    NamesInOrderDistinct(m.deps);
    forall i | 0 <= i < k
      ensures plan[i].name == w.order[i] && plan[i].name in Names(m.deps) && StepFor(env, m.deps, plan[i].name, plan[i])
    {
      assert w.order[i] in Elems(w.order);
      assert StepFor(env, m.deps, w.order[i], w.resolved[w.order[i]]);
    }
    forall n | n in Names(m.deps) ensures exists i :: 0 <= i < k && plan[i].name == n {
      assert n in Elems(w.order);
      var i :| 0 <= i < |w.order| && w.order[i] == n;
      assert plan[i].name == n;
    }
  }

  /** Plan succeeds exactly on plannable lists, and what it returns is the batch plan. */
  lemma PlanIsSettled(env: Env, m: Manifest)
    ensures Plan(env, m).Ok? <==> Plannable(env, m.name, m.deps)
    ensures Plan(env, m).Ok? ==> SettledPlan(env, m, Plan(env, m).value)
  {
    WalkDescribed(env, m.name, m.deps);
    if Plan(env, m).Ok? {
      OrderResolved(env, m.deps, WalkDeps(env, m.name, Start, m.deps).value);
      DescribedStepsAreBatch(env, m, WalkDeps(env, m.name, Start, m.deps).value);
    }
  }

  /** The steps of a plan follow the list: before the later of two names is declared at all,
      the earlier one has been. */
  lemma PlanFollowsList(env: Env, m: Manifest, i: nat, j: nat)
    requires Plan(env, m).Ok? && i < j < |Plan(env, m).value| - 1
    ensures exists p :: 0 <= p < |m.deps| && m.deps[p].name == Plan(env, m).value[i].name &&
                        forall q | 0 <= q <= p :: m.deps[q].name != Plan(env, m).value[j].name
  {
    PlanIsSettled(env, m);
    NamesByFirst(m.deps, i, j);
  }

  lemma {:induction false} NamesByFirst(deps: seq<Dependency>, i: nat, j: nat)
    requires i < j < |NamesInOrder(deps)|
    ensures exists p :: 0 <= p < |deps| && deps[p].name == NamesInOrder(deps)[i] &&
                        forall q | 0 <= q <= p :: deps[q].name != NamesInOrder(deps)[j]
    decreases |deps|
  {
    var n := |deps| - 1;
    var init, names := deps[..n], NamesInOrder(deps);
    NamesInOrderDistinct(init);
    if j < |NamesInOrder(init)| {
      NamesByFirst(init, i, j);
      var p :| 0 <= p < |init| && init[p].name == names[i] && forall q | 0 <= q <= p :: init[q].name != names[j];
      assert deps[p].name == names[i] && forall q | 0 <= q <= p :: deps[q].name == init[q].name;
    } else {
      assert names[i] in Elems(NamesInOrder(init));
      var d :| d in init && d.name == names[i];
      var p :| 0 <= p < |init| && init[p] == d;
      forall q | 0 <= q <= p ensures deps[q].name != names[j] {
        assert init[q] in init && init[q].name in Elems(NamesInOrder(init));
      }
      assert deps[p].name == names[i];
    }
  }

  // ----- what skipped and bundled steps report -----

  /** The step reports the constraint of the first declaration of its name. */
  ghost predicate Noted(deps: seq<Dependency>, step: PlanStep) {
    exists p :: 0 <= p < |deps| && deps[p].name == step.name && step.constraints == [deps[p].constraint] &&
                forall q | 0 <= q < p :: deps[q].name != step.name
  }

  ghost predicate AllNoted(deps: seq<Dependency>, w: Walk) {
    forall n | n in w.resolved && !w.resolved[n].action.ActInstall? :: Noted(deps, w.resolved[n])
  }

  /** A step that installs nothing reports the constraint its name is first declared with. */
  lemma PlanNotesFirst(env: Env, m: Manifest, i: nat)
    requires Plan(env, m).Ok? && i < |Plan(env, m).value| && !Plan(env, m).value[i].action.ActInstall?
    ensures Noted(m.deps, Plan(env, m).value[i])
  {
    WalkNotes(env, m.name, m.deps);
    WalkDescribed(env, m.name, m.deps);
    var w := WalkDeps(env, m.name, Start, m.deps).value;
    OrderResolved(env, m.deps, w);
    assert Plan(env, m).value[i] == w.resolved[w.order[i]];
  }

  lemma {:induction false} WalkNotes(env: Env, root: string, deps: seq<Dependency>)
    requires WalkDeps(env, root, Start, deps).Ok?
    ensures AllNoted(deps, WalkDeps(env, root, Start, deps).value)
  {
    if deps != [] {
      var init, last := deps[..|deps| - 1], deps[|deps| - 1];
      assert deps == init + [last];
      WalkNotes(env, root, init);
      WalkDescribed(env, root, init);
      WalkDepNotes(env, root, WalkDeps(env, root, Start, init).value, init, last);
    }
  }

  lemma WalkDepNotes(env: Env, root: string, w: Walk, deps: seq<Dependency>, d: Dependency)
    requires Describes(env, deps, w) && AllNoted(deps, w) && WalkDep(env, root, w, d).Ok?
    ensures AllNoted(deps + [d], WalkDep(env, root, w, d).value)
  {
    var w' := WalkDep(env, root, w, d).value;
    assert w.resolved.Keys == Names(deps);
    forall n | n in w'.resolved && !w'.resolved[n].action.ActInstall? ensures Noted(deps + [d], w'.resolved[n]) {
      WalkDepTouches(env, root, w, d, n);
      if n in w.resolved {
        NotedStays(deps, d, w.resolved[n]);
      } else {
        NotedHere(deps, d, w'.resolved[n]);
      }
    }
  }

  /** A turn changes no step but install steps, and adds only that of its own name. */
  lemma WalkDepTouches(env: Env, root: string, w: Walk, d: Dependency, n: string)
    requires WalkDep(env, root, w, d).Ok? && n in WalkDep(env, root, w, d).value.resolved
    requires !WalkDep(env, root, w, d).value.resolved[n].action.ActInstall?
    ensures var step := WalkDep(env, root, w, d).value.resolved[n];
            if n in w.resolved then step == w.resolved[n]
            else n == d.name && step.name == d.name && step.constraints == [d.constraint]
  {
  }

  lemma NotedStays(deps: seq<Dependency>, d: Dependency, step: PlanStep)
    requires Noted(deps, step)
    ensures Noted(deps + [d], step)
  {
    var p :| 0 <= p < |deps| && deps[p].name == step.name && step.constraints == [deps[p].constraint] &&
             forall q | 0 <= q < p :: deps[q].name != step.name;
    assert (deps + [d])[p] == deps[p] && forall q | 0 <= q < p :: (deps + [d])[q] == deps[q];
  }

  lemma NotedHere(deps: seq<Dependency>, d: Dependency, step: PlanStep)
    requires d.name !in Names(deps) && step.name == d.name && step.constraints == [d.constraint]
    ensures Noted(deps + [d], step)
  {
    assert (deps + [d])[|deps|] == d;
    forall q | 0 <= q < |deps| ensures (deps + [d])[q].name != step.name {
      assert deps[q] in deps && deps[q].name in Names(deps);
    }
  }

  // ----- why a plan is refused -----

  /** The dependency, whose name carries the constraints `cs` in all by now, is refused for
      this reason. */
  ghost predicate Refuses(env: Env, root: string, cs: seq<Constraint>, d: Dependency, e: PlanError) {
    var ours := d.source.Tier2? && d.name != root;
    var absent := ours && env.installed(d.name).Absent?;
    match e
    case BadSource => d.source.UnknownSource?
    case Cycle => d.source.Tier2? && d.name == root
    case InstalledLookupFailed => ours && env.installed(d.name).LookupFailed?
    case Unsatisfiable => ours && env.installed(d.name).Present? && !Satisfied(d.constraint, env.installed(d.name).version)
    case MarketLookupFailed => absent && env.market(d.name).None?
    case BadConstraint => absent && env.market(d.name).Some? && Malformed in cs
    case NoVersion => absent && env.market(d.name).Some? && Malformed !in cs &&
                      forall v | v in env.market(d.name).value :: !Candidate(v, cs)
    case TooDeep => false
  }

  lemma WalkDepRefuses(env: Env, root: string, w: Walk, deps: seq<Dependency>, d: Dependency, e: PlanError)
    requires Describes(env, deps, w) && Plannable(env, root, deps)
    ensures WalkDep(env, root, w, d) == Err(e) <==> Refuses(env, root, Declared(deps + [d], d.name), d, e)
  {
    Extend(deps, d, d.name);
    assert Seen(w, d.name) == Declared(deps, d.name);
    if d.name in w.resolved {
      assert StepFor(env, deps, d.name, w.resolved[d.name]);
    }
    TurnRefuses(env, root, w, d, e);
  }

  /** One turn's refusal, where a recorded skip carries the installed version. */
  lemma TurnRefuses(env: Env, root: string, w: Walk, d: Dependency, e: PlanError)
    requires d.name in w.resolved && w.resolved[d.name].action.ActSkip? ==>
               env.installed(d.name) == Present(w.resolved[d.name].version)
    ensures WalkDep(env, root, w, d) == Err(e) <==> Refuses(env, root, Seen(w, d.name) + [d.constraint], d, e)
  {
    if env.market(d.name).Some? {
      PickFails(env.market(d.name).value, Seen(w, d.name) + [d.constraint], e);
    }
  }

  lemma PickFails(vs: seq<VersionText>, cs: seq<Constraint>, e: PlanError)
    ensures Pick(vs, cs) == Err(e) <==>
            (e == BadConstraint && Malformed in cs) || (e == NoVersion && Malformed !in cs && forall v | v in vs :: !Candidate(v, cs))
  {
    PickSucceedsExactly(vs, cs);
  }

  /** Plan fails for a reason exactly when some dependency is refused for it, against the
      constraints declared up to it, and all before it can be planned. */
  lemma {:induction false} PlanRefusesExactly(env: Env, m: Manifest, e: PlanError)
    ensures Plan(env, m) == Err(e) <==>
            exists i :: 0 <= i < |m.deps| && RefusedAt(env, m.name, m.deps, i, e)
  {
    if Plan(env, m) == Err(e) {
      var i := FirstRefused(env, m.name, m.deps, e);
    }
    if i :| 0 <= i < |m.deps| && RefusedAt(env, m.name, m.deps, i, e) {
      RefusedStops(env, m.name, m.deps, i, e);
    }
  }

  ghost predicate RefusedAt(env: Env, root: string, deps: seq<Dependency>, i: nat, e: PlanError)
    requires i < |deps|
  {
    Plannable(env, root, deps[..i]) && Refuses(env, root, Declared(deps[..i + 1], deps[i].name), deps[i], e)
  }

  lemma RefusedStops(env: Env, root: string, deps: seq<Dependency>, i: nat, e: PlanError)
    requires i < |deps| && RefusedAt(env, root, deps, i, e)
    ensures WalkDeps(env, root, Start, deps) == Err(e)
  {
    WalkDescribed(env, root, deps[..i]);
    assert deps[..i + 1] == deps[..i] + [deps[i]] && deps[..i + 1][..i] == deps[..i];
    WalkDepRefuses(env, root, WalkDeps(env, root, Start, deps[..i]).value, deps[..i], deps[i], e);
    WalkErrorStays(env, root, Start, deps, i + 1);
  }

  lemma {:induction false} FirstRefused(env: Env, root: string, deps: seq<Dependency>, e: PlanError) returns (i: nat)
    requires WalkDeps(env, root, Start, deps) == Err(e)
    ensures i < |deps| && RefusedAt(env, root, deps, i, e)
  {
    var n := |deps| - 1;
    var init := deps[..n];
    if WalkDeps(env, root, Start, init).Err? {
      i := FirstRefused(env, root, init, e);
      assert init[..i] == deps[..i] && init[..i + 1] == deps[..i + 1];
    } else {
      i := n;
      WalkDescribed(env, root, init);
      WalkDepRefuses(env, root, WalkDeps(env, root, Start, init).value, init, deps[n], e);
      assert deps[..n + 1] == init + [deps[n]];
    }
  }

  /** The dependency's version is chosen from the marketplace. */
  ghost predicate FromMarket(env: Env, d: Dependency) {
    d.source.Tier2? && env.installed(d.name).Absent? && env.market(d.name).Some?
  }

  /** An install step of a plan carries the batch pick over its declared constraints
      exactly when they are not torn in the order given. */
  lemma PlanIsBatchExactly(env: Env, m: Manifest, i: int)
    requires Plan(env, m).Ok? && 0 <= i < |Plan(env, m).value| - 1 && Plan(env, m).value[i].action.ActInstall?
    ensures var step := Plan(env, m).value[i];
            var cs := Declared(m.deps, step.name);
            && env.market(step.name).Some? && Pick(env.market(step.name).value, cs).Ok?
            && (Pick(env.market(step.name).value, cs) == Ok(step.version) <==>
                !Torn(env.market(step.name).value, Plain(cs), cs))
  {
    PlanIsSettled(env, m);
    var plan := Plan(env, m).value;
    assert StepFor(env, m.deps, plan[i].name, plan[i]);
    var d := InstallStepDeclared(env, m, plan, i);
    SettledIsBatchExactly(env.market(d.name).value, Declared(m.deps, d.name));
  }

  /** An install step comes from a tier-2 declaration that consults the marketplace. */
  lemma InstallStepDeclared(env: Env, m: Manifest, plan: seq<PlanStep>, i: int) returns (d: Dependency)
    requires SettledPlan(env, m, plan) && Plannable(env, m.name, m.deps)
    requires 0 <= i < |plan| - 1 && plan[i].action.ActInstall?
    ensures d in m.deps && d.name == plan[i].name && FromMarket(env, d)
    ensures FirstSource(m.deps, d.name) == Some(Tier2)
  {
    assert StepFor(env, m.deps, plan[i].name, plan[i]);
    FirstSourceOf(m.deps, plan[i].name);
    d :| d in m.deps && d.name == plan[i].name && FirstSource(m.deps, plan[i].name) == Some(d.source);
    assert DepOk(env, m.name, Declared(m.deps, d.name), d);
  }

  /** Some name is declared both as bundled and as tier-2. */
  ghost predicate Mixed(deps: seq<Dependency>) {
    exists d, e :: d in deps && e in deps && d.name == e.name && d.source.Bundled? && e.source.Tier2?
  }

  /** The action and version a plan assigns to a dependency name. */
  ghost predicate Assigns(env: Env, m: Manifest, name: string, action: Action, version: VersionText) {
    Plan(env, m).Ok? &&
    exists i :: 0 <= i < |Plan(env, m).value| - 1 && Plan(env, m).value[i].name == name &&
                Plan(env, m).value[i].action == action && Plan(env, m).value[i].version == version
  }

  ghost predicate SameDeps(a: seq<Dependency>, b: seq<Dependency>) {
    forall d :: d in a <==> d in b
  }

  lemma SameDeclared(a: seq<Dependency>, b: seq<Dependency>, name: string)
    requires SameDeps(a, b)
    ensures forall c :: c in Declared(a, name) <==> c in Declared(b, name)
  {
    forall c ensures c in Declared(a, name) <==> c in Declared(b, name) {
      DeclaredElements(a, name, c);
      DeclaredElements(b, name, c);
    }
  }

  lemma StepOfName(env: Env, m: Manifest, plan: seq<PlanStep>, name: string) returns (j: nat)
    requires SettledPlan(env, m, plan) && exists d :: d in m.deps && d.name == name
    ensures j < |plan| - 1 && plan[j].name == name && StepFor(env, m.deps, name, plan[j])
  {
    assert name in Names(m.deps);
    j :| 0 <= j < |plan| - 1 && plan[j].name == name;
  }

  // ----- whether the order decides success -----

  ghost predicate EveryOrderPlans(env: Env, m: Manifest) {
    forall deps | multiset(deps) == multiset(m.deps) :: Plan(env, m.(deps := deps)).Ok?
  }

  /** A manifest that plans still plans under every permutation of its list if and only if,
      for every name the marketplace decides, the constraints that name no pre-release have
      a pick among themselves. */
  lemma {:induction false} EveryOrderPlansExactly(env: Env, m: Manifest)
    requires Plan(env, m).Ok?
    ensures EveryOrderPlans(env, m) <==>
            forall d | d in m.deps && FromMarket(env, d) ::
              Pick(env.market(d.name).value, Quiets(Declared(m.deps, d.name))).Ok?
  {
    if forall d | d in m.deps && FromMarket(env, d) :: Pick(env.market(d.name).value, Quiets(Declared(m.deps, d.name))).Ok? {
      forall deps | multiset(deps) == multiset(m.deps) ensures Plan(env, m.(deps := deps)).Ok? {
        ReorderedPlans(env, m, deps);
      }
    } else {
      var d :| d in m.deps && FromMarket(env, d) && Pick(env.market(d.name).value, Quiets(Declared(m.deps, d.name))).Err?;
      var deps := QuietFirst(m.deps);
      QuietFirstPermutes(m.deps);
      SameMultiset(m.deps, deps);
      QuietFirstChoice(env.market(d.name).value, m.deps, d.name);
      PlanIsSettled(env, m.(deps := deps));
      assert d in deps && !DepOk(env, m.name, Declared(deps, d.name), d);
    }
  }

  lemma ReorderedPlans(env: Env, m: Manifest, deps: seq<Dependency>)
    requires Plan(env, m).Ok? && multiset(deps) == multiset(m.deps)
    requires forall d | d in m.deps && FromMarket(env, d) :: Pick(env.market(d.name).value, Quiets(Declared(m.deps, d.name))).Ok?
    ensures Plan(env, m.(deps := deps)).Ok?
  {
    SameMultiset(m.deps, deps);
    PlanIsSettled(env, m);
    PlanIsSettled(env, m.(deps := deps));
    forall d | d in deps ensures DepOk(env, m.name, Declared(deps, d.name), d) {
      assert DepOk(env, m.name, Declared(m.deps, d.name), d);
      if FromMarket(env, d) {
        SameDeclared(m.deps, deps, d.name);
        SettlesInEveryOrder(env.market(d.name).value, Declared(m.deps, d.name), Declared(deps, d.name));
      }
    }
  }

  /** The dependencies that name no pre-release, then the others. */
  ghost function QuietFirst(deps: seq<Dependency>): (r: seq<Dependency>) {
    QuietDeps(deps) + LoudDeps(deps)
  }

  ghost function QuietDeps(deps: seq<Dependency>): (r: seq<Dependency>)
    ensures forall d :: d in r <==> d in deps && !NamesPre(d.constraint)
  {
    if deps == [] then []
    else
      var init, last := QuietDeps(deps[..|deps| - 1]), deps[|deps| - 1];
      assert deps == deps[..|deps| - 1] + [last];
      if NamesPre(last.constraint) then init else init + [last]
  }

  ghost function LoudDeps(deps: seq<Dependency>): (r: seq<Dependency>)
    ensures forall d :: d in r <==> d in deps && NamesPre(d.constraint)
  {
    if deps == [] then []
    else
      var init, last := LoudDeps(deps[..|deps| - 1]), deps[|deps| - 1];
      assert deps == deps[..|deps| - 1] + [last];
      if NamesPre(last.constraint) then init + [last] else init
  }

  lemma {:induction false} QuietFirstPermutes(deps: seq<Dependency>)
    ensures multiset(QuietFirst(deps)) == multiset(deps)
  {
    if deps != [] {
      var init, last := deps[..|deps| - 1], deps[|deps| - 1];
      assert deps == init + [last];
      QuietFirstPermutes(init);
      assert multiset(QuietFirst(deps)) == multiset(QuietDeps(deps)) + multiset(LoudDeps(deps));
    }
  }

  lemma {:induction false} DeclaredConcat(a: seq<Dependency>, b: seq<Dependency>, name: string)
    ensures Declared(a + b, name) == Declared(a, name) + Declared(b, name)
    decreases |b|
  {
    if b == [] {
      assert a + b == a;
    } else {
      DeclaredConcat(a, b[..|b| - 1], name);
      assert (a + b)[..|a + b| - 1] == a + b[..|b| - 1];
    }
  }

  lemma {:induction false} PlainOfSplit(a: seq<Constraint>, b: seq<Constraint>)
    requires Quiet(a) && forall c | c in b :: NamesPre(c)
    ensures Plain(a + b) == a
    decreases |b|
  {
    if b == [] {
      assert a + b == a;
    } else {
      assert b[|b| - 1] in a + b && b[|b| - 1] in b;
      assert (a + b)[..|a + b| - 1] == a + b[..|b| - 1];
      PlainOfSplit(a, b[..|b| - 1]);
    }
  }

  /** Quiet constraints first: the choice starts from the pick over all of them. */
  lemma QuietFirstChoice(vs: seq<VersionText>, deps: seq<Dependency>, name: string)
    ensures Settled(vs, Declared(QuietFirst(deps), name)) == Choice(vs, Quiets(Declared(deps, name)), Declared(deps, name))
  {
    var q, l := QuietDeps(deps), LoudDeps(deps);
    DeclaredConcat(q, l, name);
    forall c
      ensures c in Declared(q, name) <==> c in Quiets(Declared(deps, name))
      ensures c in Declared(l, name) <==> c in Declared(deps, name) && NamesPre(c)
    {
      DeclaredElements(q, name, c);
      DeclaredElements(l, name, c);
      DeclaredElements(deps, name, c);
      QuietsElements(Declared(deps, name), c);
    }
    forall c ensures c in Quiets(Declared(deps, name)) <==> c in Declared(deps, name) && !NamesPre(c) {
      QuietsElements(Declared(deps, name), c);
    }
    PlainOfSplit(Declared(q, name), Declared(l, name));
    ChoiceIgnoresOrder(vs, Declared(q, name), Quiets(Declared(deps, name)), Declared(QuietFirst(deps), name), Declared(deps, name));
  }

  // ----- whether the order decides the versions -----

  /** A list with one dependency moved to the front. */
  function MoveToFront(deps: seq<Dependency>, i: nat): (r: seq<Dependency>)
    requires i < |deps|
  {
    [deps[i]] + deps[..i] + deps[i + 1..]
  }

  lemma MoveToFrontPermutes(deps: seq<Dependency>, i: nat)
    requires i < |deps|
    ensures multiset(MoveToFront(deps, i)) == multiset(deps)
    ensures SameDeps(deps, MoveToFront(deps, i))
    ensures FirstSource(MoveToFront(deps, i), deps[i].name) == Some(deps[i].source)
  {
    var front := MoveToFront(deps, i);
    assert deps == deps[..i] + [deps[i]] + deps[i + 1..];
    assert multiset(front) == multiset(deps);
    SameMultiset(deps, front);
    FirstSourceOfPrefix([deps[i]], deps[..i] + deps[i + 1..], deps[i].name);
    assert front == [deps[i]] + (deps[..i] + deps[i + 1..]);
  }

  lemma SameMultiset(a: seq<Dependency>, b: seq<Dependency>)
    requires multiset(a) == multiset(b)
    ensures SameDeps(a, b)
  {
    forall d ensures d in a <==> d in b {
      assert d in a <==> d in multiset(a);
    }
  }

  lemma {:induction false} FirstSourceOfPrefix(a: seq<Dependency>, b: seq<Dependency>, name: string)
    requires FirstSource(a, name).Some?
    ensures FirstSource(a + b, name) == FirstSource(a, name)
    decreases |b|
  {
    if b == [] {
      assert a + b == a;
    } else {
      FirstSourceOfPrefix(a, b[..|b| - 1], name);
      assert (a + b)[..|a + b| - 1] == a + b[..|b| - 1];
    }
  }

  /** A constraint that names a pre-release, taken first, makes the choice the batch pick. */
  lemma LoudFirstChoice(vs: seq<VersionText>, deps: seq<Dependency>, i: nat)
    requires i < |deps| && deps[i].source.Tier2? && NamesPre(deps[i].constraint)
    requires Pick(vs, Declared(deps, deps[i].name)).Ok?
    ensures Settled(vs, Declared(MoveToFront(deps, i), deps[i].name)) == Some(Pick(vs, Declared(deps, deps[i].name)).value)
  {
    var name, front := deps[i].name, MoveToFront(deps, i);
    var rest := deps[..i] + deps[i + 1..];
    assert front == [deps[i]] + rest;
    DeclaredConcat([deps[i]], rest, name);
    assert Declared([deps[i]], name) == [deps[i].constraint] by { Extend([], deps[i], name); assert [] + [deps[i]] == [deps[i]]; }
    var cs := Declared(front, name);
    assert cs[0] == deps[i].constraint;
    LoudHead(cs);
    MoveToFrontPermutes(deps, i);
    SameDeclared(deps, front, name);
    PickIgnoresOrder(vs, Declared(deps, name), cs);
    SettledIsBatchExactly(vs, cs);
  }

  lemma {:induction false} LoudHead(cs: seq<Constraint>)
    requires cs != [] && NamesPre(cs[0])
    ensures Plain(cs) == []
  {
    assert !Quiet(cs);
    if |cs| > 1 {
      LoudHead(cs[..|cs| - 1]);
    } else {
      assert cs[..|cs| - 1] == [];
    }
  }

  ghost predicate OrderFree(env: Env, m: Manifest) {
    forall deps, name, action, version
        | multiset(deps) == multiset(m.deps) && Assigns(env, m, name, action, version) ::
      Assigns(env, m.(deps := deps), name, action, version)
  }

  /** No name the marketplace decides has constraints whose order tells. */
  ghost predicate Calm(env: Env, deps: seq<Dependency>) {
    forall d | d in deps && FromMarket(env, d) :: !OrderTells(env.market(d.name).value, Declared(deps, d.name))
  }

  /** The name-to-(action, version) map of a successful plan survives every permutation of
      the list if and only if no name is declared both bundled and tier-2 and none has
      constraints whose order tells. */
  lemma {:induction false} OrderFreeExactly(env: Env, m: Manifest)
    requires Plan(env, m).Ok?
    ensures OrderFree(env, m) <==> !Mixed(m.deps) && Calm(env, m.deps)
  {
    if Mixed(m.deps) {
      var d, e :| d in m.deps && e in m.deps && d.name == e.name && d.source.Bundled? && e.source.Tier2?;
      MixedDependsOnOrder(env, m, d, e);
    } else if !Calm(env, m.deps) {
      var d :| d in m.deps && FromMarket(env, d) && OrderTells(env.market(d.name).value, Declared(m.deps, d.name));
      TornDependsOnOrder(env, m, d);
    } else {
      forall deps, name, action, version
        | multiset(deps) == multiset(m.deps) && Assigns(env, m, name, action, version)
        ensures Assigns(env, m.(deps := deps), name, action, version)
      {
        SameMultiset(m.deps, deps);
        OrderIrrelevant(env, m, deps, name, action, version);
      }
    }
  }

  /** In a calm unmixed list the order touches no name's action or version. */
  lemma OrderIrrelevant(env: Env, m: Manifest, deps: seq<Dependency>, name: string, action: Action, version: VersionText)
    requires SameDeps(m.deps, deps) && !Mixed(m.deps) && Calm(env, m.deps)
    requires Assigns(env, m, name, action, version)
    ensures Assigns(env, m.(deps := deps), name, action, version)
  {
    var m' := m.(deps := deps);
    PlanIsSettled(env, m);
    PlanIsSettled(env, m');
    CalmPlans(env, m, deps);
    var plan, plan' := Plan(env, m).value, Plan(env, m').value;
    var i :| 0 <= i < |plan| - 1 && plan[i].name == name && plan[i].action == action && plan[i].version == version;
    var j := StepOfName(env, m', plan', name);
    SameStep(env, m.name, m.deps, deps, name, plan[i], plan'[j]);
  }

  lemma CalmPlans(env: Env, m: Manifest, deps: seq<Dependency>)
    requires SameDeps(m.deps, deps) && Calm(env, m.deps) && Plannable(env, m.name, m.deps)
    ensures Plannable(env, m.name, deps)
  {
    forall d | d in deps ensures DepOk(env, m.name, Declared(deps, d.name), d) {
      assert DepOk(env, m.name, Declared(m.deps, d.name), d);
      if FromMarket(env, d) {
        SameDeclared(m.deps, deps, d.name);
        UntornInEveryOrder(env.market(d.name).value, Declared(m.deps, d.name), Declared(deps, d.name));
      }
    }
  }

  lemma {:induction false} SameStep(env: Env, root: string, a: seq<Dependency>, b: seq<Dependency>, name: string, s: PlanStep, t: PlanStep)
    requires SameDeps(a, b) && !Mixed(a) && Calm(env, a) && Plannable(env, root, a) && name in Names(a)
    requires StepFor(env, a, name, s) && StepFor(env, b, name, t)
    ensures s.action == t.action && s.version == t.version
  {
    FirstSourceOf(a, name);
    FirstSourceOf(b, name);
    var d :| d in a && d.name == name && FirstSource(a, name) == Some(d.source);
    var e :| e in b && e.name == name && FirstSource(b, name) == Some(e.source);
    assert DepOk(env, root, Declared(a, d.name), d) && DepOk(env, root, Declared(a, e.name), e);
    if FromMarket(env, d) {
      SameDeclared(a, b, name);
      UntornInEveryOrder(env.market(name).value, Declared(a, name), Declared(a, name));
      UntornInEveryOrder(env.market(name).value, Declared(a, name), Declared(b, name));
    }
  }

  lemma MixedDependsOnOrder(env: Env, m: Manifest, d: Dependency, e: Dependency)
    requires Plan(env, m).Ok? && d in m.deps && e in m.deps
    requires d.name == e.name && d.source.Bundled? && e.source.Tier2?
    ensures !OrderFree(env, m)
  {
    PlanIsSettled(env, m);
    var plan := Plan(env, m).value;
    var i := StepOfName(env, m, plan, d.name);
    var action, version := plan[i].action, plan[i].version;
    assert Assigns(env, m, d.name, action, version);
    var other := if action.ActBundled? then e else d;
    var k :| 0 <= k < |m.deps| && m.deps[k] == other;
    MoveToFrontPermutes(m.deps, k);
    OtherActionFirst(env, m.(deps := MoveToFront(m.deps, k)), other, action, version);
  }

  /** The first declaration of a name decides whether its step is a bundled one. */
  lemma OtherActionFirst(env: Env, m: Manifest, first: Dependency, action: Action, version: VersionText)
    requires FirstSource(m.deps, first.name) == Some(first.source)
    requires first.source.Bundled? <==> !action.ActBundled?
    ensures !Assigns(env, m, first.name, action, version)
  {
    PlanIsSettled(env, m);
  }

  /** With constraints whose order tells, some permutation changes the version or the outcome. */
  lemma {:induction false} TornDependsOnOrder(env: Env, m: Manifest, d: Dependency)
    requires Plan(env, m).Ok? && !Mixed(m.deps) && d in m.deps && FromMarket(env, d)
    requires OrderTells(env.market(d.name).value, Declared(m.deps, d.name))
    ensures !OrderFree(env, m)
  {
    PlanIsSettled(env, m);
    var plan := Plan(env, m).value;
    var i := StepOfName(env, m, plan, d.name);
    UnmixedFirst(m.deps, d);
    var vs, cs := env.market(d.name).value, Declared(m.deps, d.name);
    var version := plan[i].version;
    assert Assigns(env, m, d.name, ActInstall, version);
    if Some(version) == Some(Pick(vs, cs).value) {
      QuietFirstPermutes(m.deps);
      QuietFirstChoice(vs, m.deps, d.name);
      forall c ensures c in Quiets(cs) <==> c in cs && !NamesPre(c) { QuietsElements(cs, c); }
      ChoiceIsBatchExactly(vs, Quiets(cs), cs);
      OtherVersion(env, m.(deps := QuietFirst(m.deps)), d.name, version);
    } else {
      var k := LoudDeclared(vs, m.deps, d.name);
      MoveToFrontPermutes(m.deps, k);
      LoudFirstChoice(vs, m.deps, k);
      OtherVersion(env, m.(deps := MoveToFront(m.deps, k)), d.name, version);
    }
  }

  lemma UnmixedFirst(deps: seq<Dependency>, d: Dependency)
    requires !Mixed(deps) && d in deps && d.source.Tier2?
    ensures FirstSource(deps, d.name) != Some(Bundled)
  {
    FirstSourceOf(deps, d.name);
  }

  /** A plan whose constraints settle elsewhere does not assign the version. */
  lemma OtherVersion(env: Env, m: Manifest, name: string, version: VersionText)
    requires env.installed(name).Absent? && env.market(name).Some?
    requires Settled(env.market(name).value, Declared(m.deps, name)) != Some(version)
    ensures !Assigns(env, m, name, ActInstall, version)
  {
    PlanIsSettled(env, m);
  }

  lemma LoudDeclared(vs: seq<VersionText>, deps: seq<Dependency>, name: string) returns (k: nat)
    requires OrderTells(vs, Declared(deps, name))
    ensures k < |deps| && deps[k].source.Tier2? && deps[k].name == name && NamesPre(deps[k].constraint)
  {
    var cs := Declared(deps, name);
    PickSucceedsExactly(vs, cs);
    forall c ensures c in Quiets(cs) <==> c in cs && !NamesPre(c) { QuietsElements(cs, c); }
    var c :| c in cs && NamesPre(c);
    DeclaredElements(deps, name, c);
    var d :| d in deps && d.source.Tier2? && d.name == name && d.constraint == c;
    k :| 0 <= k < |deps| && deps[k] == d;
  }

  // ----- the resolver as it runs -----

  /** resolveState: the bookkeeping one walk updates in place. */
  class ResolveState {
    const env: Env
    var visiting: set<string>
    var resolved: map<string, PlanStep>
    var order: seq<string>
    var constraints: map<string, seq<Constraint>>

    constructor (env: Env)
      ensures this.env == env && visiting == {} && View() == Start
    {
      this.env := env;
      visiting, resolved, order, constraints := {}, map[], [], map[];
    }

    ghost function View(): (w: Walk)
      reads this
    {
      Walk(resolved, order, constraints)
    }

    /** walk: refuses a depth above the cap and a name already being visited; otherwise
        folds the loop body over the dependency list. */
    method WalkManifest(m: Manifest, depth: nat, maxDepth: nat) returns (failure: Option<PlanError>)
      modifies this
      ensures visiting == old(visiting)
      ensures depth > maxDepth ==> failure == Some(TooDeep) && View() == old(View())
      ensures depth <= maxDepth && m.name in old(visiting) ==> failure == Some(Cycle) && View() == old(View())
      ensures depth <= maxDepth && m.name !in old(visiting) ==>
                match WalkDeps(env, m.name, old(View()), m.deps)
                case Err(e) => failure == Some(e)
                case Ok(w) => failure == None && View() == w
    {
      if depth > maxDepth {
        return Some(TooDeep);
      }
      if m.name in visiting {
        return Some(Cycle);
      }
      visiting := visiting + {m.name};
      failure := None;
      var i := 0;
      while i < |m.deps| && failure.None?
        invariant 0 <= i <= |m.deps|
        invariant visiting == old(visiting) + {m.name}
        invariant match WalkDeps(env, m.name, old(View()), m.deps[..i])
                  case Err(e) => failure == Some(e)
                  case Ok(w) => failure == None && View() == w
        decreases |m.deps| - i, failure.None?
      {
        assert m.deps[..i + 1][..i] == m.deps[..i];
        failure := WalkOne(m.name, m.deps[i]);
        i := i + 1;
      }
      visiting := visiting - {m.name};
      WalkErrorStays(env, m.name, old(View()), m.deps, i);
    }

    /** The loop body. */
    method WalkOne(root: string, d: Dependency) returns (failure: Option<PlanError>)
      modifies this`resolved, this`order, this`constraints
      ensures match WalkDep(env, root, old(View()), d)
              case Err(e) => failure == Some(e)
              case Ok(w) => failure == None && View() == w
    {
      if d.source.Bundled? {
        if d.name !in resolved {
          Append(PlanStep(d.name, NoText, Bundled, ActBundled, [d.constraint]));
        }
        return None;
      }
      if !d.source.Tier2? {
        return Some(BadSource);
      }
      if d.name == root {
        return Some(Cycle);
      }
      var cs := (if d.name in constraints then constraints[d.name] else []) + [d.constraint];
      constraints := constraints[d.name := cs];
      match env.installed(d.name) {
        case LookupFailed => return Some(InstalledLookupFailed);
        case Present(v) =>
          failure := WalkPresent(d, v);
          return;
        case Absent =>
      }
      var listed := env.market(d.name);
      if listed.None? {
        return Some(MarketLookupFailed);
      }
      var picked := PickHighestSatisfying(listed.value, cs);
      if picked.Err? {
        return Some(picked.error);
      }
      RecordPick(d, cs, picked.value);
      return None;
    }

    /** Step 1: an installed plugin is skipped or refused. */
    method WalkPresent(d: Dependency, v: VersionText) returns (failure: Option<PlanError>)
      modifies this`resolved, this`order
      ensures match WalkInstalled(old(View()), d, v)
              case Err(e) => failure == Some(e)
              case Ok(w) => failure == None && View() == w
    {
      if !Satisfied(d.constraint, v) {
        return Some(Unsatisfiable);
      }
      if d.name !in resolved {
        Append(PlanStep(d.name, v, Tier2, ActSkip, [d.constraint]));
      } else if resolved[d.name].action.ActSkip? && !Satisfied(d.constraint, resolved[d.name].version) {
        return Some(Unsatisfiable);
      }
      return None;
    }

    /** Step 3: the pick is recorded, or narrows a recorded one it no longer fits. */
    method RecordPick(d: Dependency, cs: seq<Constraint>, picked: VersionText)
      modifies this`resolved, this`order
      ensures View() == WalkPicked(old(View()), d, cs, picked)
    {
      if d.name in resolved {
        var existing := resolved[d.name];
        if existing.action.ActInstall? && !Satisfied(d.constraint, existing.version) {
          resolved := resolved[d.name := existing.(version := picked, constraints := FilterBlank(cs))];
        }
      } else {
        Append(PlanStep(d.name, picked, Tier2, ActInstall, FilterBlank(cs)));
      }
    }

    method Append(step: PlanStep)
      modifies this`resolved, this`order
      ensures View() == Record(old(View()), step)
    {
      resolved := resolved[step.name := step];
      order := order + [step.name];
    }
  }

  lemma {:induction false} WalkErrorStays(env: Env, root: string, w: Walk, deps: seq<Dependency>, i: nat)
    requires i <= |deps|
    requires WalkDeps(env, root, w, deps[..i]).Err? || i == |deps|
    ensures WalkDeps(env, root, w, deps) == WalkDeps(env, root, w, deps[..i])
    decreases |deps| - i
  {
    if i == |deps| {
      assert deps[..i] == deps;
    } else {
      assert deps[..i + 1][..i] == deps[..i];
      WalkErrorStays(env, root, w, deps, i + 1);
    }
  }

  /** Resolver.Plan. A cap of zero or below means 32; a plan never recurses, so the cap
      and the cycle guard are never what refuses it. */
  method ComputePlan(env: Env, m: Manifest, maxDepth: int) returns (r: Result<seq<PlanStep>, PlanError>)
    ensures r == Plan(env, m)
  {
    var st := new ResolveState(env);
    var failure := st.WalkManifest(m, 0, if maxDepth <= 0 then 32 else maxDepth);
    if failure.Some? {
      return Err(failure.value);
    }
    WalkDescribed(env, m.name, m.deps);
    OrderResolved(env, m.deps, st.View());
    var out := CollectSteps(st.resolved, st.order);
    return Ok(out + [RootStep(m)]);
  }

  method CollectSteps(resolved: map<string, PlanStep>, order: seq<string>) returns (out: seq<PlanStep>)
    requires forall n | n in order :: n in resolved
    ensures out == StepsInOrder(resolved, order)
  {
    out := [];
    for i := 0 to |order|
      invariant out == StepsInOrder(resolved, order[..i])
    {
      out := out + [resolved[order[i]]];
    }
    assert order[..|order|] == order;
  }
}
