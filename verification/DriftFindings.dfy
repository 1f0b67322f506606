/** `_weakened_requirements` of drift.py and the per-operation decision of `analyze`. */
module DriftFindings {
  import opened Common
  import opened Ordering
  import opened Drift

  datatype Kind = WeakerAlternativeAdded | SchemeRemoved | ScopeRemoved

  datatype Severity = Critical | High

  datatype Finding = Finding(kind: Kind, severity: Severity, before: Requirement, after: Requirement)

  // The baseline that is reported: `min(baselines, key=lambda item: (len(item), item))`.

  predicate ShorterLeq(a: Requirement, b: Requirement) {
    |a| < |b| || (|a| == |b| && RequirementLeq(a, b))
  }

  function Least(rs: seq<Requirement>): Requirement
    requires rs != []
  {
    if |rs| == 1 then rs[0]
    else
      var m := Least(rs[..|rs| - 1]);
      if ShorterLeq(m, rs[|rs| - 1]) then m else rs[|rs| - 1]
  }

  lemma {:induction false} LeastIsLeast(rs: seq<Requirement>)
    requires rs != []
    ensures Least(rs) in rs && forall r :: r in rs ==> ShorterLeq(Least(rs), r)
  {
    RequirementLeqOrder();
    var last := rs[|rs| - 1];
    if |rs| > 1 {
      var p := rs[..|rs| - 1];
      LeastIsLeast(p);
      forall r | r in rs ensures ShorterLeq(Least(rs), r) {
        assert r in p || r == last;
      }
    }
  }

  function Baselines(candidate: Requirement, earlier: seq<Requirement>): seq<Requirement> {
    if earlier == [] then []
    else (if StrictlyWeaker(candidate, earlier[0]) then [earlier[0]] else []) + Baselines(candidate, earlier[1..])
  }

  lemma {:induction false} BaselinesAre(candidate: Requirement, earlier: seq<Requirement>)
    ensures forall b :: b in Baselines(candidate, earlier) <==> b in earlier && StrictlyWeaker(candidate, b)
    ensures Baselines(candidate, earlier) != [] <==> exists b :: b in earlier && StrictlyWeaker(candidate, b)
  {
    if earlier != [] {
      BaselinesAre(candidate, earlier[1..]);
      assert earlier == [earlier[0]] + earlier[1..];
    }
  }

  /** Some scheme of `before` that `after` no longer asks for. */
  predicate RemovesScheme(before: Requirement, after: Requirement) {
    RequirementMap(before).Keys - RequirementMap(after).Keys != {}
  }

  /** Some shared scheme for which `before` asks for a scope that `after` does not. */
  predicate RemovesScope(before: Requirement, after: Requirement) {
    var bm, am := RequirementMap(before), RequirementMap(after);
    exists k <- bm.Keys * am.Keys :: bm[k] - am[k] != {}
  }

  /** The three-way classification; `None` is falling through it. */
  function Classify(before: Requirement, after: Requirement, later: seq<Requirement>): Option<Kind> {
    if before in later then Some(WeakerAlternativeAdded)
    else if RemovesScheme(before, after) then Some(SchemeRemoved)
    else if RemovesScope(before, after) then Some(ScopeRemoved)
    else None
  }

  /** What one added alternative yields. */
  function FindingsFor(candidate: Requirement, earlier: seq<Requirement>, later: seq<Requirement>, severity: Severity): seq<Finding> {
    var baselines := Baselines(candidate, earlier);
    if baselines == [] then []
    else
      match Classify(Least(baselines), candidate, later)
      case None => []
      case Some(kind) => [Finding(kind, severity, Least(baselines), candidate)]
  }

  function FindingsOf(added: seq<Requirement>, earlier: seq<Requirement>, later: seq<Requirement>, severity: Severity): seq<Finding> {
    if added == [] then []
    else
      var n := |added| - 1;
      FindingsOf(added[..n], earlier, later, severity) + FindingsFor(added[n], earlier, later, severity)
  }

  function Without(rs: seq<Requirement>, earlier: seq<Requirement>): seq<Requirement> {
    if rs == [] then [] else (if rs[0] in earlier then [] else [rs[0]]) + Without(rs[1..], earlier)
  }

  /** `sorted(new_set - old_set)`: `later` is sorted already. */
  function Added(earlier: seq<Requirement>, later: seq<Requirement>): seq<Requirement> {
    Without(later, earlier)
  }

  function Weakened(previous: Security, current: Security, severity: Severity): seq<Finding> {
    var earlier, later := NormalSecurity(previous), NormalSecurity(current);
    FindingsOf(Added(earlier, later), earlier, later, severity)
  }

  // Every declaration is a list of mappings.

  predicate IsDeclaration(s: Security) {
    s.Some? ==> forall i :: 0 <= i < |s.value| ==> IsMapping(s.value[i])
  }

  lemma DeclaredNormal(s: Security, r: Requirement)
    requires IsDeclaration(s) && r in NormalSecurity(s)
    ensures IsNormal(r)
  {
    NormalSecurityContents(s.value);
    var ds :| ds in s.value && r == NormalRequirement(ds);
    var i :| 0 <= i < |s.value| && s.value[i] == ds;
    NormalRequirementIsNormal(ds);
  }

  lemma {:induction false} WithoutContents(rs: seq<Requirement>, earlier: seq<Requirement>)
    requires NoRepeats(rs)
    ensures NoRepeats(Without(rs, earlier)) && forall r :: r in Without(rs, earlier) <==> r in rs && r !in earlier
  {
    if rs != [] {
      WithoutContents(rs[1..], earlier);
      assert rs == [rs[0]] + rs[1..];
      assert rs[0] !in rs[1..];
    }
  }

  lemma EmptiedRemoves(before: Requirement)
    requires before != [] && DistinctSchemes(before)
    ensures RemovesScheme(before, [])
  {
    RequirementMapAt(before);
    assert before[0].scheme in RequirementMap(before).Keys - RequirementMap([]).Keys;
  }

  /** The classification never falls through: a strictly weaker alternative dropped something. */
  lemma NeverFallsThrough(before: Requirement, after: Requirement, later: seq<Requirement>)
    requires IsNormal(before) && IsNormal(after) && StrictlyWeaker(after, before)
    ensures Classify(before, after, later).Some?
  {
    var bm, am := RequirementMap(before), RequirementMap(after);
    if after == [] {
      EmptiedRemoves(before);
    }
    if !RemovesScheme(before, after) && !RemovesScope(before, after) {
      EmptyMap(after);
      EmptyMap(before);
      forall k | k in bm ensures k in am && am[k] == bm[k] {
        assert k !in bm.Keys - am.Keys;
        assert k in bm.Keys * am.Keys;
        assert bm[k] - am[k] == {};
        assert forall x :: x in bm[k] && x !in am[k] ==> x in bm[k] - am[k];
      }
      assert am == bm;
      NormalByMap(before, after);
    }
  }

  /** A finding is right: what it says was strictly weaker is, and its kind is what happened. */
  predicate Right(f: Finding, earlier: seq<Requirement>, later: seq<Requirement>) {
    && f.after in later && f.after !in earlier && f.before in earlier
    && StrictlyWeaker(f.after, f.before)
    && (f.kind == WeakerAlternativeAdded <==> f.before in later)
    && (f.kind == SchemeRemoved <==> f.before !in later && RemovesScheme(f.before, f.after))
    && (f.kind == ScopeRemoved ==> RemovesScope(f.before, f.after))
  }

  /** The baseline it reports is the least old alternative that the new one is strictly weaker than. */
  ghost predicate AgainstLeast(f: Finding, earlier: seq<Requirement>) {
    forall b :: b in earlier && StrictlyWeaker(f.after, b) ==> ShorterLeq(f.before, b)
  }

  /** One right finding, against the least baseline, when there is a baseline; none otherwise. */
  ghost predicate Judged(found: seq<Finding>, candidate: Requirement, earlier: seq<Requirement>, later: seq<Requirement>,
                         severity: Severity) {
    if exists b :: b in earlier && StrictlyWeaker(candidate, b)
    then
      && |found| == 1 && found[0].after == candidate && found[0].severity == severity
      && Right(found[0], earlier, later) && AgainstLeast(found[0], earlier)
    else found == []
  }

  /** An alternative that was really added; every alternative in sight is in normal form. */
  ghost predicate NewlyAdded(candidate: Requirement, earlier: seq<Requirement>, later: seq<Requirement>) {
    && IsNormal(candidate) && (forall r :: r in earlier ==> IsNormal(r))
    && candidate in later && candidate !in earlier
  }

  lemma FindingFor(candidate: Requirement, earlier: seq<Requirement>, later: seq<Requirement>, severity: Severity)
    requires NewlyAdded(candidate, earlier, later)
    ensures Judged(FindingsFor(candidate, earlier, later, severity), candidate, earlier, later, severity)
  {
    var baselines := Baselines(candidate, earlier);
    BaselinesAre(candidate, earlier);
    if b :| b in earlier && StrictlyWeaker(candidate, b) {
      assert b in baselines;
      LeastIsLeast(baselines);
      NeverFallsThrough(Least(baselines), candidate, later);
    }
  }

  /** What one added alternative yields is determined by being right and against the least baseline. */
  lemma JudgedExactly(found: seq<Finding>, candidate: Requirement, earlier: seq<Requirement>, later: seq<Requirement>,
                      severity: Severity)
    requires NewlyAdded(candidate, earlier, later)
    ensures Judged(found, candidate, earlier, later, severity) <==> found == FindingsFor(candidate, earlier, later, severity)
  {
    FindingFor(candidate, earlier, later, severity);
    var expected := FindingsFor(candidate, earlier, later, severity);
    if Judged(found, candidate, earlier, later, severity) && expected != [] {
      RequirementLeqOrder();
      assert found[0].before == expected[0].before;
      assert found == [found[0]] && expected == [expected[0]];
    }
  }

  // The generator.

  /** One turn of the generator's loop. */
  method Judge(candidate: Requirement, earlier: seq<Requirement>, later: seq<Requirement>, severity: Severity)
    returns (found: seq<Finding>)
    ensures found == FindingsFor(candidate, earlier, later, severity)
    ensures NewlyAdded(candidate, earlier, later) ==> Judged(found, candidate, earlier, later, severity)
  {
    if NewlyAdded(candidate, earlier, later) {
      FindingFor(candidate, earlier, later, severity);
    }
    var baselines := Baselines(candidate, earlier);
    if baselines == [] {
      return [];
    }
    var baseline := Least(baselines);
    if baseline in later {
      found := [Finding(WeakerAlternativeAdded, severity, baseline, candidate)];
    } else if RemovesScheme(baseline, candidate) {
      found := [Finding(SchemeRemoved, severity, baseline, candidate)];
    } else if RemovesScope(baseline, candidate) {
      found := [Finding(ScopeRemoved, severity, baseline, candidate)];
    } else {
      found := [];
    }
  }

  /** The generator's loop over the added alternatives. */
  method JudgeAll(added: seq<Requirement>, earlier: seq<Requirement>, later: seq<Requirement>, severity: Severity)
    returns (findings: seq<Finding>)
    ensures findings == FindingsOf(added, earlier, later, severity)
  {
    findings := [];
    for i := 0 to |added|
      invariant findings == FindingsOf(added[..i], earlier, later, severity)
    {
      assert added[..i + 1][..i] == added[..i];
      var found := Judge(added[i], earlier, later, severity);
      findings := findings + found;
    }
    assert added[..|added|] == added;
  }

  /** `_weakened_requirements` as it runs. */
  method WeakenedRequirements(previous: Security, current: Security, severity: Severity) returns (findings: seq<Finding>)
    ensures findings == Weakened(previous, current, severity)
  {
    var earlier, later := NormalSecurity(previous), NormalSecurity(current);
    findings := JudgeAll(Added(earlier, later), earlier, later, severity);
  }

  // All findings together.

  /** How many findings report the alternative `r`. */
  function Reports(fs: seq<Finding>, r: Requirement): nat {
    if fs == [] then 0 else (if fs[0].after == r then 1 else 0) + Reports(fs[1..], r)
  }

  lemma {:induction false} ReportsConcat(a: seq<Finding>, b: seq<Finding>, r: Requirement)
    ensures Reports(a + b, r) == Reports(a, r) + Reports(b, r)
  {
    if a == [] {
      assert a + b == b;
    } else {
      assert (a + b)[0] == a[0] && (a + b)[1..] == a[1..] + b;
      ReportsConcat(a[1..], b, r);
    }
  }

  lemma ReportsOf(candidate: Requirement, earlier: seq<Requirement>, later: seq<Requirement>, severity: Severity, r: Requirement)
    requires NewlyAdded(candidate, earlier, later)
    ensures var fs := FindingsFor(candidate, earlier, later, severity);
            && (forall f :: f in fs ==> f.severity == severity && Right(f, earlier, later) && AgainstLeast(f, earlier))
            && Reports(fs, r) == if r == candidate && exists b :: b in earlier && StrictlyWeaker(r, b) then 1 else 0
  {
    var fs := FindingsFor(candidate, earlier, later, severity);
    FindingFor(candidate, earlier, later, severity);
    if fs != [] {
      assert fs == [fs[0]] && fs[1..] == [];
    }
  }

  lemma {:induction false} FindingsAre(added: seq<Requirement>, earlier: seq<Requirement>, later: seq<Requirement>,
                                       severity: Severity, r: Requirement)
    requires NoRepeats(added) && forall x :: x in added ==> NewlyAdded(x, earlier, later)
    ensures forall f :: f in FindingsOf(added, earlier, later, severity) ==>
              f.severity == severity && Right(f, earlier, later) && AgainstLeast(f, earlier)
    ensures Reports(FindingsOf(added, earlier, later, severity), r) ==
            if r in added && exists b :: b in earlier && StrictlyWeaker(r, b) then 1 else 0
  {
    if added != [] {
      var c, rest := added[|added| - 1], added[..|added| - 1];
      assert added == rest + [c] && c !in rest;
      var fs := FindingsFor(c, earlier, later, severity);
      ReportsOf(c, earlier, later, severity, r);
      FindingsAre(rest, earlier, later, severity, r);
      ReportsConcat(FindingsOf(rest, earlier, later, severity), fs, r);
    }
  }

  /**
   The generator yields right findings only, each against the least baseline, and reports an alternative
   once when it was added and is strictly weaker than some old one, and never otherwise.
   */
  lemma WeakenedExactly(previous: Security, current: Security, severity: Severity, r: Requirement)
    requires IsDeclaration(previous) && IsDeclaration(current)
    ensures var earlier, later, fs := NormalSecurity(previous), NormalSecurity(current), Weakened(previous, current, severity);
            && (forall f :: f in fs ==> f.severity == severity && Right(f, earlier, later) && AgainstLeast(f, earlier))
            && Reports(fs, r) ==
               if r in later && r !in earlier && exists b :: b in earlier && StrictlyWeaker(r, b) then 1 else 0
  {
    var earlier, later := NormalSecurity(previous), NormalSecurity(current);
    if current.Some? {
      NormalSecurityContents(current.value);
    }
    WithoutContents(later, earlier);
    forall x | x in later ensures IsNormal(x) {
      DeclaredNormal(current, x);
    }
    forall x | x in earlier ensures IsNormal(x) {
      DeclaredNormal(previous, x);
    }
    FindingsAre(Added(earlier, later), earlier, later, severity, r);
  }

  /** The credentials that just meet the new alternative meet it, and do not meet the baseline. */
  lemma FindingIsReal(f: Finding, earlier: seq<Requirement>, later: seq<Requirement>)
    requires Right(f, earlier, later) && IsNormal(f.before) && IsNormal(f.after)
    ensures Satisfies(RequirementMap(f.after), f.after) && !Satisfies(RequirementMap(f.after), f.before)
  {
    OwnCredentials(f.after);
    if Satisfies(RequirementMap(f.after), f.before) {
      LeastCredentials(f.after, f.before);
      WeakerPartialOrder(f.after, f.before, f.after);
    }
  }

  /** A requirement's own credentials meet `r` exactly when `r` is weaker or equal. */
  lemma LeastCredentials(own: Requirement, r: Requirement)
    requires IsNormal(own) && IsNormal(r)
    ensures Satisfies(RequirementMap(own), r) <==> WeakerOrEqual(r, own)
  {
    SatisfiesMap(RequirementMap(own), r);
    EmptyMap(r);
  }

  /**
   A finding need not let anybody new in: another old alternative may already have been as
   weak. It lets some credentials in that were refused exactly when no old alternative is
   weaker than or equal to the reported one.
   */
  lemma FindingWidensExactly(f: Finding, earlier: seq<Requirement>, later: seq<Requirement>)
    requires Right(f, earlier, later) && IsNormal(f.after) && forall r :: r in earlier ==> IsNormal(r)
    ensures (exists c: Credentials :: Satisfies(c, f.after) && !AcceptsNormal(c, earlier)) <==>
            !exists r :: r in earlier && WeakerOrEqual(r, f.after)
  {
    var own := RequirementMap(f.after);
    OwnCredentials(f.after);
    if r :| r in earlier && WeakerOrEqual(r, f.after) {
      WeakerExactly(r, f.after);
    } else {
      forall r | r in earlier ensures !Satisfies(own, r) {
        LeastCredentials(f.after, r);
      }
      assert Satisfies(own, f.after) && !AcceptsNormal(own, earlier);
    }
  }

  // The decision for one operation that both documents have.

  datatype Change = AuthenticationRemoved | Alternatives(findings: seq<Finding>) | NoChange

  /** Lines 181-208. */
  function CompareOperation(previous: Security, current: Security, severity: Severity): Change {
    if Secured(previous) && !Secured(current) then AuthenticationRemoved
    else if !(Secured(previous) && Secured(current)) then NoChange
    else Alternatives(Weakened(previous, current, severity))
  }

  /** Authentication is reported as removed exactly when callers without credentials were newly let in. */
  lemma AuthenticationRemovedExactly(previous: Security, current: Security, severity: Severity)
    ensures CompareOperation(previous, current, severity).AuthenticationRemoved? <==>
            !Accepts(map[], previous) && Accepts(map[], current)
  {
    SecuredExactly(previous);
    SecuredExactly(current);
  }

  // A finding that is no widening.

  lemma MapSnoc(r: Requirement, d: Demand)
    ensures RequirementMap(r + [d]) == RequirementMap(r)[d.scheme := ScopeSet(d.scopes)]
  {
    assert (r + [d])[..|r|] == r;
  }

  const A: Demand := Demand("a", [])
  const B: Demand := Demand("b", [])
  const C: Demand := Demand("c", [])

  lemma ExampleMaps()
    ensures RequirementMap([A]) == map["a" := {}]
    ensures RequirementMap([A, B]) == map["a" := {}, "b" := {}]
    ensures RequirementMap([A, B, C]) == map["a" := {}, "b" := {}, "c" := {}]
  {
    MapSnoc([], A);
    MapSnoc([A], B);
    MapSnoc([A, B], C);
    assert [] + [A] == [A] && [A] + [B] == [A, B] && [A, B] + [C] == [A, B, C];
    assert ScopeSet([]) == {};
  }

  lemma ExampleOrder()
    ensures StrictlyWeaker([A, B], [A, B, C]) && !StrictlyWeaker([A, B], [A])
    ensures RemovesScheme([A, B, C], [A, B])
    ensures [A, B] !in [[A], [A, B, C]] && [A, B, C] !in [[A], [A, B]]
  {
    ExampleMaps();
    assert "a"[0] != "b"[0] && "b"[0] != "c"[0] && "a"[0] != "c"[0];
    assert "b" in RequirementMap([A, B]).Keys && "b" !in RequirementMap([A]).Keys;
    assert "c" in RequirementMap([A, B, C]).Keys - RequirementMap([A, B]).Keys;
    assert |[A, B]| == 2 && |[A, B, C]| == 3 && |[A]| == 1;
  }

  lemma ExampleBaseline()
    ensures FindingsFor([A, B], [[A], [A, B, C]], [[A], [A, B]], High) == [Finding(SchemeRemoved, High, [A, B, C], [A, B])]
  {
    ExampleOrder();
    var earlier := [[A], [A, B, C]];
    assert earlier[1..] == [[A, B, C]] && earlier[1..][1..] == [];
    assert Baselines([A, B], []) == [];
    assert Baselines([A, B], earlier[1..]) == [[A, B, C]];
    assert Baselines([A, B], earlier) == [[A, B, C]];
  }

  const DA: Declared := Declared("a", None)
  const DB: Declared := Declared("b", None)
  const DC: Declared := Declared("c", None)

  const PREVIOUS: Security := Some([[DA], [DA, DB, DC]])
  const CURRENT: Security := Some([[DA], [DA, DB]])

  lemma ExampleDemands()
    ensures NormalRequirement([DA]) == [A]
    ensures NormalRequirement([DA, DB]) == [A, B]
    ensures NormalRequirement([DA, DB, DC]) == [A, B, C]
  {
    NormalDemandsAt([DA]);
    NormalDemandsAt([DA, DB]);
    NormalDemandsAt([DA, DB, DC]);
    assert NormalDemands([DA]) == [A];
    assert NormalDemands([DA, DB]) == [A, B];
    assert NormalDemands([DA, DB, DC]) == [A, B, C];
    SortedStays(DemandLeq, [A]);
    SortedStays(DemandLeq, [A, B]);
    SortedStays(DemandLeq, [A, B, C]);
  }

  lemma NormalPair(a: seq<Declared>, b: seq<Declared>)
    requires NormalRequirement(a) != NormalRequirement(b) && RequirementLeq(NormalRequirement(a), NormalRequirement(b))
    ensures NormalSecurity(Some([a, b])) == [NormalRequirement(a), NormalRequirement(b)]
  {
    var both := [NormalRequirement(a), NormalRequirement(b)];
    assert [a, b][1..] == [b] && [b][1..] == [];
    assert NormalRequirements([b]) == [NormalRequirement(b)];
    assert NormalRequirements([a, b]) == both;
    assert both[1..] == [NormalRequirement(b)] && both[1..][1..] == [];
    assert Unique(both[1..]) == both[1..];
    assert Unique(both) == both;
    SortedStays(RequirementLeq, both);
  }

  lemma ExampleNormal()
    ensures NormalSecurity(PREVIOUS) == [[A], [A, B, C]] && NormalSecurity(CURRENT) == [[A], [A, B]]
  {
    ExampleDemands();
    assert |[A]| == 1 && |[A, B]| == 2 && |[A, B, C]| == 3;
    assert [A][1..] == [];
    NormalPair([DA], [DA, DB, DC]);
    NormalPair([DA], [DA, DB]);
  }

  lemma ExampleAccepts(c: Credentials)
    ensures Accepts(c, PREVIOUS) <==> "a" in c
    ensures Accepts(c, CURRENT) <==> "a" in c
  {
    var previous, current := PREVIOUS.value, CURRENT.value;
    assert previous[0] == [DA] && current[0] == [DA];
    assert [DA][0] == DA && [DA, DB][0] == DA && [DA, DB, DC][0] == DA;
    assert forall ds :: ds in previous || ds in current ==> DA in ds;
    if "a" in c {
      assert SatisfiesDeclared(c, [DA]);
      assert [DA] in previous && [DA] in current;
    }
  }

  lemma ExampleAdded()
    ensures Added([[A], [A, B, C]], [[A], [A, B]]) == [[A, B]]
  {
    var earlier, later := [[A], [A, B, C]], [[A], [A, B]];
    assert |[A]| == 1 && |[A, B]| == 2 && |[A, B, C]| == 3;
    assert later[1..] == [[A, B]] && later[1..][1..] == [];
    assert [A] == earlier[0];
    assert Without(later[1..], earlier) == [[A, B]];
  }

  lemma OneFinding(r: Requirement, earlier: seq<Requirement>, later: seq<Requirement>, severity: Severity)
    ensures FindingsOf([r], earlier, later, severity) == FindingsFor(r, earlier, later, severity)
  {
    assert [r][..0] == [];
    assert FindingsOf([], earlier, later, severity) == [];
  }

  lemma ExampleWeakened()
    ensures Weakened(PREVIOUS, CURRENT, High) == [Finding(SchemeRemoved, High, [A, B, C], [A, B])]
  {
    ExampleNormal();
    ExampleAdded();
    OneFinding([A, B], [[A], [A, B, C]], [[A], [A, B]], High);
    ExampleBaseline();
  }

  lemma ExampleCompared()
    ensures CompareOperation(PREVIOUS, CURRENT, High) == Alternatives(Weakened(PREVIOUS, CURRENT, High))
  {
    ExampleAccepts(map[]);
    SecuredExactly(PREVIOUS);
    SecuredExactly(CURRENT);
  }

  /**
   Such a finding exists: `[{a}, {a, b, c}]` became `[{a}, {a, b}]`. It is all that is reported of the
   operation, which accepts exactly the credentials it accepted before.
   */
  lemma FindingThatWidensNothing()
    ensures IsDeclaration(PREVIOUS) && IsDeclaration(CURRENT)
    ensures CompareOperation(PREVIOUS, CURRENT, High) == Alternatives([Finding(SchemeRemoved, High, [A, B, C], [A, B])])
    ensures forall c: Credentials :: Accepts(c, CURRENT) <==> Accepts(c, PREVIOUS)
  {
    ExampleCompared();
    ExampleWeakened();
    forall c: Credentials ensures Accepts(c, CURRENT) <==> Accepts(c, PREVIOUS) {
      ExampleAccepts(c);
    }
  }
}
