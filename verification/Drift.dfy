/**
 `drift.py`: security requirements as OR over alternatives of AND over schemes, their
 normal form, and the syntactic weakness order against what credentials can do.
 */
module Drift {
  import opened Common
  import opened Ordering

  /** One scheme of a requirement and the scopes asked for. */
  datatype Demand = Demand(scheme: string, scopes: seq<string>)

  /** One alternative: every demand must be met. */
  type Requirement = seq<Demand>

  /** As declared: `None` for a null scope list. */
  datatype Declared = Declared(scheme: string, scopes: Option<seq<string>>)

  // Tuple order, as Python compares the normal forms.

  predicate DemandLeq(a: Demand, b: Demand) {
    if a.scheme == b.scheme then StringsLeq(a.scopes, b.scopes) else StringLeq(a.scheme, b.scheme)
  }

  predicate RequirementLeq(a: Requirement, b: Requirement) {
    a == [] || (b != [] && (if a[0] == b[0] then RequirementLeq(a[1..], b[1..]) else DemandLeq(a[0], b[0])))
  }

  lemma DemandLeqOrder()
    ensures TotalPreorder(DemandLeq) && Antisymmetric(DemandLeq)
  {
    forall a, b ensures DemandLeq(a, b) || DemandLeq(b, a) {
      StringLeqTotal(a.scheme, b.scheme);
      StringsLeqTotal(a.scopes, b.scopes);
    }
    forall a, b, c | DemandLeq(a, b) && DemandLeq(b, c) ensures DemandLeq(a, c) {
      if a.scheme == b.scheme == c.scheme {
        StringsLeqTransitive(a.scopes, b.scopes, c.scopes);
      } else if a.scheme != b.scheme && b.scheme != c.scheme {
        StringLeqTransitive(a.scheme, b.scheme, c.scheme);
        if a.scheme == c.scheme {
          StringLeqAntisymmetric(a.scheme, b.scheme);
        }
      }
    }
    forall a, b | DemandLeq(a, b) && DemandLeq(b, a) ensures a == b {
      if a.scheme == b.scheme {
        StringsLeqAntisymmetric(a.scopes, b.scopes);
      } else {
        StringLeqAntisymmetric(a.scheme, b.scheme);
      }
    }
  }

  lemma {:induction false} RequirementLeqTotal(a: Requirement, b: Requirement)
    ensures RequirementLeq(a, b) || RequirementLeq(b, a)
  {
    if a != [] && b != [] {
      DemandLeqOrder();
      RequirementLeqTotal(a[1..], b[1..]);
    }
  }

  lemma {:induction false} RequirementLeqAntisymmetric(a: Requirement, b: Requirement)
    requires RequirementLeq(a, b) && RequirementLeq(b, a)
    ensures a == b
  {
    if a != [] {
      DemandLeqOrder();
      assert a[0] == b[0];
      RequirementLeqAntisymmetric(a[1..], b[1..]);
      assert a == [a[0]] + a[1..] && b == [b[0]] + b[1..];
    }
  }

  lemma {:induction false} RequirementLeqTransitive(a: Requirement, b: Requirement, c: Requirement)
    requires RequirementLeq(a, b) && RequirementLeq(b, c)
    ensures RequirementLeq(a, c)
  {
    if a != [] {
      DemandLeqOrder();
      if a[0] == b[0] && b[0] == c[0] {
        RequirementLeqTransitive(a[1..], b[1..], c[1..]);
      }
    }
  }

  lemma RequirementLeqOrder()
    ensures TotalPreorder(RequirementLeq) && Antisymmetric(RequirementLeq)
  {
    forall a, b ensures RequirementLeq(a, b) || RequirementLeq(b, a) {
      RequirementLeqTotal(a, b);
    }
    forall a, b, c | RequirementLeq(a, b) && RequirementLeq(b, c) ensures RequirementLeq(a, c) {
      RequirementLeqTransitive(a, b, c);
    }
    forall a, b | RequirementLeq(a, b) && RequirementLeq(b, a) ensures a == b {
      RequirementLeqAntisymmetric(a, b);
    }
  }

  // Normal forms.

  function NormalDemand(d: Declared): Demand {
    Demand(d.scheme, if d.scopes.None? then [] else SortBy(StringLeq, Unique(d.scopes.value)))
  }

  function NormalDemands(ds: seq<Declared>): seq<Demand> {
    if ds == [] then [] else [NormalDemand(ds[0])] + NormalDemands(ds[1..])
  }

  /** `_normalize_requirement`. */
  function NormalRequirement(ds: seq<Declared>): Requirement {
    SortBy(DemandLeq, NormalDemands(ds))
  }

  function NormalRequirements(rs: seq<seq<Declared>>): seq<Requirement> {
    if rs == [] then [] else [NormalRequirement(rs[0])] + NormalRequirements(rs[1..])
  }

  /** A security declaration; `None` when there is none. */
  type Security = Option<seq<seq<Declared>>>

  /** `_normalize_security`. */
  function NormalSecurity(security: Security): seq<Requirement> {
    if security.None? then [] else SortBy(RequirementLeq, Unique(NormalRequirements(security.value)))
  }

  /** `_normalize_requirement` as it runs: a list grown entry by entry, then sorted. */
  method NormalizeRequirement(ds: seq<Declared>) returns (r: Requirement)
    ensures r == NormalRequirement(ds)
  {
    var normalized: seq<Demand> := [];
    for i := 0 to |ds|
      invariant |normalized| == i && forall j :: 0 <= j < i ==> normalized[j] == NormalDemand(ds[j])
    {
      normalized := normalized + [NormalDemand(ds[i])];
    }
    NormalDemandsAt(ds);
    assert normalized == NormalDemands(ds);
    return SortBy(DemandLeq, normalized);
  }

  predicate DistinctSchemes(r: Requirement) {
    forall i, j :: 0 <= i < j < |r| ==> r[i].scheme != r[j].scheme
  }

  /** A declared requirement is a mapping: its schemes are distinct. */
  predicate IsMapping(ds: seq<Declared>) {
    forall i, j :: 0 <= i < j < |ds| ==> ds[i].scheme != ds[j].scheme
  }

  ghost predicate IsNormal(r: Requirement) {
    && Sorted(DemandLeq, r) && DistinctSchemes(r)
    && forall d :: d in r ==> Sorted(StringLeq, d.scopes) && NoRepeats(d.scopes)
  }

  lemma {:induction false} NormalDemandsAt(ds: seq<Declared>)
    ensures |NormalDemands(ds)| == |ds|
    ensures forall i :: 0 <= i < |ds| ==> NormalDemands(ds)[i] == NormalDemand(ds[i])
  {
    if ds != [] {
      NormalDemandsAt(ds[1..]);
    }
  }

  lemma ScopesNormal(d: Declared)
    ensures Sorted(StringLeq, NormalDemand(d).scopes) && NoRepeats(NormalDemand(d).scopes)
  {
    if d.scopes.Some? {
      StringLeqOrder();
      UniqueContents(d.scopes.value);
      SortSorts(StringLeq, Unique(d.scopes.value));
      SortNoRepeats(StringLeq, Unique(d.scopes.value));
    }
  }

  lemma NormalRequirementIsNormal(ds: seq<Declared>)
    requires IsMapping(ds)
    ensures IsNormal(NormalRequirement(ds))
  {
    var t := NormalDemands(ds);
    NormalDemandsAt(ds);
    SortedDistinct(t);
    forall d | d in NormalRequirement(ds) ensures Sorted(StringLeq, d.scopes) && NoRepeats(d.scopes) {
      assert d in t;
      var i :| 0 <= i < |ds| && t[i] == d;
      ScopesNormal(ds[i]);
    }
  }

  lemma SortedDistinct(t: Requirement)
    requires DistinctSchemes(t)
    ensures var r := SortBy(DemandLeq, t);
            Sorted(DemandLeq, r) && DistinctSchemes(r) && forall d :: d in r ==> d in t
  {
    DemandLeqOrder();
    SortSorts(DemandLeq, t);
    SortContents(DemandLeq, t);
    SortNoRepeats(DemandLeq, t);
    SchemesStayDistinct(t, SortBy(DemandLeq, t));
  }

  lemma SchemesStayDistinct(t: Requirement, r: Requirement)
    requires DistinctSchemes(t) && NoRepeats(r) && forall d :: d in r ==> d in t
    ensures DistinctSchemes(r)
  {
    forall i, j | 0 <= i < j < |r| ensures r[i].scheme != r[j].scheme {
      assert r[i] in t && r[j] in t;
    }
  }

  // What credentials can do.

  /** Schemes a caller can present, each with the scopes it was granted. */
  type Credentials = map<string, set<string>>

  ghost predicate Meets(c: Credentials, d: Demand) {
    d.scheme in c && forall s :: s in d.scopes ==> s in c[d.scheme]
  }

  ghost predicate MeetsDeclared(c: Credentials, d: Declared) {
    d.scheme in c && (d.scopes.Some? ==> forall s :: s in d.scopes.value ==> s in c[d.scheme])
  }

  ghost predicate Satisfies(c: Credentials, r: Requirement) {
    forall d :: d in r ==> Meets(c, d)
  }

  ghost predicate SatisfiesDeclared(c: Credentials, ds: seq<Declared>) {
    forall d :: d in ds ==> MeetsDeclared(c, d)
  }

  /** No declaration, or an empty one, lets everybody in; otherwise one alternative must be met. */
  ghost predicate Accepts(c: Credentials, security: Security) {
    security.None? || security.value == [] || exists ds :: ds in security.value && SatisfiesDeclared(c, ds)
  }

  /** The same, told of the normal form. */
  ghost predicate AcceptsNormal(c: Credentials, rs: seq<Requirement>) {
    rs == [] || exists r :: r in rs && Satisfies(c, r)
  }

  lemma NormalDemandMeans(c: Credentials, d: Declared)
    ensures Meets(c, NormalDemand(d)) <==> MeetsDeclared(c, d)
  {
    if d.scopes.Some? {
      UniqueContents(d.scopes.value);
      SortContents(StringLeq, Unique(d.scopes.value));
    }
  }

  lemma NormalRequirementMeans(c: Credentials, ds: seq<Declared>)
    ensures Satisfies(c, NormalRequirement(ds)) <==> SatisfiesDeclared(c, ds)
  {
    var t := NormalDemands(ds);
    NormalDemandsAt(ds);
    SortContents(DemandLeq, t);
    if Satisfies(c, NormalRequirement(ds)) {
      forall d | d in ds ensures MeetsDeclared(c, d) {
        var i :| 0 <= i < |ds| && ds[i] == d;
        assert t[i] in NormalRequirement(ds);
        NormalDemandMeans(c, d);
      }
    }
    if SatisfiesDeclared(c, ds) {
      forall d | d in NormalRequirement(ds) ensures Meets(c, d) {
        assert d in t;
        var i :| 0 <= i < |t| && t[i] == d;
        assert ds[i] in ds;
        NormalDemandMeans(c, ds[i]);
      }
    }
  }

  lemma {:induction false} NormalRequirementsAt(rs: seq<seq<Declared>>)
    ensures |NormalRequirements(rs)| == |rs|
    ensures forall i :: 0 <= i < |rs| ==> NormalRequirements(rs)[i] == NormalRequirement(rs[i])
  {
    if rs != [] {
      NormalRequirementsAt(rs[1..]);
    }
  }

  lemma NormalSecurityContents(rs: seq<seq<Declared>>)
    ensures NoRepeats(NormalSecurity(Some(rs)))
    ensures forall r :: r in NormalSecurity(Some(rs)) <==> exists ds :: ds in rs && r == NormalRequirement(ds)
  {
    var all := NormalRequirements(rs);
    NormalRequirementsAt(rs);
    UniqueContents(all);
    SortContents(RequirementLeq, Unique(all));
    SortNoRepeats(RequirementLeq, Unique(all));
    forall r ensures r in NormalSecurity(Some(rs)) <==> exists ds :: ds in rs && r == NormalRequirement(ds) {
      assert r in NormalSecurity(Some(rs)) <==> r in all;
      if r in all {
        var i :| 0 <= i < |all| && all[i] == r;
        assert rs[i] in rs;
      }
      if ds :| ds in rs && r == NormalRequirement(ds) {
        var i :| 0 <= i < |rs| && rs[i] == ds;
        assert all[i] == r;
      }
    }
  }

  /** Normalising changes nothing about who is let in. */
  lemma NormalSecurityMeans(c: Credentials, security: Security)
    ensures AcceptsNormal(c, NormalSecurity(security)) <==> Accepts(c, security)
  {
    if security.Some? && security.value != [] {
      var rs := security.value;
      NormalSecurityContents(rs);
      assert NormalRequirement(rs[0]) in NormalSecurity(security) by {
        assert rs[0] in rs;
      }
      if Accepts(c, security) {
        var ds :| ds in rs && SatisfiesDeclared(c, ds);
        NormalRequirementMeans(c, ds);
        assert NormalRequirement(ds) in NormalSecurity(security);
      }
      if AcceptsNormal(c, NormalSecurity(security)) {
        var r :| r in NormalSecurity(security) && Satisfies(c, r);
        var ds :| ds in rs && r == NormalRequirement(ds);
        NormalRequirementMeans(c, ds);
      }
    }
  }

  /** `_secured`. */
  predicate Secured(security: Security) {
    var normalized := NormalSecurity(security);
    normalized != [] && forall i :: 0 <= i < |normalized| ==> normalized[i] != []
  }

  /** A declaration is secured exactly when a caller without credentials is refused. */
  lemma SecuredExactly(security: Security)
    ensures Secured(security) <==> !Accepts(map[], security)
  {
    var rs := NormalSecurity(security);
    NormalSecurityMeans(map[], security);
    forall r | r in rs ensures Satisfies(map[], r) <==> r == [] {
      if r != [] {
        assert r[0] in r && !Meets(map[], r[0]);
      }
    }
    if !Secured(security) && rs != [] {
      var i :| 0 <= i < |rs| && rs[i] == [];
      assert rs[i] in rs;
    }
  }

  // The weakness order.

  function ScopeSet(scopes: seq<string>): set<string> {
    set s | s in scopes
  }

  /** `_requirement_map`. */
  function RequirementMap(r: Requirement): map<string, set<string>> {
    if r == [] then map[]
    else RequirementMap(r[..|r| - 1])[r[|r| - 1].scheme := ScopeSet(r[|r| - 1].scopes)]
  }

  /** `_weaker_or_equal`. */
  predicate WeakerOrEqual(candidate: Requirement, baseline: Requirement) {
    candidate == [] || (
      var cm, bm := RequirementMap(candidate), RequirementMap(baseline);
      cm.Keys <= bm.Keys && forall name <- cm.Keys :: cm[name] <= bm[name])
  }

  /** `_strictly_weaker`. */
  predicate StrictlyWeaker(candidate: Requirement, baseline: Requirement) {
    candidate != baseline && WeakerOrEqual(candidate, baseline)
  }

  lemma {:induction false} RequirementMapAt(r: Requirement)
    requires DistinctSchemes(r)
    ensures forall k :: k in RequirementMap(r) <==> exists i :: 0 <= i < |r| && r[i].scheme == k
    ensures forall i :: 0 <= i < |r| ==>
      r[i].scheme in RequirementMap(r) && RequirementMap(r)[r[i].scheme] == ScopeSet(r[i].scopes)
  {
    if r != [] {
      var p := r[..|r| - 1];
      RequirementMapAt(p);
      forall k ensures k in RequirementMap(r) <==> exists i :: 0 <= i < |r| && r[i].scheme == k {
        if k in RequirementMap(p) {
          var i :| 0 <= i < |p| && p[i].scheme == k;
          assert r[i].scheme == k;
        }
        if i :| 0 <= i < |r| && r[i].scheme == k && i < |p| {
          assert p[i].scheme == k;
        }
      }
      forall i | 0 <= i < |r|
        ensures r[i].scheme in RequirementMap(r) && RequirementMap(r)[r[i].scheme] == ScopeSet(r[i].scopes)
      {
        if i < |p| {
          assert p[i] == r[i];
        }
      }
    }
  }

  /** Meeting a requirement is presenting at least its map. */
  lemma SatisfiesMap(c: Credentials, r: Requirement)
    requires DistinctSchemes(r)
    ensures Satisfies(c, r) <==> forall k :: k in RequirementMap(r) ==> k in c && RequirementMap(r)[k] <= c[k]
  {
    var m := RequirementMap(r);
    RequirementMapAt(r);
    if Satisfies(c, r) {
      forall k | k in m ensures k in c && m[k] <= c[k] {
        var i :| 0 <= i < |r| && r[i].scheme == k;
        assert Meets(c, r[i]);
      }
    }
    if forall k :: k in m ==> k in c && m[k] <= c[k] {
      forall d | d in r ensures Meets(c, d) {
        var i :| 0 <= i < |r| && r[i] == d;
        assert m[d.scheme] <= c[d.scheme];
      }
    }
  }

  /** The least credentials that meet a requirement. */
  lemma OwnCredentials(r: Requirement)
    requires DistinctSchemes(r)
    ensures Satisfies(RequirementMap(r), r)
  {
    SatisfiesMap(RequirementMap(r), r);
  }

  /** Weaker or equal means: whatever meets the baseline meets the candidate. */
  lemma WeakerExactly(candidate: Requirement, baseline: Requirement)
    requires DistinctSchemes(candidate) && DistinctSchemes(baseline)
    ensures WeakerOrEqual(candidate, baseline) <==>
            forall c: Credentials :: Satisfies(c, baseline) ==> Satisfies(c, candidate)
  {
    var cm, bm := RequirementMap(candidate), RequirementMap(baseline);
    if WeakerOrEqual(candidate, baseline) {
      forall c: Credentials | Satisfies(c, baseline) ensures Satisfies(c, candidate) {
        SatisfiesMap(c, baseline);
        SatisfiesMap(c, candidate);
      }
    }
    if forall c: Credentials :: Satisfies(c, baseline) ==> Satisfies(c, candidate) {
      OwnCredentials(baseline);
      SatisfiesMap(bm, candidate);
    }
  }

  /** A normal form is fixed by its map. */
  lemma NormalByMap(a: Requirement, b: Requirement)
    requires IsNormal(a) && IsNormal(b) && RequirementMap(a) == RequirementMap(b)
    ensures a == b
  {
    RequirementMapAt(a);
    RequirementMapAt(b);
    DemandsShared(a, b);
    DemandsShared(b, a);
    DemandLeqOrder();
    SameLength(a, b);
    SortedUnique(DemandLeq, a, b);
  }

  lemma DemandsShared(a: Requirement, b: Requirement)
    requires IsNormal(a) && IsNormal(b) && RequirementMap(a) == RequirementMap(b)
    ensures forall d :: d in a ==> d in b
  {
    RequirementMapAt(a);
    RequirementMapAt(b);
    forall d | d in a ensures d in b {
      var i :| 0 <= i < |a| && a[i] == d;
      assert d.scheme in RequirementMap(b);
      var j :| 0 <= j < |b| && b[j].scheme == d.scheme;
      ScopesFixed(d.scopes, b[j].scopes);
    }
  }

  lemma ScopesFixed(s: seq<string>, t: seq<string>)
    requires Sorted(StringLeq, s) && NoRepeats(s) && Sorted(StringLeq, t) && NoRepeats(t)
    requires ScopeSet(s) == ScopeSet(t)
    ensures s == t
  {
    StringLeqOrder();
    forall x ensures x in s <==> x in t {
      assert x in ScopeSet(s) <==> x in ScopeSet(t);
    }
    DistinctCount(s);
    DistinctCount(t);
    SortedUnique(StringLeq, s, t);
  }

  lemma SameLength<T>(a: seq<T>, b: seq<T>)
    requires NoRepeats(a) && NoRepeats(b) && (forall x :: x in a ==> x in b) && (forall x :: x in b ==> x in a)
    ensures |a| == |b|
  {
    DistinctCount(a);
    DistinctCount(b);
    assert (set x | x in a) == set x | x in b;
  }

  /** On normal forms the order is a partial order. */
  lemma WeakerPartialOrder(a: Requirement, b: Requirement, c: Requirement)
    requires IsNormal(a) && IsNormal(b) && IsNormal(c)
    ensures WeakerOrEqual(a, a)
    ensures WeakerOrEqual(a, b) && WeakerOrEqual(b, a) ==> a == b
    ensures WeakerOrEqual(a, b) && WeakerOrEqual(b, c) ==> WeakerOrEqual(a, c)
  {
    RequirementMapAt(a);
    RequirementMapAt(b);
    if WeakerOrEqual(a, b) && WeakerOrEqual(b, a) {
      EmptyMap(a);
      EmptyMap(b);
      var am, bm := RequirementMap(a), RequirementMap(b);
      assert am.Keys <= bm.Keys && bm.Keys <= am.Keys;
      forall k | k in am ensures am[k] == bm[k] {
        assert am[k] <= bm[k] && bm[k] <= am[k];
      }
      assert am == bm;
      NormalByMap(a, b);
    }
    if WeakerOrEqual(a, b) && WeakerOrEqual(b, c) && a != [] {
      EmptyMap(a);
      EmptyMap(b);
    }
  }

  lemma EmptyMap(r: Requirement)
    requires DistinctSchemes(r)
    ensures r == [] <==> RequirementMap(r) == map[]
  {
    RequirementMapAt(r);
  }
}
