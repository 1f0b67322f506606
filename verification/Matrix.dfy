/** The identity matrix of verifier.py: who owns what, and what the observations say about it. */
module Matrix {
  import opened Common
  import opened Verifier
  import opened Collector
  import A = Authz
  import V = AuthzVerified
  import B = AuthzBodies

  /** The one profile that owns a resource, as `_validate_inputs` makes sure. */
  lemma OneOwner(x: Text, profiles: seq<Profile>, resources: seq<Resource>, templates: seq<Template>, r: Resource)
    returns (j: nat)
    requires Validated(x, profiles, resources, templates) && r in resources
    ensures j < |profiles| && profiles[j].principal == r.owner
    ensures forall k :: 0 <= k < |profiles| ==> (r.key in OwnedBy(resources, profiles[k].principal) <==> k == j)
  {
    var principals, keys := Principals(profiles), KeysOf(resources);
    assert r.owner in principals;
    j :| 0 <= j < |principals| && principals[j] == r.owner;
    var m :| 0 <= m < |resources| && resources[m] == r;
    forall k | 0 <= k < |profiles| ensures r.key in OwnedBy(resources, profiles[k].principal) <==> k == j {
      if r.key in OwnedBy(resources, profiles[k].principal) {
        var s :| s in resources && s.owner == profiles[k].principal && s.key == r.key;
        var l :| 0 <= l < |resources| && resources[l] == s;
        assert keys[l] == keys[m];
        assert l == m;
        assert principals[k] == principals[j];
      }
    }
  }

  /** The owned sets of the profiles partition the resource keys. */
  lemma OwnedSetsPartition(x: Text, profiles: seq<Profile>, resources: seq<Resource>, templates: seq<Template>)
    requires Validated(x, profiles, resources, templates)
    ensures var e := Enriched(profiles, resources);
            (forall i, j :: 0 <= i < j < |e| ==> e[i].owned.value !! e[j].owned.value)
            && forall key :: key in KeysOf(resources) <==> exists i :: 0 <= i < |e| && key in e[i].owned.value
  {
    var e := Enriched(profiles, resources);
    forall i, j, key | 0 <= i < j < |e| && key in e[i].owned.value ensures key !in e[j].owned.value {
      var r :| r in resources && r.owner == profiles[i].principal && r.key == key;
      var o := OneOwner(x, profiles, resources, templates, r);
    }
    forall key ensures key in KeysOf(resources) <==> exists i :: 0 <= i < |e| && key in e[i].owned.value {
      if key in KeysOf(resources) {
        var m :| 0 <= m < |resources| && KeysOf(resources)[m] == key;
        assert resources[m] in resources;
        var o := OneOwner(x, profiles, resources, templates, resources[m]);
        assert key in e[o].owned.value;
      }
      if i :| 0 <= i < |e| && key in e[i].owned.value {
        var r :| r in resources && r.owner == profiles[i].principal && r.key == key;
        var m :| 0 <= m < |resources| && resources[m] == r;
        assert KeysOf(resources)[m] == key;
      }
    }
  }

  // Which requests there are.

  lemma {:induction false} ForKindAre(x: Text, t: Template, kind: string, resources: seq<Resource>, q: Request)
    ensures q in ForKind(x, t, kind, resources) <==>
            exists r :: r in resources && r.kind == kind && q == RenderFor(x, t, r)
  {
    if resources != [] {
      var p, last := resources[..|resources| - 1], resources[|resources| - 1];
      ForKindAre(x, t, kind, p, q);
      assert forall r :: r in resources <==> r in p || r == last;
    }
  }

  /** A request of a resource is rendered from a template of its kind; any other is rendered plainly. */
  ghost predicate Rendered(x: Text, templates: seq<Template>, resources: seq<Resource>, q: Request) {
    || (exists t :: t in templates && !HasKind(t) && q == RenderPlain(x, t))
    || (exists t, r :: t in templates && r in resources && HasKind(t) && r.kind == t.resourceKind.value
          && q == RenderFor(x, t, r))
  }

  lemma {:induction false} RequestsAre(x: Text, templates: seq<Template>, resources: seq<Resource>, q: Request)
    ensures q in Requests(x, templates, resources) <==> exists t :: t in templates && q in Expand(x, t, resources)
  {
    if templates != [] {
      var p, last := templates[..|templates| - 1], templates[|templates| - 1];
      RequestsAre(x, p, resources, q);
      assert forall t :: t in templates <==> t in p || t == last;
    }
  }

  /** The requests are exactly the renderings of the templates. */
  lemma RequestsRendered(x: Text, templates: seq<Template>, resources: seq<Resource>, q: Request)
    ensures q in Requests(x, templates, resources) <==> Rendered(x, templates, resources, q)
  {
    RequestsAre(x, templates, resources, q);
    forall t | t in templates && HasKind(t)
      ensures q in Expand(x, t, resources) <==>
              exists r :: r in resources && r.kind == t.resourceKind.value && q == RenderFor(x, t, r)
    {
      ForKindAre(x, t, t.resourceKind.value, resources, q);
    }
    if t :| t in templates && q in Expand(x, t, resources) {
      if HasKind(t) {
        var r :| r in resources && r.kind == t.resourceKind.value && q == RenderFor(x, t, r);
      }
    }
    if t :| t in templates && !HasKind(t) && q == RenderPlain(x, t) {
      assert q in Expand(x, t, resources);
    }
    if t, r :| t in templates && r in resources && HasKind(t) && r.kind == t.resourceKind.value && q == RenderFor(x, t, r) {
      assert q in Expand(x, t, resources);
    }
  }

  // Ownership in the matrix.

  /** The profiles of a run. */
  function RunProfiles(x: Text, includeAnonymous: bool, profiles: seq<Profile>, resources: seq<Resource>): seq<Profile> {
    Roster(x, includeAnonymous, Enriched(profiles, resources))
  }

  /** For a resource's request, exactly one profile of the run owns it: its owner, never the added one. */
  lemma OwnershipDecided(x: Text, includeAnonymous: bool, profiles: seq<Profile>, resources: seq<Resource>,
                         templates: seq<Template>, q: Request)
    returns (j: nat, r: Resource)
    requires Validated(x, profiles, resources, templates)
    requires q in Requests(x, templates, resources) && q.resourceId.Some?
    ensures j < |profiles| && r in resources && q.resourceId == Some(r.key) && profiles[j].principal == r.owner
    ensures var roster := RunProfiles(x, includeAnonymous, profiles, resources);
            |profiles| <= |roster| && roster[j].principal == r.owner
            && forall k :: 0 <= k < |roster| ==> Ownership(q, roster[k]) == Some(k == j)
  {
    RequestsRendered(x, templates, resources, q);
    var t: Template;
    t, r :| t in templates && r in resources && HasKind(t) && r.kind == t.resourceKind.value && q == RenderFor(x, t, r);
    j := OneOwner(x, profiles, resources, templates, r);
  }

  /** Of these observations exactly the `j`th owns the resource. */
  ghost predicate OnlyOwns(row: seq<A.Observation>, j: nat) {
    j < |row| && forall k :: 0 <= k < |row| ==> row[k].ownsResource == Some(k == j)
  }

  /**
   Each request for a resource has one observation per profile, and exactly one of them owns it.
   It was made by the resource's owner, and never by the anonymous profile that the run adds.
   */
  lemma OneObservationOwns(x: Text, includeAnonymous: bool, profiles: seq<Profile>, resources: seq<Resource>,
                           templates: seq<Template>, p: Policy, observations: seq<A.Observation>, i: nat)
    returns (j: nat, r: Resource)
    requires Validated(x, profiles, resources, templates)
    requires IsMatrix(p, Requests(x, templates, resources), RunProfiles(x, includeAnonymous, profiles, resources), observations)
    requires i < |Requests(x, templates, resources)| && Requests(x, templates, resources)[i].resourceId.Some?
    ensures j < |profiles| && r in resources && Requests(x, templates, resources)[i].resourceId == Some(r.key)
    ensures var n := |RunProfiles(x, includeAnonymous, profiles, resources)|;
            var row := RowOf(observations, i, n);
            |row| == n >= |profiles| && OnlyOwns(row, j) && row[j].principal == r.owner
  {
    var requests := Requests(x, templates, resources);
    var roster := RunProfiles(x, includeAnonymous, profiles, resources);
    assert requests[i] in requests;
    j, r := OwnershipDecided(x, includeAnonymous, profiles, resources, templates, requests[i]);
    MatrixRow(p, requests, roster, observations, i);
  }

  // From the matrix to the candidates.

  lemma MatrixMember(p: Policy, requests: seq<Request>, profiles: seq<Profile>,
                     observations: seq<A.Observation>, o: A.Observation)
    returns (q: Request, s: Profile)
    requires IsMatrix(p, requests, profiles, observations) && o in observations
    ensures q in requests && s in profiles && Records(p, o, q, s)
  {
    var rows :| AreRows(p, requests, profiles, rows) && observations == Joined(rows);
    var i, j := JoinedMember(rows, o);
    assert RecordsRow(p, requests[i], profiles, rows[i]);
    q, s := requests[i], profiles[j];
  }

  /** The ownership decision is the truth: a profile of the run owns a resource exactly when it is its owner. */
  lemma OwnershipExactly(x: Text, includeAnonymous: bool, profiles: seq<Profile>, resources: seq<Resource>,
                         templates: seq<Template>, r: Resource, s: Profile, q: Request)
    requires Validated(x, profiles, resources, templates) && x.lower(ANONYMOUS) == ANONYMOUS
    requires r in resources && s in RunProfiles(x, includeAnonymous, profiles, resources) && q.resourceId == Some(r.key)
    ensures Ownership(q, s) == Some(s.principal == r.owner)
  {
    var e := Enriched(profiles, resources);
    if s in e {
      var j := OneOwner(x, profiles, resources, templates, r);
      var k :| 0 <= k < |e| && e[k] == s;
      assert Principals(profiles)[k] == s.principal && Principals(profiles)[j] == r.owner;
    } else {
      assert s == THE_ANONYMOUS;
      assert ValidResource(x, r);
    }
  }

  /** A resource's observation owns it exactly when the resource's owner made it; any other decides nothing. */
  lemma ObservedOwnership(x: Text, includeAnonymous: bool, profiles: seq<Profile>, resources: seq<Resource>,
                          templates: seq<Template>, p: Policy, observations: seq<A.Observation>, o: A.Observation)
    returns (r: Option<Resource>)
    requires Validated(x, profiles, resources, templates) && x.lower(ANONYMOUS) == ANONYMOUS
    requires IsMatrix(p, Requests(x, templates, resources), RunProfiles(x, includeAnonymous, profiles, resources), observations)
    requires o in observations
    ensures r.None? ==> o.resourceId.None? && o.ownsResource.None?
    ensures r.Some? ==> r.value in resources && o.resourceId == Some(r.value.key)
    ensures r.Some? ==> o.ownsResource == Some(o.principal == r.value.owner)
  {
    var requests := Requests(x, templates, resources);
    var roster := RunProfiles(x, includeAnonymous, profiles, resources);
    var q, s := MatrixMember(p, requests, roster, observations, o);
    RequestsRendered(x, templates, resources, q);
    if q.resourceId.None? {
      r := None;
    } else {
      var t, c :| t in templates && c in resources && HasKind(t) && c.kind == t.resourceKind.value && q == RenderFor(x, t, c);
      OwnershipExactly(x, includeAnonymous, profiles, resources, templates, c, s, q);
      r := Some(c);
    }
  }

  /**
   Whatever the engine reports as cross-principal access in a run names the true owner of a
   resource of the run and somebody else.
   */
  lemma CandidateNamesOwner(x: Text, includeAnonymous: bool, profiles: seq<Profile>, resources: seq<Resource>,
                            templates: seq<Template>, p: Policy, observations: seq<A.Observation>,
                            c: B.Config, rest: A.Rest, f: A.Candidate)
    returns (r: Resource)
    requires Validated(x, profiles, resources, templates) && x.lower(ANONYMOUS) == ANONYMOUS
    requires IsMatrix(p, Requests(x, templates, resources), RunProfiles(x, includeAnonymous, profiles, resources), observations)
    requires V.OtherKinds(rest) && f in A.Analysis(c, rest, observations) && f.kind == A.CROSS_PRINCIPAL
    ensures r in resources && f.owner == r.owner && f.viewer != r.owner
    ensures exists verb, route :: f.target == A.Target(A.Key(verb, route, Some(r.key)))
  {
    V.AnalysisArises(c, rest, observations, f);
    var o, v := V.ArisesFrom(c, observations, f);
    var ro := ObservedOwnership(x, includeAnonymous, profiles, resources, templates, p, observations, o);
    var rv := ObservedOwnership(x, includeAnonymous, profiles, resources, templates, p, observations, v);
    r := ro.value;
    assert o.resourceId == v.resourceId;
    SameKey(x, profiles, resources, templates, r, rv.value);
    assert f.target == A.Target(A.Key(o.verb, o.route, Some(r.key)));
  }

  lemma SameKey(x: Text, profiles: seq<Profile>, resources: seq<Resource>, templates: seq<Template>, r: Resource, s: Resource)
    requires Validated(x, profiles, resources, templates) && r in resources && s in resources && r.key == s.key
    ensures r == s
  {
    var i :| 0 <= i < |resources| && resources[i] == r;
    var j :| 0 <= j < |resources| && resources[j] == s;
    assert KeysOf(resources)[i] == KeysOf(resources)[j];
  }

  // The run.

  datatype RunError = Invalid(error: Error) | Collecting(failure: Failure)

  datatype RunResult = RunResult(observations: seq<A.Observation>, candidates: seq<A.Candidate>,
                                 requests: seq<Request>, profiles: seq<Profile>)

  /** `ActiveAuthorizationVerifier.run`, with a collector made for these limits. */
  method Run(x: Text, includeAnonymous: bool, profiles: seq<Profile>, resources: seq<Resource>, templates: seq<Template>,
             collector: EvidenceCollector, c: B.Config, rest: A.Rest)
    returns (run: Result<RunResult, RunError>)
    requires collector.Valid()
    modifies collector, collector.clock
    ensures collector.Valid()
    ensures var invalid := InputError(x, profiles, resources, templates);
            invalid.Some? ==> run == Failure(Invalid(invalid.value)) && collector.sends == old(collector.sends)
    ensures Validated(x, profiles, resources, templates) ==>
              var total := |Requests(x, templates, resources)| * |RunProfiles(x, includeAnonymous, profiles, resources)|;
              total > collector.maxRequests ==>
              run == Failure(Invalid(OverBudget(total, collector.maxRequests))) && collector.sends == old(collector.sends)
    ensures run.Success? ==>
              && Validated(x, profiles, resources, templates)
              && run.value.requests == Requests(x, templates, resources)
              && run.value.profiles == RunProfiles(x, includeAnonymous, profiles, resources)
              && IsMatrix(collector.policy, run.value.requests, run.value.profiles, run.value.observations)
              && run.value.candidates == A.Analysis(c, rest, run.value.observations)
  {
    ValidatedExactly(x, profiles, resources, templates);
    var invalid := ValidateInputs(x, profiles, resources, templates);
    if invalid.Some? {
      return Failure(Invalid(invalid.value));
    }
    var enriched := OwnedProfiles(profiles, resources);
    var roster := Roster(x, includeAnonymous, enriched);
    var requests := BuildRequests(x, templates, resources);
    var total := |requests| * |roster|;
    if total > collector.maxRequests {
      return Failure(Invalid(OverBudget(total, collector.maxRequests)));
    }
    var observations := collector.CollectMatrix(requests, roster);
    if observations.Failure? {
      return Failure(Collecting(observations.error));
    }
    var candidates := A.Analyze(c, rest, observations.value);
    run := Success(RunResult(observations.value, candidates, requests, roster));
  }
}
