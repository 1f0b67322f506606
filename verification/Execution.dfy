/** The verifier's request matrix against the planner's estimate: when the derived plan fits. */
module Execution {
  import opened Common
  import opened Verifier
  import opened Budget
  import Matrix

  // What the verifier makes of a template.

  lemma {:induction false} ForKindSize(x: Text, t: Template, kind: string, resources: seq<Resource>)
    ensures |ForKind(x, t, kind, resources)| == OfKind(resources, kind)
  {
    if resources != [] {
      ForKindSize(x, t, kind, resources[..|resources| - 1]);
    }
  }

  lemma {:induction false} NoneOfKind(resources: seq<Resource>, kind: string)
    requires forall r :: r in resources ==> r.kind != kind
    ensures OfKind(resources, kind) == 0
  {
    if resources != [] {
      NoneOfKind(resources[..|resources| - 1], kind);
    }
  }

  /** The verifier renders an empty-kind template once; the planner counts it as nothing. Else they agree. */
  lemma ExpandSize(x: Text, t: Template, resources: seq<Resource>)
    requires forall r :: r in resources ==> r.kind != ""
    ensures |Expand(x, t, resources)| == Expansion(t, resources) + (if EmptyKind(t) then 1 else 0)
  {
    if HasKind(t) {
      ForKindSize(x, t, t.resourceKind.value, resources);
    } else if EmptyKind(t) {
      NoneOfKind(resources, "");
    }
  }

  lemma {:induction false} RequestsSize(x: Text, templates: seq<Template>, resources: seq<Resource>)
    requires forall r :: r in resources ==> r.kind != ""
    ensures |Requests(x, templates, resources)| == Units(templates, resources) + Empties(templates)
  {
    if templates != [] {
      var n := |templates| - 1;
      RequestsSize(x, templates[..n], resources);
      ExpandSize(x, templates[n], resources);
    }
  }

  // What the verifier drops.

  /** The templates that repeat the key of an earlier one. */
  function Repeats(templates: seq<Template>): seq<Template> {
    if templates == [] then []
    else
      var n := |templates| - 1;
      Repeats(templates[..n])
      + (if exists t :: t in templates[..n] && KeyFor(t) == KeyFor(templates[n]) then [templates[n]] else [])
  }

  lemma UnitsSnoc(templates: seq<Template>, t: Template, resources: seq<Resource>)
    ensures Units(templates + [t], resources) == Units(templates, resources) + Expansion(t, resources)
  {
    assert (templates + [t])[..|templates|] == templates;
  }

  lemma {:induction false} UnitsSplit(templates: seq<Template>, resources: seq<Resource>)
    ensures Units(templates, resources) == Units(Deduped(templates), resources) + Units(Repeats(templates), resources)
  {
    if templates != [] {
      var n := |templates| - 1;
      var p, last := templates[..n], templates[n];
      UnitsSplit(p, resources);
      if exists t :: t in p && KeyFor(t) == KeyFor(last) {
        assert Deduped(templates) == Deduped(p) && Repeats(templates) == Repeats(p) + [last];
        UnitsSnoc(Repeats(p), last, resources);
      } else {
        assert Deduped(templates) == Deduped(p) + [last] && Repeats(templates) == Repeats(p);
        UnitsSnoc(Deduped(p), last, resources);
      }
    }
  }

  lemma {:induction false} UnitsOfBoth(a: seq<Template>, b: seq<Template>, resources: seq<Resource>)
    ensures Units(a + b, resources) == Units(a, resources) + Units(b, resources)
  {
    if b == [] {
      assert a + b == a;
    } else {
      var n := |b| - 1;
      assert (a + b)[..|a + b| - 1] == a + b[..n];
      UnitsOfBoth(a, b[..n], resources);
    }
  }

  ghost predicate HasKey(templates: seq<Template>, key: TemplateKey) {
    exists t :: t in templates && KeyFor(t) == key
  }

  lemma {:induction false} DedupedWereGiven(templates: seq<Template>)
    ensures forall t :: t in Deduped(templates) ==> t in templates
  {
    if templates != [] {
      DedupedWereGiven(templates[..|templates| - 1]);
    }
  }

  lemma {:induction false} DedupedKeys(templates: seq<Template>, key: TemplateKey)
    ensures HasKey(Deduped(templates), key) <==> HasKey(templates, key)
  {
    if templates != [] {
      var p, last := templates[..|templates| - 1], templates[|templates| - 1];
      DedupedKeys(p, key);
      DedupedKeys(p, KeyFor(last));
      KeySnoc(p, last, key);
      KeySnoc(Deduped(p), last, key);
      assert templates == p + [last];
    }
  }

  lemma KeySnoc(templates: seq<Template>, t: Template, key: TemplateKey)
    ensures HasKey(templates + [t], key) <==> HasKey(templates, key) || KeyFor(t) == key
  {
    assert forall u :: u in templates + [t] <==> u in templates || u == t;
  }

  /** Dropping repeats keeps exactly one template of each key that occurs, and only given ones. */
  lemma {:induction false} DedupedExactly(templates: seq<Template>)
    ensures var d := Deduped(templates);
            && (forall t :: t in d ==> t in templates)
            && (forall key :: HasKey(d, key) <==> HasKey(templates, key))
            && (forall i, j :: 0 <= i < j < |d| ==> KeyFor(d[i]) != KeyFor(d[j]))
  {
    DedupedWereGiven(templates);
    forall key ensures HasKey(Deduped(templates), key) <==> HasKey(templates, key) {
      DedupedKeys(templates, key);
    }
    if templates != [] {
      var p, last := templates[..|templates| - 1], templates[|templates| - 1];
      DedupedExactly(p);
      forall i | 0 <= i < |Deduped(p)| && !HasKey(p, KeyFor(last)) ensures KeyFor(Deduped(p)[i]) != KeyFor(last) {
        assert Deduped(p)[i] in Deduped(p);
      }
    }
  }

  lemma {:induction false} NoEmpties(templates: seq<Template>)
    ensures Empties(templates) == 0 <==> forall t :: t in templates ==> !EmptyKind(t)
  {
    if templates != [] {
      var n := |templates| - 1;
      NoEmpties(templates[..n]);
      assert forall t :: t in templates <==> t in templates[..n] || t == templates[n];
    }
  }

  // The derived plan.

  function TemplatesOf(selected: seq<Synthesized>): seq<Template> {
    seq(|selected|, i requires 0 <= i < |selected| => selected[i].template)
  }

  /** The manifest's templates, the selected ones after them, then those of the OpenAPI plan. */
  function Derived(existing: seq<Template>, openapi: seq<Template>, selected: seq<Synthesized>): seq<Template> {
    existing + TemplatesOf(selected) + openapi
  }

  /** The number of requests the verifier checks against its budget. */
  function MatrixSize(x: Text, derived: seq<Template>, resources: seq<Resource>, profiles: nat): nat {
    |Requests(x, Deduped(derived), resources)| * profiles
  }

  lemma {:induction false} UsedIs(items: seq<Synthesized>, resources: seq<Resource>, profiles: nat, limit: int, start: nat)
    ensures var p := Picks(items, resources, profiles, limit, start);
            p.used == start + Units(TemplatesOf(p.selected), resources) * profiles
  {
    if items != [] {
      var n := |items| - 1;
      UsedIs(items[..n], resources, profiles, limit, start);
      var before := Picks(items[..n], resources, profiles, limit, start);
      var p := Picks(items, resources, profiles, limit, start);
      var t := items[n].template;
      if p != before {
        assert TemplatesOf(p.selected) == TemplatesOf(before.selected) + [t];
        UnitsSnoc(TemplatesOf(before.selected), t, resources);
        Distribute(Units(TemplatesOf(before.selected), resources), Expansion(t, resources), profiles);
      }
    }
  }

  lemma Distribute(a: int, b: int, c: int)
    ensures (a + b) * c == a * c + b * c
  {
  }

  /** The estimate is the units of the whole derived plan, times the profiles. */
  lemma EstimateIs(existing: seq<Template>, openapi: seq<Template>, items: seq<Synthesized>, resources: seq<Resource>,
                   profiles: nat, limit: int)
    requires Fitted(existing + openapi, items, resources, profiles, limit).Success?
    ensures var p := Fitted(existing + openapi, items, resources, profiles, limit).value;
            p.used == Units(Derived(existing, openapi, p.selected), resources) * profiles
  {
    var p := Fitted(existing + openapi, items, resources, profiles, limit).value;
    UsedIs(items, resources, profiles, limit, Units(existing + openapi, resources) * profiles);
    var chosen := TemplatesOf(p.selected);
    UnitsOfBoth(existing, openapi, resources);
    UnitsOfBoth(existing, chosen, resources);
    UnitsOfBoth(existing + chosen, openapi, resources);
    Distribute(Units(existing + openapi, resources), Units(chosen, resources), profiles);
  }

  /**
   The exact account: the verifier's matrix is the estimate, plus one request per profile for each
   empty-kind template it keeps, less what the repeats it drops were estimated at.
   */
  lemma MatrixExactly(x: Text, existing: seq<Template>, openapi: seq<Template>, items: seq<Synthesized>,
                      resources: seq<Resource>, profiles: nat, limit: int)
    requires Fitted(existing + openapi, items, resources, profiles, limit).Success?
    requires forall r :: r in resources ==> r.kind != ""
    ensures var p := Fitted(existing + openapi, items, resources, profiles, limit).value;
            var derived := Derived(existing, openapi, p.selected);
            MatrixSize(x, derived, resources, profiles) + Units(Repeats(derived), resources) * profiles
            == p.used + Empties(Deduped(derived)) * profiles
  {
    var p := Fitted(existing + openapi, items, resources, profiles, limit).value;
    var derived := Derived(existing, openapi, p.selected);
    EstimateIs(existing, openapi, items, resources, profiles, limit);
    SizeOfDerived(x, derived, resources, profiles);
  }

  lemma SizeOfDerived(x: Text, derived: seq<Template>, resources: seq<Resource>, profiles: nat)
    requires forall r :: r in resources ==> r.kind != ""
    ensures MatrixSize(x, derived, resources, profiles) + Units(Repeats(derived), resources) * profiles
            == Units(derived, resources) * profiles + Empties(Deduped(derived)) * profiles
  {
    RequestsSize(x, Deduped(derived), resources);
    UnitsSplit(derived, resources);
    Account(|Requests(x, Deduped(derived), resources)|, Units(derived, resources),
            Units(Repeats(derived), resources), Empties(Deduped(derived)), profiles);
  }

  lemma Account(size: int, units: int, dropped: int, empty: int, profiles: int)
    requires size + dropped == units + empty
    ensures size * profiles + dropped * profiles == units * profiles + empty * profiles
  {
    assert (size + dropped) * profiles == (units + empty) * profiles;
  }

  /** The matrix stays within the estimate exactly when the empty kinds kept do not outnumber the units dropped. */
  lemma WithinEstimateExactly(x: Text, existing: seq<Template>, openapi: seq<Template>, items: seq<Synthesized>,
                              resources: seq<Resource>, profiles: nat, limit: int)
    requires Fitted(existing + openapi, items, resources, profiles, limit).Success? && profiles >= 1
    requires forall r :: r in resources ==> r.kind != ""
    ensures var p := Fitted(existing + openapi, items, resources, profiles, limit).value;
            var derived := Derived(existing, openapi, p.selected);
            MatrixSize(x, derived, resources, profiles) <= p.used
            <==> Empties(Deduped(derived)) <= Units(Repeats(derived), resources)
  {
    MatrixExactly(x, existing, openapi, items, resources, profiles, limit);
    var p := Fitted(existing + openapi, items, resources, profiles, limit).value;
    var derived := Derived(existing, openapi, p.selected);
    var dropped, empty := Units(Repeats(derived), resources), Empties(Deduped(derived));
    ScaleOrder(empty, dropped, profiles);
  }

  lemma ScaleOrder(a: int, b: int, c: int)
    requires c >= 1
    ensures a <= b <==> a * c <= b * c
  {
    if a < b { assert (b - a) * c >= 1; }
    if a > b { assert (a - b) * c >= 1; }
  }

  /** Every synthesized template that is selected yields at least one request. */
  lemma {:induction false} SelectedHaveUnits(items: seq<Synthesized>, resources: seq<Resource>, profiles: nat, limit: int, start: nat)
    ensures forall s :: s in Picks(items, resources, profiles, limit, start).selected ==>
              Expansion(s.template, resources) >= 1
  {
    if items != [] {
      SelectedHaveUnits(items[..|items| - 1], resources, profiles, limit, start);
    }
  }

  lemma {:induction false} LimitKept(items: seq<Synthesized>, resources: seq<Resource>, profiles: nat, limit: int, start: nat)
    requires start <= limit
    ensures Picks(items, resources, profiles, limit, start).used <= limit
  {
    if items != [] {
      LimitKept(items[..|items| - 1], resources, profiles, limit, start);
    }
  }

  lemma DerivedHasNoEmpties(existing: seq<Template>, openapi: seq<Template>, selected: seq<Synthesized>, resources: seq<Resource>)
    requires forall r :: r in resources ==> r.kind != ""
    requires forall t :: t in existing + openapi ==> !EmptyKind(t)
    requires forall s :: s in selected ==> Expansion(s.template, resources) >= 1
    ensures Empties(Deduped(Derived(existing, openapi, selected))) == 0
  {
    var derived := Derived(existing, openapi, selected);
    NoneOfKind(resources, "");
    forall t | t in derived ensures !EmptyKind(t) {
      if t in TemplatesOf(selected) {
        var i :| 0 <= i < |selected| && selected[i].template == t;
        assert selected[i] in selected;
      } else {
        assert t in existing + openapi;
      }
    }
    DedupedWereGiven(derived);
    NoEmpties(Deduped(derived));
  }

  /** Without empty kinds in the manifest and the OpenAPI plan, the verifier never exceeds the budget. */
  lemma PlanBoundsMatrix(x: Text, existing: seq<Template>, openapi: seq<Template>, items: seq<Synthesized>,
                         resources: seq<Resource>, profiles: nat, limit: int)
    requires Fitted(existing + openapi, items, resources, profiles, limit).Success?
    requires forall r :: r in resources ==> r.kind != ""
    requires forall t :: t in existing + openapi ==> !EmptyKind(t)
    ensures var p := Fitted(existing + openapi, items, resources, profiles, limit).value;
            MatrixSize(x, Derived(existing, openapi, p.selected), resources, profiles) <= p.used <= limit
  {
    var start := Units(existing + openapi, resources) * profiles;
    var p := Fitted(existing + openapi, items, resources, profiles, limit).value;
    SelectedHaveUnits(items, resources, profiles, limit, start);
    LimitKept(items, resources, profiles, limit, start);
    DerivedHasNoEmpties(existing, openapi, p.selected, resources);
    MatrixExactly(x, existing, openapi, items, resources, profiles, limit);
    NonNegative(Units(Repeats(Derived(existing, openapi, p.selected)), resources), profiles);
  }

  lemma NonNegative(a: nat, b: nat)
    ensures a * b >= 0
  {
  }

  /** With an empty kind the bound fails: two plain requests are estimated at none and fit a budget of one. */
  lemma EmptyKindBreaks(x: Text)
    ensures var a := Template("a", "http://h/a", "GET", None, Some(""), []);
            var b := Template("b", "http://h/b", "GET", None, Some(""), []);
            && Fitted([a, b] + [], [], [], 1, 1) == Success(Picked([], 0))
            && MatrixSize(x, Derived([a, b], [], []), [], 1) == 2
  {
    var a := Template("a", "http://h/a", "GET", None, Some(""), []);
    var b := Template("b", "http://h/b", "GET", None, Some(""), []);
    var two := [a, b];
    assert two + [] == two && Derived(two, [], []) == two;
    assert two[..1] == [a] && [a][..0] == [];
    assert Units([a], []) == 0 && Units(two, []) == 0;
    assert a.url[9] != b.url[9];
    assert Deduped([a]) == [a] && Deduped(two) == two;
    assert Requests(x, [a], []) == [RenderPlain(x, a)];
    assert Requests(x, two, []) == [RenderPlain(x, a), RenderPlain(x, b)];
  }

  // Profiles.

  lemma AnonymousAgrees(x: Text, ms: seq<Entry>, e: seq<Profile>)
    requires |ms| == |e| && forall i :: 0 <= i < |e| ==> (AnonymousEntry(x, ms[i]) <==> Anonymous(x, e[i]))
    ensures (exists m :: m in ms && AnonymousEntry(x, m)) <==> exists p :: p in e && Anonymous(x, p)
  {
    if m :| m in ms && AnonymousEntry(x, m) {
      var i :| 0 <= i < |ms| && ms[i] == m;
      assert e[i] in e;
    }
    if p :| p in e && Anonymous(x, p) {
      var i :| 0 <= i < |e| && e[i] == p;
      assert ms[i] in ms;
    }
  }

  /** The planner counts as many profiles as the verifier's run will have. */
  lemma ProfileCountAgrees(x: Text, includeAnonymous: bool, entries: seq<Entry>, profiles: seq<Profile>, resources: seq<Resource>)
    requires x.lower("") == "" && x.lower("user") == "user"
    requires |Mappings(entries)| == |profiles|
    requires forall i :: 0 <= i < |profiles| ==> LoadsAs(Mappings(entries)[i], profiles[i])
    ensures ProfileCount(x, entries, includeAnonymous)
            == |Matrix.RunProfiles(x, includeAnonymous, profiles, resources)|
  {
    var ms, e := Mappings(entries), Enriched(profiles, resources);
    forall i | 0 <= i < |e| ensures AnonymousEntry(x, ms[i]) <==> Anonymous(x, e[i]) {
      assert LoadsAs(ms[i], profiles[i]);
    }
    AnonymousAgrees(x, ms, e);
  }

  /**
   The plan and the run together: the profiles counted by the planner are those of the run, so
   the check of the verifier's run against the same limit passes.
   */
  lemma PlanPassesRunCheck(x: Text, includeAnonymous: bool, entries: seq<Entry>, profiles: seq<Profile>,
                           existing: seq<Template>, openapi: seq<Template>, items: seq<Synthesized>,
                           resources: seq<Resource>, limit: int)
    requires x.lower("") == "" && x.lower("user") == "user"
    requires |Mappings(entries)| == |profiles|
    requires forall i :: 0 <= i < |profiles| ==> LoadsAs(Mappings(entries)[i], profiles[i])
    requires forall r :: r in resources ==> r.kind != ""
    requires forall t :: t in existing + openapi ==> !EmptyKind(t)
    requires Fitted(existing + openapi, items, resources, ProfileCount(x, entries, includeAnonymous), limit).Success?
    ensures var p := Fitted(existing + openapi, items, resources, ProfileCount(x, entries, includeAnonymous), limit).value;
            |Requests(x, Deduped(Derived(existing, openapi, p.selected)), resources)|
            * |Matrix.RunProfiles(x, includeAnonymous, profiles, resources)| <= limit
  {
    ProfileCountAgrees(x, includeAnonymous, entries, profiles, resources);
    PlanBoundsMatrix(x, existing, openapi, items, resources, ProfileCount(x, entries, includeAnonymous), limit);
  }
}
