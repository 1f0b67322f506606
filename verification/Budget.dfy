/** The request budget of smart_verify.py: the planner's estimate, its greedy choice, and what the verifier then runs. */
module Budget {
  import opened Common
  import opened Verifier
  import Matrix

  // Counting.

  function OfKind(resources: seq<Resource>, kind: string): nat {
    if resources == [] then 0
    else
      var n := |resources| - 1;
      OfKind(resources[..n], kind) + (if resources[n].kind == kind then 1 else 0)
  }

  /** `_template_expansion`: it tests for None, where the verifier tests for truth. */
  function Expansion(t: Template, resources: seq<Resource>): nat {
    if t.resourceKind.None? then 1 else OfKind(resources, t.resourceKind.value)
  }

  function Units(templates: seq<Template>, resources: seq<Resource>): nat {
    if templates == [] then 0
    else
      var n := |templates| - 1;
      Units(templates[..n], resources) + Expansion(templates[n], resources)
  }

  predicate EmptyKind(t: Template) {
    t.resourceKind == Some("")
  }

  function Empties(templates: seq<Template>): nat {
    if templates == [] then 0
    else
      var n := |templates| - 1;
      Empties(templates[..n]) + (if EmptyKind(templates[n]) then 1 else 0)
  }

  /** One entry of the profile list in the manifest. */
  datatype Entry = NotMapping | Mapping(principal: Option<string>, role: Option<string>)

  function TextOr(o: Option<string>, default: string): string {
    if o.Some? then o.value else default
  }

  predicate AnonymousEntry(x: Text, e: Entry) {
    e.Mapping? && (x.lower(TextOr(e.principal, "")) == ANONYMOUS || x.lower(TextOr(e.role, "")) == ANONYMOUS)
  }

  function Mappings(entries: seq<Entry>): seq<Entry> {
    if entries == [] then []
    else (if entries[0].Mapping? then [entries[0]] else []) + Mappings(entries[1..])
  }

  /** `_profile_count`. */
  function ProfileCount(x: Text, entries: seq<Entry>, includeAnonymous: bool): nat {
    var ms := Mappings(entries);
    |ms| + (if includeAnonymous && !(exists e :: e in ms && AnonymousEntry(x, e)) then 1 else 0)
  }

  /** `SessionProfile.from_env_dict`, as far as names go: the principal is required, the role defaults to "user". */
  predicate LoadsAs(e: Entry, p: Profile) {
    e.Mapping? && e.principal == Some(p.principal) && p.role == TextOr(e.role, "user")
  }

  // The greedy choice.

  datatype Synthesized = Synthesized(template: Template, score: int, sourceUrl: string, reason: string)

  datatype BudgetError = NotPositive | PlanOverBudget(used: nat, limit: int)

  datatype Picked = Picked(selected: seq<Synthesized>, used: nat)

  /** One step of the loop. */
  function Pick(p: Picked, item: Synthesized, resources: seq<Resource>, profiles: nat, limit: int): Picked {
    var units := Expansion(item.template, resources);
    if units < 1 || p.used + units * profiles > limit then p
    else Picked(p.selected + [item], p.used + units * profiles)
  }

  function Picks(items: seq<Synthesized>, resources: seq<Resource>, profiles: nat, limit: int, start: nat): Picked {
    if items == [] then Picked([], start)
    else
      var n := |items| - 1;
      Pick(Picks(items[..n], resources, profiles, limit, start), items[n], resources, profiles, limit)
  }

  /** What `_fit_budget` answers. */
  function Fitted(fixed: seq<Template>, items: seq<Synthesized>, resources: seq<Resource>, profiles: nat, limit: int)
    : Result<Picked, BudgetError>
  {
    var used := Units(fixed, resources) * profiles;
    if limit < 1 then Failure(NotPositive)
    else if used > limit then Failure(PlanOverBudget(used, limit))
    else Success(Picks(items, resources, profiles, limit, used))
  }

  /** The sum in `_fit_budget`. */
  method SumUnits(templates: seq<Template>, resources: seq<Resource>) returns (units: nat)
    ensures units == Units(templates, resources)
  {
    units := 0;
    for i := 0 to |templates|
      invariant units == Units(templates[..i], resources)
    {
      assert templates[..i + 1][..i] == templates[..i];
      units := units + Expansion(templates[i], resources);
    }
    assert templates[..|templates|] == templates;
  }

  /** `_fit_budget`. */
  method FitBudget(existing: seq<Template>, openapi: seq<Template>, items: seq<Synthesized>,
                   resources: seq<Resource>, profiles: nat, limit: int)
    returns (r: Result<Picked, BudgetError>)
    ensures r == Fitted(existing + openapi, items, resources, profiles, limit)
  {
    if limit < 1 {
      return Failure(NotPositive);
    }
    var units := SumUnits(existing + openapi, resources);
    var used: nat := units * profiles;
    if used > limit {
      return Failure(PlanOverBudget(used, limit));
    }
    ghost var start := used;
    var selected := [];
    for i := 0 to |items|
      invariant Picked(selected, used) == Picks(items[..i], resources, profiles, limit, start)
    {
      assert items[..i + 1][..i] == items[..i];
      var each := Expansion(items[i].template, resources);
      var cost: nat := each * profiles;
      if each < 1 || used + cost > limit {
        continue;
      }
      selected := selected + [items[i]];
      used := used + cost;
    }
    assert items[..|items|] == items;
    r := Success(Picked(selected, used));
  }

  // Choices as masks over the candidates, in priority order.

  function Cost(items: seq<Synthesized>, mask: seq<bool>, resources: seq<Resource>, profiles: nat): nat
    requires |mask| == |items|
  {
    if items == [] then 0
    else
      var n := |items| - 1;
      Cost(items[..n], mask[..n], resources, profiles)
      + (if mask[n] then Expansion(items[n].template, resources) * profiles else 0)
  }

  function Chosen(items: seq<Synthesized>, mask: seq<bool>): seq<Synthesized>
    requires |mask| == |items|
  {
    if items == [] then []
    else
      var n := |items| - 1;
      Chosen(items[..n], mask[..n]) + (if mask[n] then [items[n]] else [])
  }

  /** A choice that the budget allows: every chosen template yields requests, and all fit. */
  ghost predicate Feasible(items: seq<Synthesized>, mask: seq<bool>, resources: seq<Resource>, profiles: nat,
                           limit: int, start: nat)
  {
    && |mask| == |items|
    && (forall i :: 0 <= i < |items| && mask[i] ==> Expansion(items[i].template, resources) >= 1)
    && start + Cost(items, mask, resources, profiles) <= limit
  }

  /** The greedy choice as a mask. */
  function Greedy(items: seq<Synthesized>, resources: seq<Resource>, profiles: nat, limit: int, start: nat): (mask: seq<bool>)
    ensures |mask| == |items|
  {
    if items == [] then []
    else
      var n := |items| - 1;
      var units := Expansion(items[n].template, resources);
      Greedy(items[..n], resources, profiles, limit, start)
      + [units >= 1 && Picks(items[..n], resources, profiles, limit, start).used + units * profiles <= limit]
  }

  /** The loop makes the greedy choice, and keeps the exact account of it. */
  lemma {:induction false} PicksAreGreedy(items: seq<Synthesized>, resources: seq<Resource>, profiles: nat, limit: int, start: nat)
    ensures var p := Picks(items, resources, profiles, limit, start);
            var mask := Greedy(items, resources, profiles, limit, start);
            p.selected == Chosen(items, mask) && p.used == start + Cost(items, mask, resources, profiles)
  {
    if items != [] {
      var n := |items| - 1;
      PicksAreGreedy(items[..n], resources, profiles, limit, start);
      assert Greedy(items, resources, profiles, limit, start)[..n] == Greedy(items[..n], resources, profiles, limit, start);
    }
  }

  lemma {:induction false} GreedyFeasible(items: seq<Synthesized>, resources: seq<Resource>, profiles: nat, limit: int, start: nat)
    requires start <= limit
    ensures Feasible(items, Greedy(items, resources, profiles, limit, start), resources, profiles, limit, start)
  {
    if items != [] {
      var n := |items| - 1;
      GreedyFeasible(items[..n], resources, profiles, limit, start);
      PicksAreGreedy(items[..n], resources, profiles, limit, start);
      assert Greedy(items, resources, profiles, limit, start)[..n] == Greedy(items[..n], resources, profiles, limit, start);
    }
  }

  /** What is chosen among the first `k` costs no more than what is chosen among all. */
  lemma {:induction false} CostOfPrefix(items: seq<Synthesized>, mask: seq<bool>, resources: seq<Resource>, profiles: nat, k: nat)
    requires |mask| == |items| && k <= |items|
    ensures Cost(items[..k], mask[..k], resources, profiles) <= Cost(items, mask, resources, profiles)
  {
    var n := |items|;
    if k < n {
      CostOfPrefix(items[..n - 1], mask[..n - 1], resources, profiles, k);
      assert items[..n - 1][..k] == items[..k] && mask[..n - 1][..k] == mask[..k];
    } else {
      assert items[..k] == items && mask[..k] == mask;
    }
  }

  lemma {:induction false} GreedyPrefix(items: seq<Synthesized>, resources: seq<Resource>, profiles: nat, limit: int, start: nat, k: nat)
    requires k < |items|
    ensures var mask := Greedy(items, resources, profiles, limit, start);
            var units := Expansion(items[k].template, resources);
            mask[..k] == Greedy(items[..k], resources, profiles, limit, start)
            && mask[k] == (units >= 1 && Picks(items[..k], resources, profiles, limit, start).used + units * profiles <= limit)
  {
    var n := |items| - 1;
    if k < n {
      GreedyPrefix(items[..n], resources, profiles, limit, start, k);
      assert items[..n][..k] == items[..k];
    }
  }

  /** No feasible choice takes a template where the greedy one first differs from it. */
  lemma NoFeasibleAhead(items: seq<Synthesized>, mask: seq<bool>, resources: seq<Resource>, profiles: nat, limit: int,
                        start: nat, k: nat)
    requires Feasible(items, mask, resources, profiles, limit, start) && k < |items|
    requires var greedy := Greedy(items, resources, profiles, limit, start);
             mask[..k] == greedy[..k] && mask[k] != greedy[k]
    ensures !mask[k]
  {
    GreedyPrefix(items, resources, profiles, limit, start, k);
    PicksAreGreedy(items[..k], resources, profiles, limit, start);
    CostOfPrefix(items, mask, resources, profiles, k + 1);
    assert items[..k + 1][..k] == items[..k] && mask[..k + 1][..k] == mask[..k];
  }

  /** The greedy choice comes lexicographically first: any other feasible one first skips a template it takes. */
  lemma GreedyIsFirst(items: seq<Synthesized>, mask: seq<bool>, resources: seq<Resource>, profiles: nat, limit: int, start: nat)
    returns (k: nat)
    requires Feasible(items, mask, resources, profiles, limit, start)
    requires mask != Greedy(items, resources, profiles, limit, start)
    ensures var greedy := Greedy(items, resources, profiles, limit, start);
            k < |items| && mask[..k] == greedy[..k] && greedy[k] && !mask[k]
  {
    var greedy := Greedy(items, resources, profiles, limit, start);
    k := 0;
    while k < |items| && mask[k] == greedy[k]
      invariant k <= |items| && mask[..k] == greedy[..k]
    {
      k := k + 1;
    }
    assert mask[..|items|] == mask && greedy[..|items|] == greedy;
    NoFeasibleAhead(items, mask, resources, profiles, limit, start, k);
  }

  lemma {:induction false} UsedGrows(items: seq<Synthesized>, resources: seq<Resource>, profiles: nat, limit: int, start: nat, k: nat)
    requires k <= |items|
    ensures Picks(items[..k], resources, profiles, limit, start).used <= Picks(items, resources, profiles, limit, start).used
  {
    var n := |items|;
    if k < n {
      UsedGrows(items[..n - 1], resources, profiles, limit, start, k);
      assert items[..n - 1][..k] == items[..k];
    } else {
      assert items[..k] == items;
    }
  }

  /** A rejected template with at least one resource does not fit what is left at the end. */
  lemma GreedyIsMaximal(items: seq<Synthesized>, resources: seq<Resource>, profiles: nat, limit: int, start: nat, k: nat)
    requires k < |items| && !Greedy(items, resources, profiles, limit, start)[k]
    requires Expansion(items[k].template, resources) >= 1
    ensures Picks(items, resources, profiles, limit, start).used + Expansion(items[k].template, resources) * profiles > limit
  {
    GreedyPrefix(items, resources, profiles, limit, start, k);
    UsedGrows(items, resources, profiles, limit, start, k);
  }
}
