/** `EvidenceCollector` of collector.py: the rate limiter and the request matrix. */
module Collector {
  import opened Common
  import opened Json
  import opened RateWindow
  import opened Verifier
  import A = Authz

  datatype Rule = Rule(pattern: string, maxRps: real)

  datatype Response = Response(status: int, body: Json)

  datatype Failure =
    | UnsafeMethod
    | OutOfScope
    | NonPositiveRate
    | RequestFailed
    | MatrixOverBudget(total: nat, limit: nat)

  /** The scope policy, `str.upper` and the path of a URL. */
  datatype Policy = Policy(
    upper: string -> string,
    authorize: (string, string) -> Option<(string, Rule)>,
    path: string -> string)

  /** A clock that never goes back. */
  class Clock {
    var now: real

    constructor ()
    {
      now := 0.0;
    }

    method Read() returns (t: real)
      modifies this
      ensures old(now) <= t == now
    {
      var passed: real :| passed >= 0.0;
      now := now + passed;
      t := now;
    }

    /** Sleeps at least as long as asked. */
    method Sleep(seconds: real)
      modifies this
      ensures now >= old(now) + seconds
    {
      var late: real :| late >= 0.0;
      now := now + seconds + late;
    }
  }

  /** Whatever the other side answers. */
  class Network {
    constructor () {}

    method Open(url: string, verb: string) returns (r: Option<Response>)
    {
      r := *;
    }
  }

  /** The ownership decision of `collect_one`. */
  function Ownership(spec: Request, profile: Profile): Option<bool> {
    if spec.resourceId.Some? && profile.owned.Some? then Some(spec.resourceId.value in profile.owned.value)
    else spec.ownsResource
  }

  /** `o` records this request, made as this profile. */
  predicate Records(p: Policy, o: A.Observation, spec: Request, profile: Profile) {
    && o.verb == p.upper(spec.verb) && o.principal == profile.principal
    && o.resourceId == spec.resourceId && o.ownsResource == Ownership(spec, profile)
    && o.verb in SAFE_METHODS && p.authorize(spec.url, o.verb).Some?
    && o.route == if spec.route != "" then spec.route else p.path(p.authorize(spec.url, o.verb).value.0)
  }

  /** The send was recorded under the rule that lets the request through. */
  predicate UnderRule(p: Policy, spec: Request, s: Send) {
    var rule := p.authorize(spec.url, p.upper(spec.verb));
    rule.Some? && s.key == rule.value.1.pattern && s.rps == rule.value.1.maxRps
  }

  class EvidenceCollector {
    const policy: Policy
    const maxRequests: nat
    const clock: Clock
    const network: Network
    var lastRequestAt: map<string, real>
    ghost var sends: seq<Send>

    /** The dictionary holds the latest times, and the sends so far are spaced. */
    ghost predicate Valid()
      reads this, clock
    {
      Coherent(lastRequestAt, sends, clock.now)
    }

    constructor (policy: Policy, maxRequests: nat, clock: Clock, network: Network)
      ensures Valid() && sends == []
      ensures this.policy == policy && this.maxRequests == maxRequests && this.clock == clock
    {
      this.policy := policy;
      this.maxRequests := maxRequests;
      this.clock := clock;
      this.network := network;
      lastRequestAt := map[];
      sends := [];
    }

    /** `_rate_limit`. */
    method RateLimit(key: string, maxRps: real) returns (error: Option<Failure>)
      requires Valid()
      modifies this, clock
      ensures Valid() && clock.now >= old(clock.now)
      ensures maxRps <= 0.0 ==> error == Some(NonPositiveRate) && sends == old(sends)
      ensures maxRps > 0.0 ==> error == None && sends == old(sends) + [Send(key, clock.now, maxRps)]
    {
      if maxRps <= 0.0 {
        return Some(NonPositiveRate);
      }
      var interval := 1.0 / maxRps;
      var now := clock.Read();
      if key in lastRequestAt {
        var previous := lastRequestAt[key];
        if now - previous < interval {
          clock.Sleep(interval - (now - previous));
          now := clock.Read();
        }
      }
      assert key in lastRequestAt ==> now - lastRequestAt[key] >= interval;
      CoherentStep(lastRequestAt, sends, old(clock.now), Send(key, now, maxRps));
      lastRequestAt := lastRequestAt[key := now];
      sends := sends + [Send(key, now, maxRps)];
      error := None;
    }

    /** `collect_one`. */
    method CollectOne(spec: Request, profile: Profile) returns (r: Result<A.Observation, Failure>)
      requires Valid()
      modifies this, clock
      ensures Valid() && old(sends) <= sends && clock.now >= old(clock.now)
      ensures r.Success? ==> Records(policy, r.value, spec, profile)
      ensures r.Success? ==> |sends| == |old(sends)| + 1 && UnderRule(policy, spec, sends[|old(sends)|])
      ensures policy.upper(spec.verb) !in SAFE_METHODS ==> r == Failure(UnsafeMethod) && sends == old(sends)
      ensures policy.upper(spec.verb) in SAFE_METHODS && policy.authorize(spec.url, policy.upper(spec.verb)).None? ==>
                r == Failure(OutOfScope) && sends == old(sends)
    {
      var verb := policy.upper(spec.verb);
      if verb !in SAFE_METHODS {
        return Failure(UnsafeMethod);
      }
      var rule := policy.authorize(spec.url, verb);
      if rule.None? {
        return Failure(OutOfScope);
      }
      var error := RateLimit(rule.value.1.pattern, rule.value.1.maxRps);
      if error.Some? {
        return Failure(error.value);
      }
      var started := clock.Read();
      var response := network.Open(rule.value.0, verb);
      if response.None? {
        return Failure(RequestFailed);
      }
      var ended := clock.Read();
      var route := if spec.route != "" then spec.route else policy.path(rule.value.0);
      r := Success(A.Observation(verb, route, profile.principal, response.value.status, response.value.body,
                                 spec.resourceId, Ownership(spec, profile)));
    }

    /** The inner loop of the comprehension in `collect_matrix`. */
    method CollectRow(spec: Request, profiles: seq<Profile>) returns (r: Result<seq<A.Observation>, Failure>)
      requires Valid()
      modifies this, clock
      ensures Valid() && old(sends) <= sends && clock.now >= old(clock.now)
      ensures r.Success? ==> RecordsRow(policy, spec, profiles, r.value) && |sends| == |old(sends)| + |r.value|
    {
      var row := [];
      for j := 0 to |profiles|
        invariant Valid() && old(sends) <= sends && clock.now >= old(clock.now)
        invariant |row| == j && |sends| == |old(sends)| + j
        invariant forall k :: 0 <= k < j ==> Records(policy, row[k], spec, profiles[k])
      {
        var o :- CollectOne(spec, profiles[j]);
        row := row + [o];
      }
      r := Success(row);
    }

    /** The comprehension itself. */
    method CollectRows(requests: seq<Request>, profiles: seq<Profile>)
      returns (r: Result<seq<A.Observation>, Failure>)
      requires Valid()
      modifies this, clock
      ensures Valid() && old(sends) <= sends
      ensures r.Success? ==> IsMatrix(policy, requests, profiles, r.value) && |sends| == |old(sends)| + |r.value|
    {
      var observations := [];
      ghost var rows: seq<seq<A.Observation>> := [];
      for i := 0 to |requests|
        invariant Valid() && old(sends) <= sends
        invariant |sends| == |old(sends)| + |observations|
        invariant |rows| == i && observations == Joined(rows)
        invariant forall k :: 0 <= k < i ==> RecordsRow(policy, requests[k], profiles, rows[k])
      {
        var row :- CollectRow(requests[i], profiles);
        JoinedSnoc(rows, row);
        rows := rows + [row];
        observations := observations + row;
      }
      r := Success(observations);
      assert AreRows(policy, requests, profiles, rows);
    }

    /** `collect_matrix`: one observation per request and profile, request by request. */
    method CollectMatrix(requests: seq<Request>, profiles: seq<Profile>)
      returns (r: Result<seq<A.Observation>, Failure>)
      requires Valid()
      modifies this, clock
      ensures Valid() && old(sends) <= sends
      ensures |requests| * |profiles| > maxRequests ==>
                r == Failure(MatrixOverBudget(|requests| * |profiles|, maxRequests)) && sends == old(sends)
      ensures r.Success? ==> IsMatrix(policy, requests, profiles, r.value)
                             && |sends| == |old(sends)| + |r.value|
    {
      var total := |requests| * |profiles|;
      if total > maxRequests {
        return Failure(MatrixOverBudget(total, maxRequests));
      }
      r := CollectRows(requests, profiles);
    }
  }

  ghost predicate RecordsRow(p: Policy, spec: Request, profiles: seq<Profile>, row: seq<A.Observation>) {
    |row| == |profiles| && forall j :: 0 <= j < |profiles| ==> Records(p, row[j], spec, profiles[j])
  }

  /** The rows one after the other. */
  function Joined(rows: seq<seq<A.Observation>>): seq<A.Observation> {
    if rows == [] then [] else Joined(rows[..|rows| - 1]) + rows[|rows| - 1]
  }

  lemma JoinedSnoc(rows: seq<seq<A.Observation>>, row: seq<A.Observation>)
    ensures Joined(rows + [row]) == Joined(rows) + row
  {
    assert (rows + [row])[..|rows|] == rows;
  }

  ghost predicate AreRows(p: Policy, requests: seq<Request>, profiles: seq<Profile>, rows: seq<seq<A.Observation>>) {
    |rows| == |requests| && forall i :: 0 <= i < |rows| ==> RecordsRow(p, requests[i], profiles, rows[i])
  }

  /** One row of observations per request, each with one observation per profile, in order. */
  ghost predicate IsMatrix(p: Policy, requests: seq<Request>, profiles: seq<Profile>, observations: seq<A.Observation>) {
    exists rows :: AreRows(p, requests, profiles, rows) && observations == Joined(rows)
  }

  /** The `i`th group of `n` observations. */
  function RowOf(observations: seq<A.Observation>, i: nat, n: nat): seq<A.Observation> {
    if i * n + n <= |observations| then observations[i * n..i * n + n] else []
  }

  lemma {:induction false} JoinedSize(rows: seq<seq<A.Observation>>, n: nat)
    requires forall k :: 0 <= k < |rows| ==> |rows[k]| == n
    ensures |Joined(rows)| == |rows| * n
  {
    if rows != [] {
      var m := |rows| - 1;
      JoinedSize(rows[..m], n);
      assert |rows| * n == m * n + n;
    }
  }

  lemma {:induction false} JoinedRow(rows: seq<seq<A.Observation>>, n: nat, i: nat)
    requires i < |rows| && forall k :: 0 <= k < |rows| ==> |rows[k]| == n
    ensures RowOf(Joined(rows), i, n) == rows[i]
  {
    var m := |rows| - 1;
    var front, last := Joined(rows[..m]), rows[m];
    JoinedSize(rows[..m], n);
    if i < m {
      JoinedRow(rows[..m], n, i);
      RowFits(i, m, n);
      RowOfPrefix(front, last, i, n);
    } else {
      assert (front + last)[m * n..m * n + n] == last;
    }
  }

  lemma RowOfPrefix(front: seq<A.Observation>, last: seq<A.Observation>, i: nat, n: nat)
    requires i * n + n <= |front|
    ensures RowOf(front + last, i, n) == RowOf(front, i, n)
  {
  }

  lemma RowFits(i: nat, m: nat, n: nat)
    requires i < m
    ensures i * n + n <= m * n
  {
    var d := m - i - 1;
    assert m * n == (i + 1 + d) * n == i * n + n + d * n;
    assert d * n >= 0;
  }

  /** The `i`th group records request `i`, profile by profile. */
  lemma MatrixRow(p: Policy, requests: seq<Request>, profiles: seq<Profile>, observations: seq<A.Observation>, i: nat)
    requires IsMatrix(p, requests, profiles, observations) && i < |requests|
    ensures |observations| == |requests| * |profiles|
    ensures RecordsRow(p, requests[i], profiles, RowOf(observations, i, |profiles|))
  {
    var rows :| AreRows(p, requests, profiles, rows) && observations == Joined(rows);
    assert forall k :: 0 <= k < |rows| ==> RecordsRow(p, requests[k], profiles, rows[k]);
    JoinedSize(rows, |profiles|);
    JoinedRow(rows, |profiles|, i);
  }

  lemma {:induction false} JoinedMember(rows: seq<seq<A.Observation>>, o: A.Observation) returns (i: nat, j: nat)
    requires o in Joined(rows)
    ensures i < |rows| && j < |rows[i]| && rows[i][j] == o
  {
    var m := |rows| - 1;
    if o in Joined(rows[..m]) {
      i, j := JoinedMember(rows[..m], o);
    } else {
      i := m;
      j :| 0 <= j < |rows[m]| && rows[m][j] == o;
    }
  }

  /** After any run of calls, a window of time holds no more sends of a key than its rate allows. */
  lemma AnyRunIsBounded(c: EvidenceCollector, key: string, start: real, length: real, rate: real)
    requires c.Valid() && length >= 0.0 && rate > 0.0
    requires forall i :: 0 <= i < |c.sends| && c.sends[i].key == key ==> c.sends[i].rps <= rate
    ensures |Within(c.sends, key, start, length)| <= (length * rate).Floor + 1
  {
    WindowBound(c.sends, key, start, length, rate);
  }
}
