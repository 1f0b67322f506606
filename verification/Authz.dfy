/** `AuthorizationDifferentialEngine` of authz.py: which object-access candidates come out, and why. */
module Authz {
  import opened Common
  import opened Ordering
  import opened Json
  import opened JsonCanonical
  import opened AuthzBodies

  datatype Observation = Observation(
    verb: string, route: string, principal: string, status: int, body: Json,
    resourceId: Option<string>, ownsResource: Option<bool>)

  datatype Strength = Verified | Likely | Insufficient

  /** A finding by what its id is made of, its strength, and the two principals it names. */
  datatype Candidate = Candidate(kind: string, target: string, fingerprint: string, strength: Strength,
                                 owner: string, viewer: string)

  /** `stable_id` of engine, kind, target and fingerprint, with its hash taken to be injective. */
  datatype Id = Id(kind: string, target: string, fingerprint: string)

  const CROSS_PRINCIPAL: string := "cross-principal-object-access"

  function IdOf(f: Candidate): Id {
    Id(f.kind, f.target, f.fingerprint)
  }

  // Observations worth comparing.

  predicate Empty(body: Json) {
    body == Null || body == Str("") || body == Obj([]) || body == Arr([])
  }

  /** `_usable`. */
  predicate Usable(c: Config, o: Observation) {
    200 <= o.status < 300 && !Empty(o.body) && !c.denial(o.body)
  }

  predicate Owner(c: Config, o: Observation) {
    o.ownsResource == Some(true) && Usable(c, o)
  }

  predicate NonOwner(c: Config, o: Observation) {
    o.ownsResource == Some(false) && Usable(c, o)
  }

  // Shapes.

  function TypeName(v: Json): string {
    match v
    case Null => "NoneType"
    case Bool(_) => "bool"
    case Int(_) => "int"
    case Float(_) => "float"
    case Str(_) => "str"
    case Arr(_) => "list"
    case Obj(_) => "dict"
  }

  /** `_shape`. */
  function Shape(c: Config, v: Json, prefix: string, depth: nat): set<string>
    decreases v
  {
    if depth > BODY_DEPTH then {}
    else
      match v
      case Obj(ms) => MemberShape(c, ms, prefix, depth + 1)
      case Arr(items) => ItemShape(c, items, prefix + "[]", depth + 1, SHAPE_ITEMS)
      case _ => {}
  }

  function MemberShape(c: Config, ms: seq<Member>, prefix: string, depth: nat): set<string>
    decreases ms
  {
    if ms == [] then {}
    else
      var m := ms[0];
      var path := Below(prefix, m.key);
      (if c.norm(m.key) in VOLATILE_KEYS then {}
       else {path + ":" + TypeName(m.value)} + Shape(c, m.value, path, depth))
      + MemberShape(c, ms[1..], prefix, depth)
  }

  function ItemShape(c: Config, vs: seq<Json>, prefix: string, depth: nat, n: nat): set<string>
    decreases vs
  {
    if vs == [] || n == 0 then {}
    else Shape(c, vs[0], prefix, depth) + ItemShape(c, vs[1..], prefix, depth, n - 1)
  }

  /** `_jaccard`, as an exact fraction. */
  function Similarity(a: set<string>, b: set<string>): (int, int) {
    if a == {} && b == {} then (1, 1) else (|a * b|, |a + b|)
  }

  /** Similarity of at least 0.85. */
  predicate Similar(s: (int, int)) {
    100 * s.0 >= 85 * s.1
  }

  // Comparing.

  /** The paths of the sensitive leaves: `_sensitive_keys`. */
  function SensitivePaths(c: Config, leaves: seq<Leaf>): seq<string> {
    if leaves == [] then []
    else
      SensitivePaths(c, leaves[..|leaves| - 1])
      + (if Sensitive(c, leaves[|leaves| - 1].key) then [leaves[|leaves| - 1].path] else [])
  }

  /** Of the given paths, those at which both maps hold the same hash. */
  function MatchingPaths(paths: seq<string>, x: map<string, string>, y: map<string, string>): seq<string> {
    if paths == [] then []
    else
      var p := paths[0];
      (if p in x && p in y && x[p] == y[p] then [p] else []) + MatchingPaths(paths[1..], x, y)
  }

  function Texts(names: seq<string>): seq<Json> {
    if names == [] then [] else [Str(names[0])] + Texts(names[1..])
  }

  /** What `_comparison` computes about a baseline and a viewer. */
  datatype Comparison = Comparison(baseline: string, viewer: string, empty: bool, matching: seq<string>,
                                   overlap: seq<string>, similarity: (int, int)) {
    predicate Exact() {
      baseline == viewer && !empty
    }

    function Strength(): Strength {
      if Exact() || matching != [] then Verified
      else if |overlap| >= 2 && Similar(similarity) then Likely
      else Insufficient
    }

    /** The list that is fingerprinted. */
    function Material(): Json {
      Arr([Str(baseline), Str(viewer), Arr(Texts(matching)), Arr(Texts(overlap)),
           Arr([Int(similarity.0), Int(similarity.1)])])
    }
  }

  function Compare(c: Config, baseline: Json, viewer: Json): Comparison {
    var bl, vl := Leaves(baseline, "", 0), Leaves(viewer, "", 0);
    var bp, vp := SensitivePaths(c, bl), SensitivePaths(c, vl);
    Comparison(
      Fingerprint(c, baseline), Fingerprint(c, viewer), Empty(baseline),
      SortBy(StringLeq, MatchingPaths(Unique(bp), HashLeaves(c, bl), HashLeaves(c, vl))),
      SharedNames(bp, vp),
      Similarity(Shape(c, baseline, "", 0), Shape(c, viewer, "", 0)))
  }

  /** The viewer saw the owner's data: the same canonical body, or the same value at a sensitive path. */
  ghost predicate Exposes(c: Config, owner: Json, viewer: Json) {
    || Same(Canonicalize(c, owner, 0), Canonicalize(c, viewer, 0))
    || exists path :: SharesValue(c, owner, viewer, path)
  }

  lemma {:induction false} SensitivePathsAre(c: Config, leaves: seq<Leaf>, path: string)
    ensures path in SensitivePaths(c, leaves) <==> LastSensitive(c, leaves, path).Some?
  {
    if leaves != [] {
      SensitivePathsAre(c, leaves[..|leaves| - 1], path);
    }
  }

  lemma {:induction false} MatchingPathsAre(paths: seq<string>, x: map<string, string>, y: map<string, string>, p: string)
    ensures p in MatchingPaths(paths, x, y) <==> p in paths && p in x && p in y && x[p] == y[p]
  {
    if paths != [] {
      MatchingPathsAre(paths[1..], x, y, p);
      assert p in paths <==> p == paths[0] || p in paths[1..];
    }
  }

  /** The reported matching paths are exactly those at which both bodies show one value. */
  lemma MatchingExactly(c: Config, owner: Json, viewer: Json, path: string)
    requires Faithful(c) && WellFormed(owner) && WellFormed(viewer)
    ensures path in Compare(c, owner, viewer).matching <==> SharesValue(c, owner, viewer, path)
  {
    var ol, vl := Leaves(owner, "", 0), Leaves(viewer, "", 0);
    var paths := SensitivePaths(c, ol);
    var x, y := HashLeaves(c, ol), HashLeaves(c, vl);
    UniqueContents(paths);
    MatchingPathsAre(Unique(paths), x, y, path);
    SortContents(StringLeq, MatchingPaths(Unique(paths), x, y));
    SensitivePathsAre(c, ol, path);
    HashesMatchExactly(c, owner, viewer, path);
  }

  /** A comparison with a non-empty baseline is verified exactly when the data was exposed. */
  lemma VerifiedComparison(c: Config, owner: Json, viewer: Json)
    requires Faithful(c) && WellFormed(owner) && WellFormed(viewer) && !Empty(owner)
    ensures Compare(c, owner, viewer).Strength() == Verified <==> Exposes(c, owner, viewer)
  {
    var r := Compare(c, owner, viewer);
    FingerprintExactly(c, owner, viewer);
    if r.matching != [] {
      assert r.matching[0] in r.matching;
      MatchingExactly(c, owner, viewer, r.matching[0]);
    }
    if path :| SharesValue(c, owner, viewer, path) {
      MatchingExactly(c, owner, viewer, path);
    }
  }

  lemma ComparisonMeans(c: Config, owner: Json, viewer: Json)
    requires Faithful(c) && WellFormed(owner) && WellFormed(viewer)
    ensures var r := Compare(c, owner, viewer);
            && (forall path :: path in r.matching <==> SharesValue(c, owner, viewer, path))
            && (!Empty(owner) ==> (r.Strength() == Verified <==> Exposes(c, owner, viewer)))
  {
    forall path ensures path in Compare(c, owner, viewer).matching <==> SharesValue(c, owner, viewer, path) {
      MatchingExactly(c, owner, viewer, path);
    }
    if !Empty(owner) {
      VerifiedComparison(c, owner, viewer);
    }
  }

  /**
   `_comparison`, over the maps that the hashing loop fills: for readable bodies it reports exactly the
   paths at which both show one value, and is verified exactly when the viewer saw the owner's data.
   */
  method ComparePair(c: Config, baseline: Json, viewer: Json) returns (r: Comparison)
    ensures r == Compare(c, baseline, viewer)
    ensures Faithful(c) && WellFormed(baseline) && WellFormed(viewer) ==>
              forall path :: path in r.matching <==> SharesValue(c, baseline, viewer, path)
    ensures Faithful(c) && WellFormed(baseline) && WellFormed(viewer) && !Empty(baseline) ==>
              (r.Strength() == Verified <==> Exposes(c, baseline, viewer))
  {
    var x := SensitiveValueHashes(c, baseline);
    var y := SensitiveValueHashes(c, viewer);
    var bp, vp := SensitivePaths(c, Leaves(baseline, "", 0)), SensitivePaths(c, Leaves(viewer, "", 0));
    r := Comparison(
      Fingerprint(c, baseline), Fingerprint(c, viewer), Empty(baseline),
      SortBy(StringLeq, MatchingPaths(Unique(bp), x, y)), SharedNames(bp, vp),
      Similarity(Shape(c, baseline, "", 0), Shape(c, viewer, "", 0)));
    if Faithful(c) && WellFormed(baseline) && WellFormed(viewer) {
      ComparisonMeans(c, baseline, viewer);
    }
  }

  // Object access.

  function Owners(c: Config, samples: seq<Observation>): seq<Observation> {
    if samples == [] then []
    else (if Owner(c, samples[0]) then [samples[0]] else []) + Owners(c, samples[1..])
  }

  function NonOwners(c: Config, samples: seq<Observation>): seq<Observation> {
    if samples == [] then []
    else (if NonOwner(c, samples[0]) then [samples[0]] else []) + NonOwners(c, samples[1..])
  }

  function CandidateFor(c: Config, target: string, owner: Observation, viewer: Observation): Candidate {
    var comparison := Compare(c, owner.body, viewer.body);
    Candidate(CROSS_PRINCIPAL, target, c.hash(c.dump(comparison.Material())), comparison.Strength(),
              owner.principal, viewer.principal)
  }

  /** One pair yields its candidate unless the comparison is insufficient. */
  function PairFindings(c: Config, target: string, owner: Observation, viewer: Observation): seq<Candidate> {
    var f := CandidateFor(c, target, owner, viewer);
    if f.strength == Insufficient then [] else [f]
  }

  function OwnerFindings(c: Config, target: string, owner: Observation, viewers: seq<Observation>): seq<Candidate> {
    if viewers == [] then []
    else
      OwnerFindings(c, target, owner, viewers[..|viewers| - 1])
      + PairFindings(c, target, owner, viewers[|viewers| - 1])
  }

  function AccessFindings(c: Config, target: string, owners: seq<Observation>, viewers: seq<Observation>): seq<Candidate> {
    if owners == [] then []
    else
      AccessFindings(c, target, owners[..|owners| - 1], viewers)
      + OwnerFindings(c, target, owners[|owners| - 1], viewers)
  }

  /** The inner loop of `_object_access`. */
  method AccessOf(c: Config, target: string, owner: Observation, viewers: seq<Observation>) returns (findings: seq<Candidate>)
    ensures findings == OwnerFindings(c, target, owner, viewers)
  {
    findings := [];
    for i := 0 to |viewers|
      invariant findings == OwnerFindings(c, target, owner, viewers[..i])
    {
      assert viewers[..i + 1][..i] == viewers[..i];
      var comparison := ComparePair(c, owner.body, viewers[i].body);
      if comparison.Strength() != Insufficient {
        findings := findings + [Candidate(CROSS_PRINCIPAL, target, c.hash(c.dump(comparison.Material())),
                                          comparison.Strength(), owner.principal, viewers[i].principal)];
      }
    }
    assert viewers[..|viewers|] == viewers;
  }

  /** `_object_access`. */
  method ObjectAccess(c: Config, target: string, samples: seq<Observation>) returns (findings: seq<Candidate>)
    ensures findings == AccessFindings(c, target, Owners(c, samples), NonOwners(c, samples))
  {
    var owners, viewers := Owners(c, samples), NonOwners(c, samples);
    findings := [];
    for i := 0 to |owners|
      invariant findings == AccessFindings(c, target, owners[..i], viewers)
    {
      assert owners[..i + 1][..i] == owners[..i];
      var found := AccessOf(c, target, owners[i], viewers);
      findings := findings + found;
    }
    assert owners[..|owners|] == owners;
  }

  // The whole analysis.

  datatype Key = Key(verb: string, route: string, resourceId: Option<string>)

  function KeyOf(o: Observation): Key {
    Key(o.verb, o.route, o.resourceId)
  }

  function Target(k: Key): string {
    k.verb + " " + k.route
    + (if k.resourceId.Some? && k.resourceId.value != "" then " [resource=" + k.resourceId.value + "]" else "")
  }

  /** The observations with one key, in order. */
  function Group(observations: seq<Observation>, k: Key): seq<Observation> {
    if observations == [] then []
    else
      var n := |observations| - 1;
      Group(observations[..n], k) + (if KeyOf(observations[n]) == k then [observations[n]] else [])
  }

  /** The keys, in order of first appearance. */
  function Keys(observations: seq<Observation>): seq<Key> {
    if observations == [] then []
    else
      var n := |observations| - 1;
      var before := Keys(observations[..n]);
      if KeyOf(observations[n]) in before then before else before + [KeyOf(observations[n])]
  }

  type Check = (string, seq<Observation>) -> seq<Candidate>

  /** The engine's other checks on one group, those before and those after this one, and the final order. */
  datatype Rest = Rest(before: Check, after: Check, le: (Candidate, Candidate) -> bool)

  function GroupFindings(c: Config, rest: Rest, target: string, samples: seq<Observation>): seq<Candidate> {
    rest.before(target, samples)
    + AccessFindings(c, target, Owners(c, samples), NonOwners(c, samples))
    + rest.after(target, samples)
  }

  function FindingsOf(c: Config, rest: Rest, observations: seq<Observation>, keys: seq<Key>): seq<Candidate> {
    if keys == [] then []
    else
      var n := |keys| - 1;
      FindingsOf(c, rest, observations, keys[..n])
      + GroupFindings(c, rest, Target(keys[n]), Group(observations, keys[n]))
  }

  /** `{item.id: item for item in findings}.values()`: the last finding with an id stays, at the first one's place. */
  function Place(kept: seq<Candidate>, f: Candidate): seq<Candidate> {
    if kept == [] then [f]
    else if IdOf(kept[0]) == IdOf(f) then [f] + kept[1..]
    else [kept[0]] + Place(kept[1..], f)
  }

  function Kept(findings: seq<Candidate>): seq<Candidate> {
    if findings == [] then [] else Place(Kept(findings[..|findings| - 1]), findings[|findings| - 1])
  }

  /** What `analyze` returns. */
  function Analysis(c: Config, rest: Rest, observations: seq<Observation>): seq<Candidate> {
    SortBy(rest.le, Kept(FindingsOf(c, rest, observations, Keys(observations))))
  }

  /** The first loop of `analyze`: the keys in the order the dictionary gets them, and their lists. */
  method GroupByKey(observations: seq<Observation>) returns (keys: seq<Key>, groups: map<Key, seq<Observation>>)
    ensures keys == Keys(observations) && NoRepeats(keys) && groups.Keys == (set k | k in keys)
    ensures forall k :: k in keys ==> groups[k] == Group(observations, k)
  {
    keys, groups := [], map[];
    for i := 0 to |observations|
      invariant keys == Keys(observations[..i]) && NoRepeats(keys) && groups.Keys == (set k | k in keys)
      invariant forall k :: k in groups ==> groups[k] == Group(observations[..i], k)
      invariant forall k :: k !in groups ==> Group(observations[..i], k) == []
    {
      var o := observations[i];
      assert observations[..i + 1][..i] == observations[..i];
      if KeyOf(o) in groups {
        groups := groups[KeyOf(o) := groups[KeyOf(o)] + [o]];
      } else {
        keys := keys + [KeyOf(o)];
        groups := groups[KeyOf(o) := [o]];
      }
    }
    assert observations[..|observations|] == observations;
  }

  lemma FindingsSnoc(c: Config, rest: Rest, observations: seq<Observation>, keys: seq<Key>, k: Key)
    ensures FindingsOf(c, rest, observations, keys + [k])
            == FindingsOf(c, rest, observations, keys) + GroupFindings(c, rest, Target(k), Group(observations, k))
  {
    assert (keys + [k])[..|keys|] == keys;
  }

  /** One turn of the second loop of `analyze`. */
  method CheckGroup(c: Config, rest: Rest, target: string, samples: seq<Observation>) returns (found: seq<Candidate>)
    ensures found == GroupFindings(c, rest, target, samples)
  {
    found := rest.before(target, samples);
    var access := ObjectAccess(c, target, samples);
    found := found + access;
    found := found + rest.after(target, samples);
  }

  /** The second loop of `analyze`. */
  method CheckGroups(c: Config, rest: Rest, observations: seq<Observation>, keys: seq<Key>, groups: map<Key, seq<Observation>>)
    returns (findings: seq<Candidate>)
    requires forall i :: 0 <= i < |keys| ==> keys[i] in groups && groups[keys[i]] == Group(observations, keys[i])
    ensures findings == FindingsOf(c, rest, observations, keys)
  {
    findings := [];
    for i := 0 to |keys|
      invariant findings == FindingsOf(c, rest, observations, keys[..i])
    {
      var found := CheckGroup(c, rest, Target(keys[i]), groups[keys[i]]);
      FindingsSnoc(c, rest, observations, keys[..i], keys[i]);
      assert keys[..i + 1] == keys[..i] + [keys[i]];
      findings := findings + found;
    }
    assert keys[..|keys|] == keys;
  }

  /** `analyze`. */
  method Analyze(c: Config, rest: Rest, observations: seq<Observation>) returns (result: seq<Candidate>)
    ensures result == Analysis(c, rest, observations)
  {
    var keys, groups := GroupByKey(observations);
    forall i | 0 <= i < |keys| ensures keys[i] in groups && groups[keys[i]] == Group(observations, keys[i]) {
      assert keys[i] in keys;
    }
    var findings := CheckGroups(c, rest, observations, keys, groups);
    result := SortBy(rest.le, Kept(findings));
  }
}
