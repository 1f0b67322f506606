/** How authz.py reads response bodies: canonical form, sensitive leaves, shape. */
module AuthzBodies {
  import opened Common
  import opened Ordering
  import opened Json
  import opened JsonCanonical

  const VOLATILE_KEYS: set<string> := {
    "timestamp", "created_at", "updated_at", "request_id", "requestid", "trace_id", "traceid",
    "correlation_id", "correlationid", "nonce", "etag", "server_time", "servertime"
  }

  /**
   What the engine is given: `_normalize_name`, the configured sensitive names, the
   denial heuristic, the hash, and the text `json.dumps` makes with sorted keys.
   */
  datatype Config = Config(
    norm: string -> string,
    sensitive: set<string>,
    denial: Json -> bool,
    hash: string -> string,
    dump: Json -> string)

  /** The hash has no collisions and the text determines the value up to key order. */
  ghost predicate Faithful(c: Config) {
    && (forall a, b :: c.hash(a) == c.hash(b) ==> a == b)
    && (forall v, w :: WellFormed(v) && WellFormed(w) && c.dump(v) == c.dump(w) ==> Same(v, w))
    && (forall v, w :: WellFormed(v) && WellFormed(w) && Same(v, w) ==> c.dump(v) == c.dump(w))
  }

  /** The canonical printer is such a text. */
  lemma CanonicalIsFaithful(c: Config)
    requires c.dump == CanonicalJson && forall a, b :: c.hash(a) == c.hash(b) ==> a == b
    ensures Faithful(c)
  {
    forall v, w | WellFormed(v) && WellFormed(w) ensures c.dump(v) == c.dump(w) <==> Same(v, w) {
      CanonicalExactlySame(v, w);
    }
  }

  // The canonical body.

  const BODY_DEPTH: nat := 32
  const BODY_ITEMS: nat := 500
  const LEAF_ITEMS: nat := 100
  const SHAPE_ITEMS: nat := 25

  /** `_canonicalize`. */
  function Canonicalize(c: Config, v: Json, depth: nat): Json
    decreases v
  {
    if depth > BODY_DEPTH then Str("[DEPTH-LIMIT]")
    else
      match v
      case Obj(ms) => Obj(SortBy(KeyLeq, CanonicalMembers(c, ms, depth + 1)))
      case Arr(items) => Arr(CanonicalItems(c, items, depth + 1, BODY_ITEMS))
      case _ => v
  }

  function CanonicalMembers(c: Config, ms: seq<Member>, depth: nat): seq<Member>
    decreases ms
  {
    if ms == [] then []
    else
      var rest := CanonicalMembers(c, ms[1..], depth);
      if c.norm(ms[0].key) in VOLATILE_KEYS then rest
      else [Member(ms[0].key, Canonicalize(c, ms[0].value, depth))] + rest
  }

  /** At most the first `n` items. */
  function CanonicalItems(c: Config, vs: seq<Json>, depth: nat, n: nat): seq<Json>
    decreases vs
  {
    if vs == [] || n == 0 then []
    else [Canonicalize(c, vs[0], depth)] + CanonicalItems(c, vs[1..], depth, n - 1)
  }

  /** `body_fingerprint`. */
  function Fingerprint(c: Config, body: Json): string {
    c.hash(c.dump(Canonicalize(c, body, 0)))
  }

  lemma {:induction false} CanonicalWellFormed(c: Config, v: Json, depth: nat)
    requires WellFormed(v)
    ensures WellFormed(Canonicalize(c, v, depth))
    decreases v, 1, 0
  {
    if depth <= BODY_DEPTH {
      match v {
        case Obj(ms) =>
          CanonicalMembersWellFormed(c, v, ms, depth + 1);
          SortedWellFormed(CanonicalMembers(c, ms, depth + 1));
        case Arr(items) => CanonicalItemsWellFormed(c, v, items, depth + 1, BODY_ITEMS);
        case _ =>
      }
    }
  }

  lemma {:induction false} CanonicalMembersWellFormed(c: Config, parent: Json, ms: seq<Member>, depth: nat)
    requires parent.Obj? && DistinctKeys(ms) && MembersWellFormed(ms) && forall m :: m in ms ==> m in parent.members
    ensures var r := CanonicalMembers(c, ms, depth);
            && DistinctKeys(r) && MembersWellFormed(r)
            && forall i :: 0 <= i < |r| ==> exists j :: 0 <= j < |ms| && ms[j].key == r[i].key
    decreases parent, 0, |ms|
  {
    if ms != [] {
      assert ms[0] in parent.members;
      CanonicalWellFormed(c, ms[0].value, depth);
      CanonicalMembersWellFormed(c, parent, ms[1..], depth);
      var r, rest := CanonicalMembers(c, ms, depth), CanonicalMembers(c, ms[1..], depth);
      forall i | 0 <= i < |rest| ensures exists j :: 1 <= j < |ms| && ms[j].key == rest[i].key {
        var j :| 0 <= j < |ms[1..]| && ms[1..][j].key == rest[i].key;
        assert ms[j + 1].key == rest[i].key;
      }
      assert |r| == |rest| + 1 ==> r[0].key == ms[0].key && r[1..] == rest;
    }
  }

  lemma {:induction false} CanonicalItemsWellFormed(c: Config, parent: Json, vs: seq<Json>, depth: nat, n: nat)
    requires parent.Arr? && AllWellFormed(vs) && forall v :: v in vs ==> v in parent.items
    ensures AllWellFormed(CanonicalItems(c, vs, depth, n))
    decreases parent, 0, |vs|
  {
    if vs != [] && n > 0 {
      assert vs[0] in parent.items;
      CanonicalWellFormed(c, vs[0], depth);
      CanonicalItemsWellFormed(c, parent, vs[1..], depth, n - 1);
    }
  }

  lemma SortedWellFormed(ms: seq<Member>)
    requires DistinctKeys(ms) && MembersWellFormed(ms)
    ensures DistinctKeys(SortBy(KeyLeq, ms)) && MembersWellFormed(SortBy(KeyLeq, ms))
  {
    var s := SortBy(KeyLeq, ms);
    SortContents(KeyLeq, ms);
    SortNoRepeats(KeyLeq, ms);
    forall i, j | 0 <= i < j < |s| ensures s[i].key != s[j].key {
      assert s[i] in ms && s[j] in ms;
    }
    forall m | m in s ensures WellFormed(m.value) {
      var i :| 0 <= i < |ms| && ms[i] == m;
      WellFormedMember(ms, i);
    }
    EachWellFormed(s);
  }

  /** Two bodies have one fingerprint exactly when their canonical forms agree up to key order. */
  lemma FingerprintExactly(c: Config, a: Json, b: Json)
    requires Faithful(c) && WellFormed(a) && WellFormed(b)
    ensures Fingerprint(c, a) == Fingerprint(c, b) <==> Same(Canonicalize(c, a, 0), Canonicalize(c, b, 0))
  {
    CanonicalWellFormed(c, a, 0);
    CanonicalWellFormed(c, b, 0);
  }

  // Leaves.

  /** A scalar with the path to it and its own key. */
  datatype Leaf = Leaf(path: string, key: string, value: Json)

  function Below(prefix: string, key: string): string {
    if prefix == "" then key else prefix + "." + key
  }

  predicate IsContainer(v: Json) {
    v.Obj? || v.Arr?
  }

  /** `_walk_paths`. */
  function Leaves(v: Json, prefix: string, depth: nat): seq<Leaf>
    decreases v
  {
    if depth > BODY_DEPTH then []
    else
      match v
      case Obj(ms) => MemberLeaves(ms, prefix, depth + 1)
      case Arr(items) => ItemLeaves(items, prefix + "[]", depth + 1, LEAF_ITEMS)
      case _ => []
  }

  function MemberLeaves(ms: seq<Member>, prefix: string, depth: nat): seq<Leaf> {
    if ms == [] then []
    else
      var m := ms[0];
      (if IsContainer(m.value) then Leaves(m.value, Below(prefix, m.key), depth)
       else [Leaf(Below(prefix, m.key), m.key, m.value)])
      + MemberLeaves(ms[1..], prefix, depth)
  }

  function ItemLeaves(vs: seq<Json>, prefix: string, depth: nat, n: nat): seq<Leaf> {
    if vs == [] || n == 0 then [] else Leaves(vs[0], prefix, depth) + ItemLeaves(vs[1..], prefix, depth, n - 1)
  }

  lemma {:induction false} LeafScalar(v: Json, prefix: string, depth: nat, leaf: Leaf)
    requires WellFormed(v) && leaf in Leaves(v, prefix, depth)
    ensures !IsContainer(leaf.value) && WellFormed(leaf.value)
    decreases v, 1, 0
  {
    match v {
      case Obj(ms) => MemberLeafScalar(v, ms, prefix, depth + 1, leaf);
      case Arr(items) => ItemLeafScalar(v, items, prefix + "[]", depth + 1, LEAF_ITEMS, leaf);
    }
  }

  lemma {:induction false} MemberLeafScalar(parent: Json, ms: seq<Member>, prefix: string, depth: nat, leaf: Leaf)
    requires parent.Obj? && MembersWellFormed(ms) && forall m :: m in ms ==> m in parent.members
    requires leaf in MemberLeaves(ms, prefix, depth)
    ensures !IsContainer(leaf.value) && WellFormed(leaf.value)
    decreases parent, 0, |ms|
  {
    var m := ms[0];
    assert m in parent.members;
    if leaf in MemberLeaves(ms[1..], prefix, depth) {
      MemberLeafScalar(parent, ms[1..], prefix, depth, leaf);
    } else if IsContainer(m.value) {
      LeafScalar(m.value, Below(prefix, m.key), depth, leaf);
    }
  }

  lemma {:induction false} ItemLeafScalar(parent: Json, vs: seq<Json>, prefix: string, depth: nat, n: nat, leaf: Leaf)
    requires parent.Arr? && AllWellFormed(vs) && forall v :: v in vs ==> v in parent.items
    requires leaf in ItemLeaves(vs, prefix, depth, n)
    ensures !IsContainer(leaf.value) && WellFormed(leaf.value)
    decreases parent, 0, |vs|
  {
    assert vs[0] in parent.items;
    if leaf in Leaves(vs[0], prefix, depth) {
      LeafScalar(vs[0], prefix, depth, leaf);
    } else {
      ItemLeafScalar(parent, vs[1..], prefix, depth, n - 1, leaf);
    }
  }

  /** `value.replace("[]", "")`. */
  function DropBrackets(s: string): string
    decreases |s|
  {
    if |s| >= 2 && s[0] == '[' && s[1] == ']' then DropBrackets(s[2..])
    else if s == [] then [] else [s[0]] + DropBrackets(s[1..])
  }

  /** `_is_sensitive_name`. */
  predicate Sensitive(c: Config, key: string) {
    c.norm(DropBrackets(key)) in c.sensitive
  }

  /** The value at the last sensitive leaf on `path`. */
  function LastSensitive(c: Config, leaves: seq<Leaf>, path: string): Option<Json> {
    if leaves == [] then None
    else
      var leaf := leaves[|leaves| - 1];
      if leaf.path == path && Sensitive(c, leaf.key) then Some(leaf.value)
      else LastSensitive(c, leaves[..|leaves| - 1], path)
  }

  function ValueHash(c: Config, path: string, v: Json): string {
    c.hash(path + "\0" + c.dump(v))
  }

  function HashLeaves(c: Config, leaves: seq<Leaf>): map<string, string> {
    if leaves == [] then map[]
    else
      var leaf := leaves[|leaves| - 1];
      var before := HashLeaves(c, leaves[..|leaves| - 1]);
      if Sensitive(c, leaf.key) then before[leaf.path := ValueHash(c, leaf.path, leaf.value)] else before
  }

  /** `_sensitive_value_hashes`. */
  method SensitiveValueHashes(c: Config, body: Json) returns (result: map<string, string>)
    ensures result == HashLeaves(c, Leaves(body, "", 0))
  {
    var leaves := Leaves(body, "", 0);
    result := map[];
    for i := 0 to |leaves|
      invariant result == HashLeaves(c, leaves[..i])
    {
      assert leaves[..i + 1][..i] == leaves[..i];
      if Sensitive(c, leaves[i].key) {
        result := result[leaves[i].path := ValueHash(c, leaves[i].path, leaves[i].value)];
      }
    }
    assert leaves[..|leaves|] == leaves;
  }

  /** The map holds, for each sensitive path, the hash of the last value there. */
  lemma {:induction false} HashLeavesAre(c: Config, leaves: seq<Leaf>, path: string)
    ensures path in HashLeaves(c, leaves) <==> LastSensitive(c, leaves, path).Some?
    ensures path in HashLeaves(c, leaves) ==>
      HashLeaves(c, leaves)[path] == ValueHash(c, path, LastSensitive(c, leaves, path).value)
  {
    if leaves != [] {
      HashLeavesAre(c, leaves[..|leaves| - 1], path);
    }
  }

  lemma {:induction false} LastSensitiveIsLeaf(c: Config, leaves: seq<Leaf>, path: string)
    requires LastSensitive(c, leaves, path).Some?
    ensures exists leaf :: leaf in leaves && leaf.path == path && leaf.value == LastSensitive(c, leaves, path).value
  {
    var last := leaves[|leaves| - 1];
    if !(last.path == path && Sensitive(c, last.key)) {
      LastSensitiveIsLeaf(c, leaves[..|leaves| - 1], path);
    }
  }

  /** The two bodies show one and the same last value at the sensitive path. */
  predicate SharesValue(c: Config, a: Json, b: Json, path: string) {
    var x, y := LastSensitive(c, Leaves(a, "", 0), path), LastSensitive(c, Leaves(b, "", 0), path);
    x.Some? && x == y
  }

  lemma ScalarSame(v: Json, w: Json)
    requires !IsContainer(v) && !IsContainer(w)
    ensures Same(v, w) <==> v == w
  {
  }

  lemma SuffixEqual(p: string, a: string, b: string)
    requires p + "\0" + a == p + "\0" + b
    ensures a == b
  {
    assert (p + "\0" + a)[|p| + 1..] == a && (p + "\0" + b)[|p| + 1..] == b;
  }

  /** Hashes match at a path exactly when the last values there are equal. */
  lemma HashesMatchExactly(c: Config, a: Json, b: Json, path: string)
    requires Faithful(c) && WellFormed(a) && WellFormed(b)
    ensures var x, y := HashLeaves(c, Leaves(a, "", 0)), HashLeaves(c, Leaves(b, "", 0));
            (path in x && path in y && x[path] == y[path]) <==> SharesValue(c, a, b, path)
  {
    var la, lb := Leaves(a, "", 0), Leaves(b, "", 0);
    HashLeavesAre(c, la, path);
    HashLeavesAre(c, lb, path);
    if LastSensitive(c, la, path).Some? && LastSensitive(c, lb, path).Some? {
      LastSensitiveIsLeaf(c, la, path);
      LastSensitiveIsLeaf(c, lb, path);
      var x :| x in la && x.value == LastSensitive(c, la, path).value;
      var y :| y in lb && y.value == LastSensitive(c, lb, path).value;
      LeafScalar(a, "", 0, x);
      LeafScalar(b, "", 0, y);
      ScalarSame(x.value, y.value);
      if ValueHash(c, path, x.value) == ValueHash(c, path, y.value) {
        SuffixEqual(path, c.dump(x.value), c.dump(y.value));
      }
    }
  }
}
