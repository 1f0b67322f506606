/** `_resolve` and `_schema_fields` of api_graph.py, over a JSON document. */
module ApiSchema {
  import opened Common
  import opened Ordering
  import opened Json

  function Get(v: Json, key: string): Option<Json> {
    if v.Obj? then Find(v.members, key) else None
  }

  // References: a URI fragment holding a JSON Pointer (RFC 6901, section 4).

  /** The text of `$ref`, when `v` is an object that has one. */
  function Reference(v: Json): Option<string> {
    match Get(v, "$ref")
    case Some(Str(s)) => Some(s)
    case _ => None
  }

  predicate IsLocal(reference: string) {
    |reference| >= 2 && reference[..2] == "#/"
  }

  function Split(s: string): (parts: seq<string>)
    ensures parts != []
  {
    if s == [] then [[]]
    else
      var rest := Split(s[1..]);
      if s[0] == '/' then [[]] + rest else [[s[0]] + rest[0]] + rest[1..]
  }

  /** `part.replace("~" + code, with)`. */
  function Unescape(s: string, code: char, with: char): string
    decreases |s|
  {
    if |s| < 2 then s
    else if s[0] == '~' && s[1] == code then [with] + Unescape(s[2..], code, with)
    else [s[0]] + Unescape(s[1..], code, with)
  }

  /** Walk down from `node`; only objects have named children. */
  function Follow(node: Json, parts: seq<string>): Option<Json>
    decreases |parts|
  {
    if parts == [] then Some(node)
    else
      match Get(node, Unescape(Unescape(parts[0], '1', '/'), '0', '~'))
      case None => None
      case Some(child) => Follow(child, parts[1..])
  }

  /** What a reference points to in the document. */
  function Target(document: Json, reference: string): Option<Json> {
    if IsLocal(reference) then Follow(document, Split(reference[2..])) else None
  }

  /** Every reference text inside a value. */
  function References(v: Json): set<string> {
    match v
    case Obj(ms) => (if Reference(v).Some? then {Reference(v).value} else {}) + MemberReferences(ms)
    case Arr(items) => ItemReferences(items)
    case _ => {}
  }

  function MemberReferences(ms: seq<Member>): set<string> {
    if ms == [] then {} else References(ms[0].value) + MemberReferences(ms[1..])
  }

  function ItemReferences(vs: seq<Json>): set<string> {
    if vs == [] then {} else References(vs[0]) + ItemReferences(vs[1..])
  }

  lemma {:induction false} FindReferences(ms: seq<Member>, key: string)
    requires Find(ms, key).Some?
    ensures References(Find(ms, key).value) <= MemberReferences(ms)
  {
    if ms[0].key != key {
      FindReferences(ms[1..], key);
    }
  }

  /** Whatever a reference leads to, its own references are in the document. */
  lemma {:induction false} FollowReferences(node: Json, parts: seq<string>)
    requires Follow(node, parts).Some?
    ensures References(Follow(node, parts).value) <= References(node)
    decreases |parts|
  {
    if parts != [] {
      var key := Unescape(Unescape(parts[0], '1', '/'), '0', '~');
      FindReferences(node.members, key);
      FollowReferences(Get(node, key).value, parts[1..]);
    }
  }

  /** The references a chain from `v` can ever meet. */
  function Pool(document: Json, v: Json): set<string> {
    References(document) + (if Reference(v).Some? then {Reference(v).value} else {})
  }

  lemma TargetInPool(document: Json, reference: string)
    requires Target(document, reference).Some?
    ensures var v := Target(document, reference).value; Pool(document, v) == References(document)
  {
    FollowReferences(document, Split(reference[2..]));
  }

  /** `_resolve`, having followed the references in `seen`; those still to come get fewer. */
  function ResolveFrom(document: Json, v: Json, seen: set<string>): Json
    decreases |Pool(document, v) - seen|
  {
    var reference := Reference(v);
    if reference.None? || reference.value in seen then v
    else
      var target := Target(document, reference.value);
      if target.None? then v
      else
        FewerLeft(document, v, seen);
        ResolveFrom(document, target.value, seen + {reference.value})
  }

  lemma FewerLeft(document: Json, v: Json, seen: set<string>)
    requires Reference(v).Some? && Reference(v).value !in seen
    requires Target(document, Reference(v).value).Some?
    ensures var r := Reference(v).value;
            |Pool(document, Target(document, r).value) - (seen + {r})| < |Pool(document, v) - seen|
  {
    var r := Reference(v).value;
    TargetInPool(document, r);
    var big, small := Pool(document, v) - seen, References(document) - (seen + {r});
    assert r in big && small <= big - {r};
    SubsetSize(small, big - {r});
  }

  function Resolve(document: Json, v: Json): Json {
    ResolveFrom(document, v, {})
  }

  /** `_resolve` as it runs: a loop over the value and the references seen. */
  method ResolveLoop(document: Json, start: Json) returns (value: Json)
    ensures value == Resolve(document, start)
  {
    var seen: set<string> := {};
    value := start;
    while Reference(value).Some?
      invariant Resolve(document, start) == ResolveFrom(document, value, seen)
      decreases |Pool(document, value) - seen|
    {
      var reference := Reference(value).value;
      if !IsLocal(reference) || reference in seen {
        return;
      }
      var target := Target(document, reference);
      if target.None? {
        return;
      }
      FewerLeft(document, value, seen);
      seen := seen + {reference};
      value := target.value;
    }
  }

  // What resolving finds.

  /** One reference followed. */
  function Next(document: Json, v: Json): Option<Json> {
    if Reference(v).Some? then Target(document, Reference(v).value) else None
  }

  /** `n` references followed. */
  function Chain(document: Json, v: Json, n: nat): Option<Json>
    decreases n
  {
    if n == 0 then Some(v)
    else
      match Next(document, v)
      case None => None
      case Some(w) => Chain(document, w, n - 1)
  }

  lemma {:induction false} ChainConcat(document: Json, v: Json, m: nat, n: nat)
    requires Chain(document, v, m).Some?
    ensures Chain(document, v, m + n) == Chain(document, Chain(document, v, m).value, n)
    decreases m
  {
    if m > 0 {
      ChainConcat(document, Next(document, v).value, m - 1, n);
    }
  }

  /** `w` carries the reference `s` and leads to `v` in `p` steps, at least one. */
  predicate Trail(document: Json, s: string, w: Json, p: nat, v: Json) {
    p > 0 && Reference(w) == Some(s) && Chain(document, w, p) == Some(v)
  }

  ghost predicate Remembered(document: Json, v: Json, seen: set<string>) {
    forall s :: s in seen ==> exists w, p: nat :: Trail(document, s, w, p, v)
  }

  /** Nothing to follow, or following leads back. */
  ghost predicate Settled(document: Json, r: Json) {
    Next(document, r).None? || OnCycle(document, r)
  }

  ghost predicate OnCycle(document: Json, r: Json) {
    exists m: nat :: m > 0 && Chain(document, r, m) == Some(r)
  }

  lemma TrailLoops(document: Json, v: Json, s: string)
    requires Reference(v) == Some(s) && exists w, p: nat :: Trail(document, s, w, p, v)
    ensures Settled(document, v)
  {
    var w, p: nat :| Trail(document, s, w, p, v);
    assert Next(document, w) == Next(document, v);
    assert Chain(document, v, p) == Some(v);
  }

  lemma TrailGoesOn(document: Json, v: Json, seen: set<string>, s: string, w: Json)
    requires Remembered(document, v, seen) && Reference(v) == Some(s) && Target(document, s) == Some(w)
    ensures Remembered(document, w, seen + {s})
  {
    assert Chain(document, v, 1) == Chain(document, w, 0);
    forall t | t in seen + {s} ensures exists u, p: nat :: Trail(document, t, u, p, w) {
      if t == s {
        assert Trail(document, t, v, 1, w);
      } else {
        var u, p: nat :| Trail(document, t, u, p, v);
        ChainConcat(document, u, p, 1);
        assert Trail(document, t, u, p + 1, w);
      }
    }
  }

  ghost predicate Reaches(document: Json, v: Json, end: Json) {
    exists n: nat :: Chain(document, v, n) == Some(end)
  }

  lemma ReachesOneMore(document: Json, v: Json, w: Json, end: Json)
    requires Next(document, v) == Some(w) && Reaches(document, w, end)
    ensures Reaches(document, v, end)
  {
    var n: nat :| Chain(document, w, n) == Some(end);
    assert Chain(document, v, n + 1) == Some(end);
  }

  predicate Stops(document: Json, v: Json, seen: set<string>) {
    Next(document, v).None? || Reference(v).value in seen
  }

  lemma StopsSettled(document: Json, v: Json, seen: set<string>)
    requires Remembered(document, v, seen) && Stops(document, v, seen)
    ensures Settled(document, v) && Reaches(document, v, v)
  {
    assert Chain(document, v, 0) == Some(v);
    if Next(document, v).Some? {
      TrailLoops(document, v, Reference(v).value);
    }
  }

  lemma ResolveStep(document: Json, v: Json, seen: set<string>)
    ensures Stops(document, v, seen) ==> ResolveFrom(document, v, seen) == v
    ensures !Stops(document, v, seen) ==>
              ResolveFrom(document, v, seen) == ResolveFrom(document, Next(document, v).value, seen + {Reference(v).value})
  {
  }

  lemma {:induction false} ResolveSettles(document: Json, v: Json, seen: set<string>)
    requires Remembered(document, v, seen)
    ensures Settled(document, ResolveFrom(document, v, seen))
    ensures Reaches(document, v, ResolveFrom(document, v, seen))
    decreases |Pool(document, v) - seen|
  {
    ResolveStep(document, v, seen);
    if Stops(document, v, seen) {
      StopsSettled(document, v, seen);
    } else {
      var s, w := Reference(v).value, Next(document, v).value;
      FewerLeft(document, v, seen);
      TrailGoesOn(document, v, seen, s, w);
      ResolveSettles(document, w, seen + {s});
      ReachesOneMore(document, v, w, ResolveFrom(document, w, seen + {s}));
    }
  }

  /** On a cycle every number of steps can be taken. */
  lemma {:induction false} CycleGoesOn(document: Json, r: Json, m: nat, n: nat)
    requires m > 0 && Chain(document, r, m) == Some(r)
    ensures Chain(document, r, n).Some? && Next(document, Chain(document, r, n).value).Some?
    decreases n
  {
    if n >= m {
      ChainConcat(document, r, m, n - m);
      CycleGoesOn(document, r, m, n - m);
    } else {
      ChainPrefix(document, r, n, m - n);
    }
  }

  lemma {:induction false} ChainPrefix(document: Json, v: Json, n: nat, more: nat)
    requires more > 0 && Chain(document, v, n + more).Some?
    ensures Chain(document, v, n).Some? && Next(document, Chain(document, v, n).value).Some?
    decreases n
  {
    if n > 0 {
      ChainPrefix(document, Next(document, v).value, n - 1, more);
    }
  }

  /**
   Resolving ends on every document, at a value reached by following references. If the chain
   has an end, that is the result; if it has none, the result lies on its cycle.
   */
  lemma ResolveExactly(document: Json, v: Json)
    ensures Settled(document, Resolve(document, v))
    ensures Reaches(document, v, Resolve(document, v))
    ensures forall n: nat, end :: Chain(document, v, n) == Some(end) && Next(document, end).None? ==> Resolve(document, v) == end
  {
    ResolveSettles(document, v, {});
    var r := Resolve(document, v);
    var k: nat :| Chain(document, v, k) == Some(r);
    forall n: nat, end | Chain(document, v, n) == Some(end) && Next(document, end).None? ensures r == end {
      if n < k {
        ChainPrefix(document, v, n, k - n);
      } else {
        ChainConcat(document, v, k, n - k);
        if m: nat :| m > 0 && Chain(document, r, m) == Some(r) {
          CycleGoesOn(document, r, m, n - k);
        }
      }
    }
  }

  // Schema fields.

  const MAX_DEPTH: nat := 6

  function PropertyMembers(schema: Json): seq<Member> {
    match Get(schema, "properties")
    case Some(Obj(ms)) => ms
    case _ => []
  }

  function KeywordItems(schema: Json, keyword: string): seq<Json> {
    match Get(schema, keyword)
    case Some(Arr(items)) => items
    case _ => []
  }

  function Values(ms: seq<Member>): seq<Json> {
    if ms == [] then [] else [ms[0].value] + Values(ms[1..])
  }

  /** The schemas one step below a resolved schema, in the order the code visits them. */
  function Children(schema: Json): seq<Json> {
    Values(PropertyMembers(schema))
    + (if Get(schema, "items").Some? then [Get(schema, "items").value] else [])
    + KeywordItems(schema, "allOf") + KeywordItems(schema, "oneOf") + KeywordItems(schema, "anyOf")
  }

  /** The property names a resolved schema declares itself. */
  function Names(snake: string -> string, schema: Json): set<string> {
    set m | m in PropertyMembers(schema) :: snake(m.key)
  }

  /** `_schema_fields`. */
  function Fields(snake: string -> string, document: Json, schema: Json, depth: nat): set<string>
    decreases MAX_DEPTH + 1 - depth, 1, 0
  {
    if depth > MAX_DEPTH then {}
    else
      var s := Resolve(document, schema);
      Names(snake, s) + FieldsOf(snake, document, Children(s), depth + 1)
  }

  function FieldsOf(snake: string -> string, document: Json, schemas: seq<Json>, depth: nat): set<string>
    decreases MAX_DEPTH + 1 - depth, 2, |schemas|
  {
    if schemas == [] || depth > MAX_DEPTH then {}
    else
      FieldsOf(snake, document, schemas[..|schemas| - 1], depth)
      + Fields(snake, document, schemas[|schemas| - 1], depth)
  }

  lemma FieldsUnfold(snake: string -> string, document: Json, schema: Json, depth: nat)
    ensures var s := Resolve(document, schema);
            Fields(snake, document, schema, depth) ==
            if depth > MAX_DEPTH then {} else Names(snake, s) + FieldsOf(snake, document, Children(s), depth + 1)
  {
  }

  /** `_schema_fields` as it runs: a set that is updated child by child. */
  method SchemaFields(snake: string -> string, document: Json, schema: Json, depth: nat) returns (fields: set<string>)
    ensures fields == Fields(snake, document, schema, depth)
    decreases MAX_DEPTH + 1 - depth, 0
  {
    FieldsUnfold(snake, document, schema, depth);
    fields := {};
    if depth > MAX_DEPTH {
      return;
    }
    var s := ResolveLoop(document, schema);
    var below := ChildFields(snake, document, Children(s), depth + 1);
    return Names(snake, s) + below;
  }

  method ChildFields(snake: string -> string, document: Json, children: seq<Json>, depth: nat) returns (fields: set<string>)
    ensures fields == FieldsOf(snake, document, children, depth)
    decreases MAX_DEPTH + 1 - depth, 1
  {
    if depth > MAX_DEPTH {
      return {};
    }
    fields := {};
    for i := 0 to |children|
      invariant fields == FieldsOf(snake, document, children[..i], depth)
    {
      var below := SchemaFields(snake, document, children[i], depth);
      assert children[..i + 1][..i] == children[..i];
      fields := fields + below;
    }
    assert children[..|children|] == children;
  }

  /** A way down from `schema`: each schema is a child of the one before, once that is resolved. */
  predicate Route(document: Json, schema: Json, route: seq<Json>) {
    route != [] && route[0] == schema
    && forall i :: 0 <= i < |route| - 1 ==> route[i + 1] in Children(Resolve(document, route[i]))
  }

  /** The schema at the end of the way declares the name. */
  predicate Declares(snake: string -> string, document: Json, route: seq<Json>, name: string) {
    route != [] && name in Names(snake, Resolve(document, route[|route| - 1]))
  }

  /** `name` is declared at the end of a way down of at most `length` schemas. */
  ghost predicate Reachable(snake: string -> string, document: Json, schema: Json, length: int, name: string) {
    exists route :: Route(document, schema, route) && |route| <= length && Declares(snake, document, route, name)
  }

  /** One of these schemas leads to the name. */
  ghost predicate OneReaches(snake: string -> string, document: Json, schemas: seq<Json>, length: int, name: string) {
    exists s :: s in schemas && Reachable(snake, document, s, length, name)
  }

  lemma {:induction false} FieldsOfExactly(snake: string -> string, document: Json, schemas: seq<Json>, depth: nat, name: string)
    requires depth <= MAX_DEPTH
    ensures name in FieldsOf(snake, document, schemas, depth) <==>
            exists s :: s in schemas && name in Fields(snake, document, s, depth)
  {
    if schemas != [] {
      var p, last := schemas[..|schemas| - 1], schemas[|schemas| - 1];
      FieldsOfExactly(snake, document, p, depth, name);
      if name in FieldsOf(snake, document, schemas, depth) {
        if name in FieldsOf(snake, document, p, depth) {
          var s :| s in p && name in Fields(snake, document, s, depth);
          assert s in schemas;
        } else {
          assert last in schemas;
        }
      }
      if s :| s in schemas && name in Fields(snake, document, s, depth) {
        assert s in p || s == last;
      }
    }
  }

  lemma RouteCons(document: Json, schema: Json, child: Json, route: seq<Json>)
    requires child in Children(Resolve(document, schema)) && Route(document, child, route)
    ensures Route(document, schema, [schema] + route)
  {
    var longer := [schema] + route;
    forall i | 0 <= i < |longer| - 1 ensures longer[i + 1] in Children(Resolve(document, longer[i])) {
      assert longer[i + 1] == route[i];
      if i > 0 {
        assert longer[i] == route[i - 1];
      }
    }
  }

  lemma RouteTail(document: Json, schema: Json, route: seq<Json>)
    requires Route(document, schema, route) && |route| > 1
    ensures route[1] in Children(Resolve(document, schema)) && Route(document, route[1], route[1..])
  {
    var rest := route[1..];
    assert route[0 + 1] in Children(Resolve(document, route[0]));
    forall i | 0 <= i < |rest| - 1 ensures rest[i + 1] in Children(Resolve(document, rest[i])) {
      assert route[(i + 1) + 1] in Children(Resolve(document, route[i + 1]));
    }
  }

  lemma DeclaresCons(snake: string -> string, document: Json, schema: Json, route: seq<Json>, name: string)
    requires Declares(snake, document, route, name)
    ensures Declares(snake, document, [schema] + route, name)
  {
    var longer := [schema] + route;
    assert longer[|longer| - 1] == route[|route| - 1];
  }

  lemma DeclaresTail(snake: string -> string, document: Json, schema: Json, route: seq<Json>, name: string)
    requires Declares(snake, document, route, name) && route[0] == schema
    requires name !in Names(snake, Resolve(document, schema))
    ensures |route| > 1 && Declares(snake, document, route[1..], name)
  {
    assert |route| > 1;
    assert route[1..][|route[1..]| - 1] == route[|route| - 1];
  }

  lemma RouteDown(snake: string -> string, document: Json, schema: Json, child: Json, length: nat, name: string)
    requires child in Children(Resolve(document, schema)) && Reachable(snake, document, child, length, name)
    ensures Reachable(snake, document, schema, length + 1, name)
  {
    var route :| Route(document, child, route) && |route| <= length && Declares(snake, document, route, name);
    RouteCons(document, schema, child, route);
    DeclaresCons(snake, document, schema, route, name);
  }

  lemma RouteUp(snake: string -> string, document: Json, schema: Json, length: nat, name: string)
    requires Reachable(snake, document, schema, length, name) && name !in Names(snake, Resolve(document, schema))
    ensures OneReaches(snake, document, Children(Resolve(document, schema)), length - 1, name)
  {
    var route :| Route(document, schema, route) && |route| <= length && Declares(snake, document, route, name);
    DeclaresTail(snake, document, schema, route, name);
    RouteTail(document, schema, route);
    var rest := route[1..];
    assert |rest| <= length - 1;
    assert Reachable(snake, document, route[1], length - 1, name);
  }

  /** A name not declared here is declared below exactly when it is reachable one step shorter from a child. */
  lemma ReachableBelow(snake: string -> string, document: Json, schema: Json, length: nat, name: string)
    requires name !in Names(snake, Resolve(document, schema))
    ensures Reachable(snake, document, schema, length + 1, name) <==>
            OneReaches(snake, document, Children(Resolve(document, schema)), length, name)
  {
    if Reachable(snake, document, schema, length + 1, name) {
      RouteUp(snake, document, schema, length + 1, name);
    }
    if child :| child in Children(Resolve(document, schema)) && Reachable(snake, document, child, length, name) {
      RouteDown(snake, document, schema, child, length, name);
    }
  }

  lemma ReachableHere(snake: string -> string, document: Json, schema: Json, length: int, name: string)
    requires name in Names(snake, Resolve(document, schema)) && length > 0
    ensures Reachable(snake, document, schema, length, name)
  {
    var route := [schema];
    assert Route(document, schema, route);
    assert route[|route| - 1] == schema;
  }

  lemma ReachableStep(snake: string -> string, document: Json, schema: Json, length: int, name: string)
    ensures Reachable(snake, document, schema, length, name) <==>
            length > 0 && (name in Names(snake, Resolve(document, schema))
                           || OneReaches(snake, document, Children(Resolve(document, schema)), length - 1, name))
  {
    if length > 0 {
      if name in Names(snake, Resolve(document, schema)) {
        ReachableHere(snake, document, schema, length, name);
      } else {
        ReachableBelow(snake, document, schema, length - 1, name);
      }
    }
  }

  lemma FieldsStep(snake: string -> string, document: Json, schema: Json, depth: nat, name: string)
    ensures name in Fields(snake, document, schema, depth) <==>
            depth <= MAX_DEPTH && (name in Names(snake, Resolve(document, schema))
                                   || name in FieldsOf(snake, document, Children(Resolve(document, schema)), depth + 1))
  {
  }

  /** The fields are exactly the property names reachable within the depth cap. */
  lemma {:induction false} FieldsExactly(snake: string -> string, document: Json, schema: Json, depth: nat, name: string)
    ensures name in Fields(snake, document, schema, depth) <==>
            Reachable(snake, document, schema, MAX_DEPTH + 1 - depth, name)
    decreases MAX_DEPTH + 1 - depth, 1
  {
    FieldsStep(snake, document, schema, depth, name);
    ReachableStep(snake, document, schema, MAX_DEPTH + 1 - depth, name);
    if depth <= MAX_DEPTH {
      ChildrenExactly(snake, document, Children(Resolve(document, schema)), depth + 1, name);
    }
  }

  lemma {:induction false} ChildrenExactly(snake: string -> string, document: Json, children: seq<Json>, depth: nat, name: string)
    requires 0 < depth <= MAX_DEPTH + 1
    ensures name in FieldsOf(snake, document, children, depth) <==>
            OneReaches(snake, document, children, MAX_DEPTH + 1 - depth, name)
    decreases MAX_DEPTH + 1 - depth, 2
  {
    if depth <= MAX_DEPTH {
      FieldsOfExactly(snake, document, children, depth, name);
      forall child ensures name in Fields(snake, document, child, depth)
                      <==> Reachable(snake, document, child, MAX_DEPTH + 1 - depth, name) {
        FieldsExactly(snake, document, child, depth, name);
      }
    }
  }
}
