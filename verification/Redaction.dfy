/** `redact` of ledger.py. */
module Redaction {
  import opened Json
  import opened JsonCanonical
  import opened Ordering

  const REDACTED: string := "[REDACTED]"

  const SECRET_KEYS: set<string> := {
    "authorization", "cookie", "set-cookie", "password", "passwd",
    "secret", "token", "access_token", "refresh_token", "api_key"
  }

  /** `lower` is Python's `str.lower`. */
  predicate Secret(lower: string -> string, key: string) {
    lower(key) in SECRET_KEYS
  }

  function Redact(lower: string -> string, v: Json): Json {
    match v
    case Obj(ms) => Obj(RedactMembers(lower, ms))
    case Arr(items) => Arr(RedactAll(lower, items))
    case _ => v
  }

  function RedactMembers(lower: string -> string, ms: seq<Member>): seq<Member> {
    if ms == [] then []
    else
      var m := ms[0];
      [Member(m.key, if Secret(lower, m.key) then Str(REDACTED) else Redact(lower, m.value))]
      + RedactMembers(lower, ms[1..])
  }

  function RedactAll(lower: string -> string, vs: seq<Json>): seq<Json> {
    if vs == [] then [] else [Redact(lower, vs[0])] + RedactAll(lower, vs[1..])
  }

  /** At no depth does a secret key hold anything but the marker. */
  predicate Clean(lower: string -> string, v: Json) {
    match v
    case Obj(ms) => CleanMembers(lower, ms)
    case Arr(items) => CleanAll(lower, items)
    case _ => true
  }

  predicate CleanMembers(lower: string -> string, ms: seq<Member>) {
    ms == [] || (
      && (Secret(lower, ms[0].key) ==> ms[0].value == Str(REDACTED))
      && Clean(lower, ms[0].value) && CleanMembers(lower, ms[1..]))
  }

  predicate CleanAll(lower: string -> string, vs: seq<Json>) {
    vs == [] || (Clean(lower, vs[0]) && CleanAll(lower, vs[1..]))
  }

  lemma {:induction false} RedactCleans(lower: string -> string, v: Json)
    ensures Clean(lower, Redact(lower, v))
    decreases v, 1, 0
  {
    match v {
      case Obj(ms) => RedactCleansMembers(lower, v, ms);
      case Arr(items) => RedactCleansAll(lower, v, items);
      case _ =>
    }
  }

  lemma {:induction false} RedactCleansMembers(lower: string -> string, parent: Json, ms: seq<Member>)
    requires parent.Obj? && forall m :: m in ms ==> m in parent.members
    ensures CleanMembers(lower, RedactMembers(lower, ms))
    decreases parent, 0, |ms|
  {
    if ms != [] {
      assert ms[0] in parent.members;
      RedactCleans(lower, ms[0].value);
      RedactCleansMembers(lower, parent, ms[1..]);
    }
  }

  lemma {:induction false} RedactCleansAll(lower: string -> string, parent: Json, vs: seq<Json>)
    requires parent.Arr? && forall v :: v in vs ==> v in parent.items
    ensures CleanAll(lower, RedactAll(lower, vs))
    decreases parent, 0, |vs|
  {
    if vs != [] {
      assert vs[0] in parent.items;
      RedactCleans(lower, vs[0]);
      RedactCleansAll(lower, parent, vs[1..]);
    }
  }

  /** The fixpoints of `redact` are exactly the clean values. */
  lemma {:induction false} FixpointExactlyClean(lower: string -> string, v: Json)
    ensures Redact(lower, v) == v <==> Clean(lower, v)
  {
    if Redact(lower, v) == v {
      RedactCleans(lower, v);
    }
    if Clean(lower, v) {
      CleanIsFixed(lower, v);
    }
  }

  lemma {:induction false} CleanIsFixed(lower: string -> string, v: Json)
    requires Clean(lower, v)
    ensures Redact(lower, v) == v
    decreases v, 1, 0
  {
    match v {
      case Obj(ms) => CleanMembersFixed(lower, v, ms);
      case Arr(items) => CleanAllFixed(lower, v, items);
      case _ =>
    }
  }

  lemma {:induction false} CleanMembersFixed(lower: string -> string, parent: Json, ms: seq<Member>)
    requires parent.Obj? && CleanMembers(lower, ms) && forall m :: m in ms ==> m in parent.members
    ensures RedactMembers(lower, ms) == ms
    decreases parent, 0, |ms|
  {
    if ms != [] {
      assert ms[0] in parent.members;
      CleanIsFixed(lower, ms[0].value);
      CleanMembersFixed(lower, parent, ms[1..]);
    }
  }

  lemma {:induction false} CleanAllFixed(lower: string -> string, parent: Json, vs: seq<Json>)
    requires parent.Arr? && CleanAll(lower, vs) && forall v :: v in vs ==> v in parent.items
    ensures RedactAll(lower, vs) == vs
    decreases parent, 0, |vs|
  {
    if vs != [] {
      assert vs[0] in parent.items;
      CleanIsFixed(lower, vs[0]);
      CleanAllFixed(lower, parent, vs[1..]);
    }
  }

  /** Redaction keeps every key, its place, and well-formedness. */
  lemma {:induction false} RedactWellFormed(lower: string -> string, v: Json)
    requires WellFormed(v)
    ensures WellFormed(Redact(lower, v))
    decreases v, 1, 0
  {
    match v {
      case Obj(ms) => RedactMembersWellFormed(lower, v, ms);
      case Arr(items) => RedactAllWellFormed(lower, v, items);
      case _ =>
    }
  }

  lemma {:induction false} RedactMembersWellFormed(lower: string -> string, parent: Json, ms: seq<Member>)
    requires parent.Obj? && DistinctKeys(ms) && MembersWellFormed(ms) && forall m :: m in ms ==> m in parent.members
    ensures var r := RedactMembers(lower, ms);
            |r| == |ms| && (forall i :: 0 <= i < |ms| ==> r[i].key == ms[i].key) && DistinctKeys(r) && MembersWellFormed(r)
    decreases parent, 0, |ms|
  {
    if ms != [] {
      assert ms[0] in parent.members;
      RedactWellFormed(lower, ms[0].value);
      RedactMembersWellFormed(lower, parent, ms[1..]);
    }
  }

  lemma {:induction false} RedactAllWellFormed(lower: string -> string, parent: Json, vs: seq<Json>)
    requires parent.Arr? && AllWellFormed(vs) && forall v :: v in vs ==> v in parent.items
    ensures AllWellFormed(RedactAll(lower, vs))
    decreases parent, 0, |vs|
  {
    if vs != [] {
      assert vs[0] in parent.items;
      RedactWellFormed(lower, vs[0]);
      RedactAllWellFormed(lower, parent, vs[1..]);
    }
  }

  // Sorting keys does not bring a secret back.

  lemma {:induction false} CleanMember(lower: string -> string, ms: seq<Member>, i: nat)
    requires CleanMembers(lower, ms) && i < |ms|
    ensures Clean(lower, ms[i].value) && (Secret(lower, ms[i].key) ==> ms[i].value == Str(REDACTED))
  {
    if i > 0 {
      CleanMember(lower, ms[1..], i - 1);
    }
  }

  lemma {:induction false} EachClean(lower: string -> string, ms: seq<Member>)
    requires forall m :: m in ms ==> Clean(lower, m.value) && (Secret(lower, m.key) ==> m.value == Str(REDACTED))
    ensures CleanMembers(lower, ms)
  {
    if ms != [] {
      assert ms[0] in ms;
      EachClean(lower, ms[1..]);
    }
  }

  lemma {:induction false} CleanItem(lower: string -> string, vs: seq<Json>, i: nat)
    requires CleanAll(lower, vs) && i < |vs|
    ensures Clean(lower, vs[i])
  {
    if i > 0 {
      CleanItem(lower, vs[1..], i - 1);
    }
  }

  lemma {:induction false} EachCleanItem(lower: string -> string, vs: seq<Json>)
    requires forall i :: 0 <= i < |vs| ==> Clean(lower, vs[i])
    ensures CleanAll(lower, vs)
  {
    if vs != [] {
      EachCleanItem(lower, vs[1..]);
    }
  }

  lemma {:induction false} SortKeysClean(lower: string -> string, v: Json)
    requires Clean(lower, v)
    ensures Clean(lower, SortKeys(v))
    decreases v
  {
    match v {
      case Obj(ms) =>
        var t := SortKeysMembers(ms);
        SortedMembers(ms);
        SortContents(KeyLeq, t);
        var s := SortBy(KeyLeq, t);
        forall m | m in s
          ensures Clean(lower, m.value) && (Secret(lower, m.key) ==> m.value == Str(REDACTED))
        {
          assert m in t;
          var i :| 0 <= i < |t| && t[i] == m;
          CleanMember(lower, ms, i);
          SortKeysClean(lower, ms[i].value);
        }
        EachClean(lower, s);
      case Arr(items) =>
        SortedItems(items);
        var s := SortKeysAll(items);
        forall i | 0 <= i < |s| ensures Clean(lower, s[i]) {
          CleanItem(lower, items, i);
          SortKeysClean(lower, items[i]);
        }
        EachCleanItem(lower, s);
      case _ =>
    }
  }
}
