/** What a verified ledger's last hash says about its whole content. */
module LedgerChain {
  import opened Common
  import opened Numerals
  import opened Json
  import opened JsonParser
  import opened JsonCanonical
  import opened JsonStability
  import opened TextLines
  import opened Ledger

  /** No two texts share a hash. */
  ghost predicate CollisionFree(hash: string -> string) {
    forall a, b :: hash(a) == hash(b) ==> a == b
  }

  /** The entry at `i` numbers itself, names the hash before it and carries its own. */
  predicate Linked(hash: string -> string, es: seq<Entry>, i: nat)
    requires i < |es|
  {
    && EqualsNumber(es[i].sequence, i + 1)
    && es[i].previousHash == LastHash(es[..i])
    && es[i].entryHash == Seal(hash, es[i])
  }

  predicate Chained(hash: string -> string, es: seq<Entry>) {
    forall i :: 0 <= i < |es| ==> Linked(hash, es, i)
  }

  lemma {:induction false} CheckFrom(hash: string -> string, es: seq<Entry>, k: nat, n: nat)
    requires k <= |es|
    ensures Check(hash, es[k..], LastHash(es[..k]), k + 1) == Verified(n) <==>
            n == |es| && forall i :: k <= i < |es| ==> Linked(hash, es, i)
    decreases |es| - k
  {
    if k < |es| {
      assert es[k..][0] == es[k] && es[k..][1..] == es[k + 1..];
      var p := es[..k + 1];
      assert p[|p| - 1] == es[k];
      CheckFrom(hash, es, k + 1, n);
      assert (forall i :: k <= i < |es| ==> Linked(hash, es, i)) <==>
             Linked(hash, es, k) && forall i :: k + 1 <= i < |es| ==> Linked(hash, es, i);
    }
  }

  /** `verify` succeeds with `n` exactly when the text reads as a chain of `n` linked entries. */
  lemma VerifiedExactlyChained(hash: string -> string, text: string, n: nat)
    ensures Verify(hash, text) == Verified(n) <==>
            Entries(text).Some? && Chained(hash, Entries(text).value) && n == |Entries(text).value|
  {
    if Entries(text).Some? {
      var es := Entries(text).value;
      assert es[0..] == es && es[..0] == [];
      CheckFrom(hash, es, 0, n);
    }
  }

  predicate WellFormedEntry(e: Entry) {
    && WellFormed(e.sequence) && WellFormed(e.kind) && WellFormed(e.timestamp)
    && WellFormed(e.payload) && WellFormed(e.previousHash) && WellFormed(e.entryHash)
  }

  ghost predicate AllWellFormedEntries(es: seq<Entry>) {
    forall i :: 0 <= i < |es| ==> WellFormedEntry(es[i])
  }

  lemma {:induction false} FindWellFormed(ms: seq<Member>, key: string)
    requires MembersWellFormed(ms) && Find(ms, key).Some?
    ensures WellFormed(Find(ms, key).value)
  {
    if ms[0].key != key {
      FindWellFormed(ms[1..], key);
    }
  }

  lemma {:induction false} ReadWellFormed(lines: seq<string>)
    requires ReadLines(lines).Some?
    ensures AllWellFormedEntries(ReadLines(lines).value)
  {
    if lines != [] {
      ReadWellFormed(lines[1..]);
      if !Blank(lines[0]) {
        LoadsWellFormed(lines[0]);
        var ms := Loads(lines[0]).value.members;
        FindWellFormed(ms, "sequence");
        FindWellFormed(ms, "kind");
        FindWellFormed(ms, "timestamp");
        FindWellFormed(ms, "payload");
        FindWellFormed(ms, "previous_hash");
        FindWellFormed(ms, "entry_hash");
      }
    }
  }

  lemma MaterialWellFormed(e: Entry)
    requires WellFormedEntry(e)
    ensures WellFormed(Material(e))
  {
    var ms := MaterialMembers(e);
    assert ms[1..][1..] == ms[2..] && ms[2..][1..] == ms[3..] && ms[3..][1..] == ms[4..] && ms[4..][1..] == [];
    assert MembersWellFormed(ms[4..]);
    assert MembersWellFormed(ms[2..]);
  }

  /** Two entries that differ in nothing but key order. */
  predicate SameEntry(a: Entry, b: Entry) {
    && Same(a.sequence, b.sequence) && Same(a.kind, b.kind) && Same(a.timestamp, b.timestamp)
    && Same(a.payload, b.payload) && Same(a.previousHash, b.previousHash) && Same(a.entryHash, b.entryHash)
  }

  lemma HeldAt(ns: seq<Member>, m: Member, j: nat)
    requires DistinctKeys(ns) && j < |ns| && ns[j].key == m.key && Holds(ns, m)
    ensures Same(m.value, ns[j].value)
  {
  }

  lemma SameMaterial(a: Entry, b: Entry)
    requires Same(Material(a), Material(b))
    ensures Same(a.sequence, b.sequence) && Same(a.kind, b.kind) && Same(a.timestamp, b.timestamp)
    ensures Same(a.payload, b.payload) && Same(a.previousHash, b.previousHash)
  {
    var ms, ns := MaterialMembers(a), MaterialMembers(b);
    HeldAt(ns, ms[0], 0);
    HeldAt(ns, ms[1], 1);
    HeldAt(ns, ms[2], 2);
    HeldAt(ns, ms[3], 3);
    HeldAt(ns, ms[4], 4);
  }

  /** Equal seals mean equal entries. */
  lemma SealDetermines(hash: string -> string, a: Entry, b: Entry)
    requires CollisionFree(hash) && WellFormedEntry(a) && WellFormedEntry(b)
    requires a.entryHash == Seal(hash, a) && b.entryHash == Seal(hash, b) && a.entryHash == b.entryHash
    ensures SameEntry(a, b)
  {
    MaterialWellFormed(a);
    MaterialWellFormed(b);
    CanonicalExactlySame(Material(a), Material(b));
    SameMaterial(a, b);
  }

  lemma DecLength(m: nat, n: nat)
    requires Dec(m) == Dec(n)
    ensures m == n
  {
    ReadDecDec(m);
    ReadDecDec(n);
  }

  lemma SameNumber(v: Json, w: Json, m: nat, n: nat)
    requires Same(v, w) && EqualsNumber(v, m) && EqualsNumber(w, n)
    ensures m == n
  {
    if v.Float? {
      var a, b := Dec(m), Dec(n);
      assert (a + ".0")[..|a|] == a && (b + ".0")[..|b|] == b;
      assert |a| == |b|;
      DecLength(m, n);
    }
  }

  lemma SameHash(v: Json, w: Json)
    requires v.Str? && Same(v, w)
    ensures v == w
  {
  }

  /** Equal seals at `i` and `j`: the same place, the same entry, and equal seals before it. */
  lemma StepDown(hash: string -> string, es: seq<Entry>, fs: seq<Entry>, i: nat, j: nat)
    requires CollisionFree(hash) && AllWellFormedEntries(es) && AllWellFormedEntries(fs)
    requires i < |es| && j < |fs| && Linked(hash, es, i) && Linked(hash, fs, j)
    requires i > 0 ==> es[i - 1].entryHash.Str?
    requires es[i].entryHash == fs[j].entryHash
    ensures i == j && SameEntry(es[i], fs[j])
    ensures i > 0 ==> es[i - 1].entryHash == fs[j - 1].entryHash
  {
    SealDetermines(hash, es[i], fs[j]);
    SameNumber(es[i].sequence, fs[j].sequence, i + 1, j + 1);
    if i > 0 {
      assert es[..i][i - 1] == es[i - 1] && fs[..j][j - 1] == fs[j - 1];
      SameHash(es[i].previousHash, fs[j].previousHash);
    }
  }

  lemma {:induction false} AgreeBelow(hash: string -> string, es: seq<Entry>, fs: seq<Entry>, i: nat, j: nat, k: nat)
    requires CollisionFree(hash) && Chained(hash, es) && Chained(hash, fs)
    requires AllWellFormedEntries(es) && AllWellFormedEntries(fs)
    requires k <= i < |es| && j < |fs| && es[i].entryHash == fs[j].entryHash
    ensures i == j && SameEntry(es[k], fs[k])
    decreases i
  {
    assert Linked(hash, es, i) && Linked(hash, fs, j);
    assert i > 0 ==> Linked(hash, es, i - 1);
    StepDown(hash, es, fs, i, j);
    if k < i {
      AgreeBelow(hash, es, fs, i - 1, j - 1, k);
    }
  }

  /**
   Two non-empty ledgers that both verify and end in the same hash hold the same entries,
   one by one. So an edit, a reordering or a deletion before the end is either refused by
   `verify` or moves the last hash.
   */
  lemma HeadDeterminesLedger(hash: string -> string, text: string, other: string, es: seq<Entry>, fs: seq<Entry>)
    requires CollisionFree(hash) && es != [] && fs != []
    requires Entries(text) == Some(es) && Verify(hash, text).Verified?
    requires Entries(other) == Some(fs) && Verify(hash, other).Verified?
    requires LastHash(es) == LastHash(fs)
    ensures |es| == |fs| && forall i :: 0 <= i < |es| ==> SameEntry(es[i], fs[i])
  {
    VerifiedExactlyChained(hash, text, Verify(hash, text).count);
    VerifiedExactlyChained(hash, other, Verify(hash, other).count);
    ReadWellFormed(Lines(text));
    ReadWellFormed(Lines(other));
    ChainsAgree(hash, es, fs);
  }

  lemma ChainsAgree(hash: string -> string, es: seq<Entry>, fs: seq<Entry>)
    requires CollisionFree(hash) && Chained(hash, es) && Chained(hash, fs) && es != [] && fs != []
    requires AllWellFormedEntries(es) && AllWellFormedEntries(fs)
    requires es[|es| - 1].entryHash == fs[|fs| - 1].entryHash
    ensures |es| == |fs| && forall i :: 0 <= i < |es| ==> SameEntry(es[i], fs[i])
  {
    AgreeBelow(hash, es, fs, |es| - 1, |fs| - 1, 0);
    forall i | 0 <= i < |es| ensures SameEntry(es[i], fs[i]) {
      AgreeBelow(hash, es, fs, |es| - 1, |fs| - 1, i);
    }
  }

  /** Every prefix of a chain is a chain, and verifies with its own length. */
  lemma PrefixVerifies(hash: string -> string, es: seq<Entry>, k: nat)
    requires Chained(hash, es) && k <= |es|
    ensures Chained(hash, es[..k])
    ensures Check(hash, es[..k], Str(ZERO_HASH), 1) == Verified(k)
  {
    var p := es[..k];
    forall i | 0 <= i < k ensures Linked(hash, p, i) {
      assert Linked(hash, es, i) && p[..i] == es[..i];
    }
    assert p[0..] == p && p[..0] == [];
    CheckFrom(hash, p, 0, k);
  }
}
