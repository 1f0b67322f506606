/** When a verified cross-principal candidate comes out of the engine: exactly when access leaked. */
module AuthzVerified {
  import opened Common
  import opened Ordering
  import opened Json
  import opened JsonCanonical
  import opened AuthzBodies
  import opened Authz

  // The fingerprint carries the strength.

  lemma {:induction false} TextsWellFormed(names: seq<string>)
    ensures AllWellFormed(Texts(names)) && |Texts(names)| == |names|
  {
    if names != [] {
      TextsWellFormed(names[1..]);
    }
  }

  lemma {:induction false} FiveWellFormed(a: Json, b: Json, c: Json, d: Json, e: Json)
    requires WellFormed(a) && WellFormed(b) && WellFormed(c) && WellFormed(d) && WellFormed(e)
    ensures AllWellFormed([a, b, c, d, e])
  {
    assert [e][1..] == [];
    assert AllWellFormed([e]);
    assert [d, e][1..] == [e];
    assert AllWellFormed([d, e]);
    assert [c, d, e][1..] == [d, e];
    assert AllWellFormed([c, d, e]);
    assert [b, c, d, e][1..] == [c, d, e];
    assert AllWellFormed([b, c, d, e]);
    assert [a, b, c, d, e][1..] == [b, c, d, e];
  }

  lemma MaterialWellFormed(r: Comparison)
    ensures WellFormed(r.Material())
  {
    TextsWellFormed(r.matching);
    TextsWellFormed(r.overlap);
    var pair := [Int(r.similarity.0), Int(r.similarity.1)];
    assert AllWellFormed(pair) by {
      assert pair[1..][1..] == [];
      assert WellFormed(pair[0]) && WellFormed(pair[1..][0]);
    }
    FiveWellFormed(Str(r.baseline), Str(r.viewer), Arr(Texts(r.matching)), Arr(Texts(r.overlap)), Arr(pair));
  }

  lemma SameMaterialParts(r: Comparison, s: Comparison)
    requires Same(r.Material(), s.Material())
    ensures r.baseline == s.baseline && r.viewer == s.viewer && |r.matching| == |s.matching|
  {
    var a, b := r.Material().items, s.Material().items;
    assert Same(a[0], b[0]) && Same(a[1], b[1]) && Same(a[2], b[2]);
    TextsWellFormed(r.matching);
    TextsWellFormed(s.matching);
  }

  /** Comparisons of non-empty baselines with one fingerprint are both verified or both not. */
  lemma SameFingerprintSameVerdict(c: Config, r: Comparison, s: Comparison)
    requires Faithful(c) && !r.empty && !s.empty
    requires c.hash(c.dump(r.Material())) == c.hash(c.dump(s.Material()))
    ensures r.Strength() == Verified <==> s.Strength() == Verified
  {
    MaterialWellFormed(r);
    MaterialWellFormed(s);
    SameMaterialParts(r, s);
  }

  // Which findings there are.

  /** A usable owner and a usable non-owner among these observations. */
  ghost predicate PairIn(c: Config, samples: seq<Observation>, o: Observation, v: Observation) {
    o in samples && v in samples && Owner(c, o) && NonOwner(c, v)
  }

  ghost predicate YieldedBy(c: Config, target: string, o: Observation, v: Observation, f: Candidate) {
    f == CandidateFor(c, target, o, v) && f.strength != Insufficient
  }

  /** `f` is the candidate of an owner and a non-owner that share a key with this target. */
  ghost predicate Arises(c: Config, observations: seq<Observation>, f: Candidate) {
    exists o, v :: PairIn(c, observations, o, v) && KeyOf(o) == KeyOf(v) && YieldedBy(c, Target(KeyOf(o)), o, v, f)
  }

  lemma {:induction false} OwnersAre(c: Config, samples: seq<Observation>)
    ensures forall o :: o in Owners(c, samples) <==> o in samples && Owner(c, o)
    ensures forall o :: o in NonOwners(c, samples) <==> o in samples && NonOwner(c, o)
  {
    if samples != [] {
      OwnersAre(c, samples[1..]);
      assert forall o :: o in samples <==> o == samples[0] || o in samples[1..];
    }
  }

  lemma PairFindingsAre(c: Config, target: string, o: Observation, v: Observation, f: Candidate)
    ensures f in PairFindings(c, target, o, v) <==> YieldedBy(c, target, o, v, f)
  {
  }

  lemma {:induction false} OwnerFindingsAre(c: Config, target: string, o: Observation, viewers: seq<Observation>, f: Candidate)
    ensures f in OwnerFindings(c, target, o, viewers) <==>
            exists v :: v in viewers && f in PairFindings(c, target, o, v)
  {
    if viewers != [] {
      var p, last := viewers[..|viewers| - 1], viewers[|viewers| - 1];
      OwnerFindingsAre(c, target, o, p, f);
      assert forall v :: v in viewers <==> v in p || v == last;
    }
  }

  /** Some owner has this finding. */
  ghost predicate OneFinds(c: Config, target: string, owners: seq<Observation>, viewers: seq<Observation>, f: Candidate) {
    exists o :: o in owners && f in OwnerFindings(c, target, o, viewers)
  }

  lemma SnocFinds(c: Config, target: string, p: seq<Observation>, last: Observation, viewers: seq<Observation>, f: Candidate)
    ensures OneFinds(c, target, p + [last], viewers, f) <==>
            OneFinds(c, target, p, viewers, f) || f in OwnerFindings(c, target, last, viewers)
  {
    assert forall o :: o in p + [last] <==> o in p || o == last;
  }

  lemma SnocAccess(c: Config, target: string, p: seq<Observation>, last: Observation, viewers: seq<Observation>, f: Candidate)
    ensures f in AccessFindings(c, target, p + [last], viewers) <==>
            f in AccessFindings(c, target, p, viewers) || f in OwnerFindings(c, target, last, viewers)
  {
    assert (p + [last])[..|p|] == p;
  }

  lemma {:induction false} AccessFindingsAre(c: Config, target: string, owners: seq<Observation>, viewers: seq<Observation>, f: Candidate)
    ensures f in AccessFindings(c, target, owners, viewers) <==> OneFinds(c, target, owners, viewers, f)
  {
    if owners != [] {
      var p, last := owners[..|owners| - 1], owners[|owners| - 1];
      assert owners == p + [last];
      AccessFindingsAre(c, target, p, viewers, f);
      SnocAccess(c, target, p, last, viewers, f);
      SnocFinds(c, target, p, last, viewers, f);
    }
  }

  lemma {:induction false} GroupIs(observations: seq<Observation>, k: Key)
    ensures forall o :: o in Group(observations, k) <==> o in observations && KeyOf(o) == k
  {
    if observations != [] {
      var p, last := observations[..|observations| - 1], observations[|observations| - 1];
      GroupIs(p, k);
      assert forall o :: o in observations <==> o in p || o == last;
    }
  }

  lemma {:induction false} KeysAre(observations: seq<Observation>)
    ensures forall k :: k in Keys(observations) <==> exists o :: o in observations && KeyOf(o) == k
  {
    if observations != [] {
      var p, last := observations[..|observations| - 1], observations[|observations| - 1];
      KeysAre(p);
      assert forall o :: o in observations <==> o in p || o == last;
    }
  }

  /** The other checks report other kinds. */
  ghost predicate OtherKinds(rest: Rest) {
    forall target, samples, f :: f in rest.before(target, samples) || f in rest.after(target, samples) ==>
      f.kind != CROSS_PRINCIPAL
  }

  lemma GroupFindingsAre(c: Config, rest: Rest, target: string, samples: seq<Observation>, f: Candidate)
    requires OtherKinds(rest) && f.kind == CROSS_PRINCIPAL
    ensures f in GroupFindings(c, rest, target, samples) <==>
            exists o, v :: PairIn(c, samples, o, v) && YieldedBy(c, target, o, v, f)
  {
    var owners, viewers := Owners(c, samples), NonOwners(c, samples);
    OwnersAre(c, samples);
    AccessFindingsAre(c, target, owners, viewers, f);
    if f in AccessFindings(c, target, owners, viewers) {
      var o :| o in owners && f in OwnerFindings(c, target, o, viewers);
      OwnerFindingsAre(c, target, o, viewers, f);
      var v :| v in viewers && f in PairFindings(c, target, o, v);
      PairFindingsAre(c, target, o, v, f);
      assert PairIn(c, samples, o, v);
    }
    if o, v :| PairIn(c, samples, o, v) && YieldedBy(c, target, o, v, f) {
      PairFindingsAre(c, target, o, v, f);
      OwnerFindingsAre(c, target, o, viewers, f);
      assert o in owners && v in viewers;
    }
  }

  /** Some group has this finding. */
  ghost predicate GroupFinds(c: Config, rest: Rest, observations: seq<Observation>, keys: seq<Key>, f: Candidate) {
    exists k :: k in keys && f in GroupFindings(c, rest, Target(k), Group(observations, k))
  }

  lemma SnocGroups(c: Config, rest: Rest, observations: seq<Observation>, p: seq<Key>, k: Key, f: Candidate)
    ensures GroupFinds(c, rest, observations, p + [k], f) <==>
            GroupFinds(c, rest, observations, p, f) || f in GroupFindings(c, rest, Target(k), Group(observations, k))
    ensures f in FindingsOf(c, rest, observations, p + [k]) <==>
            f in FindingsOf(c, rest, observations, p) || f in GroupFindings(c, rest, Target(k), Group(observations, k))
  {
    FindingsSnoc(c, rest, observations, p, k);
    assert forall j :: j in p + [k] <==> j in p || j == k;
  }

  lemma {:induction false} FindingsOfAre(c: Config, rest: Rest, observations: seq<Observation>, keys: seq<Key>, f: Candidate)
    ensures f in FindingsOf(c, rest, observations, keys) <==> GroupFinds(c, rest, observations, keys, f)
  {
    if keys != [] {
      var p, last := keys[..|keys| - 1], keys[|keys| - 1];
      assert keys == p + [last];
      FindingsOfAre(c, rest, observations, p, f);
      SnocGroups(c, rest, observations, p, last, f);
    }
  }

  /** The object-access findings are exactly the candidates of owner and non-owner pairs. */
  lemma FindingsArise(c: Config, rest: Rest, observations: seq<Observation>, f: Candidate)
    requires OtherKinds(rest) && f.kind == CROSS_PRINCIPAL
    ensures f in FindingsOf(c, rest, observations, Keys(observations)) <==> Arises(c, observations, f)
  {
    var keys := Keys(observations);
    FindingsOfAre(c, rest, observations, keys, f);
    KeysAre(observations);
    if f in FindingsOf(c, rest, observations, keys) {
      var k :| k in keys && f in GroupFindings(c, rest, Target(k), Group(observations, k));
      GroupFindingsAre(c, rest, Target(k), Group(observations, k), f);
      GroupIs(observations, k);
      var o, v :| PairIn(c, Group(observations, k), o, v) && YieldedBy(c, Target(k), o, v, f);
      assert PairIn(c, observations, o, v) && KeyOf(o) == k == KeyOf(v);
    }
    if o, v :| PairIn(c, observations, o, v) && KeyOf(o) == KeyOf(v) && YieldedBy(c, Target(KeyOf(o)), o, v, f) {
      var k := KeyOf(o);
      GroupFindingsAre(c, rest, Target(k), Group(observations, k), f);
      GroupIs(observations, k);
      assert PairIn(c, Group(observations, k), o, v);
      assert k in keys;
    }
  }

  // Dropping equal ids.

  ghost predicate HasId(kept: seq<Candidate>, id: Id) {
    exists h :: h in kept && IdOf(h) == id
  }

  lemma {:induction false} PlaceIs(kept: seq<Candidate>, f: Candidate)
    ensures forall g :: g in Place(kept, f) ==> g == f || g in kept
  {
    if kept != [] {
      PlaceIs(kept[1..], f);
    }
  }

  lemma {:induction false} PlaceKeepsIds(kept: seq<Candidate>, f: Candidate, id: Id)
    requires id == IdOf(f) || HasId(kept, id)
    ensures HasId(Place(kept, f), id)
  {
    var r := Place(kept, f);
    if kept == [] || IdOf(kept[0]) == IdOf(f) {
      assert r[0] == f;
      if id != IdOf(f) {
        var h :| h in kept && IdOf(h) == id;
        assert h in r[1..];
      }
    } else if id == IdOf(kept[0]) {
      assert r[0] == kept[0];
    } else {
      if id != IdOf(f) {
        var h :| h in kept && IdOf(h) == id;
        assert h in kept[1..];
      }
      PlaceKeepsIds(kept[1..], f, id);
      var h :| h in Place(kept[1..], f) && IdOf(h) == id;
      assert r == [kept[0]] + Place(kept[1..], f);
      assert h in r;
    }
  }

  /** What is kept was found. */
  lemma {:induction false} KeptWasFound(findings: seq<Candidate>)
    ensures forall g :: g in Kept(findings) ==> g in findings
  {
    if findings != [] {
      var p, last := findings[..|findings| - 1], findings[|findings| - 1];
      KeptWasFound(p);
      PlaceIs(Kept(p), last);
    }
  }

  /** Every id that was found is kept. */
  lemma {:induction false} EveryIdKept(findings: seq<Candidate>, g: Candidate)
    requires g in findings
    ensures HasId(Kept(findings), IdOf(g))
  {
    var p, last := findings[..|findings| - 1], findings[|findings| - 1];
    if g in p {
      EveryIdKept(p, g);
    } else {
      assert g == last;
    }
    PlaceKeepsIds(Kept(p), last, IdOf(g));
  }

  ghost predicate BodiesWellFormed(observations: seq<Observation>) {
    forall o :: o in observations ==> WellFormed(o.body)
  }

  /** A pair whose key has this target, and whose non-owner saw the owner's data. */
  ghost predicate Leaks(c: Config, observations: seq<Observation>, target: string) {
    exists o, v :: PairIn(c, observations, o, v) && KeyOf(o) == KeyOf(v) && Target(KeyOf(o)) == target
      && Exposes(c, o.body, v.body)
  }

  ghost predicate VerifiedFor(f: Candidate, target: string) {
    f.kind == CROSS_PRINCIPAL && f.target == target && f.strength == Verified
  }

  ghost predicate Reported(c: Config, rest: Rest, observations: seq<Observation>, target: string) {
    exists f :: f in Analysis(c, rest, observations) && VerifiedFor(f, target)
  }

  /** A verified candidate that arises leaks, whatever pair it comes from. */
  lemma ArisesLeaks(c: Config, observations: seq<Observation>, f: Candidate)
    requires Faithful(c) && BodiesWellFormed(observations) && Arises(c, observations, f) && f.strength == Verified
    ensures Leaks(c, observations, f.target)
  {
    var o, v :| PairIn(c, observations, o, v) && KeyOf(o) == KeyOf(v) && YieldedBy(c, Target(KeyOf(o)), o, v, f);
    VerifiedComparison(c, o.body, v.body);
  }

  /** A leak arises as a verified candidate. */
  lemma LeakArises(c: Config, observations: seq<Observation>, target: string) returns (f: Candidate)
    requires Faithful(c) && BodiesWellFormed(observations) && Leaks(c, observations, target)
    ensures Arises(c, observations, f) && VerifiedFor(f, target)
  {
    var o, v :| PairIn(c, observations, o, v) && KeyOf(o) == KeyOf(v) && Target(KeyOf(o)) == target
      && Exposes(c, o.body, v.body);
    VerifiedComparison(c, o.body, v.body);
    f := CandidateFor(c, target, o, v);
    assert YieldedBy(c, Target(KeyOf(o)), o, v, f);
  }

  /** Candidates with one id, of one run or of two, are all verified or all not. */
  lemma OneIdOneVerdict(c: Config, observations: seq<Observation>, f: Candidate, others: seq<Observation>, g: Candidate)
    requires Faithful(c) && Arises(c, observations, f) && Arises(c, others, g) && IdOf(f) == IdOf(g)
    ensures f.strength == Verified <==> g.strength == Verified
  {
    var o, v :| PairIn(c, observations, o, v) && KeyOf(o) == KeyOf(v) && YieldedBy(c, Target(KeyOf(o)), o, v, f);
    var p, w :| PairIn(c, others, p, w) && KeyOf(p) == KeyOf(w) && YieldedBy(c, Target(KeyOf(p)), p, w, g);
    SameFingerprintSameVerdict(c, Compare(c, o.body, v.body), Compare(c, p.body, w.body));
  }

  /** A cross-principal candidate of the result comes from a pair. */
  lemma AnalysisArises(c: Config, rest: Rest, observations: seq<Observation>, f: Candidate)
    requires OtherKinds(rest) && f in Analysis(c, rest, observations) && f.kind == CROSS_PRINCIPAL
    ensures Arises(c, observations, f)
  {
    var findings := FindingsOf(c, rest, observations, Keys(observations));
    SortContents(rest.le, Kept(findings));
    KeptWasFound(findings);
    FindingsArise(c, rest, observations, f);
  }

  lemma ArisesFrom(c: Config, observations: seq<Observation>, f: Candidate) returns (o: Observation, v: Observation)
    requires Arises(c, observations, f)
    ensures o in observations && v in observations && KeyOf(o) == KeyOf(v)
    ensures o.ownsResource == Some(true) && v.ownsResource == Some(false)
    ensures f.owner == o.principal && f.viewer == v.principal && f.target == Target(KeyOf(o))
  {
    o, v :| PairIn(c, observations, o, v) && KeyOf(o) == KeyOf(v) && YieldedBy(c, Target(KeyOf(o)), o, v, f);
  }

  lemma ReportedLeaks(c: Config, rest: Rest, observations: seq<Observation>, target: string)
    requires Faithful(c) && OtherKinds(rest) && BodiesWellFormed(observations)
    requires Reported(c, rest, observations, target)
    ensures Leaks(c, observations, target)
  {
    var f :| f in Analysis(c, rest, observations) && VerifiedFor(f, target);
    AnalysisArises(c, rest, observations, f);
    ArisesLeaks(c, observations, f);
  }

  lemma LeakReported(c: Config, rest: Rest, observations: seq<Observation>, target: string)
    requires Faithful(c) && OtherKinds(rest) && BodiesWellFormed(observations)
    requires Leaks(c, observations, target)
    ensures Reported(c, rest, observations, target)
  {
    var findings := FindingsOf(c, rest, observations, Keys(observations));
    var f := LeakArises(c, observations, target);
    FindingsArise(c, rest, observations, f);
    EveryIdKept(findings, f);
    var g :| g in Kept(findings) && IdOf(g) == IdOf(f);
    KeptWasFound(findings);
    FindingsArise(c, rest, observations, g);
    OneIdOneVerdict(c, observations, f, observations, g);
    SortContents(rest.le, Kept(findings));
    assert VerifiedFor(g, target);
  }

  /**
   A verified cross-principal candidate for a target is in the result exactly when some usable
   owner and usable non-owner of one group with that target share a body or a sensitive value.
   Dropping equal ids never loses it.
   */
  lemma VerifiedExactly(c: Config, rest: Rest, observations: seq<Observation>, target: string)
    requires Faithful(c) && OtherKinds(rest) && BodiesWellFormed(observations)
    ensures Reported(c, rest, observations, target) <==> Leaks(c, observations, target)
  {
    if Reported(c, rest, observations, target) {
      ReportedLeaks(c, rest, observations, target);
    }
    if Leaks(c, observations, target) {
      LeakReported(c, rest, observations, target);
    }
  }
}
