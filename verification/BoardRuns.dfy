/** The leads that verification adds to the board, and why cutting the board early is safe for them. */
module BoardRuns {
  import opened Common
  import opened Board
  import opened BoardMerge
  import A = Authz
  import V = AuthzVerified
  import B = AuthzBodies

  /** `_verification_leads`, one lead; `text` is the candidate's id as text. */
  function VerificationLead(text: A.Id -> string, f: A.Candidate): Lead {
    var verified := f.strength == A.Verified;
    Lead("verify-" + text(A.IdOf(f)), f.kind, f.target, f.target, if verified then 110 else 100,
         if verified then "verified" else "likely", "barq-verify", ["controlled identity/resource differential"])
  }

  function VerificationLeads(text: A.Id -> string, fs: seq<A.Candidate>): seq<Lead> {
    seq(|fs|, i requires 0 <= i < |fs| => VerificationLead(text, fs[i]))
  }

  ghost predicate Injective(text: A.Id -> string) {
    forall i, j :: text(i) == text(j) ==> i == j
  }

  /** One id, one verdict. */
  ghost predicate OneVerdictEach(fs: seq<A.Candidate>, gs: seq<A.Candidate>) {
    forall f, g :: f in fs && g in gs && A.IdOf(f) == A.IdOf(g) ==> (f.strength == A.Verified <==> g.strength == A.Verified)
  }

  /** Leads of other origins: no id looks like a verification's, and ids fix kind and route. */
  ghost predicate Others(leads: seq<Lead>) {
    IdsFixKeys(leads) && forall l :: l in leads ==> !("verify-" <= l.id)
  }

  /** A lead that came from one of these candidates. */
  ghost predicate From(text: A.Id -> string, fs: seq<A.Candidate>, l: Lead) {
    exists f :: f in fs && l == VerificationLead(text, f)
  }

  /** The first board's input: other leads and the leads of its candidates, in any order. */
  ghost predicate FirstStage(text: A.Id -> string, fs: seq<A.Candidate>, base: seq<Lead>) {
    exists others :: Others(others) && forall l :: l in base ==> l in others || From(text, fs, l)
  }

  lemma LeadsAreFrom(text: A.Id -> string, gs: seq<A.Candidate>, l: Lead)
    requires l in VerificationLeads(text, gs)
    ensures From(text, gs, l)
  {
    var i :| 0 <= i < |gs| && l == VerificationLead(text, gs[i]);
  }

  lemma OneIdOneCandidate(text: A.Id -> string, f: A.Candidate, g: A.Candidate)
    requires Injective(text) && VerificationLead(text, f).id == VerificationLead(text, g).id
    ensures A.IdOf(f) == A.IdOf(g)
  {
    var p := "verify-";
    assert (p + text(A.IdOf(f)))[|p|..] == text(A.IdOf(f));
    assert (p + text(A.IdOf(g)))[|p|..] == text(A.IdOf(g));
  }

  lemma IdOfVerification(text: A.Id -> string, f: A.Candidate)
    ensures "verify-" <= VerificationLead(text, f).id
  {
  }

  lemma SameKeys(text: A.Id -> string, fs: seq<A.Candidate>, others: seq<Lead>, a: Lead, b: Lead)
    requires Injective(text) && Others(others) && a.id == b.id
    requires a in others || From(text, fs, a)
    requires b in others || From(text, fs, b)
    ensures a.kind == b.kind && a.route == b.route
  {
    if f :| f in fs && a == VerificationLead(text, f) {
      IdOfVerification(text, f);
      var g :| g in fs && b == VerificationLead(text, g);
      OneIdOneCandidate(text, f, g);
    } else {
      if g :| g in fs && b == VerificationLead(text, g) {
        IdOfVerification(text, g);
      }
    }
  }

  lemma NothingRaised(text: A.Id -> string, fs: seq<A.Candidate>, gs: seq<A.Candidate>, base: seq<Lead>, id: string)
    requires Injective(text) && FirstStage(text, fs, base) && OneVerdictEach(fs, gs)
    ensures !Raised(base, VerificationLeads(text, gs), id)
  {
    var more := VerificationLeads(text, gs);
    WinIsBest(base, id);
    WinIsBest(more, id);
    if Raised(base, more, id) {
      var b, m := Win(base, id).value, Win(more, id).value;
      LeadsAreFrom(text, gs, m);
      var g :| g in gs && m == VerificationLead(text, g);
      IdOfVerification(text, g);
      var f :| f in fs && b == VerificationLead(text, f);
      OneIdOneCandidate(text, f, g);
    }
  }

  /** When a candidate's id fixes its verdict, the board of a run is that of merging everything at once. */
  lemma RunBoardsAgree(text: A.Id -> string, fs: seq<A.Candidate>, gs: seq<A.Candidate>, base: seq<Lead>, n: nat)
    requires Injective(text) && FirstStage(text, fs, base) && OneVerdictEach(fs, gs)
    ensures var more := VerificationLeads(text, gs); TwoStages(base, more, n) == Take(Ranked(base + more), n)
  {
    var more := VerificationLeads(text, gs);
    var others :| Others(others) && forall l :: l in base ==> l in others || From(text, fs, l);
    forall l | l in base + more ensures l in others || From(text, fs + gs, l) {
      if l in more {
        LeadsAreFrom(text, gs, l);
      }
    }
    forall a, b | a in base + more && b in base + more && a.id == b.id ensures a.kind == b.kind && a.route == b.route {
      SameKeys(text, fs + gs, others, a, b);
    }
    forall id ensures !Raised(base, more, id) {
      NothingRaised(text, fs, gs, base, id);
    }
    TwoStagesAreOne(base, more, n);
  }

  /** Cross-principal candidates of any two runs meet that condition: the id fixes the verdict. */
  lemma CrossPrincipalVerdicts(c: B.Config, rest: A.Rest, first: seq<A.Observation>, second: seq<A.Observation>,
                               fs: seq<A.Candidate>, gs: seq<A.Candidate>)
    requires B.Faithful(c) && V.OtherKinds(rest)
    requires forall f :: f in fs ==> f in A.Analysis(c, rest, first) && f.kind == A.CROSS_PRINCIPAL
    requires forall g :: g in gs ==> g in A.Analysis(c, rest, second) && g.kind == A.CROSS_PRINCIPAL
    ensures OneVerdictEach(fs, gs)
  {
    forall f, g | f in fs && g in gs && A.IdOf(f) == A.IdOf(g) ensures f.strength == A.Verified <==> g.strength == A.Verified {
      V.AnalysisArises(c, rest, first, f);
      V.AnalysisArises(c, rest, second, g);
      V.OneIdOneVerdict(c, first, f, second, g);
    }
  }
}
