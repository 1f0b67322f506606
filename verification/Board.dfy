/** The lead board of bounty.py: the best lead of each id, ranked. */
module Board {
  import opened Common
  import opened Ordering

  datatype Lead = Lead(id: string, kind: string, url: string, route: string, score: int,
                       confidence: string, source: string, reasons: seq<string>)

  /** Python's `(-score, kind, route)` order. */
  predicate LeadLeq(a: Lead, b: Lead) {
    a.score > b.score
    || (a.score == b.score
        && (if a.kind == b.kind then StringLeq(a.route, b.route) else StringLeq(a.kind, b.kind)))
  }

  predicate Tied(a: Lead, b: Lead) {
    a.score == b.score && a.kind == b.kind && a.route == b.route
  }

  /** One step of the loop, on the dictionary's values in insertion order: only a higher score replaces. */
  function Put(best: seq<Lead>, lead: Lead): seq<Lead> {
    if best == [] then [lead]
    else if best[0].id == lead.id then
      if lead.score > best[0].score then [lead] + best[1..] else best
    else [best[0]] + Put(best[1..], lead)
  }

  function Best(leads: seq<Lead>): seq<Lead> {
    if leads == [] then [] else Put(Best(leads[..|leads| - 1]), leads[|leads| - 1])
  }

  /** What `_dedupe_leads` returns. */
  function Ranked(leads: seq<Lead>): seq<Lead> {
    SortBy(LeadLeq, Best(leads))
  }

  // The independent reading: which lead wins an id, and where the id first appears.

  function Better(a: Option<Lead>, b: Option<Lead>): Option<Lead> {
    if a.None? then b
    else if b.None? then a
    else if b.value.score > a.value.score then b
    else a
  }

  /** The first among the highest-scored leads of `id`. */
  function Win(leads: seq<Lead>, id: string): Option<Lead> {
    if leads == [] then None
    else
      var last := leads[|leads| - 1];
      Better(Win(leads[..|leads| - 1], id), if last.id == id then Some(last) else None)
  }

  /** The index of the first lead of `id`, or the length. */
  function First(leads: seq<Lead>, id: string): (n: nat)
    ensures n <= |leads|
    ensures n < |leads| ==> leads[n].id == id
    ensures forall j :: 0 <= j < n ==> leads[j].id != id
  {
    if leads == [] then 0
    else if leads[0].id == id then 0
    else 1 + First(leads[1..], id)
  }

  lemma {:induction false} WinIsBest(leads: seq<Lead>, id: string)
    ensures Win(leads, id).None? <==> forall l :: l in leads ==> l.id != id
    ensures Win(leads, id).Some? ==> Win(leads, id).value in leads && Win(leads, id).value.id == id
    ensures Win(leads, id).Some? ==> forall l :: l in leads && l.id == id ==> l.score <= Win(leads, id).value.score
  {
    if leads != [] {
      var p, last := leads[..|leads| - 1], leads[|leads| - 1];
      WinIsBest(p, id);
      assert forall l :: l in leads <==> l in p || l == last;
    }
  }

  lemma {:induction false} WinOfBoth(a: seq<Lead>, b: seq<Lead>, id: string)
    ensures Win(a + b, id) == Better(Win(a, id), Win(b, id))
  {
    if b == [] {
      assert a + b == a;
    } else {
      var p := b[..|b| - 1];
      assert (a + b)[..|a + b| - 1] == a + p;
      WinOfBoth(a, p, id);
    }
  }

  lemma FirstOfBoth(a: seq<Lead>, b: seq<Lead>, id: string)
    ensures First(a + b, id) == if First(a, id) < |a| then First(a, id) else |a| + First(b, id)
  {
    var m, n := First(a + b, id), First(a, id);
    if n < |a| {
      assert (a + b)[n].id == id;
      assert m < |a| ==> a[m].id == id;
    } else {
      var k := First(b, id);
      assert forall j :: 0 <= j < |a| ==> (a + b)[j] == a[j] && a[j].id != id;
      assert k < |b| ==> (a + b)[|a| + k].id == id;
      assert |a| <= m < |a + b| ==> b[m - |a|].id == id;
    }
  }

  lemma FirstWins(leads: seq<Lead>, id: string)
    ensures First(leads, id) < |leads| <==> Win(leads, id).Some?
  {
    WinIsBest(leads, id);
    var n := First(leads, id);
    if n < |leads| {
      assert leads[n] in leads;
    }
  }

  /** The dictionary holds exactly the winners, in the order in which their ids first appear. */
  ghost predicate Holds(leads: seq<Lead>, best: seq<Lead>) {
    && (forall x :: x in best <==> Win(leads, x.id) == Some(x))
    && (forall i, j :: 0 <= i < j < |best| ==> First(leads, best[i].id) < First(leads, best[j].id))
  }

  lemma {:induction false} PutContents(best: seq<Lead>, lead: Lead, x: Lead)
    requires forall i, j :: 0 <= i < j < |best| ==> best[i].id != best[j].id
    ensures x.id != lead.id ==> (x in Put(best, lead) <==> x in best)
    ensures x.id == lead.id ==> (x in Put(best, lead) <==>
              if exists y :: y in best && y.id == lead.id && y.score >= lead.score then x in best else x == lead)
  {
    if best != [] {
      assert forall y :: y in best <==> y == best[0] || y in best[1..];
      if best[0].id != lead.id {
        PutContents(best[1..], lead, x);
      }
    }
  }

  lemma {:induction false} PutIds(best: seq<Lead>, lead: Lead)
    ensures |best| <= |Put(best, lead)|
    ensures forall i :: 0 <= i < |best| ==> Put(best, lead)[i].id == best[i].id
    ensures (exists y :: y in best && y.id == lead.id) ==> |Put(best, lead)| == |best|
    ensures (forall y :: y in best ==> y.id != lead.id) ==> Put(best, lead) == best + [lead]
  {
    if best != [] {
      assert forall y :: y in best <==> y == best[0] || y in best[1..];
      if best[0].id != lead.id {
        PutIds(best[1..], lead);
      }
    }
  }

  lemma {:induction false} BestHolds(leads: seq<Lead>)
    ensures Holds(leads, Best(leads))
  {
    if leads != [] {
      var p, last := leads[..|leads| - 1], leads[|leads| - 1];
      BestHolds(p);
      assert leads == p + [last];
      PutHolds(p, Best(p), last);
    }
  }

  lemma PutHolds(p: seq<Lead>, best: seq<Lead>, last: Lead)
    requires Holds(p, best)
    ensures Holds(p + [last], Put(best, last))
  {
    PutHoldsWinners(p, best, last);
    PutHoldsOrder(p, best, last);
  }

  lemma HeldWinner(p: seq<Lead>, best: seq<Lead>, id: string)
    requires Holds(p, best)
    ensures Win(p, id).Some? ==> Win(p, id).value in best && Win(p, id).value.id == id
    ensures forall y :: y in best && y.id == id ==> Win(p, id) == Some(y)
  {
    WinIsBest(p, id);
  }

  lemma DistinctIds(p: seq<Lead>, best: seq<Lead>)
    requires Holds(p, best)
    ensures forall i, j :: 0 <= i < j < |best| ==> best[i].id != best[j].id
  {
  }

  lemma PutHoldsWinners(p: seq<Lead>, best: seq<Lead>, last: Lead)
    requires Holds(p, best)
    ensures forall x :: x in Put(best, last) <==> Win(p + [last], x.id) == Some(x)
  {
    DistinctIds(p, best);
    forall x ensures x in Put(best, last) <==> Win(p + [last], x.id) == Some(x) {
      PutContents(best, last, x);
      assert (p + [last])[..|p|] == p;
      HeldWinner(p, best, x.id);
    }
  }

  lemma PutHoldsOrder(p: seq<Lead>, best: seq<Lead>, last: Lead)
    requires Holds(p, best)
    ensures var r := Put(best, last);
            forall i, j :: 0 <= i < j < |r| ==> First(p + [last], r[i].id) < First(p + [last], r[j].id)
  {
    var r := Put(best, last);
    PutIds(best, last);
    HeldWinner(p, best, last.id);
    forall i | 0 <= i < |best| ensures First(p + [last], r[i].id) == First(p, r[i].id) < |p| {
      assert best[i] in best;
      FirstWins(p, best[i].id);
      FirstOfBoth(p, [last], best[i].id);
    }
    if |r| > |best| {
      FirstWins(p, last.id);
      FirstOfBoth(p, [last], last.id);
    }
  }

  // The order of the board.

  /** Lower key first; equal keys by first appearance of the id. */
  ghost predicate Precedes(leads: seq<Lead>, a: Lead, b: Lead) {
    LeadLeq(a, b) && (LeadLeq(b, a) ==> First(leads, a.id) < First(leads, b.id))
  }

  ghost predicate InOrder(leads: seq<Lead>, s: seq<Lead>) {
    forall i, j :: 0 <= i < j < |s| ==> Precedes(leads, s[i], s[j])
  }

  lemma LeadOrder(a: Lead, b: Lead)
    ensures LeadLeq(a, b) || LeadLeq(b, a)
    ensures LeadLeq(a, b) && LeadLeq(b, a) <==> Tied(a, b)
  {
    StringLeqTotal(a.kind, b.kind);
    StringLeqTotal(a.route, b.route);
    if StringLeq(a.kind, b.kind) && StringLeq(b.kind, a.kind) {
      StringLeqAntisymmetric(a.kind, b.kind);
    }
    if StringLeq(a.route, b.route) && StringLeq(b.route, a.route) {
      StringLeqAntisymmetric(a.route, b.route);
    }
  }

  lemma LeadTransitive(a: Lead, b: Lead, c: Lead)
    requires LeadLeq(a, b) && LeadLeq(b, c)
    ensures LeadLeq(a, c)
  {
    if a.score == b.score == c.score {
      if a.kind == b.kind == c.kind {
        StringLeqTransitive(a.route, b.route, c.route);
      } else if a.kind != b.kind && b.kind != c.kind {
        StringLeqTransitive(a.kind, b.kind, c.kind);
        if a.kind == c.kind {
          StringLeqAntisymmetric(a.kind, b.kind);
        }
      }
    }
  }

  /** A lead that first appears before all the others goes to its place. */
  lemma {:induction false} InsertInOrder(leads: seq<Lead>, x: Lead, s: seq<Lead>)
    requires InOrder(leads, s)
    requires forall y :: y in s ==> First(leads, x.id) < First(leads, y.id)
    ensures InOrder(leads, Insert(LeadLeq, x, s))
  {
    if s != [] {
      LeadOrder(x, s[0]);
      if LeadLeq(x, s[0]) {
        forall j | 0 <= j < |s| ensures Precedes(leads, x, s[j]) {
          assert s[0] in s && s[j] in s;
          if j > 0 {
            LeadTransitive(x, s[0], s[j]);
          }
        }
      } else {
        InsertInOrder(leads, x, s[1..]);
        var r := Insert(LeadLeq, x, s[1..]);
        InsertContents(LeadLeq, x, s[1..]);
        forall j | 0 <= j < |r| ensures Precedes(leads, s[0], r[j]) {
          assert r[j] in multiset(r);
          if r[j] != x {
            assert r[j] in s[1..];
          }
        }
      }
    }
  }

  lemma {:induction false} SortInOrder(leads: seq<Lead>, s: seq<Lead>)
    requires forall i, j :: 0 <= i < j < |s| ==> First(leads, s[i].id) < First(leads, s[j].id)
    ensures InOrder(leads, SortBy(LeadLeq, s))
  {
    if s != [] {
      SortInOrder(leads, s[1..]);
      SortContents(LeadLeq, s[1..]);
      forall y | y in SortBy(LeadLeq, s[1..]) ensures First(leads, s[0].id) < First(leads, y.id) {
        assert y in s[1..];
      }
      InsertInOrder(leads, s[0], SortBy(LeadLeq, s[1..]));
    }
  }

  /**
   The board holds, for each id, the first among its highest-scored leads, and is strictly
   ordered by score, kind, route and then first appearance. This determines it.
   */
  lemma RankedExactly(leads: seq<Lead>)
    ensures forall x :: x in Ranked(leads) <==> Win(leads, x.id) == Some(x)
    ensures InOrder(leads, Ranked(leads))
  {
    BestHolds(leads);
    SortContents(LeadLeq, Best(leads));
    SortInOrder(leads, Best(leads));
  }

  lemma {:induction false} PutAt(best: seq<Lead>, lead: Lead, k: nat)
    requires k < |best| && best[k].id == lead.id
    requires forall i :: 0 <= i < k ==> best[i].id != lead.id
    ensures Put(best, lead) == if lead.score > best[k].score then best[k := lead] else best
  {
    if k > 0 {
      PutAt(best[1..], lead, k - 1);
    }
  }

  /** `order` lists the keys of `best`, and `values` their values, each under its own id. */
  ghost predicate Lists(best: map<string, Lead>, order: seq<string>, values: seq<Lead>) {
    && NoRepeats(order) && |values| == |order|
    && (forall id :: id in best ==> id in order)
    && (forall k :: 0 <= k < |order| ==> order[k] in best && best[order[k]] == values[k] && values[k].id == order[k])
  }

  lemma AddLists(best: map<string, Lead>, order: seq<string>, values: seq<Lead>, lead: Lead)
    requires Lists(best, order, values) && lead.id !in best
    ensures Lists(best[lead.id := lead], order + [lead.id], Put(values, lead))
  {
    PutIds(values, lead);
    assert forall k :: 0 <= k < |order| ==> values[k].id == order[k] && order[k] != lead.id;
  }

  lemma ReplaceLists(best: map<string, Lead>, order: seq<string>, values: seq<Lead>, lead: Lead)
    requires Lists(best, order, values) && lead.id in best
    ensures Lists(if lead.score > best[lead.id].score then best[lead.id := lead] else best, order, Put(values, lead))
  {
    var k :| 0 <= k < |order| && order[k] == lead.id;
    PutAt(values, lead, k);
  }

  /** `_dedupe_leads`: the dictionary as a map with the order in which its keys came. */
  method DedupeLeads(leads: seq<Lead>) returns (result: seq<Lead>)
    ensures result == Ranked(leads)
  {
    var best: map<string, Lead> := map[];
    var order: seq<string> := [];
    for i := 0 to |leads|
      invariant Lists(best, order, Best(leads[..i]))
    {
      var lead := leads[i];
      assert leads[..i + 1][..i] == leads[..i];
      if lead.id !in best {
        AddLists(best, order, Best(leads[..i]), lead);
        best := best[lead.id := lead];
        order := order + [lead.id];
      } else {
        ReplaceLists(best, order, Best(leads[..i]), lead);
        if lead.score > best[lead.id].score {
          best := best[lead.id := lead];
        }
      }
    }
    assert leads[..|leads|] == leads;
    var values := seq(|order|, k requires 0 <= k < |order| && order[k] in best => best[order[k]]);
    assert values == Best(leads);
    result := SortBy(LeadLeq, values);
  }
}
