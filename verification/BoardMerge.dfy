/** Cutting the board before the second merge of smart_verify.py changes nothing, and when it would. */
module BoardMerge {
  import opened Common
  import opened Ordering
  import opened Board

  /** The cut of `BountyRunner.run`, then the merge and cut of `SmartBountyRunner.run`. */
  function TwoStages(base: seq<Lead>, more: seq<Lead>, n: nat): seq<Lead> {
    Take(Ranked(Take(Ranked(base), n) + more), n)
  }

  /** An id determines the kind and the route. */
  ghost predicate IdsFixKeys(leads: seq<Lead>) {
    forall a, b :: a in leads && b in leads && a.id == b.id ==> a.kind == b.kind && a.route == b.route
  }

  /** The second stage brings a strictly better lead for an id of the first. */
  predicate Raised(base: seq<Lead>, more: seq<Lead>, id: string) {
    var b, m := Win(base, id), Win(more, id);
    b.Some? && m.Some? && m.value.score > b.value.score
  }

  ghost predicate Winner(leads: seq<Lead>, x: Lead) {
    Win(leads, x.id) == Some(x)
  }

  /** A raised winner ties with no other winner. */
  ghost predicate NoRaisedTie(base: seq<Lead>, more: seq<Lead>) {
    forall a, b :: Winner(base + more, a) && Winner(base + more, b) && a.id != b.id && Raised(base, more, a.id) ==>
      !Tied(a, b)
  }

  // Sorting determines a list.

  lemma OrderIsStrict(leads: seq<Lead>, a: Lead, b: Lead)
    ensures !(Precedes(leads, a, b) && Precedes(leads, b, a))
  {
  }

  lemma TakeCons<T>(x: T, s: seq<T>, n: nat)
    requires n > 0
    ensures Take([x] + s, n) == [x] + Take(s, n - 1)
  {
  }

  /** A list that is in order as far as `n`, each of its first `n` before all later ones, shares its cut with the ordered list. */
  lemma {:induction false} OrderedPrefix(leads: seq<Lead>, s: seq<Lead>, t: seq<Lead>, n: nat)
    requires InOrder(leads, t) && NoRepeats(s)
    requires forall x :: x in s <==> x in t
    requires forall i, j :: 0 <= i < j < |s| && i < n ==> Precedes(leads, s[i], s[j])
    ensures Take(s, n) == Take(t, n)
    decreases n
  {
    assert (s != [] ==> s[0] in s) && (t != [] ==> t[0] in t);
    if n > 0 && s != [] && t != [] {
      assert t[0] in s && s[0] in t;
      OrderIsStrict(leads, s[0], t[0]);
      assert s[0] == t[0];
      InOrderDistinct(leads, t);
      forall x ensures x in s[1..] <==> x in t[1..] {
        assert x in s <==> x == s[0] || x in s[1..];
        assert x in t <==> x == t[0] || x in t[1..];
        assert s[0] !in s[1..] && t[0] !in t[1..];
      }
      OrderedPrefix(leads, s[1..], t[1..], n - 1);
      TakeCons(s[0], s[1..], n);
      TakeCons(t[0], t[1..], n);
      assert s == [s[0]] + s[1..] && t == [t[0]] + t[1..];
    }
  }

  lemma InOrderDistinct(leads: seq<Lead>, s: seq<Lead>)
    requires InOrder(leads, s)
    ensures NoRepeats(s)
  {
    forall i, j | 0 <= i < j < |s| ensures s[i] != s[j] {
      OrderIsStrict(leads, s[i], s[j]);
    }
  }

  lemma InOrderUnique(leads: seq<Lead>, s: seq<Lead>, t: seq<Lead>)
    requires InOrder(leads, s) && InOrder(leads, t)
    requires forall x :: x in s <==> x in t
    ensures s == t
  {
    InOrderDistinct(leads, s);
    OrderedPrefix(leads, s, t, |s| + |t|);
  }

  // Leaving out leads that are beyond the cut.

  /** The leads whose id is not among `dead`. */
  function Alive(s: seq<Lead>, dead: set<string>): seq<Lead> {
    if s == [] then []
    else (if s[0].id in dead then [] else [s[0]]) + Alive(s[1..], dead)
  }

  lemma {:induction false} AliveAre(s: seq<Lead>, dead: set<string>)
    ensures forall x :: x in Alive(s, dead) <==> x in s && x.id !in dead
  {
    if s != [] {
      AliveAre(s[1..], dead);
      assert forall x :: x in s <==> x == s[0] || x in s[1..];
    }
  }

  lemma {:induction false} AliveInOrder(leads: seq<Lead>, s: seq<Lead>, dead: set<string>)
    requires InOrder(leads, s)
    ensures InOrder(leads, Alive(s, dead))
  {
    if s != [] {
      AliveInOrder(leads, s[1..], dead);
      AliveAre(s[1..], dead);
      forall x | x in Alive(s[1..], dead) ensures Precedes(leads, s[0], x) {
        assert x in s[1..];
      }
    }
  }

  lemma {:induction false} AliveCut(s: seq<Lead>, dead: set<string>, n: nat)
    requires forall i :: 0 <= i < n && i < |s| ==> s[i].id !in dead
    ensures Take(Alive(s, dead), n) == Take(s, n)
  {
    if s != [] && n > 0 {
      AliveCut(s[1..], dead, n - 1);
      var rest := Alive(s[1..], dead);
      assert Alive(s, dead) == [s[0]] + rest;
      TakeCons(s[0], rest, n);
      TakeCons(s[0], s[1..], n);
      assert s == [s[0]] + s[1..];
    }
  }

  // The two stages.

  /** What the first stage cut off and the second does not bring back better. */
  ghost function Dead(base: seq<Lead>, more: seq<Lead>, n: nat): set<string> {
    var top := Take(Ranked(base), n);
    set b | b in base && Win(top, b.id).None? && !Raised(base, more, b.id) :: b.id
  }

  /** The kept part of the board has the same winners for the ids it keeps. */
  lemma TopWins(base: seq<Lead>, n: nat, id: string)
    ensures var top := Take(Ranked(base), n);
            (Win(top, id) == Win(base, id) || Win(top, id) == None)
            && forall x :: x in top ==> Win(base, x.id) == Some(x) == Win(top, x.id)
  {
    var top := Take(Ranked(base), n);
    RankedExactly(base);
    forall x | x in top ensures Win(base, x.id) == Some(x) == Win(top, x.id) {
      assert x in Ranked(base);
      WinIsBest(top, x.id);
      var w := Win(top, x.id).value;
      assert w in Ranked(base);
    }
    WinIsBest(top, id);
  }

  /** Ids that are not dead have the same winner either way. */
  lemma AliveWinners(base: seq<Lead>, more: seq<Lead>, n: nat, id: string)
    requires id !in Dead(base, more, n)
    ensures Win(Take(Ranked(base), n) + more, id) == Win(base + more, id)
  {
    var top := Take(Ranked(base), n);
    TopWins(base, n, id);
    WinOfBoth(top, more, id);
    WinOfBoth(base, more, id);
    WinIsBest(base, id);
    if Win(top, id).None? && Win(base, id).Some? {
      assert Raised(base, more, id) by {
        var b := Win(base, id).value;
        assert b in base && b.id == id;
      }
    }
  }

  /** A living winner that is not raised and is known from the base was kept by the cut. */
  lemma KeptOrNew(base: seq<Lead>, more: seq<Lead>, n: nat, x: Lead)
    requires Win(base + more, x.id) == Some(x) && x.id !in Dead(base, more, n) && !Raised(base, more, x.id)
    ensures Win(base, x.id).None? || x in Take(Ranked(base), n)
  {
    var top := Take(Ranked(base), n);
    WinIsBest(base, x.id);
    WinOfBoth(base, more, x.id);
    if Win(base, x.id).Some? {
      assert Win(base, x.id) == Some(x);
      assert x in base;
      TopWins(base, n, x.id);
      assert Win(top, x.id) == Some(x);
      WinIsBest(top, x.id);
    }
  }

  /** Two kept leads that tie stand in the order of their first appearance. */
  lemma KeptTies(base: seq<Lead>, n: nat, a: Lead, b: Lead)
    requires var top := Take(Ranked(base), n);
             a in top && b in top && Tied(a, b) && First(top, a.id) < First(top, b.id)
    ensures First(base, a.id) < First(base, b.id)
  {
    var top := Take(Ranked(base), n);
    RankedExactly(base);
    FirstWins(top, b.id);
    TopWins(base, n, a.id);
    TopWins(base, n, b.id);
    var i, j := First(top, a.id), First(top, b.id);
    assert top[i] in top && top[j] in top;
    assert top[i] == a && top[j] == b;
    assert Precedes(base, a, b);
    LeadOrder(a, b);
  }

  /** Living winners stand in one order either way. */
  lemma OrderAgrees(base: seq<Lead>, more: seq<Lead>, n: nat, a: Lead, b: Lead)
    requires NoRaisedTie(base, more) && a.id != b.id
    requires Winner(base + more, a) && Winner(base + more, b)
    requires a.id !in Dead(base, more, n) && b.id !in Dead(base, more, n)
    requires Precedes(Take(Ranked(base), n) + more, a, b)
    ensures Precedes(base + more, a, b)
  {
    var top := Take(Ranked(base), n);
    LeadOrder(a, b);
    if LeadLeq(b, a) {
      assert !Raised(base, more, a.id) && !Raised(base, more, b.id);
      KeptOrNew(base, more, n, a);
      KeptOrNew(base, more, n, b);
      FirstOfBoth(top, more, a.id);
      FirstOfBoth(top, more, b.id);
      FirstOfBoth(base, more, a.id);
      FirstOfBoth(base, more, b.id);
      FirstWins(base, a.id);
      FirstWins(base, b.id);
      FirstWins(top, a.id);
      FirstWins(top, b.id);
      TopWins(base, n, a.id);
      TopWins(base, n, b.id);
      if a in top && b in top {
        KeptTies(base, n, a, b);
      }
    }
  }

  // The dead are beyond the cut.

  function Ids(s: seq<Lead>): set<string> {
    if s == [] then {} else {s[0].id} + Ids(s[1..])
  }

  lemma {:induction false} IdsAre(s: seq<Lead>)
    ensures forall id :: id in Ids(s) <==> exists x :: x in s && x.id == id
  {
    if s != [] {
      IdsAre(s[1..]);
      assert forall x :: x in s <==> x == s[0] || x in s[1..];
    }
  }

  lemma {:induction false} IdsCount(s: seq<Lead>)
    ensures |Ids(s)| <= |s|
    ensures (forall i, j :: 0 <= i < j < |s| ==> s[i].id != s[j].id) ==> |Ids(s)| == |s|
  {
    if s != [] {
      IdsCount(s[1..]);
      IdsAre(s[1..]);
    }
  }

  lemma StandsBefore(leads: seq<Lead>, s: seq<Lead>, k: nat, u: Lead)
    requires InOrder(leads, s) && k < |s| && u in s && Precedes(leads, u, s[k])
    ensures u in s[..k]
  {
    var j :| 0 <= j < |s| && s[j] == u;
    OrderIsStrict(leads, u, s[k]);
    assert j < k;
    assert s[..k][j] == u;
  }

  /** A lead that comes after one of each of these ids comes after as many leads. */
  lemma Beyond(leads: seq<Lead>, s: seq<Lead>, k: nat, top: seq<Lead>)
    requires InOrder(leads, s) && k < |s|
    requires forall i, j :: 0 <= i < j < |top| ==> top[i].id != top[j].id
    requires forall t :: t in top ==> exists u :: u in s && u.id == t.id && Precedes(leads, u, s[k])
    ensures |top| <= k
  {
    IdsCount(top);
    IdsAre(top);
    IdsCount(s[..k]);
    IdsAre(s[..k]);
    forall id | id in Ids(top) ensures id in Ids(s[..k]) {
      var t :| t in top && t.id == id;
      var u :| u in s && u.id == t.id && Precedes(leads, u, s[k]);
      StandsBefore(leads, s, k, u);
    }
    SubsetSize(Ids(top), Ids(s[..k]));
  }

  lemma TopDistinct(base: seq<Lead>, n: nat)
    ensures var top := Take(Ranked(base), n); forall i, j :: 0 <= i < j < |top| ==> top[i].id != top[j].id
  {
    var top := Take(Ranked(base), n);
    RankedExactly(base);
    forall i, j | 0 <= i < j < |top| ensures top[i].id != top[j].id {
      assert top[i] in top && top[j] in top;
      TopWins(base, n, top[i].id);
      OrderIsStrict(base, top[i], top[j]);
    }
  }

  /** What was cut off came after all that was kept, and the kept part is full. */
  lemma CutOff(base: seq<Lead>, n: nat, b: Lead)
    requires Winner(base, b) && b !in Take(Ranked(base), n)
    ensures var top := Take(Ranked(base), n); |top| == n && forall t :: t in top ==> Precedes(base, t, b)
  {
    RankedExactly(base);
    assert b in Ranked(base);
    var k :| 0 <= k < |Ranked(base)| && Ranked(base)[k] == b;
    var top := Take(Ranked(base), n);
    assert forall j :: 0 <= j < |top| ==> top[j] == Ranked(base)[j] && top[j] in top;
  }

  /** A dead id: its base winner was cut off, and the second stage has nothing better. */
  lemma DeadIs(base: seq<Lead>, more: seq<Lead>, n: nat, id: string) returns (b: Lead)
    requires id in Dead(base, more, n)
    ensures b.id == id && Winner(base, b) && b !in Take(Ranked(base), n) && Winner(base + more, b)
    ensures Win(Take(Ranked(base), n), id).None? && !Raised(base, more, id)
  {
    var top := Take(Ranked(base), n);
    WinIsBest(base, id);
    b := Win(base, id).value;
    WinIsBest(base, b.id);
    WinIsBest(top, id);
    WinOfBoth(base, more, id);
  }

  /** A winner of a longer list keeps the kind and route and does not lose score. */
  lemma WinnerImproves(base: seq<Lead>, more: seq<Lead>, t: Lead) returns (u: Lead)
    requires IdsFixKeys(base + more) && Winner(base, t)
    ensures u.id == t.id && Winner(base + more, u) && LeadLeq(u, t) && (u == t || u.score > t.score)
  {
    WinIsBest(base, t.id);
    WinOfBoth(base, more, t.id);
    WinIsBest(base + more, t.id);
    u := Win(base + more, t.id).value;
    assert t in base + more && u in base + more;
    LeadOrder(t, t);
  }

  /** In the whole merge, dead ids are beyond the cut. */
  lemma DeadBeyondWhole(base: seq<Lead>, more: seq<Lead>, n: nat, k: nat)
    requires IdsFixKeys(base + more) && k < |Ranked(base + more)|
    requires Ranked(base + more)[k].id in Dead(base, more, n)
    ensures n <= k
  {
    var whole, top := base + more, Take(Ranked(base), n);
    var x := Ranked(whole)[k];
    RankedExactly(whole);
    assert x in Ranked(whole);
    var b := DeadIs(base, more, n, x.id);
    CutOff(base, n, b);
    forall t | t in top ensures exists u :: u in Ranked(whole) && u.id == t.id && Precedes(whole, u, x) {
      TopWins(base, n, t.id);
      var u := WinnerImproves(base, more, t);
      ImprovedPrecedes(base, more, t, u, b);
    }
    TopDistinct(base, n);
    Beyond(whole, Ranked(whole), k, top);
  }

  lemma ImprovedPrecedes(base: seq<Lead>, more: seq<Lead>, t: Lead, u: Lead, b: Lead)
    requires Winner(base, t) && Winner(base, b) && Precedes(base, t, b)
    requires u.id == t.id && LeadLeq(u, t) && (u == t || u.score > t.score)
    ensures Precedes(base + more, u, b)
  {
    LeadTransitive(u, t, b);
    LeadOrder(u, b);
    LeadOrder(t, b);
    FirstWins(base, t.id);
    FirstWins(base, b.id);
    FirstOfBoth(base, more, t.id);
    FirstOfBoth(base, more, b.id);
  }

  /** In the second stage of the cut board, dead ids are beyond the cut. */
  lemma DeadBeyondCut(base: seq<Lead>, more: seq<Lead>, n: nat, k: nat)
    requires IdsFixKeys(base + more)
    requires var cut := Take(Ranked(base), n) + more; k < |Ranked(cut)| && Ranked(cut)[k].id in Dead(base, more, n)
    ensures n <= k
  {
    var top := Take(Ranked(base), n);
    var cut := top + more;
    var x := Ranked(cut)[k];
    RankedExactly(cut);
    assert x in Ranked(cut);
    var b := DeadIs(base, more, n, x.id);
    CutOff(base, n, b);
    NotBetter(base, more, n, x, b);
    CutFixesKeys(base, more, n);
    forall t | t in top ensures exists u :: u in Ranked(cut) && u.id == t.id && Precedes(cut, u, x) {
      TopWins(base, n, t.id);
      var u := WinnerImproves(top, more, t);
      LeadTransitive(u, t, b);
      LeadTransitive(u, b, x);
      FirstWins(top, t.id);
      FirstWins(top, x.id);
      FirstOfBoth(top, more, t.id);
      FirstOfBoth(top, more, x.id);
    }
    TopDistinct(base, n);
    Beyond(cut, Ranked(cut), k, top);
  }

  /** What the second stage brings for a dead id is no better than what was cut off. */
  lemma NotBetter(base: seq<Lead>, more: seq<Lead>, n: nat, x: Lead, b: Lead)
    requires IdsFixKeys(base + more) && x.id == b.id && Winner(base, b) && !Raised(base, more, b.id)
    requires Win(Take(Ranked(base), n), x.id).None? && Winner(Take(Ranked(base), n) + more, x)
    ensures LeadLeq(b, x)
  {
    WinOfBoth(Take(Ranked(base), n), more, x.id);
    WinIsBest(more, x.id);
    WinIsBest(base, b.id);
    assert x in base + more && b in base + more;
    LeadOrder(b, b);
  }

  lemma CutFixesKeys(base: seq<Lead>, more: seq<Lead>, n: nat)
    requires IdsFixKeys(base + more)
    ensures IdsFixKeys(Take(Ranked(base), n) + more)
  {
    var top := Take(Ranked(base), n);
    forall a | a in top + more ensures a in base + more {
      if a in top {
        TopWins(base, n, a.id);
        WinIsBest(base, a.id);
      }
    }
  }

  // When the two boards agree.

  /**
   Two tied leads that win their ids in both dictionaries stand in one order in the dictionary of
   all leads, `a` first, and in the other order in the dictionary of the cut board and the rest.
   */
  ghost predicate TieReversed(base: seq<Lead>, more: seq<Lead>, n: nat, a: Lead, b: Lead) {
    var whole, cut := base + more, Take(Ranked(base), n) + more;
    && Winner(whole, a) && Winner(whole, b) && Winner(cut, a) && Winner(cut, b) && Tied(a, b)
    && First(whole, a.id) < First(whole, b.id) && First(cut, b.id) < First(cut, a.id)
  }

  /** No lead of the board has such a tie reversed against it. */
  ghost predicate TiesKept(base: seq<Lead>, more: seq<Lead>, n: nat) {
    forall a, b :: a in Take(Ranked(base + more), n) ==> !TieReversed(base, more, n, a, b)
  }

  /** Nothing dead within the cut of either board. */
  lemma LivingCuts(base: seq<Lead>, more: seq<Lead>, n: nat)
    requires IdsFixKeys(base + more)
    ensures var cut, whole, dead := Take(Ranked(base), n) + more, base + more, Dead(base, more, n);
            && Take(Alive(Ranked(cut), dead), n) == Take(Ranked(cut), n)
            && Take(Alive(Ranked(whole), dead), n) == Take(Ranked(whole), n)
  {
    var cut, whole, dead := Take(Ranked(base), n) + more, base + more, Dead(base, more, n);
    forall k | 0 <= k < n && k < |Ranked(whole)| ensures Ranked(whole)[k].id !in dead {
      if Ranked(whole)[k].id in dead {
        DeadBeyondWhole(base, more, n, k);
      }
    }
    forall k | 0 <= k < n && k < |Ranked(cut)| ensures Ranked(cut)[k].id !in dead {
      if Ranked(cut)[k].id in dead {
        DeadBeyondCut(base, more, n, k);
      }
    }
    AliveCut(Ranked(cut), dead, n);
    AliveCut(Ranked(whole), dead, n);
  }

  /** The living leads of both boards are the same leads. */
  lemma AliveSame(base: seq<Lead>, more: seq<Lead>, n: nat, x: Lead)
    ensures var cut, whole, dead := Take(Ranked(base), n) + more, base + more, Dead(base, more, n);
            && (x in Alive(Ranked(cut), dead) <==> x in Alive(Ranked(whole), dead))
            && (x in Alive(Ranked(whole), dead) <==> Winner(whole, x) && x.id !in dead)
  {
    var cut, whole, dead := Take(Ranked(base), n) + more, base + more, Dead(base, more, n);
    RankedExactly(cut);
    RankedExactly(whole);
    AliveAre(Ranked(cut), dead);
    AliveAre(Ranked(whole), dead);
    if x.id !in dead {
      AliveWinners(base, more, n, x.id);
    }
  }

  lemma FirstsDiffer(leads: seq<Lead>, a: Lead, b: Lead)
    requires Winner(leads, a) && Winner(leads, b) && a.id != b.id
    ensures First(leads, a.id) != First(leads, b.id)
  {
    FirstWins(leads, a.id);
    FirstWins(leads, b.id);
    assert leads[First(leads, a.id)].id == a.id;
  }

  /** A lead of the board stays before a later living one in the cut's order, if its ties are kept. */
  lemma KeptPrecedes(base: seq<Lead>, more: seq<Lead>, n: nat, a: Lead, b: Lead)
    requires Winner(base + more, a) && Winner(base + more, b)
    requires a.id !in Dead(base, more, n) && b.id !in Dead(base, more, n)
    requires !TieReversed(base, more, n, a, b) && Precedes(base + more, a, b)
    ensures Precedes(Take(Ranked(base), n) + more, a, b)
  {
    var cut := Take(Ranked(base), n) + more;
    AliveWinners(base, more, n, a.id);
    AliveWinners(base, more, n, b.id);
    if LeadLeq(b, a) {
      LeadOrder(a, b);
      FirstsDiffer(cut, a, b);
    }
  }

  /** Ties kept: the boards are one. */
  lemma KeptTiesAgree(base: seq<Lead>, more: seq<Lead>, n: nat)
    requires IdsFixKeys(base + more) && TiesKept(base, more, n)
    ensures TwoStages(base, more, n) == Take(Ranked(base + more), n)
  {
    var cut, whole, dead := Take(Ranked(base), n) + more, base + more, Dead(base, more, n);
    var s, t := Alive(Ranked(whole), dead), Alive(Ranked(cut), dead);
    LivingCuts(base, more, n);
    RankedExactly(cut);
    RankedExactly(whole);
    AliveInOrder(cut, Ranked(cut), dead);
    AliveInOrder(whole, Ranked(whole), dead);
    InOrderDistinct(whole, s);
    forall x ensures x in s <==> x in t {
      AliveSame(base, more, n, x);
    }
    forall i, j | 0 <= i < j < |s| && i < n ensures Precedes(cut, s[i], s[j]) {
      assert s[i] in s && s[j] in s;
      AliveSame(base, more, n, s[i]);
      AliveSame(base, more, n, s[j]);
      assert s[i] == Take(s, n)[i] && Take(s, n)[i] in Take(s, n);
      KeptPrecedes(base, more, n, s[i], s[j]);
    }
    OrderedPrefix(cut, s, t, n);
  }

  lemma OrderedPlaces(xs: seq<Lead>, s: seq<Lead>, i: nat, j: nat)
    requires InOrder(xs, s) && i < |s| && j < |s| && Precedes(xs, s[i], s[j])
    ensures i < j
  {
    OrderIsStrict(xs, s[i], s[j]);
  }

  /** Two orders that disagree about a lead within the cut give different cuts. */
  lemma Disagree(xs: seq<Lead>, ys: seq<Lead>, s: seq<Lead>, t: seq<Lead>, n: nat, a: Lead, b: Lead)
    requires InOrder(xs, s) && InOrder(ys, t) && a in Take(t, n) && b in s
    requires Precedes(xs, b, a) && Precedes(ys, a, b)
    ensures Take(s, n) != Take(t, n)
  {
    if Take(s, n) == Take(t, n) {
      var k :| 0 <= k < |Take(t, n)| && Take(t, n)[k] == a;
      var j :| 0 <= j < |s| && s[j] == b;
      SamePlace(s, t, n, k);
      OrderedPlaces(xs, s, j, k);
      SamePlace(s, t, n, j);
      OrderedPlaces(ys, t, k, j);
    }
  }

  lemma SamePlace(s: seq<Lead>, t: seq<Lead>, n: nat, k: nat)
    requires Take(s, n) == Take(t, n) && k < |Take(t, n)|
    ensures k < n && k < |s| && k < |t| && s[k] == t[k] == Take(t, n)[k]
  {
    assert Take(s, n)[k] == s[k];
  }

  /** A reversed tie on the board: the boards differ. */
  lemma ReversedTieDiffers(base: seq<Lead>, more: seq<Lead>, n: nat, a: Lead, b: Lead)
    requires a in Take(Ranked(base + more), n) && TieReversed(base, more, n, a, b)
    ensures TwoStages(base, more, n) != Take(Ranked(base + more), n)
  {
    var cut, whole := Take(Ranked(base), n) + more, base + more;
    RankedExactly(cut);
    RankedExactly(whole);
    LeadOrder(a, b);
    Disagree(cut, whole, Ranked(cut), Ranked(whole), n, a, b);
  }

  /**
   Cutting the first board to the limit before the second merge gives the board that merging
   everything and cutting once gives, if and only if the cut reverses no tie against a lead of
   that board.
   */
  lemma TwoStagesExactly(base: seq<Lead>, more: seq<Lead>, n: nat)
    requires IdsFixKeys(base + more)
    ensures TwoStages(base, more, n) == Take(Ranked(base + more), n) <==> TiesKept(base, more, n)
  {
    if TiesKept(base, more, n) {
      KeptTiesAgree(base, more, n);
    } else {
      var a, b :| a in Take(Ranked(base + more), n) && TieReversed(base, more, n, a, b);
      ReversedTieDiffers(base, more, n, a, b);
    }
  }

  /** A dead id that wins in the second stage came back from there, behind all that was kept. */
  lemma DeadComesLate(base: seq<Lead>, more: seq<Lead>, n: nat, id: string)
    requires id in Dead(base, more, n)
    ensures |Take(Ranked(base), n)| <= First(Take(Ranked(base), n) + more, id)
    ensures First(base + more, id) < |base|
  {
    var top := Take(Ranked(base), n);
    var b := DeadIs(base, more, n, id);
    FirstOfBoth(top, more, id);
    FirstOfBoth(base, more, id);
    FirstWins(top, id);
    FirstWins(base, id);
  }

  /** A lead that ties and is not raised keeps its ties. */
  lemma UnraisedKept(base: seq<Lead>, more: seq<Lead>, n: nat, a: Lead, b: Lead)
    requires NoRaisedTie(base, more) && a.id !in Dead(base, more, n)
    ensures !TieReversed(base, more, n, a, b)
  {
    var top, whole := Take(Ranked(base), n), base + more;
    LeadOrder(a, b);
    if TieReversed(base, more, n, a, b) {
      if b.id in Dead(base, more, n) {
        DeadComesLate(base, more, n, b.id);
        KeptOrNew(base, more, n, a);
        FirstOfBoth(base, more, a.id);
        FirstOfBoth(top, more, a.id);
        FirstWins(base, a.id);
        FirstWins(top, a.id);
        TopWins(base, n, a.id);
      } else {
        OrderAgrees(base, more, n, b, a);
      }
    }
  }

  /** In particular when no lead that the second stage raises ties with another. */
  lemma TwoStagesAreOne(base: seq<Lead>, more: seq<Lead>, n: nat)
    requires IdsFixKeys(base + more) && NoRaisedTie(base, more)
    ensures TwoStages(base, more, n) == Take(Ranked(base + more), n)
  {
    var board := Take(Ranked(base + more), n);
    forall a, b | a in board ensures !TieReversed(base, more, n, a, b) {
      var k :| 0 <= k < |board| && board[k] == a;
      if a.id in Dead(base, more, n) {
        DeadBeyondWhole(base, more, n, k);
      }
      UnraisedKept(base, more, n, a, b);
    }
    TwoStagesExactly(base, more, n);
  }

  lemma BestOfTwo(a: Lead, b: Lead)
    requires a.id != b.id
    ensures Best([a, b]) == [a, b]
  {
    assert [a, b][..1] == [a] && [a][..0] == [];
    assert Best([a]) == Put(Best([a][..0]), a) == [a];
    assert Best([a, b]) == Put(Best([a, b][..1]), b);
    assert Put([a], b) == [a] + Put([a][1..], b);
  }

  lemma SortTwo(a: Lead, b: Lead)
    ensures SortBy(LeadLeq, [a, b]) == if LeadLeq(a, b) then [a, b] else [b, a]
  {
    assert [a, b][1..] == [b] && [b][1..] == [];
    assert SortBy(LeadLeq, [b]) == Insert(LeadLeq, b, SortBy(LeadLeq, [b][1..])) == [b];
    assert SortBy(LeadLeq, [a, b]) == Insert(LeadLeq, a, SortBy(LeadLeq, [a, b][1..]));
    assert Insert(LeadLeq, a, [b][1..]) == [a];
  }

  const LIKELY: Lead := Lead("verify-x", "k", "GET /r", "GET /r", 100, "likely", "barq-verify", [])
  const OTHER: Lead := Lead("verify-y", "k", "GET /r", "GET /r", 110, "verified", "barq-verify", [])
  const RAISED: Lead := LIKELY.(score := 110, confidence := "verified")

  /**
   A raised lead that ties does matter, at least to the two functions: with room for one lead,
   the first is behind the other by score, is cut off, and comes back with the other's score.
   */
  lemma RaisedTieBreaks()
    ensures IdsFixKeys([LIKELY, OTHER] + [RAISED])
    ensures TwoStages([LIKELY, OTHER], [RAISED], 1) == [OTHER]
    ensures Take(Ranked([LIKELY, OTHER] + [RAISED]), 1) == [RAISED]
  {
    BestOfTwo(LIKELY, OTHER);
    SortTwo(LIKELY, OTHER);
    BestOfTwo(OTHER, RAISED);
    SortTwo(OTHER, RAISED);
    assert [OTHER, LIKELY][..1] + [RAISED] == [OTHER, RAISED];
    RaisedInPlace();
    SortTwo(RAISED, OTHER);
  }

  lemma RaisedInPlace()
    ensures Best([LIKELY, OTHER] + [RAISED]) == [RAISED, OTHER]
  {
    var whole := [LIKELY, OTHER, RAISED];
    BestOfTwo(LIKELY, OTHER);
    assert [LIKELY, OTHER] + [RAISED] == whole && whole[..2] == [LIKELY, OTHER];
    assert Best(whole) == Put(Best(whole[..2]), RAISED);
  }
}
