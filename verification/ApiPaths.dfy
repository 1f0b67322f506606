/** The search finds exactly the simple paths of the producer/consumer graph, each once. */
module ApiPaths {
  import opened Ordering
  import opened ApiSequences

  /** Binding `i` is an edge of the graph from node `i` to node `i + 1`. */
  predicate Binds(edges: seq<Edge>, s: Sequence, i: nat)
    requires i < |s.bindings| < |s.operations|
  {
    s.bindings[i] in edges && s.bindings[i].producer == s.operations[i] && s.bindings[i].consumer == s.operations[i + 1]
  }

  /** `s` is a simple path of 2 to `depth` nodes that goes on from `nodes` and `bindings`. */
  ghost predicate Continues(edges: seq<Edge>, depth: nat, nodes: seq<string>, bindings: seq<Edge>, s: Sequence) {
    && 2 <= |s.operations| <= depth && |s.bindings| == |s.operations| - 1
    && nodes <= s.operations && bindings <= s.bindings && NoRepeats(s.operations)
    && forall i :: |bindings| <= i < |s.bindings| ==> Binds(edges, s, i)
  }

  lemma {:induction false} OutAre(edges: seq<Edge>, node: string)
    requires NoRepeats(edges)
    ensures NoRepeats(Out(Index(edges), node))
    ensures forall e :: e in Out(Index(edges), node) <==> e in edges && e.producer == node
  {
    if edges != [] {
      var p, last := edges[..|edges| - 1], edges[|edges| - 1];
      OutAre(p, node);
      assert forall e :: e in edges <==> e in p || e == last;
      assert last !in p;
    }
  }

  /** Taking the edge `e` narrows the continuations to those whose next binding is `e`. */
  lemma TakeEdge(edges: seq<Edge>, depth: nat, nodes: seq<string>, bindings: seq<Edge>, e: Edge, s: Sequence)
    requires 0 < |nodes| && |bindings| == |nodes| - 1
    requires e in edges && e.producer == nodes[|nodes| - 1]
    ensures e.consumer !in nodes && Continues(edges, depth, nodes + [e.consumer], bindings + [e], s) <==>
            Continues(edges, depth, nodes, bindings, s) && |s.operations| > |nodes| && s.bindings[|bindings|] == e
  {
    var n := |nodes|;
    if e.consumer !in nodes && Continues(edges, depth, nodes + [e.consumer], bindings + [e], s) {
      assert s.operations[n] == (nodes + [e.consumer])[n] && s.operations[n - 1] == (nodes + [e.consumer])[n - 1];
      assert s.bindings[n - 1] == (bindings + [e])[n - 1];
      assert Binds(edges, s, n - 1);
      assert nodes <= nodes + [e.consumer] && bindings <= bindings + [e];
    }
    if Continues(edges, depth, nodes, bindings, s) && |s.operations| > n && s.bindings[n - 1] == e {
      assert Binds(edges, s, n - 1);
      assert s.operations[..n + 1] == nodes + [e.consumer];
      assert s.bindings[..n] == bindings + [e];
      forall i | 0 <= i < n ensures nodes[i] != e.consumer {
        assert s.operations[i] != s.operations[n];
      }
    }
  }

  /** The walk yields every continuation once and nothing else. */
  lemma {:induction false} WalkExactly(edges: seq<Edge>, depth: nat, nodes: seq<string>, bindings: seq<Edge>, s: Sequence)
    requires NoRepeats(edges) && 0 < |nodes| <= depth && NoRepeats(nodes) && |bindings| == |nodes| - 1
    ensures multiset(Walk(Index(edges), depth, nodes, bindings))[s] ==
            if Continues(edges, depth, nodes, bindings, s) then 1 else 0
    decreases depth - |nodes|, 1, 0
  {
    var here := Sequence(nodes, bindings);
    if Continues(edges, depth, nodes, bindings, s) && |s.operations| == |nodes| {
      assert s.operations == nodes && s.bindings == bindings;
    }
    if |nodes| < depth {
      var current := nodes[|nodes| - 1];
      var out := Out(Index(edges), current);
      OutAre(edges, current);
      BranchesExactly(edges, depth, nodes, bindings, out, s);
      if Continues(edges, depth, nodes, bindings, s) && |s.operations| > |nodes| {
        assert Binds(edges, s, |bindings|);
      }
    }
  }

  lemma {:induction false} BranchesExactly(edges: seq<Edge>, depth: nat, nodes: seq<string>, bindings: seq<Edge>,
                                           out: seq<Edge>, s: Sequence)
    requires NoRepeats(edges) && 0 < |nodes| < depth && NoRepeats(nodes) && |bindings| == |nodes| - 1
    requires NoRepeats(out) && forall e :: e in out ==> e in edges && e.producer == nodes[|nodes| - 1]
    ensures multiset(Branches(Index(edges), depth, nodes, bindings, out))[s] ==
            if Continues(edges, depth, nodes, bindings, s) && |s.operations| > |nodes| && s.bindings[|bindings|] in out
            then 1 else 0
    decreases depth - |nodes|, 0, |out|
  {
    if out != [] {
      var p, e := out[..|out| - 1], out[|out| - 1];
      BranchesExactly(edges, depth, nodes, bindings, p, s);
      TakeEdge(edges, depth, nodes, bindings, e, s);
      if e.consumer !in nodes {
        WalkExactly(edges, depth, nodes + [e.consumer], bindings + [e], s);
      }
      assert forall x :: x in out <==> x in p || x == e;
      assert e !in p;
    }
  }

  lemma WalkAllSnoc(edges: seq<Edge>, depth: nat, p: seq<string>, last: string, s: Sequence)
    requires depth > 0
    ensures multiset(WalkAll(Index(edges), depth, p + [last]))[s] ==
            multiset(WalkAll(Index(edges), depth, p))[s] + multiset(Walk(Index(edges), depth, [last], []))[s]
  {
    assert (p + [last])[..|p|] == p;
  }

  /** A walk from `last` continues as the paths that start there. */
  lemma ContinuesFrom(edges: seq<Edge>, depth: nat, last: string, s: Sequence)
    requires depth > 0
    ensures Continues(edges, depth, [last], [], s) <==> Continues(edges, depth, [], [], s) && s.operations[0] == last
  {
    if Continues(edges, depth, [], [], s) && s.operations[0] == last {
      assert [last] <= s.operations;
    }
  }

  lemma {:induction false} WalkAllExactly(edges: seq<Edge>, depth: nat, starts: seq<string>, s: Sequence)
    requires NoRepeats(edges) && depth > 0 && NoRepeats(starts)
    ensures multiset(WalkAll(Index(edges), depth, starts))[s] ==
            if Continues(edges, depth, [], [], s) && s.operations[0] in starts then 1 else 0
  {
    if starts != [] {
      var p, last := starts[..|starts| - 1], starts[|starts| - 1];
      assert starts == p + [last] && last !in p;
      WalkAllExactly(edges, depth, p, s);
      WalkExactly(edges, depth, [last], [], s);
      WalkAllSnoc(edges, depth, p, last, s);
      ContinuesFrom(edges, depth, last, s);
    }
  }

  // Told of the operations themselves.

  /** The operations that a sequence's node names stand for, one index each. */
  ghost predicate Visits(operations: seq<Operation>, s: Sequence, at: seq<int>) {
    && |at| == |s.operations|
    && (forall i :: 0 <= i < |at| ==> 0 <= at[i] < |operations| && operations[at[i]].id == s.operations[i])
    && NoRepeats(at)
  }

  /** Binding `i` joins one operation to the next: a name is in it exactly when the one produces and the other consumes it. */
  ghost predicate JoinedAt(operations: seq<Operation>, s: Sequence, at: seq<int>, i: int) {
    && 0 <= i < |s.bindings| && i + 1 < |at|
    && 0 <= at[i] < |operations| && 0 <= at[i + 1] < |operations|
    && Joins(operations[at[i]], operations[at[i + 1]], s.bindings[i])
  }

  ghost predicate IsPathAt(operations: seq<Operation>, s: Sequence, at: seq<int>) {
    Visits(operations, s, at) && forall i :: 0 <= i < |s.bindings| ==> JoinedAt(operations, s, at, i)
  }

  /**
   A simple path: distinct operations, each producing something the next one consumes, with
   exactly those fields in the binding between them.
   */
  ghost predicate IsSimplePath(operations: seq<Operation>, depth: int, s: Sequence) {
    && 2 <= |s.operations| <= depth && |s.bindings| == |s.operations| - 1
    && exists at :: IsPathAt(operations, s, at)
  }

  lemma {:induction false} IdsAre(operations: seq<Operation>)
    ensures |Ids(operations)| == |operations| && forall i :: 0 <= i < |operations| ==> Ids(operations)[i] == operations[i].id
  {
    if operations != [] {
      IdsAre(operations[1..]);
    }
  }

  function Position(operations: seq<Operation>, id: string): (i: int)
    ensures i == -1 || (0 <= i < |operations| && operations[i].id == id)
  {
    if operations == [] then -1
    else if operations[0].id == id then 0
    else
      var i := Position(operations[1..], id);
      if i == -1 then -1 else i + 1
  }

  lemma {:induction false} PositionFinds(operations: seq<Operation>, i: int)
    requires DistinctIds(operations) && 0 <= i < |operations|
    ensures Position(operations, operations[i].id) == i
  {
    if i > 0 {
      PositionFinds(operations[1..], i - 1);
    }
  }

  lemma EdgeEnds(operations: seq<Operation>, e: Edge)
    requires DistinctIds(operations) && IsEdge(operations, e)
    ensures var p, c := Position(operations, e.producer), Position(operations, e.consumer);
            p >= 0 && c >= 0 && Joins(operations[p], operations[c], e)
  {
    var j, k :| 0 <= j < |operations| && 0 <= k < |operations| && Joins(operations[j], operations[k], e);
    PositionFinds(operations, j);
    PositionFinds(operations, k);
  }

  function Positions(operations: seq<Operation>, ids: seq<string>): (at: seq<int>)
    ensures |at| == |ids| && forall i :: 0 <= i < |ids| ==> at[i] == Position(operations, ids[i])
  {
    if ids == [] then [] else [Position(operations, ids[0])] + Positions(operations, ids[1..])
  }

  /** A path over the edges is a path over the operations. */
  lemma PathOfEdges(operations: seq<Operation>, depth: nat, s: Sequence)
    requires DistinctIds(operations)
    requires Continues(SortBy(EdgeLeq, EdgesOf(operations, operations)), depth, [], [], s)
    ensures IsSimplePath(operations, depth, s)
  {
    var edges := SortBy(EdgeLeq, EdgesOf(operations, operations));
    var at := Positions(operations, s.operations);
    EdgesExactly(operations);
    forall i | 0 <= i < |s.bindings| ensures JoinedAt(operations, s, at, i) {
      assert Binds(edges, s, i);
      EdgeEnds(operations, s.bindings[i]);
    }
    PositionsVisit(operations, s, at);
  }

  lemma PositionsVisit(operations: seq<Operation>, s: Sequence, at: seq<int>)
    requires at == Positions(operations, s.operations) && NoRepeats(s.operations)
    requires |s.bindings| == |s.operations| - 1 && 2 <= |s.operations|
    requires forall i :: 0 <= i < |s.bindings| ==> JoinedAt(operations, s, at, i)
    ensures IsPathAt(operations, s, at)
  {
    forall i | 0 <= i < |at| ensures 0 <= at[i] < |operations| && operations[at[i]].id == s.operations[i] {
      assert if i < |s.bindings| then JoinedAt(operations, s, at, i) else JoinedAt(operations, s, at, i - 1);
    }
  }

  lemma PlacesDiffer(operations: seq<Operation>, at: seq<nat>)
    requires DistinctIds(operations) && NoRepeats(at) && forall i :: 0 <= i < |at| ==> at[i] < |operations|
    ensures forall i, j :: 0 <= i < j < |at| ==> operations[at[i]].id != operations[at[j]].id
  {
    forall i, j | 0 <= i < j < |at| ensures operations[at[i]].id != operations[at[j]].id {
      if at[i] < at[j] {} else { assert at[j] < at[i]; }
    }
  }

  lemma PathBinds(operations: seq<Operation>, edges: seq<Edge>, s: Sequence, at: seq<int>, i: nat)
    requires IsPathAt(operations, s, at) && i < |s.bindings| < |s.operations|
    requires edges == SortBy(EdgeLeq, EdgesOf(operations, operations))
    ensures Binds(edges, s, i)
  {
    var e := s.bindings[i];
    assert JoinedAt(operations, s, at, i);
    assert IsEdge(operations, e);
    EdgeOfOperations(operations, e);
    SortContents(EdgeLeq, EdgesOf(operations, operations));
  }

  lemma EdgesOfPath(operations: seq<Operation>, depth: nat, s: Sequence)
    requires DistinctIds(operations) && IsSimplePath(operations, depth, s)
    ensures Continues(SortBy(EdgeLeq, EdgesOf(operations, operations)), depth, [], [], s)
    ensures s.operations[0] in Ids(operations)
  {
    var edges := SortBy(EdgeLeq, EdgesOf(operations, operations));
    IdsAre(operations);
    var at :| IsPathAt(operations, s, at);
    assert Ids(operations)[at[0]] == s.operations[0];
    PlacesDiffer(operations, at);
    forall i | 0 <= i < |s.bindings| ensures Binds(edges, s, i) {
      PathBinds(operations, edges, s, at, i);
    }
  }

  /** The search lists each path over the edges once, and starts it at an operation. */
  lemma ListedOnce(operations: seq<Operation>, depth: int, s: Sequence)
    requires DistinctIds(operations) && 2 <= depth <= 6
    ensures Sequences(operations, depth).Some?
    ensures multiset(Sequences(operations, depth).value)[s] ==
            if Continues(SortBy(EdgeLeq, EdgesOf(operations, operations)), depth, [], [], s)
               && s.operations[0] in Ids(operations) then 1 else 0
  {
    var edges := SortBy(EdgeLeq, EdgesOf(operations, operations));
    EdgesExactly(operations);
    IdsAre(operations);
    WalkAllExactly(edges, depth, Ids(operations), s);
    SortedCount(WalkAll(Index(edges), depth, Ids(operations)), s);
  }

  lemma SortedCount(all: seq<Sequence>, s: Sequence)
    ensures multiset(SortBy(SequenceLeq, all))[s] == multiset(all)[s]
  {
    SortContents(SequenceLeq, all);
  }

  /**
   For distinct operation ids and an accepted depth, the result holds every simple path of 2 to
   `depth` operations exactly once, and nothing else.
   */
  lemma SequencesExactly(operations: seq<Operation>, depth: int, s: Sequence)
    requires DistinctIds(operations) && 2 <= depth <= 6
    ensures Sequences(operations, depth).Some?
    ensures multiset(Sequences(operations, depth).value)[s] == if IsSimplePath(operations, depth, s) then 1 else 0
  {
    ListedOnce(operations, depth, s);
    var edges := SortBy(EdgeLeq, EdgesOf(operations, operations));
    if IsSimplePath(operations, depth, s) {
      EdgesOfPath(operations, depth, s);
    } else if Continues(edges, depth, [], [], s) {
      PathOfEdges(operations, depth, s);
    }
  }

  /** With distinct ids a path's nodes fix its bindings: each node sequence is listed once. */
  lemma NodesFixPath(operations: seq<Operation>, depth: int, s: Sequence, t: Sequence)
    requires DistinctIds(operations) && IsSimplePath(operations, depth, s) && IsSimplePath(operations, depth, t)
    requires s.operations == t.operations
    ensures s == t
  {
    var a :| IsPathAt(operations, s, a);
    var b :| IsPathAt(operations, t, b);
    forall i | 0 <= i < |a| ensures a[i] == b[i] {
      var j, k := a[i], b[i];
      PositionFinds(operations, j);
      PositionFinds(operations, k);
    }
    forall i | 0 <= i < |s.bindings| ensures s.bindings[i] == t.bindings[i] {
      assert JoinedAt(operations, s, a, i) && JoinedAt(operations, t, b, i);
      JoinsExactly(operations[a[i]], operations[a[i + 1]], s.bindings[i]);
      JoinsExactly(operations[a[i]], operations[a[i + 1]], t.bindings[i]);
    }
    assert s.bindings == t.bindings;
  }
}
