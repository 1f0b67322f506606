/** The producer/consumer graph of api_graph.py and the depth-first search over it. */
module ApiSequences {
  import opened Common
  import opened Ordering

  /** An operation by what the graph needs of it; its field lists are sorted sets. */
  datatype Operation = Operation(id: string, consumes: seq<string>, produces: seq<string>)

  datatype Edge = Edge(producer: string, consumer: string, fields: seq<string>)

  datatype Sequence = Sequence(operations: seq<string>, bindings: seq<Edge>)

  // Edges.

  /** `tuple(sorted(set(producer.produces) & set(consumer.consumes)))`. */
  function CommonFields(producer: Operation, consumer: Operation): seq<string> {
    SharedNames(producer.produces, consumer.consumes)
  }

  predicate Linked(producer: Operation, consumer: Operation) {
    producer.id != consumer.id && CommonFields(producer, consumer) != []
  }

  function EdgeBetween(producer: Operation, consumer: Operation): Edge {
    Edge(producer.id, consumer.id, CommonFields(producer, consumer))
  }

  function EdgesFrom(producer: Operation, consumers: seq<Operation>): seq<Edge> {
    if consumers == [] then []
    else
      var n := |consumers| - 1;
      EdgesFrom(producer, consumers[..n])
      + (if Linked(producer, consumers[n]) then [EdgeBetween(producer, consumers[n])] else [])
  }

  function EdgesOf(producers: seq<Operation>, consumers: seq<Operation>): seq<Edge> {
    if producers == [] then []
    else EdgesOf(producers[..|producers| - 1], consumers) + EdgesFrom(producers[|producers| - 1], consumers)
  }

  predicate EdgeLeq(a: Edge, b: Edge) {
    if a.producer == b.producer then StringLeq(a.consumer, b.consumer) else StringLeq(a.producer, b.producer)
  }

  /** `edges`. */
  method Edges(operations: seq<Operation>) returns (r: seq<Edge>)
    ensures r == SortBy(EdgeLeq, EdgesOf(operations, operations))
  {
    var edges: seq<Edge> := [];
    for i := 0 to |operations|
      invariant edges == EdgesOf(operations[..i], operations)
    {
      var row: seq<Edge> := [];
      for j := 0 to |operations|
        invariant row == EdgesFrom(operations[i], operations[..j])
      {
        assert operations[..j + 1][..j] == operations[..j];
        if operations[i].id != operations[j].id && CommonFields(operations[i], operations[j]) != [] {
          row := row + [EdgeBetween(operations[i], operations[j])];
        }
      }
      assert operations[..|operations|] == operations;
      assert operations[..i + 1][..i] == operations[..i];
      edges := edges + row;
    }
    assert operations[..|operations|] == operations;
    return SortBy(EdgeLeq, edges);
  }

  predicate DistinctIds(operations: seq<Operation>) {
    forall i, j :: 0 <= i < j < |operations| ==> operations[i].id != operations[j].id
  }

  /** These are, in order and once each, the names that one operation produces and the other consumes. */
  ghost predicate Shares(fields: seq<string>, producer: Operation, consumer: Operation) {
    && Sorted(StringLeq, fields) && NoRepeats(fields)
    && forall name :: name in fields <==> name in producer.produces && name in consumer.consumes
  }

  lemma CommonFieldsExactly(producer: Operation, consumer: Operation, fields: seq<string>)
    ensures Shares(fields, producer, consumer) <==> fields == CommonFields(producer, consumer)
  {
    var common := CommonFields(producer, consumer);
    SharedNamesAre(producer.produces, consumer.consumes);
    if Shares(fields, producer, consumer) {
      DistinctCount(fields);
      DistinctCount(common);
      assert (set name | name in fields) == set name | name in common;
      StringLeqOrder();
      SortedUnique(StringLeq, fields, common);
    }
  }

  /** An edge from one operation to a different one, with exactly the fields they share; there are some. */
  ghost predicate Joins(producer: Operation, consumer: Operation, e: Edge) {
    && producer.id != consumer.id && e.producer == producer.id && e.consumer == consumer.id
    && e.fields != [] && Shares(e.fields, producer, consumer)
  }

  lemma JoinsExactly(producer: Operation, consumer: Operation, e: Edge)
    ensures Joins(producer, consumer, e) <==> Linked(producer, consumer) && e == EdgeBetween(producer, consumer)
  {
    CommonFieldsExactly(producer, consumer, e.fields);
    CommonFieldsExactly(producer, consumer, CommonFields(producer, consumer));
  }

  ghost predicate IsEdge(operations: seq<Operation>, e: Edge) {
    exists i, j :: 0 <= i < |operations| && 0 <= j < |operations| && Joins(operations[i], operations[j], e)
  }

  lemma EdgesFromSnoc(producer: Operation, p: seq<Operation>, last: Operation)
    ensures EdgesFrom(producer, p + [last]) ==
            EdgesFrom(producer, p) + (if Linked(producer, last) then [EdgeBetween(producer, last)] else [])
  {
    assert (p + [last])[..|p|] == p;
  }

  lemma {:induction false} EdgesFromAre(producer: Operation, consumers: seq<Operation>, e: Edge)
    ensures e in EdgesFrom(producer, consumers) <==> exists c :: c in consumers && Joins(producer, c, e)
  {
    if consumers != [] {
      var p, last := consumers[..|consumers| - 1], consumers[|consumers| - 1];
      assert consumers == p + [last];
      EdgesFromAre(producer, p, e);
      EdgesFromSnoc(producer, p, last);
      JoinsExactly(producer, last, e);
      assert forall c :: c in consumers <==> c in p || c == last;
    }
  }

  lemma {:induction false} EdgesFromDistinct(producer: Operation, consumers: seq<Operation>)
    requires DistinctIds(consumers)
    ensures NoRepeats(EdgesFrom(producer, consumers))
  {
    if consumers != [] {
      var p, last := consumers[..|consumers| - 1], consumers[|consumers| - 1];
      assert consumers == p + [last];
      EdgesFromDistinct(producer, p);
      EdgesFromSnoc(producer, p, last);
      forall e | e in EdgesFrom(producer, p) ensures e.consumer != last.id {
        EdgesFromAre(producer, p, e);
        var c :| c in p && Joins(producer, c, e);
        var j :| 0 <= j < |p| && p[j] == c;
        assert consumers[j] == c;
      }
    }
  }

  lemma NoRepeatsConcat<T>(a: seq<T>, b: seq<T>)
    requires NoRepeats(a) && NoRepeats(b) && forall x :: x in a ==> x !in b
    ensures NoRepeats(a + b)
  {
    forall i, j | 0 <= i < j < |a + b| ensures (a + b)[i] != (a + b)[j] {
      if i < |a| <= j {
        assert (a + b)[i] in a && (a + b)[j] in b;
      }
    }
  }

  lemma {:induction false} EdgesOfAre(producers: seq<Operation>, consumers: seq<Operation>, e: Edge)
    ensures e in EdgesOf(producers, consumers) <==> exists p :: p in producers && e in EdgesFrom(p, consumers)
  {
    if producers != [] {
      var front, last := producers[..|producers| - 1], producers[|producers| - 1];
      assert producers == front + [last];
      EdgesOfAre(front, consumers, e);
      if p :| p in producers && e in EdgesFrom(p, consumers) {
        assert p in front || p == last;
      }
      if p :| p in front && e in EdgesFrom(p, consumers) {
        assert p in producers;
      }
    }
  }

  lemma {:induction false} EdgesOfDistinct(producers: seq<Operation>, consumers: seq<Operation>)
    requires DistinctIds(producers) && DistinctIds(consumers)
    ensures NoRepeats(EdgesOf(producers, consumers))
  {
    if producers != [] {
      var front, last := producers[..|producers| - 1], producers[|producers| - 1];
      EdgesOfDistinct(front, consumers);
      EdgesFromDistinct(last, consumers);
      forall e | e in EdgesOf(front, consumers) ensures e !in EdgesFrom(last, consumers) {
        EdgesOfAre(front, consumers, e);
        var p :| p in front && e in EdgesFrom(p, consumers);
        EdgesFromAre(p, consumers, e);
        EdgesFromAre(last, consumers, e);
        var i :| 0 <= i < |front| && front[i] == p;
        assert producers[i] == p;
      }
      NoRepeatsConcat(EdgesOf(front, consumers), EdgesFrom(last, consumers));
    }
  }

  lemma EdgeLeqOrder()
    ensures TotalPreorder(EdgeLeq)
  {
    StringLeqOrder();
  }

  /**
   The graph has an edge for every pair of operations that differ in id and share a field, with
   exactly the shared fields, and no others; it is sorted, and with distinct ids has each edge once.
   */
  lemma EdgesExactly(operations: seq<Operation>)
    ensures var edges := SortBy(EdgeLeq, EdgesOf(operations, operations));
            && (forall e :: e in edges <==> IsEdge(operations, e))
            && Sorted(EdgeLeq, edges) && (DistinctIds(operations) ==> NoRepeats(edges))
  {
    var all := EdgesOf(operations, operations);
    SortContents(EdgeLeq, all);
    EdgeLeqOrder();
    SortSorts(EdgeLeq, all);
    if DistinctIds(operations) {
      EdgesOfDistinct(operations, operations);
      SortNoRepeats(EdgeLeq, all);
    }
    forall e ensures e in all <==> IsEdge(operations, e) {
      EdgeOfOperations(operations, e);
    }
  }

  lemma EdgeOfOperations(operations: seq<Operation>, e: Edge)
    ensures e in EdgesOf(operations, operations) <==> IsEdge(operations, e)
  {
    EdgesOfAre(operations, operations, e);
    if e in EdgesOf(operations, operations) {
      var p :| p in operations && e in EdgesFrom(p, operations);
      EdgesFromAre(p, operations, e);
      var c :| c in operations && Joins(p, c, e);
      var i :| 0 <= i < |operations| && operations[i] == p;
      var j :| 0 <= j < |operations| && operations[j] == c;
    }
    if IsEdge(operations, e) {
      var i, j :| 0 <= i < |operations| && 0 <= j < |operations| && Joins(operations[i], operations[j], e);
      EdgesFromAre(operations[i], operations, e);
      assert operations[i] in operations && operations[j] in operations;
    }
  }

  // The search.

  function Ids(operations: seq<Operation>): seq<string> {
    if operations == [] then [] else [operations[0].id] + Ids(operations[1..])
  }

  type Adjacency = map<string, seq<Edge>>

  /** `adjacency.get(current, [])`. */
  function Out(adjacency: Adjacency, current: string): seq<Edge> {
    if current in adjacency then adjacency[current] else []
  }

  /** `adjacency.setdefault(edge.producer, []).append(edge)`, for every edge. */
  function Index(edges: seq<Edge>): Adjacency {
    if edges == [] then map[]
    else
      var e := edges[|edges| - 1];
      var before := Index(edges[..|edges| - 1]);
      before[e.producer := Out(before, e.producer) + [e]]
  }

  /** `walk`, as the list of what it appends. */
  function Walk(adjacency: Adjacency, depth: nat, nodes: seq<string>, bindings: seq<Edge>): seq<Sequence>
    requires 0 < |nodes| <= depth
    decreases depth - |nodes|, 1, 0
  {
    (if |nodes| >= 2 then [Sequence(nodes, bindings)] else [])
    + (if |nodes| == depth then []
       else Branches(adjacency, depth, nodes, bindings, Out(adjacency, nodes[|nodes| - 1])))
  }

  /** The loop of `walk` over the edges `out`. */
  function Branches(adjacency: Adjacency, depth: nat, nodes: seq<string>, bindings: seq<Edge>, out: seq<Edge>): seq<Sequence>
    requires 0 < |nodes| < depth
    decreases depth - |nodes|, 0, |out|
  {
    if out == [] then []
    else
      var n := |out| - 1;
      Branches(adjacency, depth, nodes, bindings, out[..n]) + Branch(adjacency, depth, nodes, bindings, out[n])
  }

  function Branch(adjacency: Adjacency, depth: nat, nodes: seq<string>, bindings: seq<Edge>, e: Edge): seq<Sequence>
    requires 0 < |nodes| < depth
    decreases depth - |nodes|, 0, 0
  {
    if e.consumer in nodes then [] else Walk(adjacency, depth, nodes + [e.consumer], bindings + [e])
  }

  function WalkAll(adjacency: Adjacency, depth: nat, starts: seq<string>): seq<Sequence>
    requires depth > 0
  {
    if starts == [] then []
    else WalkAll(adjacency, depth, starts[..|starts| - 1]) + Walk(adjacency, depth, [starts[|starts| - 1]], [])
  }

  predicate SequenceLeq(a: Sequence, b: Sequence) {
    StringsLeq(a.operations, b.operations)
  }

  /** `sequences`; `None` is the error for a depth outside 2 to 6. */
  function Sequences(operations: seq<Operation>, depth: int): Option<seq<Sequence>> {
    if depth < 2 || depth > 6 then None
    else
      var edges := SortBy(EdgeLeq, EdgesOf(operations, operations));
      Some(SortBy(SequenceLeq, WalkAll(Index(edges), depth, Ids(operations))))
  }

  /** The object that `walk` closes over: the adjacency lists, and the list it appends to. */
  class Explorer {
    const depth: nat
    var adjacency: Adjacency
    var result: seq<Sequence>

    constructor (depth: nat)
      ensures this.depth == depth && adjacency == map[] && result == []
    {
      this.depth := depth;
      adjacency := map[];
      result := [];
    }

    /** Lines 191-193. */
    method Fill(edges: seq<Edge>)
      requires adjacency == map[]
      modifies this`adjacency
      ensures adjacency == Index(edges)
    {
      for i := 0 to |edges|
        invariant adjacency == Index(edges[..i])
      {
        var e := edges[i];
        assert edges[..i + 1][..i] == edges[..i];
        adjacency := adjacency[e.producer := Out(adjacency, e.producer) + [e]];
      }
      assert edges[..|edges|] == edges;
    }

    /** The inner function `walk`. */
    method Visit(nodes: seq<string>, bindings: seq<Edge>)
      requires 0 < |nodes| <= depth
      modifies this`result
      ensures result == old(result) + Walk(adjacency, depth, nodes, bindings)
      decreases depth - |nodes|, 1
    {
      if |nodes| >= 2 {
        result := result + [Sequence(nodes, bindings)];
      }
      if |nodes| < depth {
        VisitBranches(nodes, bindings, Out(adjacency, nodes[|nodes| - 1]));
      }
    }

    /** Its loop over the edges that go out of the last node. */
    method VisitBranches(nodes: seq<string>, bindings: seq<Edge>, out: seq<Edge>)
      requires 0 < |nodes| < depth
      modifies this`result
      ensures result == old(result) + Branches(adjacency, depth, nodes, bindings, out)
      decreases depth - |nodes|, 0
    {
      for i := 0 to |out|
        invariant result == old(result) + Branches(adjacency, depth, nodes, bindings, out[..i])
      {
        assert out[..i + 1][..i] == out[..i];
        if out[i].consumer !in nodes {
          Visit(nodes + [out[i].consumer], bindings + [out[i]]);
        }
      }
      assert out[..|out|] == out;
    }

    /** The outer loop: a walk from every operation. */
    method VisitAll(starts: seq<string>)
      requires depth > 0
      modifies this`result
      ensures result == old(result) + WalkAll(adjacency, depth, starts)
    {
      for i := 0 to |starts|
        invariant result == old(result) + WalkAll(adjacency, depth, starts[..i])
      {
        assert starts[..i + 1][..i] == starts[..i];
        Visit([starts[i]], []);
      }
      assert starts[..|starts|] == starts;
    }
  }

  /** `sequences` as it runs. */
  method FindSequences(operations: seq<Operation>, depth: int) returns (r: Option<seq<Sequence>>)
    ensures r == Sequences(operations, depth)
  {
    if depth < 2 || depth > 6 {
      return None;
    }
    var edges := Edges(operations);
    var explorer := new Explorer(depth);
    explorer.Fill(edges);
    explorer.VisitAll(Ids(operations));
    ghost var all := WalkAll(explorer.adjacency, depth, Ids(operations));
    assert [] + all == all;
    return Some(SortBy(SequenceLeq, explorer.result));
  }
}
