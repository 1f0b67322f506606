/**
 The stack machine at the heart of the binary-XML decoder, apart from bytes and heap:
 start and end elements drive a stack of open elements, and the word of events that is
 accepted is exactly the pre/post-order traversal of the tree that comes out.
 */
module AxmlMachine {
  import opened Common

  datatype Tree<L> = Node(info: L, kids: seq<Tree<L>>)

  datatype Event<L> = Open(info: L) | Close

  /** An element that is still open: its info and the children that are already closed. */
  datatype Frame<L> = Frame(info: L, kids: seq<Tree<L>>)

  /** `open` is the stack; `root` is the finished top-level element. */
  datatype State<L> = State(open: seq<Frame<L>>, root: Option<Tree<L>>)

  datatype Fault =
    | TruncatedHeader | BadChunkBounds
    | TruncatedLength | BadPool | BadStringCount | StringOutsidePool | TruncatedString
    | IndexOutOfRange
    | NotAxml | StartBeforePool | BadAttributeTable | ElementWithoutName
    | TruncatedAttribute | BadTypedValue | AttributeWithoutName
    | MultipleRoots | UnbalancedEnd | Incomplete

  function Start<L>(): State<L> {
    State([], None)
  }

  function Step<L>(s: State<L>, e: Event<L>): Result<State<L>, Fault> {
    match e
    case Open(info) =>
      if s.open == [] && s.root.Some? then Failure(MultipleRoots)
      else Success(State(s.open + [Frame(info, [])], s.root))
    case Close =>
      if s.open == [] then Failure(UnbalancedEnd)
      else Success(Attach(s))
  }

  /** Close the innermost open element: it joins its parent, or becomes the root. */
  function Attach<L>(s: State<L>): State<L>
    requires s.open != []
  {
    var n := |s.open|;
    var top := s.open[n - 1];
    AddChild(State(s.open[..n - 1], s.root), Node(top.info, top.kids))
  }

  function AddChild<L>(s: State<L>, t: Tree<L>): State<L> {
    var n := |s.open|;
    if n == 0 then State([], Some(t))
    else State(s.open[n - 1 := Frame(s.open[n - 1].info, s.open[n - 1].kids + [t])], s.root)
  }

  function Run<L>(s: State<L>, es: seq<Event<L>>): Result<State<L>, Fault>
    decreases |es|
  {
    if es == [] then Success(s)
    else
      var next :- Step(s, es[0]);
      Run(next, es[1..])
  }

  function Finish<L>(s: State<L>): Result<Tree<L>, Fault> {
    if s.root.None? || s.open != [] then Failure(Incomplete) else Success(s.root.value)
  }

  function Build<L>(es: seq<Event<L>>): Result<Tree<L>, Fault> {
    var s :- Run(Start(), es);
    Finish(s)
  }

  // The traversal that the machine should recognise.

  function Unparse<L>(t: Tree<L>): seq<Event<L>> {
    [Open(t.info)] + UnparseAll(t.kids) + [Close]
  }

  function UnparseAll<L>(ts: seq<Tree<L>>): seq<Event<L>> {
    if ts == [] then [] else Unparse(ts[0]) + UnparseAll(ts[1..])
  }

  /** The events read so far, recovered from the state: the open spine, or the finished tree. */
  function Consumed<L>(s: State<L>): seq<Event<L>> {
    if s.open == [] then (if s.root.None? then [] else Unparse(s.root.value)) else Spine(s.open)
  }

  function Spine<L>(open: seq<Frame<L>>): seq<Event<L>> {
    if open == [] then []
    else Spine(open[..|open| - 1]) + [Open(open[|open| - 1].info)] + UnparseAll(open[|open| - 1].kids)
  }

  /** A root is finished only while nothing is open. */
  predicate Sound<L>(s: State<L>) {
    s.open != [] ==> s.root.None?
  }

  lemma RunOne<L>(s: State<L>, e: Event<L>)
    ensures Run(s, [e]) == Step(s, e)
  {
    assert [e][1..] == [];
  }

  lemma {:induction false} RunConcat<L>(s: State<L>, a: seq<Event<L>>, b: seq<Event<L>>)
    ensures Run(s, a + b) == match Run(s, a) case Success(m) => Run(m, b) case Failure(f) => Failure(f)
    decreases |a|
  {
    if a == [] {
      assert a + b == b;
    } else {
      assert (a + b)[0] == a[0] && (a + b)[1..] == a[1..] + b;
      if Step(s, a[0]).Success? {
        RunConcat(Step(s, a[0]).value, a[1..], b);
      }
    }
  }

  lemma {:induction false} UnparseAllSnoc<L>(ts: seq<Tree<L>>, t: Tree<L>)
    ensures UnparseAll(ts + [t]) == UnparseAll(ts) + Unparse(t)
  {
    if ts == [] {
      assert ts + [t] == [t] && [t][1..] == [];
    } else {
      assert (ts + [t])[0] == ts[0] && (ts + [t])[1..] == ts[1..] + [t];
      UnparseAllSnoc(ts[1..], t);
    }
  }

  /** One step consumes exactly its event: nothing is lost, duplicated or reordered. */
  lemma StepConsumes<L>(s: State<L>, e: Event<L>)
    requires Sound(s) && Step(s, e).Success?
    ensures Sound(Step(s, e).value)
    ensures Consumed(Step(s, e).value) == Consumed(s) + [e]
  {
    var next := Step(s, e).value;
    var n := |s.open|;
    match e {
      case Open(info) =>
        assert next.open[..n] == s.open && next.open[n] == Frame(info, []);
        assert Spine(next.open) == Spine(s.open) + [Open(info)];
      case Close =>
        var t := Node(s.open[n - 1].info, s.open[n - 1].kids);
        var below := s.open[..n - 1];
        assert Spine(s.open) + [Close] == Spine(below) + Unparse(t);
        if n > 1 {
          var parent := below[n - 2];
          assert next.open[n - 2] == Frame(parent.info, parent.kids + [t]);
          assert next.open[..n - 2] == below[..n - 2];
          UnparseAllSnoc(parent.kids, t);
        }
    }
  }

  lemma {:induction false} RunConsumes<L>(s: State<L>, es: seq<Event<L>>)
    requires Sound(s) && Run(s, es).Success?
    ensures Sound(Run(s, es).value)
    ensures Consumed(Run(s, es).value) == Consumed(s) + es
    decreases |es|
  {
    if es != [] {
      StepConsumes(s, es[0]);
      RunConsumes(Step(s, es[0]).value, es[1..]);
      assert [es[0]] + es[1..] == es;
    }
  }

  /** A traversal, read in any state that may open an element, adds its tree as one child. */
  lemma {:induction false} RunUnparse<L>(s: State<L>, t: Tree<L>)
    requires Sound(s) && (s.open != [] || s.root.None?)
    ensures Run(s, Unparse(t)) == Success(AddChild(s, t))
    decreases t, 1, 0
  {
    var begun := State(s.open + [Frame(t.info, [])], s.root);
    assert Unparse(t) == [Open(t.info)] + (UnparseAll(t.kids) + [Close]);
    RunConcat(s, [Open(t.info)], UnparseAll(t.kids) + [Close]);
    RunOne(s, Open(t.info));
    RunConcat(begun, UnparseAll(t.kids), [Close]);
    RunUnparseAll(begun, t, t.kids);
    var full := State(s.open + [Frame(t.info, t.kids)], s.root);
    assert [] + t.kids == t.kids && begun.open[|s.open| := Frame(t.info, t.kids)] == full.open;
    assert full.open[..|s.open|] == s.open;
    RunOne(full, Close);
    assert Attach(full) == AddChild(State(s.open, s.root), t);
  }

  lemma {:induction false} RunUnparseAll<L>(s: State<L>, parent: Tree<L>, ts: seq<Tree<L>>)
    requires Sound(s) && s.open != []
    requires forall t :: t in ts ==> t in parent.kids
    ensures Run(s, UnparseAll(ts)) ==
      var n := |s.open|; var top := s.open[n - 1];
      Success(State(s.open[n - 1 := Frame(top.info, top.kids + ts)], s.root))
    decreases parent, 0, |ts|
  {
    var n := |s.open|;
    var top := s.open[n - 1];
    if ts == [] {
      assert top.kids + ts == top.kids;
      assert s.open[n - 1 := top] == s.open;
    } else {
      assert ts[0] in parent.kids;
      RunUnparse(s, ts[0]);
      var next := AddChild(s, ts[0]);
      RunConcat(s, Unparse(ts[0]), UnparseAll(ts[1..]));
      RunUnparseAll(next, parent, ts[1..]);
      assert top.kids + [ts[0]] + ts[1..] == top.kids + ts;
      assert next.open[n - 1 := Frame(top.info, top.kids + ts)]
          == s.open[n - 1 := Frame(top.info, top.kids + ts)];
    }
  }

  /** The machine accepts a word with tree `t` exactly when the word is the traversal of `t`. */
  lemma BuildExactly<L>(es: seq<Event<L>>, t: Tree<L>)
    ensures Build(es) == Success(t) <==> es == Unparse(t)
  {
    if es == Unparse(t) {
      RunUnparse(Start(), t);
    }
    if Build(es) == Success(t) {
      RunConsumes(Start(), es);
    }
  }

  // Acceptance told by counting alone.

  /** Open elements after `es`, counted from `d`. */
  function Depth<L>(d: int, es: seq<Event<L>>): int
    decreases |es|
  {
    if es == [] then d else Depth(d + (if es[0].Open? then 1 else -1), es[1..])
  }

  /** One balanced word with one top-level element: the depth is positive strictly inside and zero at the end. */
  ghost predicate OneBalancedElement<L>(es: seq<Event<L>>) {
    es != [] && Depth(0, es) == 0 && forall i :: 0 < i < |es| ==> Depth(0, es[..i]) > 0
  }

  /** The same condition met step by step from a state with `d` open elements. */
  predicate Balanced<L>(d: nat, es: seq<Event<L>>)
    decreases |es|
  {
    if es == [] then d == 0
    else if es[0].Open? then Balanced(d + 1, es[1..])
    else d > 0 && (if d == 1 then es[1..] == [] else Balanced(d - 1, es[1..]))
  }

  lemma {:induction false} RunBalanced<L>(s: State<L>, es: seq<Event<L>>)
    requires s.root.None? && (s.open != [] || es != [])
    ensures (Run(s, es).Success? && Finish(Run(s, es).value).Success?) <==> Balanced(|s.open|, es)
    decreases |es|
  {
    if es != [] && Step(s, es[0]).Success? {
      var next := Step(s, es[0]).value;
      if next.root.None? {
        RunBalanced(next, es[1..]);
      } else if es[1..] != [] {
        var more := es[1..];
        assert Step(next, more[0]).Failure?;
      }
    }
  }

  lemma {:induction false} BalancedByDepth<L>(d: nat, es: seq<Event<L>>)
    requires d > 0 || es != []
    ensures Balanced(d, es) <==>
            Depth(d, es) == 0 && forall i :: 0 < i < |es| ==> Depth(d, es[..i]) > 0
    decreases |es|
  {
    if es != [] {
      var d' := d + (if es[0].Open? then 1 else -1);
      var rest := es[1..];
      forall i | 0 < i <= |es|
        ensures Depth(d, es[..i]) == Depth(d', rest[..i - 1])
      {
        assert es[..i][0] == es[0] && es[..i][1..] == rest[..i - 1];
      }
      assert Depth(d, es[..1]) == d';
      if rest == [] {
      } else if d' > 0 {
        BalancedByDepth(d', rest);
        if Balanced(d, es) {
          forall i | 0 < i < |es| ensures Depth(d, es[..i]) > 0 {
            if i == 1 {} else { assert Depth(d', rest[..i - 1]) > 0; }
          }
        }
        if Depth(d, es) == 0 && forall i :: 0 < i < |es| ==> Depth(d, es[..i]) > 0 {
          forall i | 0 < i < |rest| ensures Depth(d', rest[..i]) > 0 {
            assert Depth(d, es[..i + 1]) > 0;
          }
        }
      }
    }
  }

  /** The word is accepted exactly when start and end elements form one balanced element. */
  lemma AcceptsExactlyBalanced<L>(es: seq<Event<L>>)
    ensures Build(es).Success? <==> OneBalancedElement(es)
  {
    if es != [] {
      RunBalanced(Start<L>(), es);
      BalancedByDepth(0, es);
    }
  }
}
