/**
 `_string_pool` and `decode_binary_manifest` as they run: loops that grow a list, and a
 mutable element tree that is built through a stack of its own open elements.
 */
module AxmlElements {
  import opened Common
  import opened Bytes
  import opened AxmlMachine
  import opened AxmlDecoder

  class Element {
    var tag: string
    var attributes: map<string, string>
    var children: seq<Element>

    constructor (tag: string)
      ensures this.tag == tag && attributes == map[] && children == []
    {
      this.tag := tag;
      attributes := map[];
      children := [];
    }
  }

  /** The heap tree below `e`, all of it within `within`, is the tree `t`. */
  ghost predicate Mirrors(e: Element, t: Tree<Label>, within: set<Element>)
    reads within
    decreases t
  {
    && e in within
    && t.info == Label(e.tag, e.attributes)
    && |e.children| == |t.kids|
    && forall i :: 0 <= i < |t.kids| ==> Mirrors(e.children[i], t.kids[i], within)
  }

  lemma {:induction false} MirrorsGrows(e: Element, t: Tree<Label>, small: set<Element>, large: set<Element>)
    requires Mirrors(e, t, small) && small <= large
    ensures Mirrors(e, t, large)
    decreases t
  {
    forall i | 0 <= i < |t.kids| ensures Mirrors(e.children[i], t.kids[i], large) {
      MirrorsGrows(e.children[i], t.kids[i], small, large);
    }
  }

  /** The open element at level `i` holds its closed children, then the element open below it. */
  ghost predicate HoldsFrame(stack: seq<Element>, i: nat, f: Frame<Label>, closed: set<Element>)
    requires i < |stack|
    reads stack, closed
  {
    var e := stack[i];
    && f.info == Label(e.tag, e.attributes)
    && |f.kids| <= |e.children|
    && e.children[|f.kids|..] == stack[i + 1..][..(if i + 1 < |stack| then 1 else 0)]
    && forall k :: 0 <= k < |f.kids| ==> Mirrors(e.children[k], f.kids[k], closed)
  }

  /**
   The stack is the rightmost spine of the tree under `root`: it starts at the root, each
   element's last child is the next one, and everything to the left of it is closed.
   */
  ghost predicate IsSpine(stack: seq<Element>, root: Element?, s: State<Label>, closed: set<Element>)
    reads stack, closed
  {
    && |stack| == |s.open|
    && (forall i, j :: 0 <= i < j < |stack| ==> stack[i] != stack[j])
    && (forall e :: e in stack ==> e !in closed)
    && (forall i :: 0 <= i < |stack| ==> HoldsFrame(stack, i, s.open[i], closed))
    && (if stack != [] then s.root.None? && root == stack[0]
        else if s.root.None? then root == null
        else root != null && Mirrors(root, s.root.value, closed))
  }

  // No element hangs in two places.

  /** The lists of children of some elements. */
  type Hanging = map<Element, seq<Element>>

  ghost function Children(elements: set<Element>): Hanging
    reads elements
  {
    map e | e in elements :: e.children
  }

  /** The elements of the tree so far, open and closed. */
  ghost function Elements(stack: seq<Element>, closed: set<Element>): set<Element> {
    closed + set e | e in stack
  }

  ghost predicate HasChild(kids: Hanging, older e: Element, i: int) {
    e in kids && 0 <= i < |kids[e]|
  }

  /** Children are elements of the tree themselves, no element is a child twice, and the root is nobody's child. */
  ghost predicate HangsOnce(kids: Hanging, root: Element?) {
    && (forall e, i :: HasChild(kids, e, i) ==> kids[e][i] in kids && kids[e][i] != root)
    && (forall e, i, f, j :: HasChild(kids, e, i) && HasChild(kids, f, j) && kids[e][i] == kids[f][j] ==> e == f && i == j)
  }

  /** Hanging a new element without children under `parent` keeps this. */
  lemma HungOnce(kids: Hanging, root: Element?, parent: Element, element: Element)
    requires HangsOnce(kids, root) && parent in kids && element !in kids && element != root
    ensures HangsOnce(kids[parent := kids[parent] + [element]][element := []], root)
  {
    var more := kids[parent := kids[parent] + [element]][element := []];
    forall e: Element, i | HasChild(more, e, i)
      ensures more[e][i] in more && more[e][i] != root
      ensures more[e][i] == element <==> e == parent && i == |kids[parent]|
      ensures more[e][i] != element ==> HasChild(kids, e, i) && kids[e][i] == more[e][i]
    {
      assert (e == parent && i == |kids[parent]|) || HasChild(kids, e, i);
    }
  }

  /** So does a new root without children. */
  lemma NewRoot(kids: Hanging, root: Element?, element: Element)
    requires HangsOnce(kids, root) && element !in kids
    ensures HangsOnce(kids[element := []], element)
  {
    var more := kids[element := []];
    forall e: Element, i | HasChild(more, e, i) ensures HasChild(kids, e, i) && kids[e][i] == more[e][i] {
    }
  }

  /** The element that is reached from `e` by a path of child positions. */
  ghost function At(e: Element, path: seq<nat>, kids: Hanging): Element? {
    if path == [] then e
    else
      var n := |path| - 1;
      var parent := At(e, path[..n], kids);
      if parent != null && HasChild(kids, parent, path[n]) then kids[parent][path[n]] else null
  }

  /** Different paths from the root reach different elements. */
  lemma {:induction false} DifferentPathsDiffer(root: Element, kids: Hanging, p: seq<nat>, q: seq<nat>)
    requires HangsOnce(kids, root)
    requires At(root, p, kids) != null && At(root, p, kids) == At(root, q, kids)
    ensures p == q
    decreases |p|
  {
    if p != [] && q != [] {
      var m, n := |p| - 1, |q| - 1;
      DifferentPathsDiffer(root, kids, p[..m], q[..n]);
      assert p == p[..m] + [p[m]] && q == q[..n] + [q[n]];
    }
  }

  lemma ElementsPush(stack: seq<Element>, closed: set<Element>, element: Element)
    ensures Elements(stack + [element], closed) == Elements(stack, closed) + {element}
  {
  }

  lemma ElementsPop(stack: seq<Element>, closed: set<Element>)
    requires stack != []
    ensures Elements(stack[..|stack| - 1], closed + {stack[|stack| - 1]}) == Elements(stack, closed)
  {
    assert stack == stack[..|stack| - 1] + [stack[|stack| - 1]];
  }

  /** Lines 201-207: hang a new element under the innermost open one, and open it: the spine stays one. */
  method Attach(stack: seq<Element>, root: Element?, element: Element,
                ghost s: State<Label>, ghost closed: set<Element>)
    returns (r: Outcome<(seq<Element>, Element)>)
    requires IsSpine(stack, root, s, closed)
    requires element !in stack && element !in closed && element.children == []
    modifies if stack == [] then {} else {stack[|stack| - 1]}
    ensures match Step(s, Open(Label(element.tag, element.attributes)))
      case Failure(f) => r == Failure(f)
      case Success(next) =>
        && r.Success? && r.value.0 == stack + [element] && IsSpine(r.value.0, r.value.1, next, closed)
        && r.value.1 == (if stack == [] then element else stack[0])
        && (stack != [] ==> stack[|stack| - 1].children == old(stack[|stack| - 1].children) + [element])
  {
    var newRoot: Element;
    ghost var n := |stack|;
    if stack != [] {
      var parent := stack[|stack| - 1];
      parent.children := parent.children + [element];
      newRoot := stack[0];
    } else if root == null {
      newRoot := element;
    } else {
      return Failure(MultipleRoots);
    }
    var deeper := stack + [element];
    ghost var next := Step(s, Open(Label(element.tag, element.attributes))).value;
    forall i | 0 <= i <= n ensures HoldsFrame(deeper, i, next.open[i], closed) {
      if i < n {
        assert old(HoldsFrame(stack, i, s.open[i], closed));
        if i < n - 1 {
          assert deeper[i + 1..][..1] == stack[i + 1..][..1];
        } else {
          assert deeper[i + 1..][..1] == [element];
        }
      }
    }
    return Success((deeper, newRoot));
  }

  /** The same: every element still hangs in one place. */
  method OpenElement(stack: seq<Element>, root: Element?, element: Element,
                     ghost s: State<Label>, ghost closed: set<Element>)
    returns (r: Outcome<(seq<Element>, Element)>)
    requires IsSpine(stack, root, s, closed)
    requires HangsOnce(Children(Elements(stack, closed)), root)
    requires element !in stack && element !in closed && element.children == []
    modifies if stack == [] then {} else {stack[|stack| - 1]}
    ensures match Step(s, Open(Label(element.tag, element.attributes)))
      case Failure(f) => r == Failure(f)
      case Success(next) =>
        && r.Success? && r.value.0 == stack + [element] && IsSpine(r.value.0, r.value.1, next, closed)
        && HangsOnce(Children(Elements(r.value.0, closed)), r.value.1)
  {
    ghost var kids: Hanging := Children(Elements(stack, closed));
    r := Attach(stack, root, element, s, closed);
    if r.Success? {
      ElementsPush(stack, closed, element);
      if stack == [] {
        NewRoot(kids, root, element);
        assert Children(Elements(r.value.0, closed)) == kids[element := []];
      } else {
        ghost var parent: Element := stack[|stack| - 1];
        HungOnce(kids, root, parent, element);
        assert Children(Elements(r.value.0, closed)) == kids[parent := kids[parent] + [element]][element := []];
      }
    }
  }

  /** Lines 208-211: close the innermost open element. It stays where it hangs. */
  method CloseElement(stack: seq<Element>, root: Element?, ghost s: State<Label>, ghost closed: set<Element>)
    returns (r: Outcome<seq<Element>>, ghost closed': set<Element>)
    requires IsSpine(stack, root, s, closed)
    ensures match Step(s, Close)
      case Failure(f) => r == Failure(f)
      case Success(next) =>
        && r.Success? && r.value == stack[..|stack| - 1]
        && closed' == closed + {stack[|stack| - 1]} && IsSpine(r.value, root, next, closed')
  {
    closed' := closed;
    if stack == [] {
      return Failure(UnbalancedEnd), closed;
    }
    ghost var n := |stack|;
    ghost var top := stack[n - 1];
    closed' := closed + {top};
    ghost var next := Step(s, Close).value;
    ghost var t := Node(s.open[n - 1].info, s.open[n - 1].kids);
    assert HoldsFrame(stack, n - 1, s.open[n - 1], closed);
    forall k | 0 <= k < |t.kids| ensures Mirrors(top.children[k], t.kids[k], closed') {
      MirrorsGrows(top.children[k], t.kids[k], closed, closed');
    }
    assert Mirrors(top, t, closed');
    ghost var shallower := stack[..n - 1];
    forall i | 0 <= i < n - 1 ensures HoldsFrame(shallower, i, next.open[i], closed') {
      var kids := s.open[i].kids;
      assert HoldsFrame(stack, i, s.open[i], closed);
      forall k | 0 <= k < |kids| ensures Mirrors(stack[i].children[k], kids[k], closed') {
        MirrorsGrows(stack[i].children[k], kids[k], closed, closed');
      }
      if i == n - 2 {
        assert stack[i + 1..][..1] == [top];
        assert stack[i].children[|kids|] == top;
      } else {
        assert stack[i + 1..][..1] == shallower[i + 1..][..1];
      }
    }
    return Success(stack[..|stack| - 1]), closed';
  }

  /** `_string_pool`. */
  method StringPool(codec: TextCodec, raw: seq<byte>, offset: int) returns (r: Outcome<seq<string>>)
    ensures r == ReadPool(codec, raw, offset)
  {
    var p :- ReadPoolHeader(raw, offset);
    var strings: seq<string> := [];
    for index := 0 to p.count
      invariant |strings| == index
      invariant ReadPool(codec, raw, offset) == ReadStrings(codec, raw, p, strings)
    {
      var s :- ReadString(codec, raw, p, index);
      strings := strings + [s];
    }
    return Success(strings);
  }

  /** Lines 184-200: the attribute loop, setting one attribute after the other on the element. */
  method SetAttributes(element: Element, raw: seq<byte>, strings: seq<string>, table: Table)
    returns (failed: Option<Fault>)
    requires table.end <= |raw| && element.attributes == map[]
    modifies element
    ensures element.tag == old(element.tag) && element.children == old(element.children)
    ensures match ReadAttributes(raw, strings, table, 0, map[])
      case Failure(f) => failed == Some(f)
      case Success(attributes) => failed == None && element.attributes == attributes
  {
    ghost var all := ReadAttributes(raw, strings, table, 0, map[]);
    for index := 0 to table.count
      invariant element.tag == old(element.tag) && element.children == old(element.children)
      invariant all == ReadAttributes(raw, strings, table, index, element.attributes)
    {
      var attribute := ReadAttribute(raw, strings, table.Cursor(index), table.end);
      if attribute.Failure? {
        return Some(attribute.error);
      }
      element.attributes := element.attributes[attribute.value.0 := attribute.value.1];
    }
    return None;
  }

  /** Lines 169-200: a start element read into a new element. */
  method StartElement(raw: seq<byte>, strings: Option<seq<string>>, offset: nat, c: Chunk)
    returns (r: Outcome<Element>)
    requires c.header <= c.size && offset + c.size <= |raw|
    ensures match ReadStart(raw, strings, offset, c)
      case Failure(f) => r == Failure(f)
      case Success(info) =>
        && r.Success? && fresh(r.value) && r.value.children == []
        && info == Label(r.value.tag, r.value.attributes)
  {
    var header :- ReadStartHeader(raw, strings, offset, c);
    var element := new Element(header.0);
    var failed := SetAttributes(element, raw, strings.value, header.1);
    if failed.Some? {
      return Failure(failed.value);
    }
    return Success(element);
  }

  /** What the chunk loop keeps: the pool, the stack of open elements and the root. */
  datatype Building = Building(strings: Option<seq<string>>, stack: seq<Element>, root: Element?)

  ghost predicate Represents(b: Building, p: Progress, closed: set<Element>)
    reads b.stack, closed
  {
    && b.strings == p.strings && IsSpine(b.stack, b.root, p.machine, closed)
    && HangsOnce(Children(Elements(b.stack, closed)), b.root)
  }

  /** Lines 169-207: a start element, read and hung into the tree. */
  method ApplyStart(raw: seq<byte>, offset: nat, c: Chunk, b: Building, ghost p: Progress, ghost closed: set<Element>)
    returns (r: Outcome<Building>)
    requires c.header <= c.size && offset + c.size <= |raw|
    requires Represents(b, p, closed)
    modifies b.stack
    ensures match ReadStart(raw, b.strings, offset, c)
      case Failure(f) => r == Failure(f)
      case Success(info) =>
        match Step(p.machine, Open(info))
        case Failure(f) => r == Failure(f)
        case Success(next) => r.Success? && Represents(r.value, p.(machine := next), closed)
    ensures r.Success? ==> fresh((set e | e in r.value.stack) - set e | e in b.stack)
  {
    var element :- StartElement(raw, b.strings, offset, c);
    var pushed :- OpenElement(b.stack, b.root, element, p.machine, closed);
    return Success(Building(b.strings, pushed.0, pushed.1));
  }

  /** Lines 166-211: one turn of the chunk loop. */
  method ApplyChunk(codec: TextCodec, raw: seq<byte>, offset: nat, c: Chunk, b: Building,
                    ghost p: Progress, ghost closed: set<Element>)
    returns (r: Outcome<Building>, ghost closed': set<Element>)
    requires c.header <= c.size && offset + c.size <= |raw|
    requires Represents(b, p, closed)
    modifies b.stack
    ensures match TakeChunk(codec, raw, offset, c, p)
      case Failure(f) => r == Failure(f)
      case Success(next) => r.Success? && Represents(r.value, next, closed')
    ensures r.Success? ==>
      fresh(closed' - closed - set e | e in b.stack) && fresh((set e | e in r.value.stack) - set e | e in b.stack)
  {
    closed' := closed;
    if c.kind == STRING_POOL {
      var pool := StringPool(codec, raw, offset);
      if pool.Failure? {
        return Failure(pool.error), closed;
      }
      r := Success(b.(strings := Some(pool.value)));
    } else if c.kind == START_ELEMENT {
      r := ApplyStart(raw, offset, c, b, p, closed);
    } else if c.kind == END_ELEMENT {
      var popped;
      popped, closed' := CloseElement(b.stack, b.root, p.machine, closed);
      if popped.Failure? {
        return Failure(popped.error), closed;
      }
      ElementsPop(b.stack, closed);
      r := Success(b.(stack := popped.value));
    } else {
      r := Success(b);
    }
  }

  lemma NothingBuilt()
    ensures Represents(Building(None, [], null), Progress(None, Start()), {})
  {
  }

  /** Lines 213-214: what the loop leaves is a whole tree exactly when there is a root and nothing is open. */
  lemma WhatIsBuilt(b: Building, p: Progress, closed: set<Element>)
    requires Represents(b, p, closed)
    ensures Finish(p.machine).Success? <==> b.root != null && b.stack == []
    ensures Finish(p.machine).Success? ==>
      Mirrors(b.root, Finish(p.machine).value, closed) && HangsOnce(Children(closed), b.root)
  {
    if b.stack == [] {
      assert Elements(b.stack, closed) == closed;
    }
  }

  /** What one turn of the loop makes of the progress, and where the next chunk starts. */
  ghost function Advance(codec: TextCodec, raw: seq<byte>, offset: nat, p: Progress): Outcome<(Progress, nat)> {
    var c :- ReadChunk(raw, offset);
    var next :- TakeChunk(codec, raw, offset, c, p);
    Success((next, offset + c.size))
  }

  lemma WalkTurn(codec: TextCodec, raw: seq<byte>, offset: nat, total: int, p: Progress)
    requires offset < total
    ensures Walk(codec, raw, offset, total, p) ==
      if Advance(codec, raw, offset, p).Failure? then Failure(Advance(codec, raw, offset, p).error)
      else Walk(codec, raw, Advance(codec, raw, offset, p).value.1, total, Advance(codec, raw, offset, p).value.0)
    ensures Advance(codec, raw, offset, p).Success? ==> Advance(codec, raw, offset, p).value.1 > offset
  {
  }

  /** One turn of the loop: read a chunk, apply it, move on by its size. */
  method TakeTurn(codec: TextCodec, raw: seq<byte>, offset: nat, b: Building, ghost p: Progress, ghost closed: set<Element>)
    returns (r: Outcome<(Building, nat)>, ghost closed': set<Element>)
    requires Represents(b, p, closed)
    modifies b.stack
    ensures var next := Advance(codec, raw, offset, p);
      if next.Failure? then r == Failure(next.error)
      else r.Success? && Represents(r.value.0, next.value.0, closed') && r.value.1 == next.value.1
    ensures r.Success? ==>
      fresh(closed' - closed - set e | e in b.stack) && fresh((set e | e in r.value.0.stack) - set e | e in b.stack)
  {
    closed' := closed;
    var c :- ReadChunk(raw, offset);
    var turn;
    turn, closed' := ApplyChunk(codec, raw, offset, c, b, p, closed);
    if turn.Failure? {
      return Failure(turn.error), closed;
    }
    return Success((turn.value, offset + c.size)), closed';
  }

  /** Lines 160-212: the chunk loop. */
  method ReadChunks(codec: TextCodec, raw: seq<byte>, start: nat, total: int)
    returns (r: Outcome<Building>, ghost elements: set<Element>)
    ensures match Walk(codec, raw, start, total, Progress(None, Start()))
      case Failure(f) => r == Failure(f)
      case Success(p) => r.Success? && Represents(r.value, p, elements) && fresh(elements)
  {
    elements := {};
    var offset := start;
    var b := Building(None, [], null);
    ghost var p := Progress(None, Start());
    ghost var whole := Walk(codec, raw, offset, total, p);
    NothingBuilt();
    while offset < total
      invariant Represents(b, p, elements)
      invariant fresh(elements) && fresh(b.stack)
      invariant whole == Walk(codec, raw, offset, total, p)
    {
      var turn;
      ghost var taken := Advance(codec, raw, offset, p);
      turn, elements := TakeTurn(codec, raw, offset, b, p, elements);
      if turn.Failure? {
        return Failure(turn.error), {};
      }
      WalkTurn(codec, raw, offset, total, p);
      b, p, offset := turn.value.0, taken.value.0, turn.value.1;
    }
    return Success(b), elements;
  }

  /** `decode_binary_manifest`: the root of a fresh element tree, no element in two places, that mirrors the decoded one. */
  method DecodeBinaryManifest(codec: TextCodec, raw: seq<byte>)
    returns (r: Outcome<Element>, ghost elements: set<Element>)
    ensures match Decode(codec, raw)
      case Failure(f) => r == Failure(f)
      case Success(t) =>
        r.Success? && fresh(elements) && Mirrors(r.value, t, elements) && HangsOnce(Children(elements), r.value)
  {
    elements := {};
    var document :- ReadDocument(raw);
    var built;
    built, elements := ReadChunks(codec, raw, document.header, document.size);
    if built.Failure? {
      return Failure(built.error), {};
    }
    ghost var p := Walk(codec, raw, document.header, document.size, Progress(None, Start())).value;
    var b := built.value;
    WhatIsBuilt(b, p, elements);
    if b.root == null || b.stack != [] {
      return Failure(Incomplete), {};
    }
    return Success(b.root), elements;
  }
}
