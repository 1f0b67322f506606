/**
 `decode_binary_manifest` and its readers. The functions say what the decoder computes on
 bytes; the methods compute it with loops and a mutable element tree, and are proved equal.
 Every fixed-width read carries its bounds as a precondition of `U16`/`U32`.
 */
module AxmlDecoder {
  import opened Common
  import opened Bytes
  import opened Numerals
  import opened AxmlMachine

  const NO_INDEX: nat := 0xFFFF_FFFF
  const STRING_POOL: nat := 0x0001
  const XML: nat := 0x0003
  const START_ELEMENT: nat := 0x0102
  const END_ELEMENT: nat := 0x0103
  const UTF8_FLAG: nat := 0x100

  type Outcome<T> = Result<T, Fault>

  /** `bytes.decode(..., "replace")` in the two encodings a pool may use. */
  datatype TextCodec = TextCodec(utf8: seq<byte> -> string, utf16: seq<byte> -> string)

  datatype Chunk = Chunk(kind: nat, header: nat, size: nat)

  /** What an element carries besides its children. */
  datatype Label = Label(tag: string, attributes: map<string, string>)

  /** `_chunk`. */
  function ReadChunk(raw: seq<byte>, offset: int): (r: Outcome<Chunk>)
    ensures r.Success? ==>
      8 <= r.value.header <= r.value.size && 0 <= offset && offset + r.value.size <= |raw|
  {
    if offset < 0 || offset + 8 > |raw| then Failure(TruncatedHeader)
    else
      var c := Chunk(U16(raw, offset), U16(raw, offset + 2), U32(raw, offset + 4));
      if c.header < 8 || c.size < c.header || offset + c.size > |raw| then Failure(BadChunkBounds)
      else Success(c)
  }

  /** `_length8`: a length and the offset after it. */
  function Length8(raw: seq<byte>, offset: nat): Outcome<(nat, nat)> {
    if offset >= |raw| then Failure(TruncatedLength)
    else if raw[offset] >= 0x80 then
      if offset + 1 >= |raw| then Failure(TruncatedLength)
      else Success(((raw[offset] as int % 0x80) * 256 + raw[offset + 1] as int, offset + 2))
    else Success((raw[offset] as int, offset + 1))
  }

  /** `_length16`. */
  function Length16(raw: seq<byte>, offset: nat): Outcome<(nat, nat)> {
    if offset + 2 > |raw| then Failure(TruncatedLength)
    else if U16(raw, offset) >= 0x8000 then
      if offset + 4 > |raw| then Failure(TruncatedLength)
      else Success(((U16(raw, offset) % 0x8000) * TWO16 + U16(raw, offset + 2), offset + 4))
    else Success((U16(raw, offset), offset + 2))
  }

  /** The five words of a pool header that the decoder reads, with the pool's place in the file. */
  datatype Pool = Pool(base: nat, header: nat, size: nat, count: nat, utf8: bool, start: nat)

  predicate PoolFits(raw: seq<byte>, p: Pool) {
    p.base + p.size <= |raw| && p.header + 4 * p.count <= p.size
  }

  function ReadPoolHeader(raw: seq<byte>, offset: int): (r: Outcome<Pool>)
    ensures r.Success? ==> PoolFits(raw, r.value) && r.value.size >= 8
  {
    var c :- ReadChunk(raw, offset);
    if c.kind != STRING_POOL || c.header < 28 then Failure(BadPool)
    else
      var count := U32(raw, offset + 8);
      if count > 1_000_000 || c.header + count * 4 > c.size then Failure(BadStringCount)
      else
        Success(Pool(offset, c.header, c.size, count,
                     U32(raw, offset + 16) / UTF8_FLAG % 2 == 1, U32(raw, offset + 20)))
  }

  /** One turn of the loop in `_string_pool`. */
  function ReadString(codec: TextCodec, raw: seq<byte>, p: Pool, index: nat): Outcome<string>
    requires PoolFits(raw, p) && index < p.count
  {
    var cursor := p.base + p.start + U32(raw, p.base + p.header + 4 * index);
    if cursor >= p.base + p.size then Failure(StringOutsidePool)
    else if p.utf8 then
      var (_, next) :- Length8(raw, cursor);
      var (length, first) :- Length8(raw, next);
      if first + length > p.base + p.size then Failure(TruncatedString)
      else Success(codec.utf8(raw[first..first + length]))
    else
      var (length, first) :- Length16(raw, cursor);
      if first + 2 * length > p.base + p.size then Failure(TruncatedString)
      else Success(codec.utf16(raw[first..first + 2 * length]))
  }

  function ReadStrings(codec: TextCodec, raw: seq<byte>, p: Pool, done: seq<string>): Outcome<seq<string>>
    requires PoolFits(raw, p) && |done| <= p.count
    decreases p.count - |done|
  {
    if |done| == p.count then Success(done)
    else
      var s :- ReadString(codec, raw, p, |done|);
      ReadStrings(codec, raw, p, done + [s])
  }

  function ReadPool(codec: TextCodec, raw: seq<byte>, offset: int): Outcome<seq<string>> {
    var p :- ReadPoolHeader(raw, offset);
    ReadStrings(codec, raw, p, [])
  }

  /** `_pool_value`. */
  function PoolValue(strings: seq<string>, index: nat): Outcome<Option<string>> {
    if index == NO_INDEX then Success(None)
    else if index >= |strings| then Failure(IndexOutOfRange)
    else Success(Some(strings[index]))
  }

  /** `_typed_value`. */
  function TypedValue(strings: seq<string>, kind: nat, data: nat): Outcome<string> {
    if kind == 0x03 then
      var v :- PoolValue(strings, data);
      Success(if v.Some? then v.value else "")
    else Success(ScalarText(kind, data))
  }

  function ScalarText(kind: nat, data: nat): string {
    if kind == 0x12 then (if data != 0 then "true" else "false")
    else if kind == 0x10 then DecInt(if data < 0x8000_0000 then data else data - TWO32)
    else if kind == 0x11 then "0x" + Hex(8, data)
    else if kind == 0x01 then "@0x" + Hex(8, data)
    else if kind == 0x02 then "?0x" + Hex(8, data)
    else "0x" + Hex(8, data)
  }

  /** `{namespace}name`, or the bare name when the namespace is absent or empty. */
  function QName(namespace: Option<string>, name: string): string {
    if namespace.Some? && namespace.value != "" then "{" + namespace.value + "}" + name else name
  }

  /** One turn of the attribute loop: the qualified name and the value. */
  function ReadAttribute(raw: seq<byte>, strings: seq<string>, cursor: nat, end: nat): Outcome<(string, string)>
    requires end <= |raw|
  {
    if cursor + 20 > end then Failure(TruncatedAttribute)
    else if U16(raw, cursor + 12) < 8 then Failure(BadTypedValue)
    else
      var name :- PoolValue(strings, U32(raw, cursor + 4));
      if name.None? || name.value == "" then Failure(AttributeWithoutName)
      else
        var namespace :- PoolValue(strings, U32(raw, cursor));
        var text :- PoolValue(strings, U32(raw, cursor + 8));
        var value :- if text.Some? then Success(text.value)
                     else TypedValue(strings, raw[cursor + 15] as int, U32(raw, cursor + 16));
        Success((QName(namespace, name.value), value))
  }

  /** Where the attributes of one start element lie. */
  datatype Table = Table(first: nat, stride: nat, count: nat, end: nat) {
    function Cursor(index: nat): nat {
      first + index * stride
    }
  }

  function ReadAttributes(raw: seq<byte>, strings: seq<string>, t: Table, index: nat,
                          done: map<string, string>): Outcome<map<string, string>>
    requires t.end <= |raw| && index <= t.count
    decreases t.count - index
  {
    if index == t.count then Success(done)
    else
      var (name, value) :- ReadAttribute(raw, strings, t.Cursor(index), t.end);
      ReadAttributes(raw, strings, t, index + 1, done[name := value])
  }

  /** The part of a start element before its attributes: the tag and the attribute table. */
  function ReadStartHeader(raw: seq<byte>, strings: Option<seq<string>>, offset: nat, c: Chunk)
    : (r: Outcome<(string, Table)>)
    requires c.header <= c.size && offset + c.size <= |raw|
    ensures r.Success? ==> strings.Some? && r.value.1.end <= |raw|
  {
    if strings.None? || c.header < 36 then Failure(StartBeforePool)
    else if U16(raw, offset + 26) < 20 || U16(raw, offset + 28) > 65_535 then Failure(BadAttributeTable)
    else
      var name :- PoolValue(strings.value, U32(raw, offset + 20));
      if name.None? || name.value == "" then Failure(ElementWithoutName)
      else
        var namespace :- PoolValue(strings.value, U32(raw, offset + 16));
        Success((QName(namespace, name.value),
                 Table(offset + 16 + U16(raw, offset + 24), U16(raw, offset + 26),
                       U16(raw, offset + 28), offset + c.size)))
  }

  function ReadStart(raw: seq<byte>, strings: Option<seq<string>>, offset: nat, c: Chunk): Outcome<Label>
    requires c.header <= c.size && offset + c.size <= |raw|
  {
    var (tag, table) :- ReadStartHeader(raw, strings, offset, c);
    var attributes :- ReadAttributes(raw, strings.value, table, 0, map[]);
    Success(Label(tag, attributes))
  }

  /** The decoder's state between chunks. */
  datatype Progress = Progress(strings: Option<seq<string>>, machine: State<Label>)

  /** What one chunk does to the state. */
  function TakeChunk(codec: TextCodec, raw: seq<byte>, offset: nat, c: Chunk, p: Progress): Outcome<Progress>
    requires c.header <= c.size && offset + c.size <= |raw|
  {
    if c.kind == STRING_POOL then
      var strings :- ReadPool(codec, raw, offset);
      Success(p.(strings := Some(strings)))
    else if c.kind == START_ELEMENT then
      var info :- ReadStart(raw, p.strings, offset, c);
      var m :- Step(p.machine, Open(info));
      Success(p.(machine := m))
    else if c.kind == END_ELEMENT then
      var m :- Step(p.machine, Close);
      Success(p.(machine := m))
    else Success(p)
  }

  /** The chunk loop, from `offset` to `total`. */
  function Walk(codec: TextCodec, raw: seq<byte>, offset: nat, total: int, p: Progress): Outcome<Progress>
    decreases total - offset
  {
    if offset >= total then Success(p)
    else
      var c :- ReadChunk(raw, offset);
      var next :- TakeChunk(codec, raw, offset, c, p);
      Walk(codec, raw, offset + c.size, total, next)
  }

  function ReadDocument(raw: seq<byte>): (r: Outcome<Chunk>)
    ensures r.Success? ==> r.value.header >= 8
  {
    var c :- ReadChunk(raw, 0);
    if c.kind != XML then Failure(NotAxml) else Success(c)
  }

  /** `decode_binary_manifest` on values. */
  function Decode(codec: TextCodec, raw: seq<byte>): Outcome<Tree<Label>> {
    var c :- ReadDocument(raw);
    var p :- Walk(codec, raw, c.header, c.size, Progress(None, Start()));
    Finish(p.machine)
  }

  // The same file read in two passes: first the events, then the machine.

  function Lex(codec: TextCodec, raw: seq<byte>, offset: nat, total: int, strings: Option<seq<string>>)
    : Outcome<seq<Event<Label>>>
    decreases total - offset
  {
    if offset >= total then Success([])
    else
      var c :- ReadChunk(raw, offset);
      if c.kind == STRING_POOL then
        var pool :- ReadPool(codec, raw, offset);
        Lex(codec, raw, offset + c.size, total, Some(pool))
      else if c.kind == START_ELEMENT then
        var info :- ReadStart(raw, strings, offset, c);
        var rest :- Lex(codec, raw, offset + c.size, total, strings);
        Success([Open(info)] + rest)
      else if c.kind == END_ELEMENT then
        var rest :- Lex(codec, raw, offset + c.size, total, strings);
        Success([Close] + rest)
      else Lex(codec, raw, offset + c.size, total, strings)
  }

  /** The events of a whole file. */
  function Events(codec: TextCodec, raw: seq<byte>): Outcome<seq<Event<Label>>> {
    var c :- ReadDocument(raw);
    Lex(codec, raw, c.header, c.size, None)
  }

  lemma {:induction false} WalkIsLexThenRun(codec: TextCodec, raw: seq<byte>, offset: nat, total: int, p: Progress)
    ensures var w := Walk(codec, raw, offset, total, p);
            var l := Lex(codec, raw, offset, total, p.strings);
            && (w.Success? <==> l.Success? && Run(p.machine, l.value).Success?)
            && (w.Success? ==> Run(p.machine, l.value) == Success(w.value.machine))
    decreases total - offset
  {
    if offset < total && ReadChunk(raw, offset).Success? {
      var c := ReadChunk(raw, offset).value;
      var next := TakeChunk(codec, raw, offset, c, p);
      if next.Success? {
        WalkIsLexThenRun(codec, raw, offset + c.size, total, next.value);
      }
      var l := Lex(codec, raw, offset, total, p.strings);
      if l.Success? && (c.kind == START_ELEMENT || c.kind == END_ELEMENT) {
        var rest := Lex(codec, raw, offset + c.size, total, p.strings).value;
        assert l.value[1..] == rest;
      }
    }
  }

  /**
   A file decodes to `t` exactly when its chunks read cleanly and its start/end chunks are,
   in order, the traversal of `t`.
   */
  lemma DecodeExactly(codec: TextCodec, raw: seq<byte>, t: Tree<Label>)
    ensures Decode(codec, raw) == Success(t) <==> Events(codec, raw) == Success(Unparse(t))
  {
    var c := ReadDocument(raw);
    if c.Success? {
      WalkIsLexThenRun(codec, raw, c.value.header, c.value.size, Progress(None, Start()));
      var l := Events(codec, raw);
      if l.Success? {
        BuildExactly(l.value, t);
      }
    }
  }

  /** A file decodes at all exactly when its chunks read cleanly and form one balanced element. */
  lemma DecodesExactlyWhenBalanced(codec: TextCodec, raw: seq<byte>)
    ensures Decode(codec, raw).Success? <==>
            Events(codec, raw).Success? && OneBalancedElement(Events(codec, raw).value)
  {
    var c := ReadDocument(raw);
    if c.Success? {
      WalkIsLexThenRun(codec, raw, c.value.header, c.value.size, Progress(None, Start()));
      var l := Events(codec, raw);
      if l.Success? {
        AcceptsExactlyBalanced(l.value);
      }
    }
  }
}
