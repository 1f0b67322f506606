/**
 An encoder of binary XML, after the one in tests/test_mobile.py but for either pool
 encoding and either length width, and the proof that decoding undoes it.
 */
module AxmlEncoder {
  import opened Common
  import opened Bytes
  import opened AxmlMachine
  import opened AxmlDecoder

  /** An attribute value: text, a typed reference to a string, or a typed scalar. */
  datatype Value = Text(text: string) | StringRef(text: string) | Scalar(kind: byte, data: nat)

  datatype Attribute = Attribute(namespace: Option<string>, name: string, value: Value)

  /** An element as it is written: namespaces still apart from names. */
  datatype Source = Source(namespace: Option<string>, name: string, attributes: seq<Attribute>)

  /** How the pool is written: UTF-16 or UTF-8, and whether lengths always take two units. */
  datatype Style = Style(wide: bool, long: bool)

  datatype Encoder = Encoder(utf8: string -> seq<byte>, utf16: string -> seq<byte>)

  // What the tree means once namespaces are folded into names.

  function ValueText(v: Value): string {
    match v
    case Text(s) => s
    case StringRef(s) => s
    case Scalar(kind, data) => ScalarText(kind as int, data)
  }

  function AttributeMap(attributes: seq<Attribute>, done: map<string, string>): map<string, string> {
    if attributes == [] then done
    else
      var a := attributes[0];
      AttributeMap(attributes[1..], done[QName(a.namespace, a.name) := ValueText(a.value)])
  }

  function Qualify(t: Tree<Source>): Tree<Label> {
    Node(QualifyLabel(t.info), QualifyAll(t.kids))
  }

  function QualifyLabel(s: Source): Label {
    Label(QName(s.namespace, s.name), AttributeMap(s.attributes, map[]))
  }

  function QualifyAll(ts: seq<Tree<Source>>): seq<Tree<Label>> {
    if ts == [] then [] else [Qualify(ts[0])] + QualifyAll(ts[1..])
  }

  // What can be written at all.

  predicate InPool(pool: seq<string>, s: Option<string>) {
    s.Some? ==> s.value in pool
  }

  predicate WritableAttribute(pool: seq<string>, a: Attribute) {
    && a.name != "" && a.name in pool && InPool(pool, a.namespace)
    && (if a.value.Scalar? then a.value.kind != 3 && a.value.data < TWO32 else a.value.text in pool)
  }

  predicate WritableLabel(pool: seq<string>, s: Source) {
    && s.name != "" && s.name in pool && InPool(pool, s.namespace)
    && |s.attributes| <= 65_535
    && forall a :: a in s.attributes ==> WritableAttribute(pool, a)
  }

  predicate Writable(pool: seq<string>, t: Tree<Source>) {
    WritableLabel(pool, t.info) && WritableAll(pool, t.kids)
  }

  predicate WritableAll(pool: seq<string>, ts: seq<Tree<Source>>) {
    ts == [] || (Writable(pool, ts[0]) && WritableAll(pool, ts[1..]))
  }

  function Payload(enc: Encoder, style: Style, s: string): seq<byte> {
    if style.wide then enc.utf16(s) else enc.utf8(s)
  }

  /** The string's lengths fit their fields. */
  predicate Fits(enc: Encoder, style: Style, s: string) {
    var bytes := Payload(enc, style, s);
    if style.wide then |bytes| % 2 == 0 && |bytes| / 2 < 0x8000_0000
    else |s| < 0x8000 && |bytes| < 0x8000
  }

  predicate GoodPool(enc: Encoder, style: Style, pool: seq<string>) {
    |pool| <= 1_000_000 && AllFit(enc, style, pool)
  }

  predicate AllFit(enc: Encoder, style: Style, pool: seq<string>) {
    forall i :: 0 <= i < |pool| ==> Fits(enc, style, pool[i])
  }

  /** The decoder's codec undoes the encoder on these strings. */
  predicate Inverts(codec: TextCodec, enc: Encoder, style: Style, pool: seq<string>) {
    forall i :: 0 <= i < |pool| ==> InvertsString(codec, enc, style, pool[i])
  }

  predicate InvertsString(codec: TextCodec, enc: Encoder, style: Style, s: string) {
    (if style.wide then codec.utf16(enc.utf16(s)) else codec.utf8(enc.utf8(s))) == s
  }

  // Writing.

  function PutLength8(n: nat, long: bool): seq<byte>
    requires n < 0x8000
  {
    if long || n >= 0x80 then [0x80 + n / 256, n % 256] else [n]
  }

  function PutLength16(n: nat, long: bool): seq<byte>
    requires n < 0x8000_0000
  {
    if long || n >= 0x8000 then Put16(0x8000 + n / TWO16) + Put16(n % TWO16) else Put16(n)
  }

  function Entry(enc: Encoder, style: Style, s: string): (e: seq<byte>)
    requires Fits(enc, style, s)
    ensures |e| > 0
  {
    var bytes := Payload(enc, style, s);
    if style.wide then PutLength16(|bytes| / 2, style.long) + (bytes + [0, 0])
    else PutLength8(|s|, style.long) + (PutLength8(|bytes|, style.long) + (bytes + [0]))
  }

  function Entries(enc: Encoder, style: Style, pool: seq<string>): seq<seq<byte>>
    requires AllFit(enc, style, pool)
  {
    seq(|pool|, i requires 0 <= i < |pool| => Entry(enc, style, pool[i]))
  }

  function Concat(entries: seq<seq<byte>>): seq<byte> {
    if entries == [] then [] else entries[0] + Concat(entries[1..])
  }

  /** The offset table: where each entry starts, counted from `at`. */
  function Offsets(entries: seq<seq<byte>>, at: nat): (s: seq<byte>)
    requires at + |Concat(entries)| < TWO32
    ensures |s| == 4 * |entries|
  {
    if entries == [] then [] else Put32(at) + Offsets(entries[1..], at + |entries[0]|)
  }

  /** The entries, padded to a multiple of four. */
  function Body(entries: seq<seq<byte>>): seq<byte> {
    Concat(entries) + Zeros((4 - |Concat(entries)| % 4) % 4)
  }

  function PoolSize(enc: Encoder, style: Style, pool: seq<string>): nat
    requires AllFit(enc, style, pool)
  {
    28 + 4 * |pool| + |Body(Entries(enc, style, pool))|
  }

  function EncodePool(enc: Encoder, style: Style, pool: seq<string>): (s: seq<byte>)
    requires GoodPool(enc, style, pool) && PoolSize(enc, style, pool) < TWO32
    ensures |s| == PoolSize(enc, style, pool)
  {
    var entries := Entries(enc, style, pool);
    PoolHeader(PoolSize(enc, style, pool), |pool|, style.wide) + (Offsets(entries, 0) + Body(entries))
  }

  function PoolHeader(size: nat, count: nat, wide: bool): (s: seq<byte>)
    requires size < TWO32 && 28 + 4 * count < TWO32
    ensures |s| == 28
  {
    ChunkHeader(STRING_POOL, 28, size)
    + (Put32(count) + (Put32(0) + (Put32(if wide then 0 else UTF8_FLAG) + (Put32(28 + 4 * count) + Put32(0)))))
  }

  function ChunkHeader(kind: nat, header: nat, size: nat): (s: seq<byte>)
    requires kind < TWO16 && header < TWO16 && size < TWO32
    ensures |s| == 8
  {
    Put16(kind) + (Put16(header) + Put32(size))
  }

  function IndexOf(pool: seq<string>, s: string): (i: nat)
    requires s in pool
    ensures i < |pool| && pool[i] == s
  {
    if pool[0] == s then 0 else 1 + IndexOf(pool[1..], s)
  }

  function IndexOrNone(pool: seq<string>, s: Option<string>): (i: nat)
    requires InPool(pool, s) && |pool| <= 1_000_000
    ensures i < TWO32
    ensures PoolValue(pool, i) == Success(s)
  {
    if s.Some? then IndexOf(pool, s.value) else NO_INDEX
  }

  function EncodeAttribute(pool: seq<string>, a: Attribute): (s: seq<byte>)
    requires WritableAttribute(pool, a) && |pool| <= 1_000_000
    ensures |s| == 20
  {
    var raw := if a.value.Text? then IndexOf(pool, a.value.text) else NO_INDEX;
    var kind: byte := if a.value.Scalar? then a.value.kind else 3;
    var data := if a.value.Scalar? then a.value.data else IndexOf(pool, a.value.text);
    Put32(IndexOrNone(pool, a.namespace)) + (Put32(IndexOf(pool, a.name)) + (Put32(raw)
    + (Put16(8) + ([0] + ([kind] + Put32(data))))))
  }

  function EncodeAttributes(pool: seq<string>, attributes: seq<Attribute>): (s: seq<byte>)
    requires |pool| <= 1_000_000
    requires forall a :: a in attributes ==> WritableAttribute(pool, a)
    ensures |s| == 20 * |attributes|
  {
    if attributes == [] then []
    else EncodeAttribute(pool, attributes[0]) + EncodeAttributes(pool, attributes[1..])
  }

  function EncodeStart(pool: seq<string>, s: Source): (b: seq<byte>)
    requires WritableLabel(pool, s) && |pool| <= 1_000_000
    ensures |b| == 36 + 20 * |s.attributes|
  {
    ChunkHeader(START_ELEMENT, 36, 36 + 20 * |s.attributes|)
    + (Put32(1) + (Put32(NO_INDEX) + (Put32(IndexOrNone(pool, s.namespace)) + (Put32(IndexOf(pool, s.name))
    + (Put16(20) + (Put16(20) + (Put16(|s.attributes|) + (Zeros(6) + EncodeAttributes(pool, s.attributes)))))))))
  }

  function EncodeEnd(pool: seq<string>, s: Source): (b: seq<byte>)
    requires WritableLabel(pool, s) && |pool| <= 1_000_000
    ensures |b| == 24
  {
    ChunkHeader(END_ELEMENT, 24, 24)
    + (Put32(1) + (Put32(NO_INDEX) + (Put32(NO_INDEX) + Put32(IndexOf(pool, s.name)))))
  }

  /** The chunks of a tree, in document order. */
  datatype Piece = Start(info: Source) | End(info: Source)

  function Pieces(t: Tree<Source>): seq<Piece> {
    [Start(t.info)] + PiecesOf(t.kids) + [End(t.info)]
  }

  function PiecesOf(ts: seq<Tree<Source>>): seq<Piece> {
    if ts == [] then [] else Pieces(ts[0]) + PiecesOf(ts[1..])
  }

  predicate WritablePieces(pool: seq<string>, ps: seq<Piece>) {
    forall i :: 0 <= i < |ps| ==> WritableLabel(pool, ps[i].info)
  }

  lemma {:induction false} PiecesWritable(pool: seq<string>, t: Tree<Source>)
    requires Writable(pool, t)
    ensures WritablePieces(pool, Pieces(t))
    decreases t, 0
  {
    PiecesOfWritable(pool, t.kids, t);
  }

  lemma {:induction false} PiecesOfWritable(pool: seq<string>, ts: seq<Tree<Source>>, parent: Tree<Source>)
    requires WritableAll(pool, ts) && forall t :: t in ts ==> t in parent.kids
    ensures WritablePieces(pool, PiecesOf(ts))
    decreases parent, 0, |ts|
  {
    if ts != [] {
      assert ts[0] in parent.kids;
      PiecesWritable(pool, ts[0]);
      PiecesOfWritable(pool, ts[1..], parent);
    }
  }

  function EncodePiece(pool: seq<string>, p: Piece): seq<byte>
    requires WritableLabel(pool, p.info) && |pool| <= 1_000_000
  {
    if p.Start? then EncodeStart(pool, p.info) else EncodeEnd(pool, p.info)
  }

  function EncodePieces(pool: seq<string>, ps: seq<Piece>): seq<seq<byte>>
    requires WritablePieces(pool, ps) && |pool| <= 1_000_000
  {
    seq(|ps|, i requires 0 <= i < |ps| => EncodePiece(pool, ps[i]))
  }

  function EncodeTree(pool: seq<string>, t: Tree<Source>): seq<byte>
    requires Writable(pool, t) && |pool| <= 1_000_000
  {
    PiecesWritable(pool, t);
    Concat(EncodePieces(pool, Pieces(t)))
  }

  /** A document that fits a 32-bit size. */
  predicate Encodable(enc: Encoder, style: Style, pool: seq<string>, t: Tree<Source>) {
    && GoodPool(enc, style, pool) && Writable(pool, t)
    && 8 + PoolSize(enc, style, pool) + |EncodeTree(pool, t)| < TWO32
  }

  function Encode(enc: Encoder, style: Style, pool: seq<string>, t: Tree<Source>): seq<byte>
    requires Encodable(enc, style, pool, t)
  {
    ChunkHeader(XML, 8, 8 + PoolSize(enc, style, pool) + |EncodeTree(pool, t)|)
    + (EncodePool(enc, style, pool) + EncodeTree(pool, t))
  }

  // Reading back, from the smallest field to the whole file.

  lemma ReadLength8(raw: seq<byte>, o: nat, n: nat, long: bool)
    requires n < 0x8000 && At(raw, o, PutLength8(n, long))
    ensures Length8(raw, o) == Success((n, o + |PutLength8(n, long)|))
  {
    var s := PutLength8(n, long);
    assert raw[o] == s[0] && (|s| == 2 ==> raw[o + 1] == s[1]);
  }

  lemma ReadLength16(raw: seq<byte>, o: nat, n: nat, long: bool)
    requires n < 0x8000_0000 && At(raw, o, PutLength16(n, long))
    ensures Length16(raw, o) == Success((n, o + |PutLength16(n, long)|))
  {
    if long || n >= 0x8000 {
      AtSplit(raw, o, Put16(0x8000 + n / TWO16), Put16(n % TWO16));
      ReadPut16(raw, o, 0x8000 + n / TWO16);
      ReadPut16(raw, o + 2, n % TWO16);
    } else {
      ReadPut16(raw, o, n);
    }
  }

  lemma ReadChunkHeader(raw: seq<byte>, o: nat, kind: nat, header: nat, size: nat)
    requires kind < TWO16 && 8 <= header < TWO16 && header <= size < TWO32
    requires At(raw, o, ChunkHeader(kind, header, size)) && o + size <= |raw|
    ensures ReadChunk(raw, o) == Success(Chunk(kind, header, size))
  {
    AtSplit(raw, o, Put16(kind), Put16(header) + Put32(size));
    AtSplit(raw, o + 2, Put16(header), Put32(size));
    ReadPut16(raw, o, kind);
    ReadPut16(raw, o + 2, header);
    ReadPut32(raw, o + 4, size);
  }

  lemma ReadWide(codec: TextCodec, raw: seq<byte>, p: Pool, index: nat, o: nat, bytes: seq<byte>, long: bool)
    requires PoolFits(raw, p) && index < p.count && !p.utf8
    requires |bytes| % 2 == 0 && |bytes| / 2 < 0x8000_0000
    requires p.base + p.start + U32(raw, p.base + p.header + 4 * index) == o
    requires At(raw, o, PutLength16(|bytes| / 2, long) + (bytes + [0, 0]))
    requires o + |PutLength16(|bytes| / 2, long)| + |bytes| <= p.base + p.size
    ensures ReadString(codec, raw, p, index) == Success(codec.utf16(bytes))
  {
    var length := PutLength16(|bytes| / 2, long);
    AtSplit(raw, o, length, bytes + [0, 0]);
    ReadLength16(raw, o, |bytes| / 2, long);
    AtSplit(raw, o + |length|, bytes, [0, 0]);
    AtSlice(raw, o + |length|, bytes);
  }

  lemma ReadNarrow(codec: TextCodec, raw: seq<byte>, p: Pool, index: nat, o: nat, n: nat, bytes: seq<byte>, long: bool)
    requires PoolFits(raw, p) && index < p.count && p.utf8
    requires n < 0x8000 && |bytes| < 0x8000
    requires p.base + p.start + U32(raw, p.base + p.header + 4 * index) == o
    requires At(raw, o, PutLength8(n, long) + (PutLength8(|bytes|, long) + (bytes + [0])))
    requires o + |PutLength8(n, long)| + |PutLength8(|bytes|, long)| + |bytes| <= p.base + p.size
    ensures ReadString(codec, raw, p, index) == Success(codec.utf8(bytes))
  {
    var chars, length := PutLength8(n, long), PutLength8(|bytes|, long);
    AtSplit(raw, o, chars, length + (bytes + [0]));
    AtSplit(raw, o + |chars|, length, bytes + [0]);
    ReadLength8(raw, o, n, long);
    ReadLength8(raw, o + |chars|, |bytes|, long);
    var first := o + |chars| + |length|;
    AtSplit(raw, first, bytes, [0]);
    AtSlice(raw, first, bytes);
  }

  /** The entry for `s` at `o`, ending inside the pool, reads back as `s`. */
  lemma ReadEntry(codec: TextCodec, enc: Encoder, style: Style, s: string, raw: seq<byte>, p: Pool, index: nat, o: nat)
    requires Fits(enc, style, s) && InvertsString(codec, enc, style, s)
    requires PoolFits(raw, p) && index < p.count && p.utf8 == !style.wide
    requires p.base + p.start + U32(raw, p.base + p.header + 4 * index) == o
    requires At(raw, o, Entry(enc, style, s)) && o + |Entry(enc, style, s)| <= p.base + p.size
    ensures ReadString(codec, raw, p, index) == Success(s)
  {
    var bytes := Payload(enc, style, s);
    if style.wide {
      ReadWide(codec, raw, p, index, o, bytes, style.long);
    } else {
      ReadNarrow(codec, raw, p, index, o, |s|, bytes, style.long);
    }
  }

  /** The `i`-th offset word leads to the `i`-th entry. */
  lemma {:induction false} FindEntry(raw: seq<byte>, table: nat, data: nat, entries: seq<seq<byte>>, at: nat, i: nat)
    requires at + |Concat(entries)| < TWO32 && i < |entries|
    requires At(raw, table, Offsets(entries, at)) && At(raw, data + at, Concat(entries))
    ensures table + 4 * i + 4 <= |raw|
    ensures var o := U32(raw, table + 4 * i);
            At(raw, data + o, entries[i]) && o + |entries[i]| <= at + |Concat(entries)|
    decreases i
  {
    var entry, rest := entries[0], entries[1..];
    Word32(raw, table, at, Offsets(rest, at + |entry|));
    AtSplit(raw, data + at, entry, Concat(rest));
    if i > 0 {
      FindEntry(raw, table + 4, data, rest, at + |entry|, i - 1);
    }
  }

  lemma {:induction false} ReadAllStrings(codec: TextCodec, raw: seq<byte>, p: Pool, pool: seq<string>, k: nat)
    requires PoolFits(raw, p) && p.count == |pool| && k <= |pool|
    requires forall i :: 0 <= i < |pool| ==> ReadString(codec, raw, p, i) == Success(pool[i])
    ensures ReadStrings(codec, raw, p, pool[..k]) == Success(pool)
    decreases |pool| - k
  {
    if k == |pool| {
      assert pool[..k] == pool;
    } else {
      assert pool[..k] + [pool[k]] == pool[..k + 1];
      ReadAllStrings(codec, raw, p, pool, k + 1);
    }
  }

  lemma PoolHeaderWords(raw: seq<byte>, o: nat, size: nat, count: nat, flags: nat, start: nat)
    requires count < TWO32 && 28 <= size < TWO32 && flags < TWO32 && start < TWO32 && o + size <= |raw|
    requires At(raw, o, ChunkHeader(STRING_POOL, 28, size)
                        + (Put32(count) + (Put32(0) + (Put32(flags) + (Put32(start) + Put32(0))))))
    ensures ReadChunk(raw, o) == Success(Chunk(STRING_POOL, 28, size))
    ensures U32(raw, o + 8) == count && U32(raw, o + 16) == flags && U32(raw, o + 20) == start
  {
    var w4 := Put32(start) + Put32(0);
    var w3 := Put32(flags) + w4;
    var w2 := Put32(0) + w3;
    AtSplit(raw, o, ChunkHeader(STRING_POOL, 28, size), Put32(count) + w2);
    ReadChunkHeader(raw, o, STRING_POOL, 28, size);
    Word32(raw, o + 8, count, w2);
    Word32(raw, o + 12, 0, w3);
    Word32(raw, o + 16, flags, w4);
    Word32(raw, o + 20, start, Put32(0));
  }

  lemma PoolFromWords(raw: seq<byte>, o: nat, size: nat, count: nat, flags: nat, start: nat)
    requires count <= 1_000_000 && 28 + 4 * count <= size && o + size <= |raw|
    requires ReadChunk(raw, o) == Success(Chunk(STRING_POOL, 28, size))
    requires U32(raw, o + 8) == count && U32(raw, o + 16) == flags && U32(raw, o + 20) == start
    ensures ReadPoolHeader(raw, o) == Success(Pool(o, 28, size, count, flags / UTF8_FLAG % 2 == 1, start))
  {
  }

  lemma ReadPoolHeaderBack(raw: seq<byte>, o: nat, size: nat, count: nat, wide: bool)
    requires count <= 1_000_000 && 28 + 4 * count <= size < TWO32 && o + size <= |raw|
    requires At(raw, o, PoolHeader(size, count, wide))
    ensures ReadChunk(raw, o) == Success(Chunk(STRING_POOL, 28, size))
    ensures ReadPoolHeader(raw, o) == Success(Pool(o, 28, size, count, !wide, 28 + 4 * count))
  {
    if wide {
      PoolHeaderWords(raw, o, size, count, 0, 28 + 4 * count);
      PoolFromWords(raw, o, size, count, 0, 28 + 4 * count);
    } else {
      PoolHeaderWords(raw, o, size, count, UTF8_FLAG, 28 + 4 * count);
      PoolFromWords(raw, o, size, count, UTF8_FLAG, 28 + 4 * count);
    }
  }

  /** The offset table leads to entry `i`, inside the pool. */
  lemma EntryInPool(raw: seq<byte>, p: Pool, entries: seq<seq<byte>>, i: nat) returns (o: nat)
    requires PoolFits(raw, p) && p.count == |entries| && i < |entries|
    requires p.start + |Concat(entries)| <= p.size < TWO32
    requires At(raw, p.base + p.header, Offsets(entries, 0)) && At(raw, p.base + p.start, Concat(entries))
    ensures o == p.base + p.start + U32(raw, p.base + p.header + 4 * i)
    ensures At(raw, o, entries[i]) && o + |entries[i]| <= p.base + p.size
  {
    FindEntry(raw, p.base + p.header, p.base + p.start, entries, 0, i);
    o := p.base + p.start + U32(raw, p.base + p.header + 4 * i);
  }

  lemma PoolStringBack(codec: TextCodec, enc: Encoder, style: Style, pool: seq<string>, raw: seq<byte>, p: Pool, i: nat)
    requires AllFit(enc, style, pool) && i < |pool| && InvertsString(codec, enc, style, pool[i])
    requires PoolFits(raw, p) && p.count == |pool| && p.utf8 == !style.wide
    requires var entries := Entries(enc, style, pool);
             && p.start + |Concat(entries)| <= p.size < TWO32
             && At(raw, p.base + p.header, Offsets(entries, 0)) && At(raw, p.base + p.start, Concat(entries))
    ensures ReadString(codec, raw, p, i) == Success(pool[i])
  {
    var o := EntryInPool(raw, p, Entries(enc, style, pool), i);
    ReadEntry(codec, enc, style, pool[i], raw, p, i, o);
  }

  /** With the offset table and the entries in place, every string reads back. */
  lemma PoolStringsBack(codec: TextCodec, enc: Encoder, style: Style, pool: seq<string>, raw: seq<byte>, p: Pool)
    requires AllFit(enc, style, pool) && Inverts(codec, enc, style, pool)
    requires PoolFits(raw, p) && p.count == |pool| && p.utf8 == !style.wide
    requires var entries := Entries(enc, style, pool);
             && p.start + |Concat(entries)| <= p.size < TWO32
             && At(raw, p.base + p.header, Offsets(entries, 0)) && At(raw, p.base + p.start, Concat(entries))
    ensures ReadStrings(codec, raw, p, []) == Success(pool)
  {
    forall i | 0 <= i < |pool| ensures ReadString(codec, raw, p, i) == Success(pool[i]) {
      PoolStringBack(codec, enc, style, pool, raw, p, i);
    }
    ReadAllStrings(codec, raw, p, pool, 0);
  }

  lemma PoolParts(raw: seq<byte>, o: nat, header: seq<byte>, offsets: seq<byte>, data: seq<byte>, padding: seq<byte>)
    requires At(raw, o, header + (offsets + (data + padding)))
    ensures At(raw, o, header) && At(raw, o + |header|, offsets) && At(raw, o + |header| + |offsets|, data)
  {
    AtSplit(raw, o, header, offsets + (data + padding));
    AtSplit(raw, o + |header|, offsets, data + padding);
    AtSplit(raw, o + |header| + |offsets|, data, padding);
  }

  /** The header is read, and the offset table and the entries are where it says. */
  lemma PoolPlaced(raw: seq<byte>, o: nat, size: nat, wide: bool, entries: seq<seq<byte>>, padding: seq<byte>)
    returns (p: Pool)
    requires |entries| <= 1_000_000 && size == 28 + 4 * |entries| + |Concat(entries)| + |padding| < TWO32 && o + size <= |raw|
    requires At(raw, o, PoolHeader(size, |entries|, wide) + (Offsets(entries, 0) + (Concat(entries) + padding)))
    ensures ReadChunk(raw, o) == Success(Chunk(STRING_POOL, 28, size))
    ensures ReadPoolHeader(raw, o) == Success(p) && PoolFits(raw, p)
    ensures p.count == |entries| && p.utf8 == !wide && p.start + |Concat(entries)| <= p.size < TWO32
    ensures At(raw, p.base + p.header, Offsets(entries, 0)) && At(raw, p.base + p.start, Concat(entries))
  {
    p := Pool(o, 28, size, |entries|, !wide, 28 + 4 * |entries|);
    PoolParts(raw, o, PoolHeader(size, |entries|, wide), Offsets(entries, 0), Concat(entries), padding);
    ReadPoolHeaderBack(raw, o, size, |entries|, wide);
  }

  lemma ReadPaddedPool(codec: TextCodec, enc: Encoder, style: Style, pool: seq<string>, raw: seq<byte>, o: nat,
                       size: nat, padding: seq<byte>)
    requires GoodPool(enc, style, pool) && Inverts(codec, enc, style, pool)
    requires var data := Concat(Entries(enc, style, pool));
             size == 28 + 4 * |pool| + |data| + |padding| < TWO32 && o + size <= |raw|
             && At(raw, o, PoolHeader(size, |pool|, style.wide) + (Offsets(Entries(enc, style, pool), 0) + (data + padding)))
    ensures ReadChunk(raw, o) == Success(Chunk(STRING_POOL, 28, size))
    ensures ReadPool(codec, raw, o) == Success(pool)
  {
    var p := PoolPlaced(raw, o, size, style.wide, Entries(enc, style, pool), padding);
    PoolStringsBack(codec, enc, style, pool, raw, p);
  }

  lemma EncodedPoolIs(enc: Encoder, style: Style, pool: seq<string>) returns (padding: seq<byte>)
    requires GoodPool(enc, style, pool) && PoolSize(enc, style, pool) < TWO32
    ensures var size, data := PoolSize(enc, style, pool), Concat(Entries(enc, style, pool));
            size == 28 + 4 * |pool| + |data| + |padding|
            && EncodePool(enc, style, pool)
               == PoolHeader(size, |pool|, style.wide) + (Offsets(Entries(enc, style, pool), 0) + (data + padding))
  {
    var data := Concat(Entries(enc, style, pool));
    padding := Zeros((4 - |data| % 4) % 4);
  }

  lemma ReadEncodedPool(codec: TextCodec, enc: Encoder, style: Style, pool: seq<string>, raw: seq<byte>, o: nat)
    requires GoodPool(enc, style, pool) && PoolSize(enc, style, pool) < TWO32
    requires Inverts(codec, enc, style, pool)
    requires At(raw, o, EncodePool(enc, style, pool))
    ensures ReadChunk(raw, o) == Success(Chunk(STRING_POOL, 28, PoolSize(enc, style, pool)))
    ensures ReadPool(codec, raw, o) == Success(pool)
  {
    var padding := EncodedPoolIs(enc, style, pool);
    ReadPaddedPool(codec, enc, style, pool, raw, o, PoolSize(enc, style, pool), padding);
  }

  lemma AttributeWords(raw: seq<byte>, o: nat, ns: nat, name: nat, text: nat, kind: byte, data: nat)
    requires ns < TWO32 && name < TWO32 && text < TWO32 && data < TWO32
    requires At(raw, o, Put32(ns) + (Put32(name) + (Put32(text) + (Put16(8) + ([0] + ([kind] + Put32(data)))))))
    ensures o + 20 <= |raw| && U32(raw, o) == ns && U32(raw, o + 4) == name && U32(raw, o + 8) == text
    ensures U16(raw, o + 12) == 8 && raw[o + 15] == kind && U32(raw, o + 16) == data
  {
    var w5 := [kind] + Put32(data);
    var w4 := [0] + w5;
    var w3 := Put16(8) + w4;
    var w2 := Put32(text) + w3;
    Word32(raw, o, ns, Put32(name) + w2);
    Word32(raw, o + 4, name, w2);
    Word32(raw, o + 8, text, w3);
    Word16(raw, o + 12, 8, w4);
    AtSplit(raw, o + 14, [0], w5);
    AtSplit(raw, o + 15, [kind], Put32(data));
    ReadPut32(raw, o + 16, data);
    assert raw[o + 15] == [kind][0];
  }

  lemma ReadEncodedAttribute(pool: seq<string>, a: Attribute, raw: seq<byte>, o: nat, end: nat)
    requires WritableAttribute(pool, a) && |pool| <= 1_000_000
    requires At(raw, o, EncodeAttribute(pool, a)) && o + 20 <= end <= |raw|
    ensures ReadAttribute(raw, pool, o, end) == Success((QName(a.namespace, a.name), ValueText(a.value)))
  {
    AttributeWords(raw, o, IndexOrNone(pool, a.namespace), IndexOf(pool, a.name),
                   if a.value.Text? then IndexOf(pool, a.value.text) else NO_INDEX,
                   if a.value.Scalar? then a.value.kind else 3,
                   if a.value.Scalar? then a.value.data else IndexOf(pool, a.value.text));
  }

  lemma {:induction false} ReadEncodedAttributes(pool: seq<string>, rest: seq<Attribute>, raw: seq<byte>,
                                                 t: Table, index: nat, done: map<string, string>)
    requires |pool| <= 1_000_000 && forall a :: a in rest ==> WritableAttribute(pool, a)
    requires t.stride == 20 && t.count == index + |rest| && t.end <= |raw|
    requires t.Cursor(index) + 20 * |rest| <= t.end
    requires At(raw, t.Cursor(index), EncodeAttributes(pool, rest))
    ensures ReadAttributes(raw, pool, t, index, done) == Success(AttributeMap(rest, done))
    decreases |rest|
  {
    if rest != [] {
      var a := rest[0];
      AtSplit(raw, t.Cursor(index), EncodeAttribute(pool, a), EncodeAttributes(pool, rest[1..]));
      ReadEncodedAttribute(pool, a, raw, t.Cursor(index), t.end);
      ReadEncodedAttributes(pool, rest[1..], raw, t, index + 1, done[QName(a.namespace, a.name) := ValueText(a.value)]);
    }
  }

  lemma ReadEncodedStart(pool: seq<string>, s: Source, raw: seq<byte>, o: nat)
    requires WritableLabel(pool, s) && |pool| <= 1_000_000
    requires At(raw, o, EncodeStart(pool, s))
    ensures var c := Chunk(START_ELEMENT, 36, 36 + 20 * |s.attributes|);
            && o + c.size <= |raw|
            && ReadChunk(raw, o) == Success(c)
            && ReadStart(raw, Some(pool), o, c) == Success(QualifyLabel(s))
  {
    var n := |s.attributes|;
    var size := 36 + 20 * n;
    StartWords(raw, o, size, IndexOrNone(pool, s.namespace), IndexOf(pool, s.name), n, EncodeAttributes(pool, s.attributes));
    ReadChunkHeader(raw, o, START_ELEMENT, 36, size);
    var t := Table(o + 36, 20, n, o + size);
    ReadStartTable(pool, s.namespace, s.name, n, raw, o, Chunk(START_ELEMENT, 36, size));
    assert t.Cursor(0) == o + 36;
    ReadEncodedAttributes(pool, s.attributes, raw, t, 0, map[]);
  }

  lemma ReadStartTable(pool: seq<string>, ns: Option<string>, name: string, n: nat, raw: seq<byte>, o: nat, c: Chunk)
    requires c.header == 36 <= c.size && o + c.size <= |raw| && name != "" && n < TWO16
    requires PoolValue(pool, U32(raw, o + 16)) == Success(ns)
    requires PoolValue(pool, U32(raw, o + 20)) == Success(Some(name))
    requires U16(raw, o + 24) == 20 && U16(raw, o + 26) == 20 && U16(raw, o + 28) == n
    ensures ReadStartHeader(raw, Some(pool), o, c) ==
            Success((QName(ns, name), Table(o + 36, 20, n, o + c.size)))
  {
  }

  lemma StartWords(raw: seq<byte>, o: nat, size: nat, ns: nat, name: nat, n: nat, tail: seq<byte>)
    requires size < TWO32 && ns < TWO32 && name < TWO32 && n < TWO16
    requires At(raw, o, ChunkHeader(START_ELEMENT, 36, size)
      + (Put32(1) + (Put32(NO_INDEX) + (Put32(ns) + (Put32(name)
      + (Put16(20) + (Put16(20) + (Put16(n) + (Zeros(6) + tail)))))))))
    ensures At(raw, o, ChunkHeader(START_ELEMENT, 36, size)) && o + 36 <= |raw| && At(raw, o + 36, tail)
    ensures U32(raw, o + 16) == ns && U32(raw, o + 20) == name
    ensures U16(raw, o + 24) == 20 && U16(raw, o + 26) == 20 && U16(raw, o + 28) == n
  {
    var w7 := Zeros(6) + tail;
    var w6 := Put16(n) + w7;
    var w5 := Put16(20) + w6;
    var w4 := Put16(20) + w5;
    var w3 := Put32(name) + w4;
    var w2 := Put32(ns) + w3;
    var w1 := Put32(NO_INDEX) + w2;
    AtSplit(raw, o, ChunkHeader(START_ELEMENT, 36, size), Put32(1) + w1);
    Word32(raw, o + 8, 1, w1);
    Word32(raw, o + 12, NO_INDEX, w2);
    Word32(raw, o + 16, ns, w3);
    Word32(raw, o + 20, name, w4);
    Word16(raw, o + 24, 20, w5);
    Word16(raw, o + 26, 20, w6);
    Word16(raw, o + 28, n, w7);
    AtSplit(raw, o + 30, Zeros(6), tail);
  }

  /** Put the events of `t` in front of whatever follows. */
  function Ahead(es: seq<Event<Label>>, rest: Outcome<seq<Event<Label>>>): Outcome<seq<Event<Label>>> {
    if rest.Success? then Success(es + rest.value) else rest
  }

  lemma LexStart(codec: TextCodec, pool: seq<string>, s: Source, raw: seq<byte>, o: nat, total: nat)
    requires WritableLabel(pool, s) && |pool| <= 1_000_000
    requires At(raw, o, EncodeStart(pool, s)) && o < total
    ensures Lex(codec, raw, o, total, Some(pool)) ==
            Ahead([Open(QualifyLabel(s))], Lex(codec, raw, o + |EncodeStart(pool, s)|, total, Some(pool)))
  {
    ReadEncodedStart(pool, s, raw, o);
  }

  lemma LexEnd(codec: TextCodec, pool: seq<string>, s: Source, raw: seq<byte>, o: nat, total: nat)
    requires WritableLabel(pool, s) && |pool| <= 1_000_000
    requires At(raw, o, EncodeEnd(pool, s)) && o < total
    ensures Lex(codec, raw, o, total, Some(pool)) == Ahead([Close], Lex(codec, raw, o + 24, total, Some(pool)))
  {
    AtSplit(raw, o, ChunkHeader(END_ELEMENT, 24, 24),
            Put32(1) + (Put32(NO_INDEX) + (Put32(NO_INDEX) + Put32(IndexOf(pool, s.name)))));
    ReadChunkHeader(raw, o, END_ELEMENT, 24, 24);
  }

  // From chunks to events.

  function EventOf(p: Piece): Event<Label> {
    if p.Start? then Open(QualifyLabel(p.info)) else Close
  }

  function EventsOf(ps: seq<Piece>): (es: seq<Event<Label>>)
    ensures |es| == |ps| && forall i :: 0 <= i < |ps| ==> es[i] == EventOf(ps[i])
  {
    if ps == [] then [] else [EventOf(ps[0])] + EventsOf(ps[1..])
  }

  lemma {:induction false} EventsConcat(a: seq<Piece>, b: seq<Piece>)
    ensures EventsOf(a + b) == EventsOf(a) + EventsOf(b)
  {
    if a == [] {
      assert a + b == b;
    } else {
      assert (a + b)[1..] == a[1..] + b;
      EventsConcat(a[1..], b);
    }
  }

  /** The events of a tree's chunks are those of the tree with its names qualified. */
  lemma {:induction false} PiecesEvents(t: Tree<Source>)
    ensures EventsOf(Pieces(t)) == Unparse(Qualify(t))
    decreases t, 0
  {
    var s, inner, e := [Start(t.info)], PiecesOf(t.kids), [End(t.info)];
    EventsConcat(s + inner, e);
    EventsConcat(s, inner);
    PiecesOfEvents(t.kids, t);
    assert s[1..] == [] && e[1..] == [];
  }

  lemma {:induction false} PiecesOfEvents(ts: seq<Tree<Source>>, parent: Tree<Source>)
    requires forall t :: t in ts ==> t in parent.kids
    ensures EventsOf(PiecesOf(ts)) == UnparseAll(QualifyAll(ts))
    decreases parent, 0, |ts|
  {
    if ts != [] {
      assert ts[0] in parent.kids;
      PiecesEvents(ts[0]);
      PiecesOfEvents(ts[1..], parent);
      EventsConcat(Pieces(ts[0]), PiecesOf(ts[1..]));
      assert QualifyAll(ts)[1..] == QualifyAll(ts[1..]);
    }
  }

  lemma AheadTwice(a: seq<Event<Label>>, b: seq<Event<Label>>, rest: Outcome<seq<Event<Label>>>)
    ensures Ahead(a, Ahead(b, rest)) == Ahead(a + b, rest)
    ensures Ahead([], rest) == rest
  {
    if rest.Success? {
      assert a + (b + rest.value) == a + b + rest.value;
      assert [] + rest.value == rest.value;
    }
  }

  /** Reading on from an offset, as a function. */
  function Lexer(codec: TextCodec, pool: seq<string>, raw: seq<byte>, total: nat): nat -> Outcome<seq<Event<Label>>> {
    (o: nat) => Lex(codec, raw, o, total, Some(pool))
  }

  /** Wherever in `raw` these bytes stand, reading on from there gives this event first. */
  ghost predicate ReadsAs(lex: nat -> Outcome<seq<Event<Label>>>, raw: seq<byte>, total: nat, bytes: seq<byte>, e: Event<Label>) {
    bytes != [] && forall o: nat :: o < total && At(raw, o, bytes) ==> lex(o) == Ahead([e], lex(o + |bytes|))
  }

  lemma LexPiece(codec: TextCodec, pool: seq<string>, p: Piece, raw: seq<byte>, o: nat, total: nat)
    requires WritableLabel(pool, p.info) && |pool| <= 1_000_000
    requires At(raw, o, EncodePiece(pool, p)) && o < total
    ensures Lex(codec, raw, o, total, Some(pool)) ==
            Ahead([EventOf(p)], Lex(codec, raw, o + |EncodePiece(pool, p)|, total, Some(pool)))
  {
    if p.Start? {
      LexStart(codec, pool, p.info, raw, o, total);
    } else {
      LexEnd(codec, pool, p.info, raw, o, total);
    }
  }

  lemma PieceReadsAs(codec: TextCodec, pool: seq<string>, p: Piece, raw: seq<byte>, total: nat)
    requires WritableLabel(pool, p.info) && |pool| <= 1_000_000
    ensures ReadsAs(Lexer(codec, pool, raw, total), raw, total, EncodePiece(pool, p), EventOf(p))
  {
    forall o: nat | o < total && At(raw, o, EncodePiece(pool, p))
      ensures Lex(codec, raw, o, total, Some(pool)) ==
              Ahead([EventOf(p)], Lex(codec, raw, o + |EncodePiece(pool, p)|, total, Some(pool)))
    {
      LexPiece(codec, pool, p, raw, o, total);
    }
    assert |EncodePiece(pool, p)| > 0;
  }

  ghost predicate AllReadAs(lex: nat -> Outcome<seq<Event<Label>>>, raw: seq<byte>, total: nat,
                            chunks: seq<seq<byte>>, es: seq<Event<Label>>)
  {
    |chunks| == |es| && forall i :: 0 <= i < |es| ==> ReadsAs(lex, raw, total, chunks[i], es[i])
  }

  /** Reading a list of chunks gives their events, and goes on after them. */
  lemma {:induction false} LexChunks(lex: nat -> Outcome<seq<Event<Label>>>, chunks: seq<seq<byte>>, es: seq<Event<Label>>,
                                     raw: seq<byte>, o: nat, total: nat)
    requires AllReadAs(lex, raw, total, chunks, es)
    requires At(raw, o, Concat(chunks)) && o + |Concat(chunks)| <= total
    ensures lex(o) == Ahead(es, lex(o + |Concat(chunks)|))
    decreases |chunks|
  {
    if chunks == [] {
      AheadTwice([], [], lex(o));
      assert es == [];
    } else {
      var first, more := chunks[0], Concat(chunks[1..]);
      AtSplit(raw, o, first, more);
      assert ReadsAs(lex, raw, total, first, es[0]);
      LexChunks(lex, chunks[1..], es[1..], raw, o + |first|, total);
      AheadTwice([es[0]], es[1..], lex(o + |first| + |more|));
      assert es == [es[0]] + es[1..];
    }
  }

  lemma PiecesReadAs(codec: TextCodec, pool: seq<string>, ps: seq<Piece>, raw: seq<byte>, total: nat)
    requires WritablePieces(pool, ps) && |pool| <= 1_000_000
    ensures AllReadAs(Lexer(codec, pool, raw, total), raw, total, EncodePieces(pool, ps), EventsOf(ps))
  {
    forall i | 0 <= i < |ps|
      ensures ReadsAs(Lexer(codec, pool, raw, total), raw, total, EncodePieces(pool, ps)[i], EventsOf(ps)[i])
    {
      PieceReadsAs(codec, pool, ps[i], raw, total);
    }
  }

  lemma Layout(raw: seq<byte>, a: seq<byte>, b: seq<byte>, c: seq<byte>)
    requires raw == a + (b + c)
    ensures At(raw, 0, a) && At(raw, |a|, b) && At(raw, |a| + |b|, c)
  {
    AtSlice(raw, 0, raw);
    AtSplit(raw, 0, a, b + c);
    AtSplit(raw, |a|, b, c);
  }

  /** The file's header and pool are read, and the elements remain. */
  lemma LexDocument(codec: TextCodec, pool: seq<string>, raw: seq<byte>, length: nat, size: nat)
    requires 0 < length && 8 + length <= size
    requires ReadChunk(raw, 0) == Success(Chunk(XML, 8, size))
    requires ReadChunk(raw, 8) == Success(Chunk(STRING_POOL, 28, length)) && ReadPool(codec, raw, 8) == Success(pool)
    ensures Events(codec, raw) == Lex(codec, raw, 8 + length, size, Some(pool))
  {
  }

  lemma DecodeElements(codec: TextCodec, pool: seq<string>, t: Tree<Source>, raw: seq<byte>, o: nat, size: nat)
    requires Writable(pool, t) && |pool| <= 1_000_000
    requires At(raw, o, EncodeTree(pool, t)) && o + |EncodeTree(pool, t)| == size
    requires Events(codec, raw) == Lex(codec, raw, o, size, Some(pool))
    ensures Decode(codec, raw) == Success(Qualify(t))
  {
    PiecesWritable(pool, t);
    PiecesReadAs(codec, pool, Pieces(t), raw, size);
    LexChunks(Lexer(codec, pool, raw, size), EncodePieces(pool, Pieces(t)), EventsOf(Pieces(t)), raw, o, size);
    PiecesEvents(t);
    var es := Unparse(Qualify(t));
    assert es + [] == es;
    DecodeExactly(codec, raw, Qualify(t));
  }

  lemma DocumentLayout(raw: seq<byte>, header: seq<byte>, strings: seq<byte>, tree: seq<byte>)
    requires |header| == 8 && raw == header + (strings + tree)
    ensures At(raw, 0, header) && At(raw, 8 + |strings|, tree) && |raw| == 8 + |strings| + |tree|
  {
    Layout(raw, header, strings, tree);
  }

  lemma PoolReads(codec: TextCodec, enc: Encoder, style: Style, pool: seq<string>, raw: seq<byte>, header: seq<byte>, tree: seq<byte>)
    requires GoodPool(enc, style, pool) && Inverts(codec, enc, style, pool) && PoolSize(enc, style, pool) < TWO32
    requires |header| == 8 && raw == header + (EncodePool(enc, style, pool) + tree)
    ensures ReadChunk(raw, 8) == Success(Chunk(STRING_POOL, 28, PoolSize(enc, style, pool)))
    ensures ReadPool(codec, raw, 8) == Success(pool)
  {
    Layout(raw, header, EncodePool(enc, style, pool), tree);
    ReadEncodedPool(codec, enc, style, pool, raw, 8);
  }

  /** After a header and a pool that reads back, the elements are read with that pool. */
  lemma DocumentDecodes(codec: TextCodec, pool: seq<string>, t: Tree<Source>, raw: seq<byte>, strings: seq<byte>, tree: seq<byte>)
    requires Writable(pool, t) && |pool| <= 1_000_000 && tree == EncodeTree(pool, t)
    requires |strings| > 0 && |raw| == 8 + |strings| + |tree| < TWO32
    requires ReadChunk(raw, 0) == Success(Chunk(XML, 8, |raw|)) && At(raw, 8 + |strings|, tree)
    requires ReadChunk(raw, 8) == Success(Chunk(STRING_POOL, 28, |strings|)) && ReadPool(codec, raw, 8) == Success(pool)
    ensures Decode(codec, raw) == Success(Qualify(t))
  {
    LexDocument(codec, pool, raw, |strings|, |raw|);
    DecodeElements(codec, pool, t, raw, 8 + |strings|, |raw|);
  }

  /** Decoding an encoded tree gives that tree back, its namespaces folded into its names. */
  lemma RoundTrip(codec: TextCodec, enc: Encoder, style: Style, pool: seq<string>, t: Tree<Source>)
    requires Encodable(enc, style, pool, t) && Inverts(codec, enc, style, pool)
    ensures Decode(codec, Encode(enc, style, pool, t)) == Success(Qualify(t))
  {
    var raw := Encode(enc, style, pool, t);
    var strings, tree := EncodePool(enc, style, pool), EncodeTree(pool, t);
    var header := ChunkHeader(XML, 8, 8 + |strings| + |tree|);
    PoolReads(codec, enc, style, pool, raw, header, tree);
    DocumentLayout(raw, header, strings, tree);
    ReadChunkHeader(raw, 0, XML, 8, |raw|);
    DocumentDecodes(codec, pool, t, raw, strings, tree);
  }

  // A pool for every tree: its own strings.

  function OptionStrings(s: Option<string>): seq<string> {
    if s.Some? then [s.value] else []
  }

  function AttributeStrings(attributes: seq<Attribute>): seq<string> {
    if attributes == [] then []
    else
      var a := attributes[0];
      OptionStrings(a.namespace) + [a.name] + (if a.value.Scalar? then [] else [a.value.text])
      + AttributeStrings(attributes[1..])
  }

  function TreeStrings(t: Tree<Source>): seq<string> {
    OptionStrings(t.info.namespace) + [t.info.name] + AttributeStrings(t.info.attributes) + ForestStrings(t.kids)
  }

  function ForestStrings(ts: seq<Tree<Source>>): seq<string> {
    if ts == [] then [] else TreeStrings(ts[0]) + ForestStrings(ts[1..])
  }

  /** What the format asks of a label, whatever the pool. */
  predicate WellNamed(s: Source) {
    && s.name != "" && |s.attributes| <= 65_535
    && forall a :: a in s.attributes ==>
         a.name != "" && (a.value.Scalar? ==> a.value.kind != 3 && a.value.data < TWO32)
  }

  predicate AllWellNamed(t: Tree<Source>) {
    WellNamed(t.info) && ForestWellNamed(t.kids)
  }

  predicate ForestWellNamed(ts: seq<Tree<Source>>) {
    ts == [] || (AllWellNamed(ts[0]) && ForestWellNamed(ts[1..]))
  }

  ghost predicate Within(a: seq<string>, b: seq<string>) {
    forall s :: s in a ==> s in b
  }

  lemma {:induction false} AttributesWritable(pool: seq<string>, attributes: seq<Attribute>, a: Attribute)
    requires Within(AttributeStrings(attributes), pool) && a in attributes
    requires a.name != "" && (a.value.Scalar? ==> a.value.kind != 3 && a.value.data < TWO32)
    ensures WritableAttribute(pool, a)
  {
    var all := AttributeStrings(attributes);
    var first := attributes[0];
    if a == first {
      assert a.name in all;
      assert a.namespace.Some? ==> a.namespace.value in OptionStrings(a.namespace);
      assert !a.value.Scalar? ==> a.value.text in all;
    } else {
      AttributesWritable(pool, attributes[1..], a);
    }
  }

  lemma {:induction false} TreeWritable(pool: seq<string>, t: Tree<Source>)
    requires AllWellNamed(t) && Within(TreeStrings(t), pool)
    ensures Writable(pool, t)
    decreases t, 0
  {
    var all := TreeStrings(t);
    assert t.info.name in all;
    assert t.info.namespace.Some? ==> t.info.namespace.value in OptionStrings(t.info.namespace);
    assert Within(AttributeStrings(t.info.attributes), pool);
    forall a | a in t.info.attributes ensures WritableAttribute(pool, a) {
      AttributesWritable(pool, t.info.attributes, a);
    }
    ForestWritable(pool, t, t.kids);
  }

  lemma {:induction false} ForestWritable(pool: seq<string>, parent: Tree<Source>, ts: seq<Tree<Source>>)
    requires ForestWellNamed(ts) && Within(ForestStrings(ts), pool)
    requires forall t :: t in ts ==> t in parent.kids
    ensures WritableAll(pool, ts)
    decreases parent, 0, |ts|
  {
    if ts != [] {
      assert ts[0] in parent.kids;
      TreeWritable(pool, ts[0]);
      ForestWritable(pool, parent, ts[1..]);
    }
  }

  /** Every tree with non-empty names that fits the format's size fields survives the round trip. */
  lemma EveryTreeRoundTrips(codec: TextCodec, enc: Encoder, style: Style, t: Tree<Source>)
    requires AllWellNamed(t)
    ensures var pool := TreeStrings(t);
            && Writable(pool, t)
            && (Encodable(enc, style, pool, t) && Inverts(codec, enc, style, pool) ==>
                  Decode(codec, Encode(enc, style, pool, t)) == Success(Qualify(t)))
  {
    var pool := TreeStrings(t);
    TreeWritable(pool, t);
    if Encodable(enc, style, pool, t) && Inverts(codec, enc, style, pool) {
      RoundTrip(codec, enc, style, pool, t);
    }
  }

  // Nothing is lost by folding namespaces into names.

  predicate PlainName(namespace: Option<string>, name: string) {
    (name != "" ==> name[0] != '{') && (namespace.Some? ==> namespace.value != "" && '}' !in namespace.value)
  }

  lemma QNameInjective(ns1: Option<string>, n1: string, ns2: Option<string>, n2: string)
    requires PlainName(ns1, n1) && PlainName(ns2, n2) && n1 != "" && n2 != ""
    requires QName(ns1, n1) == QName(ns2, n2)
    ensures ns1 == ns2 && n1 == n2
  {
    var q := QName(ns1, n1);
    if ns1.Some? && ns2.Some? {
      var i, j := |ns1.value| + 1, |ns2.value| + 1;
      assert q[i] == '}' && q[j] == '}';
      assert forall k :: 1 <= k < i ==> q[k] == ns1.value[k - 1];
      assert forall k :: 1 <= k < j ==> q[k] == ns2.value[k - 1];
      assert i == j;
      assert q[1..i] == ns1.value && q[1..j] == ns2.value;
      assert q[i + 1..] == n1 && q[j + 1..] == n2;
    } else {
      assert q[0] == '{' <==> ns1.Some?;
      assert q[0] == '{' <==> ns2.Some?;
    }
  }

  /** With distinct qualified names, the decoded attributes are exactly the written ones. */
  lemma {:induction false} DistinctAttributesKept(attributes: seq<Attribute>, done: map<string, string>)
    requires forall i, j :: 0 <= i < j < |attributes| ==>
      QName(attributes[i].namespace, attributes[i].name) != QName(attributes[j].namespace, attributes[j].name)
    requires forall a :: a in attributes ==> QName(a.namespace, a.name) !in done
    ensures var m := AttributeMap(attributes, done);
            && (forall a :: a in attributes ==>
                  var q := QName(a.namespace, a.name); q in m && m[q] == ValueText(a.value))
            && (forall k :: k in done ==> k in m && m[k] == done[k])
            && (forall k :: k in m && k !in done ==>
                  exists a :: a in attributes && k == QName(a.namespace, a.name))
    decreases |attributes|
  {
    if attributes != [] {
      var a, rest := attributes[0], attributes[1..];
      var q := QName(a.namespace, a.name);
      forall b | b in rest ensures QName(b.namespace, b.name) !in done[q := ValueText(a.value)] {
        var j :| 0 <= j < |rest| && rest[j] == b;
        assert attributes[j + 1] == b;
      }
      DistinctAttributesKept(rest, done[q := ValueText(a.value)]);
    }
  }

  // Whole trees: what the decoded tree still tells apart.

  predicate PlainAttributes(attributes: seq<Attribute>) {
    && (forall a :: a in attributes ==> PlainName(a.namespace, a.name) && a.name != "")
    && (forall i, j :: 0 <= i < j < |attributes| ==>
          attributes[i].namespace != attributes[j].namespace || attributes[i].name != attributes[j].name)
  }

  predicate PlainLabel(s: Source) {
    PlainName(s.namespace, s.name) && s.name != "" && PlainAttributes(s.attributes)
  }

  /** Names are plain throughout, and no element names an attribute twice. */
  predicate PlainTree(t: Tree<Source>) {
    PlainLabel(t.info) && PlainForest(t.kids)
  }

  predicate PlainForest(ts: seq<Tree<Source>>) {
    ts == [] || (PlainTree(ts[0]) && PlainForest(ts[1..]))
  }

  ghost predicate Carries(attributes: seq<Attribute>, namespace: Option<string>, name: string, text: string) {
    exists a :: a in attributes && a.namespace == namespace && a.name == name && ValueText(a.value) == text
  }

  /** The same attributes with the same value texts, in any order. */
  ghost predicate SameAttributes(xs: seq<Attribute>, ys: seq<Attribute>) {
    forall namespace, name, text :: Carries(xs, namespace, name, text) <==> Carries(ys, namespace, name, text)
  }

  /** The same shape, names, namespaces and attributes. */
  ghost predicate SameSource(t: Tree<Source>, u: Tree<Source>) {
    && t.info.namespace == u.info.namespace && t.info.name == u.info.name
    && SameAttributes(t.info.attributes, u.info.attributes) && SameForest(t.kids, u.kids)
  }

  ghost predicate SameForest(ts: seq<Tree<Source>>, us: seq<Tree<Source>>) {
    if ts == [] || us == [] then ts == us else SameSource(ts[0], us[0]) && SameForest(ts[1..], us[1..])
  }

  lemma PlainKept(attributes: seq<Attribute>)
    requires PlainAttributes(attributes)
    ensures var m := AttributeMap(attributes, map[]);
            && (forall a :: a in attributes ==>
                  var q := QName(a.namespace, a.name); q in m && m[q] == ValueText(a.value))
            && (forall k :: k in m ==> exists a :: a in attributes && k == QName(a.namespace, a.name))
  {
    forall i, j | 0 <= i < j < |attributes|
      ensures QName(attributes[i].namespace, attributes[i].name) != QName(attributes[j].namespace, attributes[j].name)
    {
      var a, b := attributes[i], attributes[j];
      assert a in attributes && b in attributes;
      if QName(a.namespace, a.name) == QName(b.namespace, b.name) {
        QNameInjective(a.namespace, a.name, b.namespace, b.name);
      }
    }
    DistinctAttributesKept(attributes, map[]);
  }

  lemma CarriesExactly(attributes: seq<Attribute>, namespace: Option<string>, name: string, text: string)
    requires PlainAttributes(attributes) && PlainName(namespace, name) && name != ""
    ensures var m, q := AttributeMap(attributes, map[]), QName(namespace, name);
            Carries(attributes, namespace, name, text) <==> q in m && m[q] == text
  {
    var m, q := AttributeMap(attributes, map[]), QName(namespace, name);
    PlainKept(attributes);
    if q in m && m[q] == text {
      var a :| a in attributes && q == QName(a.namespace, a.name);
      QNameInjective(namespace, name, a.namespace, a.name);
    }
  }

  lemma SameAttributesMap(xs: seq<Attribute>, ys: seq<Attribute>, k: string)
    requires PlainAttributes(xs) && PlainAttributes(ys) && SameAttributes(xs, ys) && k in AttributeMap(xs, map[])
    ensures k in AttributeMap(ys, map[]) && AttributeMap(xs, map[])[k] == AttributeMap(ys, map[])[k]
  {
    PlainKept(xs);
    var a :| a in xs && k == QName(a.namespace, a.name);
    assert Carries(xs, a.namespace, a.name, ValueText(a.value));
    CarriesExactly(ys, a.namespace, a.name, ValueText(a.value));
  }

  lemma SameMap(xs: seq<Attribute>, ys: seq<Attribute>)
    requires PlainAttributes(xs) && PlainAttributes(ys)
    ensures AttributeMap(xs, map[]) == AttributeMap(ys, map[]) <==> SameAttributes(xs, ys)
  {
    var mx, my := AttributeMap(xs, map[]), AttributeMap(ys, map[]);
    if mx == my {
      forall namespace, name, text ensures Carries(xs, namespace, name, text) <==> Carries(ys, namespace, name, text) {
        if Carries(xs, namespace, name, text) || Carries(ys, namespace, name, text) {
          CarriesExactly(xs, namespace, name, text);
          CarriesExactly(ys, namespace, name, text);
        }
      }
    }
    if SameAttributes(xs, ys) {
      forall k | k in mx ensures k in my && mx[k] == my[k] {
        SameAttributesMap(xs, ys, k);
      }
      forall k | k in my ensures k in mx {
        SameAttributesMap(ys, xs, k);
      }
      assert mx == my;
    }
  }

  /** Trees of plain names decode to the same tree exactly when they are the same but for attribute order. */
  lemma {:induction false} QualifyInjective(t: Tree<Source>, u: Tree<Source>)
    requires PlainTree(t) && PlainTree(u)
    ensures Qualify(t) == Qualify(u) <==> SameSource(t, u)
    decreases t, 1
  {
    SameMap(t.info.attributes, u.info.attributes);
    if QName(t.info.namespace, t.info.name) == QName(u.info.namespace, u.info.name) {
      QNameInjective(t.info.namespace, t.info.name, u.info.namespace, u.info.name);
    }
    QualifyAllInjective(t, t.kids, u.kids);
  }

  lemma {:induction false} QualifyAllInjective(parent: Tree<Source>, ts: seq<Tree<Source>>, us: seq<Tree<Source>>)
    requires PlainForest(ts) && PlainForest(us)
    requires forall t :: t in ts ==> t in parent.kids
    ensures QualifyAll(ts) == QualifyAll(us) <==> SameForest(ts, us)
    decreases parent, 0, |ts|
  {
    if ts != [] && us != [] {
      assert ts[0] in parent.kids;
      QualifyInjective(ts[0], us[0]);
      QualifyAllInjective(parent, ts[1..], us[1..]);
      assert QualifyAll(ts)[0] == Qualify(ts[0]) && QualifyAll(ts)[1..] == QualifyAll(ts[1..]);
      assert QualifyAll(us)[0] == Qualify(us[0]) && QualifyAll(us)[1..] == QualifyAll(us[1..]);
    }
  }

  /** So two encodings of plain trees, over any pools and in any styles, decode alike exactly when the trees are the same. */
  lemma EncodingsTellApart(codec: TextCodec, enc: Encoder, style: Style, pool: seq<string>, t: Tree<Source>,
                           style': Style, pool': seq<string>, u: Tree<Source>)
    requires PlainTree(t) && Encodable(enc, style, pool, t) && Inverts(codec, enc, style, pool)
    requires PlainTree(u) && Encodable(enc, style', pool', u) && Inverts(codec, enc, style', pool')
    ensures Decode(codec, Encode(enc, style, pool, t)) == Decode(codec, Encode(enc, style', pool', u)) <==> SameSource(t, u)
  {
    RoundTrip(codec, enc, style, pool, t);
    RoundTrip(codec, enc, style', pool', u);
    QualifyInjective(t, u);
  }

  // The identity codec on ASCII text, in both encodings, meets the round trip's assumption.

  predicate Ascii(s: string) {
    forall i :: 0 <= i < |s| ==> s[i] as int < 128
  }

  function NarrowBytes(s: string): seq<byte> {
    seq(|s|, i requires 0 <= i < |s| => s[i] as int % 256)
  }

  function NarrowText(b: seq<byte>): string {
    seq(|b|, i requires 0 <= i < |b| => b[i] as char)
  }

  function WideBytes(s: string): seq<byte> {
    seq(2 * |s|, i requires 0 <= i < 2 * |s| => if i % 2 == 0 then s[i / 2] as int % 256 else 0)
  }

  function WideText(b: seq<byte>): string {
    seq(|b| / 2, i requires 0 <= i < |b| / 2 => b[2 * i] as char)
  }

  lemma AsciiInverts(style: Style, pool: seq<string>)
    requires forall i :: 0 <= i < |pool| ==> Ascii(pool[i])
    ensures Inverts(TextCodec(NarrowText, WideText), Encoder(NarrowBytes, WideBytes), style, pool)
  {
    forall i | 0 <= i < |pool|
      ensures NarrowText(NarrowBytes(pool[i])) == pool[i] && WideText(WideBytes(pool[i])) == pool[i]
    {
      assert NarrowText(NarrowBytes(pool[i])) == pool[i];
      assert WideText(WideBytes(pool[i])) == pool[i];
    }
  }
}
