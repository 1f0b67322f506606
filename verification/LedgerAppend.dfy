/** Appending keeps a ledger verified, and exactly when it does not. */
module LedgerAppend {
  import opened Common
  import opened Ordering
  import opened Json
  import opened JsonParser
  import opened JsonCanonical
  import opened JsonStability
  import opened Redaction
  import opened TextLines
  import opened Ledger
  import opened LedgerChain

  // An entry's line, written and read back.

  /** What comes back from the file: the same fields, their object keys sorted. */
  function Stored(e: Entry): Entry {
    Entry(SortKeys(e.sequence), SortKeys(e.kind), SortKeys(e.timestamp), SortKeys(e.payload),
          SortKeys(e.previousHash), SortKeys(e.entryHash))
  }

  lemma EntryMembers(e: Entry)
    requires WellFormedEntry(e)
    ensures WellFormed(EntryJson(e))
    ensures var ms := MaterialMembers(e) + [Member("entry_hash", e.entryHash)]; |ms| == 6 && DistinctKeys(ms)
  {
    var ms := MaterialMembers(e) + [Member("entry_hash", e.entryHash)];
    assert ms[1..][1..] == ms[2..] && ms[2..][1..] == ms[3..] && ms[3..][1..] == ms[4..];
    assert ms[4..][1..] == ms[5..] && ms[5..][1..] == [];
    assert MembersWellFormed(ms[5..]);
    assert MembersWellFormed(ms[3..]);
    assert MembersWellFormed(ms[1..]);
  }

  lemma {:induction false} FieldOf(ms: seq<Member>, m: Member)
    requires DistinctKeys(ms) && m in ms
    ensures Find(ms, m.key) == Some(m.value)
  {
    if ms[0] != m {
      var i :| 0 <= i < |ms| && ms[i] == m;
      assert ms[0].key != ms[i].key;
      assert ms[1..][i - 1] == m;
      FieldOf(ms[1..], m);
    }
  }

  /** Sorting members by key does not change what a key holds. */
  lemma SortedField(ms: seq<Member>, i: nat)
    requires DistinctKeys(ms) && i < |ms|
    ensures Find(SortBy(KeyLeq, SortKeysMembers(ms)), ms[i].key) == Some(SortKeys(ms[i].value))
  {
    var t := SortKeysMembers(ms);
    SortedMembers(ms);
    SortContents(KeyLeq, t);
    SortedKeysDistinct(ms);
    assert t[i] in SortBy(KeyLeq, t);
    FieldOf(SortBy(KeyLeq, t), t[i]);
  }

  lemma LineReadsBack(e: Entry)
    requires WellFormedEntry(e)
    ensures ReadLine(CanonicalJson(EntryJson(e))) == Some(Stored(e))
  {
    var ms := MaterialMembers(e) + [Member("entry_hash", e.entryHash)];
    EntryMembers(e);
    CanonicalParses(EntryJson(e));
    SortedMembers(ms);
    SortContents(KeyLeq, SortKeysMembers(ms));
    SortedField(ms, 0);
    SortedField(ms, 1);
    SortedField(ms, 2);
    SortedField(ms, 3);
    SortedField(ms, 4);
    SortedField(ms, 5);
  }

  /** The line is one line of text and starts an object. */
  lemma LineShape(e: Entry)
    requires WellFormedEntry(e)
    ensures var x := CanonicalJson(EntryJson(e)); x != [] && x[0] == '{' && Printable(x)
  {
    EntryMembers(e);
    SortKeysWellFormed(EntryJson(e));
    PrintPrintable(false, SortKeys(EntryJson(e)));
  }

  /** Storing leaves the seal alone. */
  lemma SealStored(hash: string -> string, e: Entry)
    requires WellFormedEntry(e)
    ensures Seal(hash, Stored(e)) == Seal(hash, e)
  {
    MaterialStored(e);
  }

  lemma MaterialStored(e: Entry)
    requires WellFormedEntry(e)
    ensures SortKeys(Material(Stored(e))) == SortKeys(Material(e))
  {
    FieldsStored(e, Stored(e));
    FieldsAgree(SortKeys, Stored(e), e);
    SameSortedMembers(MaterialMembers(Stored(e)), MaterialMembers(e));
  }

  lemma FieldsStored(e: Entry, x: Entry)
    requires WellFormedEntry(e) && x == Stored(e)
    ensures SortKeys(x.sequence) == SortKeys(e.sequence) && SortKeys(x.kind) == SortKeys(e.kind)
    ensures SortKeys(x.timestamp) == SortKeys(e.timestamp) && SortKeys(x.payload) == SortKeys(e.payload)
    ensures SortKeys(x.previousHash) == SortKeys(e.previousHash)
  {
    SortTwice(e.sequence);
    SortTwice(e.kind);
    SortTwice(e.timestamp);
    SortTwice(e.payload);
    SortTwice(e.previousHash);
  }

  lemma FieldsAgree(f: Json -> Json, x: Entry, y: Entry)
    requires f(x.sequence) == f(y.sequence) && f(x.kind) == f(y.kind) && f(x.timestamp) == f(y.timestamp)
    requires f(x.payload) == f(y.payload) && f(x.previousHash) == f(y.previousHash)
    ensures var a, b := MaterialMembers(x), MaterialMembers(y);
            |a| == |b| && forall i :: 0 <= i < |a| ==> a[i].key == b[i].key && f(a[i].value) == f(b[i].value)
  {
  }

  lemma SameSortedMembers(a: seq<Member>, b: seq<Member>)
    requires |a| == |b| && forall i :: 0 <= i < |a| ==> a[i].key == b[i].key && SortKeys(a[i].value) == SortKeys(b[i].value)
    ensures SortKeysMembers(a) == SortKeysMembers(b)
  {
    SortedMembers(a);
    SortedMembers(b);
  }

  // Reading a file with one more line.

  lemma {:induction false} ReadMore(lines: seq<string>, more: seq<string>)
    ensures ReadLines(lines + more) ==
      match (ReadLines(lines), ReadLines(more))
      case (Some(a), Some(b)) => Some(a + b)
      case _ => None
    decreases |lines|
  {
    if lines == [] {
      assert lines + more == more;
      assert ReadLines(more).Some? ==> [] + ReadLines(more).value == ReadLines(more).value;
    } else {
      assert (lines + more)[0] == lines[0] && (lines + more)[1..] == lines[1..] + more;
      ReadMore(lines[1..], more);
      if !Blank(lines[0]) && ReadLine(lines[0]).Some? && ReadLines(lines[1..]).Some? && ReadLines(more).Some? {
        var e, a, b := ReadLine(lines[0]).value, ReadLines(lines[1..]).value, ReadLines(more).value;
        assert [e] + (a + b) == [e] + a + b;
      }
    }
  }

  lemma ReadOne(line: string)
    ensures ReadLines([line]) ==
      if Blank(line) then Some([]) else if ReadLine(line).None? then None else Some([ReadLine(line).value])
  {
    assert [line][1..] == [];
    assert ReadLine(line).Some? ==> [ReadLine(line).value] + [] == [ReadLine(line).value];
  }

  lemma ReadBeforeTail(text: string)
    ensures Entries(text) ==
      match (ReadLines(Ended(text)), ReadLines([Tail(text)]))
      case (Some(a), Some(b)) => Some(a + b)
      case _ => None
  {
    EndedThenTail(text);
    ReadMore(Ended(text), [Tail(text)]);
  }

  lemma EndedThenTail(text: string)
    ensures Lines(text) == Ended(text) + [Tail(text)]
  {
  }

  lemma BlankSplit(line: string, x: string)
    requires x != [] && x[0] == '{'
    ensures !Blank(line + x)
  {
    assert (line + x)[|line|] == '{';
  }

  /** What a readable file reads as after a line was written to it. */
  lemma ReadWritten(text: string, e: Entry)
    requires WellFormedEntry(e) && Entries(text).Some?
    ensures Entries(Write(text, e)) ==
      if JsonSpace(Tail(text)) then Some(Entries(text).value + [Stored(e)]) else None
    ensures Tail(Write(text, e)) == []
  {
    var x, tail := CanonicalJson(EntryJson(e)), Tail(text);
    LineShape(e);
    WrittenEnds(text, x);
    ReadBeforeTail(text);
    ReadBeforeTail(Write(text, e));
    ReadOne(tail);
    ReadOne([]);
    ReadMore(Ended(text), [tail + x]);
    ReadOne(tail + x);
    BlankSplit(tail, x);
    ReadTail(tail, e);
    var done := ReadLines(Ended(text)).value;
    assert done + [] == done;
    assert done + [Stored(e)] + [] == done + [Stored(e)];
  }

  /** The unterminated line, once the new entry's text lands behind it. */
  lemma ReadTail(tail: string, e: Entry)
    requires WellFormedEntry(e) && (Blank(tail) || ReadLine(tail).Some?)
    ensures ReadLine(tail + CanonicalJson(EntryJson(e))) == if JsonSpace(tail) then Some(Stored(e)) else None
    ensures JsonSpace(tail) ==> Blank(tail)
  {
    var x := CanonicalJson(EntryJson(e));
    LineShape(e);
    if JsonSpace(tail) {
      LineReadsBack(e);
      SpaceSkipped(tail, x);
      SkipTwice(tail + x);
    } else if Blank(tail) {
      OddSpace(tail, x);
    } else {
      ExtraData(tail, x);
    }
  }

  // A cut file.

  /**
   Cutting a verified ledger after any ended line leaves a text that reads as the entries so far
   and verifies with their number.
   */
  lemma CutVerifies(hash: string -> string, front: string, back: string, es: seq<Entry>)
    requires Tail(front) == [] && Entries(front + back) == Some(es) && Verify(hash, front + back).Verified?
    ensures exists k :: 0 <= k <= |es| && Entries(front) == Some(es[..k]) && Verify(hash, front) == Verified(k)
  {
    CutLines(front, back);
    ReadMore(Ended(front), Lines(back));
    ReadBeforeTail(front);
    ReadOne([]);
    var read := ReadLines(Ended(front)).value;
    var k := |read|;
    assert read + [] == read;
    assert es[..k] == read;
    VerifiedExactlyChained(hash, front + back, Verify(hash, front + back).count);
    PrefixVerifies(hash, es, k);
    VerifiedExactlyChained(hash, front, k);
  }

  // Appending.

  lemma NewEntryWellFormed(hash: string -> string, lower: string -> string, es: seq<Entry>,
                           kind: string, timestamp: string, payload: Json)
    requires Chained(hash, es) && WellFormed(payload)
    ensures var e := NewEntry(hash, lower, es, kind, timestamp, payload);
            WellFormedEntry(e) && e.entryHash == Seal(hash, e) && e.previousHash.Str?
  {
    RedactWellFormed(lower, payload);
    assert es != [] ==> Linked(hash, es, |es| - 1);
  }

  /** A chain grown by a new entry, as it is read back, is a chain. */
  lemma GrownChain(hash: string -> string, lower: string -> string, es: seq<Entry>,
                   kind: string, timestamp: string, payload: Json)
    requires Chained(hash, es) && WellFormed(payload)
    ensures Chained(hash, es + [Stored(NewEntry(hash, lower, es, kind, timestamp, payload))])
  {
    var e := NewEntry(hash, lower, es, kind, timestamp, payload);
    var grown := es + [Stored(e)];
    NewEntryWellFormed(hash, lower, es, kind, timestamp, payload);
    SealStored(hash, e);
    forall i | 0 <= i < |grown| ensures Linked(hash, grown, i) {
      if i < |es| {
        assert Linked(hash, es, i) && grown[..i] == es[..i];
      } else {
        assert grown[..i] == es;
      }
    }
  }

  /**
   After a verified ledger is appended to, it verifies with one more entry exactly when its
   unterminated last line was empty but for JSON space; otherwise it no longer reads at all.
   */
  lemma AppendVerifiesExactly(hash: string -> string, lower: string -> string, text: string, es: seq<Entry>,
                              kind: string, timestamp: string, payload: Json)
    requires Entries(text) == Some(es) && Verify(hash, text) == Verified(|es|) && WellFormed(payload)
    ensures var e := NewEntry(hash, lower, es, kind, timestamp, payload);
            var after := Verify(hash, Write(text, e));
            && (after == Verified(|es| + 1) <==> JsonSpace(Tail(text)))
            && (after == Invalid <==> !JsonSpace(Tail(text)))
            && Tail(Write(text, e)) == []
            && (JsonSpace(Tail(text)) ==> Entries(Write(text, e)) == Some(es + [Stored(e)]))
  {
    var e := NewEntry(hash, lower, es, kind, timestamp, payload);
    VerifiedExactlyChained(hash, text, |es|);
    NewEntryWellFormed(hash, lower, es, kind, timestamp, payload);
    ReadWritten(text, e);
    GrownChain(hash, lower, es, kind, timestamp, payload);
    VerifiedExactlyChained(hash, Write(text, e), |es| + 1);
  }

  /** What a caller hands to `append`. */
  datatype Note = Note(kind: string, timestamp: string, payload: Json)

  /** A run of appends on the file's text. */
  function AppendAll(hash: string -> string, lower: string -> string, text: string, notes: seq<Note>): Option<string>
    decreases |notes|
  {
    if notes == [] then Some(text)
    else
      match Entries(text)
      case None => None
      case Some(es) =>
        var n := notes[0];
        AppendAll(hash, lower, Write(text, NewEntry(hash, lower, es, n.kind, n.timestamp, n.payload)), notes[1..])
  }

  /** An entry keeps its note: the kind and time as given, the payload redacted, nothing secret left. */
  predicate Keeps(lower: string -> string, e: Entry, n: Note) {
    && e.kind == Str(n.kind) && e.timestamp == Str(n.timestamp)
    && e.payload == SortKeys(Redact(lower, n.payload))
    && Redact(lower, e.payload) == e.payload && Clean(lower, e.payload)
  }

  ghost predicate NotesWellFormed(notes: seq<Note>) {
    forall i :: 0 <= i < |notes| ==> WellFormed(notes[i].payload)
  }

  /** `all` is `es` and then one entry for each note, in order. */
  ghost predicate Extends(lower: string -> string, all: seq<Entry>, es: seq<Entry>, notes: seq<Note>) {
    && |all| == |es| + |notes| && all[..|es|] == es
    && forall i :: 0 <= i < |notes| ==> Keeps(lower, all[|es| + i], notes[i])
  }

  lemma ExtendsOne(lower: string -> string, all: seq<Entry>, es: seq<Entry>, e: Entry, notes: seq<Note>)
    requires notes != [] && Keeps(lower, e, notes[0]) && Extends(lower, all, es + [e], notes[1..])
    ensures Extends(lower, all, es, notes)
  {
    assert all[..|es|] == all[..|es| + 1][..|es|];
    assert all[|es|] == all[..|es| + 1][|es|];
    forall i | 0 <= i < |notes| ensures Keeps(lower, all[|es| + i], notes[i]) {
      if i > 0 {
        assert Keeps(lower, all[|es| + 1 + (i - 1)], notes[1..][i - 1]);
      }
    }
  }

  /** The text reads as these entries, verifies, and has nothing unterminated. */
  ghost predicate Sound(hash: string -> string, text: string, es: seq<Entry>) {
    Entries(text) == Some(es) && Verify(hash, text) == Verified(|es|) && JsonSpace(Tail(text))
  }

  /** What a run of appends leaves: a sound ledger with the old entries and one for each note. */
  ghost predicate RunKeeps(hash: string -> string, lower: string -> string, after: Option<string>,
                           es: seq<Entry>, notes: seq<Note>)
  {
    after.Some? && exists all :: Sound(hash, after.value, all) && Extends(lower, all, es, notes)
  }

  lemma SoundStep(hash: string -> string, lower: string -> string, text: string, es: seq<Entry>, n: Note)
    requires Sound(hash, text, es) && WellFormed(n.payload)
    ensures var e := NewEntry(hash, lower, es, n.kind, n.timestamp, n.payload);
            Sound(hash, Write(text, e), es + [Stored(e)])
  {
    AppendVerifiesExactly(hash, lower, text, es, n.kind, n.timestamp, n.payload);
  }

  lemma AppendAllStep(hash: string -> string, lower: string -> string, text: string, es: seq<Entry>, notes: seq<Note>)
    requires Entries(text) == Some(es) && notes != []
    ensures var n := notes[0];
            AppendAll(hash, lower, text, notes)
            == AppendAll(hash, lower, Write(text, NewEntry(hash, lower, es, n.kind, n.timestamp, n.payload)), notes[1..])
  {
  }

  lemma RunKeepsStep(hash: string -> string, lower: string -> string, after: Option<string>, es: seq<Entry>, e: Entry, notes: seq<Note>)
    requires notes != [] && Keeps(lower, e, notes[0]) && RunKeeps(hash, lower, after, es + [e], notes[1..])
    ensures RunKeeps(hash, lower, after, es, notes)
  {
    var all :| Sound(hash, after.value, all) && Extends(lower, all, es + [e], notes[1..]);
    ExtendsOne(lower, all, es, e, notes);
  }

  /**
   Any run of appends from a verified ledger whose last line is ended keeps it verified, keeps
   the old entries, and adds one clean entry per call, in order.
   */
  lemma {:induction false} RunsStayVerified(hash: string -> string, lower: string -> string, text: string,
                                            es: seq<Entry>, notes: seq<Note>)
    requires Sound(hash, text, es) && NotesWellFormed(notes)
    ensures RunKeeps(hash, lower, AppendAll(hash, lower, text, notes), es, notes)
    decreases |notes|
  {
    if notes == [] {
      assert es[..|es|] == es;
      assert Extends(lower, es, es, notes);
    } else {
      var n := notes[0];
      var e := NewEntry(hash, lower, es, n.kind, n.timestamp, n.payload);
      SoundStep(hash, lower, text, es, n);
      AppendAllStep(hash, lower, text, es, notes);
      RunsStayVerified(hash, lower, Write(text, e), es + [Stored(e)], notes[1..]);
      NoteKept(hash, lower, es, n);
      RunKeepsStep(hash, lower, AppendAll(hash, lower, text, notes), es, Stored(e), notes);
    }
  }

  lemma NoteKept(hash: string -> string, lower: string -> string, es: seq<Entry>, n: Note)
    ensures Keeps(lower, Stored(NewEntry(hash, lower, es, n.kind, n.timestamp, n.payload)), n)
  {
    RedactCleans(lower, n.payload);
    SortKeysClean(lower, Redact(lower, n.payload));
    FixpointExactlyClean(lower, SortKeys(Redact(lower, n.payload)));
  }

  /** A new ledger is verified and has nothing unterminated, so every run from it stays verified. */
  lemma RunsFromEmpty(hash: string -> string, lower: string -> string, notes: seq<Note>)
    requires NotesWellFormed(notes)
    ensures RunKeeps(hash, lower, AppendAll(hash, lower, [], notes), [], notes)
  {
    ReadOne([]);
    assert Lines([]) == [[]];
    RunsStayVerified(hash, lower, [], [], notes);
  }

  /**
   The condition matters: drop the final newline of a one-entry ledger. It still verifies,
   but the next append joins two objects on one line and the ledger no longer reads.
   */
  lemma UnterminatedLineBreaks(hash: string -> string, lower: string -> string, n: Note)
    requires WellFormed(n.payload)
    ensures var e := NewEntry(hash, lower, [], n.kind, n.timestamp, n.payload);
            var text := CanonicalJson(EntryJson(e));
            && Verify(hash, text) == Verified(1)
            && Verify(hash, Write(text, NewEntry(hash, lower, [Stored(e)], n.kind, n.timestamp, n.payload))) == Invalid
  {
    var e := NewEntry(hash, lower, [], n.kind, n.timestamp, n.payload);
    var text := CanonicalJson(EntryJson(e));
    NewEntryWellFormed(hash, lower, [], n.kind, n.timestamp, n.payload);
    LineShape(e);
    LineReadsBack(e);
    OneLine(text);
    ReadOne(text);
    BlankSplit([], text);
    assert [] + text == text;
    GrownChain(hash, lower, [], n.kind, n.timestamp, n.payload);
    assert [] + [Stored(e)] == [Stored(e)];
    VerifiedExactlyChained(hash, text, 1);
    assert !IsSpace(text[0]);
    AppendVerifiesExactly(hash, lower, text, [Stored(e)], n.kind, n.timestamp, n.payload);
  }

  lemma {:induction false} OneLine(x: string)
    requires Printable(x)
    ensures Lines(x) == [x]
  {
    if x != [] {
      OneLine(x[1..]);
      assert [x[0]] + x[1..] == x;
    }
  }
}
