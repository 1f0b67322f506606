/** `EvidenceLedger` of ledger.py: a hash chain kept as lines of canonical JSON. */
module Ledger {
  import opened Common
  import opened Numerals
  import opened Json
  import opened JsonParser
  import opened Redaction
  import opened TextLines

  /** `"0" * 64`. */
  const ZERO_HASH: string := "0000000000000000000000000000000000000000000000000000000000000000"

  /** The fields as they are read back: Python does not check their types. */
  datatype Entry = Entry(sequence: Json, kind: Json, timestamp: Json, payload: Json, previousHash: Json, entryHash: Json)

  /** What `verify` answers. */
  datatype Verdict = Verified(count: nat) | SequenceGap(expected: nat) | IntegrityFailure(sequence: Json) | Invalid

  // Entries as JSON.

  function MaterialMembers(e: Entry): seq<Member> {
    [Member("sequence", e.sequence), Member("kind", e.kind), Member("timestamp", e.timestamp),
     Member("payload", e.payload), Member("previous_hash", e.previousHash)]
  }

  function Material(e: Entry): Json {
    Obj(MaterialMembers(e))
  }

  function EntryJson(e: Entry): Json {
    Obj(MaterialMembers(e) + [Member("entry_hash", e.entryHash)])
  }

  /** `LedgerEntry(**value)`: an object with exactly the six fields. */
  function EntryOf(v: Json): Option<Entry> {
    if !v.Obj? || |v.members| != 6 then None
    else
      match (Find(v.members, "sequence"), Find(v.members, "kind"), Find(v.members, "timestamp"),
             Find(v.members, "payload"), Find(v.members, "previous_hash"), Find(v.members, "entry_hash"))
      case (Some(s), Some(k), Some(t), Some(p), Some(h), Some(e)) => Some(Entry(s, k, t, p, h, e))
      case _ => None
  }

  // Reading.

  function ReadLine(line: string): Option<Entry> {
    match Loads(line)
    case None => None
    case Some(v) => EntryOf(v)
  }

  /** The entries of the lines; `None` is the exception that a bad line raises. */
  function ReadLines(lines: seq<string>): Option<seq<Entry>> {
    if lines == [] then Some([])
    else if Blank(lines[0]) then ReadLines(lines[1..])
    else
      match ReadLine(lines[0])
      case None => None
      case Some(e) => Behind([e], ReadLines(lines[1..]))
  }

  /** Entries already read, in front of what the rest reads as. */
  function Behind(done: seq<Entry>, rest: Option<seq<Entry>>): Option<seq<Entry>> {
    if rest.Some? then Some(done + rest.value) else None
  }

  lemma BehindNothing(rest: Option<seq<Entry>>)
    ensures Behind([], rest) == rest
  {
    assert rest.Some? ==> [] + rest.value == rest.value;
  }

  lemma BehindOne(done: seq<Entry>, e: Entry, rest: Option<seq<Entry>>)
    ensures Behind(done + [e], rest) == Behind(done, Behind([e], rest))
  {
    if rest.Some? {
      assert done + [e] + rest.value == done + ([e] + rest.value);
    }
  }

  /** `entries`, of a ledger whose file holds `text`. A missing file reads as empty text. */
  function Entries(text: string): Option<seq<Entry>> {
    ReadLines(Lines(text))
  }

  // Verifying.

  /** Python's `==` between a JSON value and an integer: `True == 1` and `1.0 == 1` hold. */
  predicate EqualsNumber(v: Json, n: nat) {
    match v
    case Int(m) => m == n
    case Bool(b) => n == if b then 1 else 0
    case Float(lexeme) => lexeme == Dec(n) + ".0"
    case _ => false
  }

  function Seal(hash: string -> string, e: Entry): Json {
    Str(hash(CanonicalJson(Material(e))))
  }

  function Check(hash: string -> string, es: seq<Entry>, previous: Json, expected: nat): Verdict
    requires expected > 0
    decreases |es|
  {
    if es == [] then Verified(expected - 1)
    else if !EqualsNumber(es[0].sequence, expected) then SequenceGap(expected)
    else if es[0].previousHash != previous || es[0].entryHash != Seal(hash, es[0]) then
      IntegrityFailure(es[0].sequence)
    else Check(hash, es[1..], es[0].entryHash, expected + 1)
  }

  /** `verify`. */
  function Verify(hash: string -> string, text: string): Verdict {
    match Entries(text)
    case None => Invalid
    case Some(es) => Check(hash, es, Str(ZERO_HASH), 1)
  }

  // Appending.

  function LastHash(es: seq<Entry>): Json {
    if es == [] then Str(ZERO_HASH) else es[|es| - 1].entryHash
  }

  function NewEntry(hash: string -> string, lower: string -> string, es: seq<Entry>,
                    kind: string, timestamp: string, payload: Json): Entry {
    var unsealed := Entry(Int(|es| + 1), Str(kind), Str(timestamp), Redact(lower, payload), LastHash(es), Null);
    unsealed.(entryHash := Seal(hash, unsealed))
  }

  function Write(text: string, e: Entry): string {
    text + (CanonicalJson(EntryJson(e)) + "\n")
  }

  /** The ledger object: a hash, Python's `lower`, and the text of its file. */
  class EvidenceLedger {
    const hash: string -> string
    const lower: string -> string
    var text: string

    constructor (hash: string -> string, lower: string -> string)
      ensures this.hash == hash && this.lower == lower && text == []
    {
      this.hash := hash;
      this.lower := lower;
      text := [];
    }

    /** `entries`. */
    method ReadEntries() returns (r: Option<seq<Entry>>)
      ensures r == Entries(text)
    {
      var lines := Lines(text);
      var result: seq<Entry> := [];
      assert lines[0..] == lines;
      BehindNothing(ReadLines(lines));
      for i := 0 to |lines|
        invariant Entries(text) == Behind(result, ReadLines(lines[i..]))
      {
        assert lines[i..][0] == lines[i] && lines[i..][1..] == lines[i + 1..];
        if !Blank(lines[i]) {
          var e := ReadLine(lines[i]);
          if e.None? {
            return None;
          }
          BehindOne(result, e.value, ReadLines(lines[i + 1..]));
          result := result + [e.value];
        }
      }
      assert result + [] == result;
      return Some(result);
    }

    /** `append`. */
    method Append(kind: string, timestamp: string, payload: Json) returns (r: Option<Entry>)
      modifies this
      ensures match Entries(old(text))
        case None => r == None && text == old(text)
        case Some(es) =>
          && r == Some(NewEntry(hash, lower, es, kind, timestamp, payload))
          && text == Write(old(text), r.value)
    {
      var previous := ReadEntries();
      if previous.None? {
        return None;
      }
      var e := NewEntry(hash, lower, previous.value, kind, timestamp, payload);
      text := Write(text, e);
      return Some(e);
    }

    /** `verify`. */
    method VerifyChain() returns (v: Verdict)
      ensures v == Verify(hash, text)
    {
      var es := ReadEntries();
      if es.None? {
        return Invalid;
      }
      var entries := es.value;
      var previousHash := Str(ZERO_HASH);
      var expected := 1;
      for i := 0 to |entries|
        invariant expected == i + 1
        invariant Verify(hash, text) == Check(hash, entries[i..], previousHash, expected)
      {
        var e := entries[i];
        assert entries[i..][0] == e && entries[i..][1..] == entries[i + 1..];
        if !EqualsNumber(e.sequence, expected) {
          return SequenceGap(expected);
        }
        if e.previousHash != previousHash || e.entryHash != Seal(hash, e) {
          return IntegrityFailure(e.sequence);
        }
        previousHash := e.entryHash;
        expected := expected + 1;
      }
      return Verified(expected - 1);
    }
  }
}
