/** A text file read line by line with universal newlines, as `for line in handle` does. */
module TextLines {
  import opened JsonParser
  import opened JsonCanonical

  predicate IsBreak(c: char) {
    c == '\n' || c == '\r'
  }

  /** What `str.strip` takes off: more than JSON's own space. */
  predicate IsPySpace(c: char) {
    var u := c as int;
    0x09 <= u <= 0x0D || 0x1C <= u <= 0x20 || u == 0x85 || u == 0xA0 || u == 0x1680
    || 0x2000 <= u <= 0x200A || u == 0x2028 || u == 0x2029 || u == 0x202F || u == 0x205F || u == 0x3000
  }

  predicate Blank(line: string) {
    forall i :: 0 <= i < |line| ==> IsPySpace(line[i])
  }

  /** Nothing but space that JSON allows before a value. */
  predicate JsonSpace(line: string) {
    forall i :: 0 <= i < |line| ==> IsSpace(line[i])
  }

  /**
   The pieces between line breaks; the last piece is the unterminated line. A `\r\n` leaves an
   empty piece between its two characters, which readers skip as they skip every blank line.
   */
  function Lines(text: string): (ls: seq<string>)
    ensures ls != []
  {
    if text == [] then [[]] else Push(text[0], Lines(text[1..]))
  }

  function Push(c: char, ls: seq<string>): (r: seq<string>)
    requires ls != []
    ensures r != []
  {
    if IsBreak(c) then [[]] + ls else [[c] + ls[0]] + ls[1..]
  }

  /** The last piece carried on by `x`, and a new empty one after it. */
  function Extend(ls: seq<string>, x: string): seq<string>
    requires ls != []
  {
    ls[..|ls| - 1] + [ls[|ls| - 1] + x, []]
  }

  lemma PushExtend(c: char, ls: seq<string>, x: string)
    requires ls != []
    ensures Push(c, Extend(ls, x)) == Extend(Push(c, ls), x)
  {
    if IsBreak(c) {
      assert Push(c, Extend(ls, x)) == [[]] + (ls[..|ls| - 1] + [ls[|ls| - 1] + x, []]);
      assert ([[]] + ls)[..|ls|] == [[]] + ls[..|ls| - 1];
    } else if |ls| == 1 {
      assert Extend(ls, x) == [ls[0] + x, []];
      assert [c] + (ls[0] + x) == [c] + ls[0] + x;
      assert Push(c, ls) == [[c] + ls[0]];
    } else {
      var n := |ls|;
      assert Extend(ls, x)[0] == ls[0];
      assert Extend(ls, x)[1..] == ls[1..n - 1] + [ls[n - 1] + x, []];
      assert Push(c, ls)[..n - 1] == [[c] + ls[0]] + ls[1..n - 1];
      assert Push(c, ls)[n - 1] == ls[n - 1];
    }
  }

  /** The unterminated last line. */
  function Tail(text: string): string {
    var ls := Lines(text);
    ls[|ls| - 1]
  }

  /** The lines that are ended by a break. */
  function Ended(text: string): seq<string> {
    var ls := Lines(text);
    ls[..|ls| - 1]
  }

  /** One more character in front of ended lines stays in front of whatever follows them. */
  lemma PushCut(c: char, ended: seq<string>, last: string, more: seq<string>)
    requires more != [] && (IsBreak(c) || ended != [])
    ensures var ls := Push(c, ended + [last]); Push(c, ended + more) == ls[..|ls| - 1] + more
    ensures var ls := Push(c, ended + [last]); ls[|ls| - 1] == last
  {
    if IsBreak(c) {
      assert [[]] + (ended + more) == [[]] + ended + more;
      assert [[]] + (ended + [last]) == [[]] + ended + [last];
    } else {
      assert (ended + more)[1..] == ended[1..] + more;
      assert (ended + [last])[1..] == ended[1..] + [last];
    }
  }

  /** Cutting a text after an ended line cuts its lines there. */
  lemma {:induction false} CutLines(front: string, back: string)
    requires Tail(front) == []
    ensures Lines(front + back) == Ended(front) + Lines(back)
  {
    if front == [] {
      assert front + back == back;
    } else {
      var rest := front[1..];
      assert (front + back)[1..] == rest + back;
      assert Lines(rest) == Ended(rest) + [Tail(rest)];
      PushCut(front[0], Ended(rest), Tail(rest), Lines(back));
      CutLines(rest, back);
    }
  }

  lemma {:induction false} PrintableLine(x: string)
    requires Printable(x)
    ensures Lines(x + "\n") == [x, []]
  {
    if x == [] {
      assert x + "\n" == "\n";
      assert Lines("\n"[1..]) == [[]];
    } else {
      assert (x + "\n")[1..] == x[1..] + "\n";
      PrintableLine(x[1..]);
      assert [x[0]] + x[1..] == x;
    }
  }

  /** Writing one line carries on the unterminated one: the new text lands behind it. */
  lemma {:induction false} WriteLine(text: string, x: string)
    requires Printable(x)
    ensures Lines(text + (x + "\n")) == Extend(Lines(text), x)
  {
    if text == [] {
      PrintableLine(x);
      assert text + (x + "\n") == x + "\n";
      assert Lines(text)[0] + x == x;
      assert Extend(Lines(text), x) == [x, []];
    } else {
      var rest := text[1..];
      assert (text + (x + "\n"))[1..] == rest + (x + "\n");
      WriteLine(rest, x);
      PushExtend(text[0], Lines(rest), x);
    }
  }

  /** After a line is written nothing is left unterminated. */
  lemma WrittenEnds(text: string, x: string)
    requires Printable(x)
    ensures Ended(text + (x + "\n")) == Ended(text) + [Tail(text) + x]
    ensures Tail(text + (x + "\n")) == []
  {
    WriteLine(text, x);
    assert Extend(Lines(text), x) == Ended(text) + [Tail(text) + x] + [[]];
  }

  lemma {:induction false} SpaceSkipped(line: string, x: string)
    requires JsonSpace(line) && x != [] && !IsSpace(x[0])
    ensures SkipSpace(line + x) == x
  {
    if line == [] {
      assert line + x == x;
    } else {
      assert (line + x)[1..] == line[1..] + x;
      SpaceSkipped(line[1..], x);
    }
  }

  /** Space that JSON does not know is a syntax error in front of a value. */
  lemma {:induction false} OddSpace(line: string, x: string)
    requires Blank(line) && !JsonSpace(line)
    ensures ParseValue(line + x) == Fail
  {
    var s := SkipSpace(line + x);
    FirstOdd(line, x);
    OddHead(s);
    SkipTwice(line + x);
  }

  lemma OddHead(s: string)
    requires s != [] && IsPySpace(s[0]) && !IsSpace(s[0])
    ensures ParseValue(s) == Fail
  {
    NumberDispatch(s);
  }

  lemma {:induction false} FirstOdd(line: string, x: string)
    requires Blank(line) && !JsonSpace(line)
    ensures var s := SkipSpace(line + x); s != [] && IsPySpace(s[0]) && !IsSpace(s[0])
  {
    assert (line + x)[0] == line[0];
    if IsSpace(line[0]) {
      assert (line + x)[1..] == line[1..] + x;
      FirstOdd(line[1..], x);
    }
  }
}
