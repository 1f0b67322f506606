/** `_safe_json` of dashboard.py: JSON text that can stand inside a script element. */
module SafeJson {
  import opened Common
  import opened Numerals
  import opened Json
  import opened JsonParser
  import opened JsonCanonical

  /** `text.replace("</", "<\\/")`. */
  function Replace(text: string): string
    decreases |text|
  {
    if |text| < 2 then text
    else if text[0] == '<' && text[1] == '/' then "<\\/" + Replace(text[2..])
    else [text[0]] + Replace(text[1..])
  }

  /** `_safe_json`: the keys stay in their order. */
  function SafeJson(v: Json): string {
    Replace(Print(false, v))
  }

  predicate NoClose(s: string) {
    forall i :: 0 <= i < |s| - 1 ==> !(s[i] == '<' && s[i + 1] == '/')
  }

  lemma {:induction false} ReplaceHead(s: string)
    ensures |Replace(s)| >= |s| && (s != [] ==> Replace(s)[0] == s[0])
    decreases |s|
  {
    if |s| >= 2 {
      if s[0] == '<' && s[1] == '/' {
        ReplaceHead(s[2..]);
      } else {
        ReplaceHead(s[1..]);
      }
    }
  }

  lemma {:induction false} ReplaceCloses(s: string)
    ensures NoClose(Replace(s))
    decreases |s|
  {
    if |s| >= 2 {
      if s[0] == '<' && s[1] == '/' {
        ReplaceCloses(s[2..]);
        assert Replace(s) == ['<', '\\', '/'] + Replace(s[2..]);
      } else {
        ReplaceCloses(s[1..]);
        ReplaceHead(s[1..]);
      }
    }
  }

  lemma ReplaceClose(more: string)
    ensures Replace("</" + more) == "<\\/" + Replace(more)
  {
    assert ("</" + more)[2..] == more;
  }

  lemma ReplaceKeep(c: char, more: string)
    requires c != '<' || more == [] || more[0] != '/'
    ensures Replace([c] + more) == [c] + Replace(more)
  {
    assert ([c] + more)[1..] == more;
    if more == [] {
      assert [c] + more == [c];
    }
  }

  lemma CloseConcat(more: string, b: string)
    requires Replace(more + b) == Replace(more) + Replace(b)
    ensures Replace("</" + more + b) == Replace("</" + more) + Replace(b)
  {
    ReplaceClose(more);
    ReplaceClose(more + b);
    Assoc("</", more, b);
    Assoc("<\\/", Replace(more), Replace(b));
  }

  lemma KeepConcat(c: char, more: string, b: string)
    requires Replace(more + b) == Replace(more) + Replace(b)
    requires c != '<' || ((more == [] || more[0] != '/') && (more + b == [] || (more + b)[0] != '/'))
    ensures Replace([c] + more + b) == Replace([c] + more) + Replace(b)
  {
    ReplaceKeep(c, more);
    ReplaceKeep(c, more + b);
    Assoc([c], more, b);
    Assoc([c], Replace(more), Replace(b));
  }

  /** Replacing distributes over a join that does not itself make `</`. */
  lemma {:induction false} ReplaceConcat(a: string, b: string)
    requires a == [] || b == [] || a[|a| - 1] != '<' || b[0] != '/'
    ensures Replace(a + b) == Replace(a) + Replace(b)
    decreases |a|
  {
    if a == [] {
      assert a + b == b;
    } else if |a| >= 2 && a[0] == '<' && a[1] == '/' {
      ReplaceConcat(a[2..], b);
      CloseConcat(a[2..], b);
      assert a == "</" + a[2..];
    } else {
      var more := a[1..];
      ReplaceConcat(more, b);
      assert more + b != [] ==> (more + b)[0] == if more == [] then b[0] else a[1];
      KeepConcat(a[0], more, b);
      assert a == [a[0]] + more;
    }
  }

  /** No `<` in it: replacing does nothing. */
  predicate Plain(s: string) {
    forall i :: 0 <= i < |s| ==> s[i] != '<'
  }

  lemma {:induction false} ReplacePlain(s: string)
    requires Plain(s)
    ensures Replace(s) == s
  {
    if |s| >= 2 {
      ReplacePlain(s[1..]);
    }
  }

  lemma PlainThen(a: string, b: string)
    requires Plain(a)
    ensures Replace(a + b) == a + Replace(b)
  {
    ReplacePlain(a);
    ReplaceConcat(a, b);
  }

  lemma EscapePlain(c: char)
    ensures c == '<' || c == '/' ==> Escape(c) == [c]
    ensures c != '<' ==> Plain(Escape(c))
    ensures c != '/' ==> Escape(c) != [] && Escape(c)[0] != '/'
  {
    EscapeIsShort(c);
    if |Escape(c)| > 2 {
      LongPlain(c);
    }
  }

  lemma LongPlain(c: char)
    requires c < ' '
    ensures Plain("\\u" + Hex(4, c as int))
  {
    HexShort(c as int);
  }

  /** Replacing in an escaped literal is escaping it the safe way. */
  lemma {:induction false} ReplaceEscaped(s: string)
    ensures Replace(EscapeAll(false, false, s)) == EscapeAll(true, false, s)
    decreases |s|
  {
    if s != [] {
      var rest := s[1..];
      EscapeAllUnsafe(false, s[0] == '<', rest);
      EscapePlain(s[0]);
      if s[0] != '<' {
        ReplaceEscaped(rest);
        PlainThen(Escape(s[0]), EscapeAll(false, false, rest));
      } else if rest != [] && rest[0] == '/' {
        SlashAfterLess(s);
      } else {
        ReplaceEscaped(rest);
        EscapeAllHead(rest);
        ReplaceConcat(['<'], EscapeAll(false, false, rest));
        assert EscapeAll(true, true, rest) == EscapeAll(true, false, rest);
      }
    }
  }

  lemma EscapeAllHead(s: string)
    requires s == [] || s[0] != '/'
    ensures var e := EscapeAll(false, false, s); e == [] || e[0] != '/'
  {
    if s != [] {
      EscapePlain(s[0]);
    }
  }

  /** Unsafe printing does not look at what came before. */
  lemma EscapeAllUnsafe(before: bool, after: bool, s: string)
    ensures EscapeAll(false, before, s) == EscapeAll(false, after, s)
  {
  }

  lemma EscapeLessSlash(safe: bool, s: string)
    requires |s| >= 2 && s[0] == '<' && s[1] == '/'
    ensures EscapeAll(safe, false, s) == (if safe then "<\\/" else "</") + EscapeAll(safe, false, s[2..])
  {
    var t := s[1..];
    EscapePlain('<');
    EscapePlain('/');
    assert t[0] == '/' && t[1..] == s[2..];
    assert EscapeAll(safe, true, t) == (if safe then "\\/" else "/") + EscapeAll(safe, false, s[2..]);
    assert EscapeAll(safe, false, s) == "<" + EscapeAll(safe, true, t);
  }

  lemma {:induction false} SlashAfterLess(s: string)
    requires |s| >= 2 && s[0] == '<' && s[1] == '/'
    ensures Replace(EscapeAll(false, false, s)) == EscapeAll(true, false, s)
    decreases |s|, 0
  {
    EscapeLessSlash(false, s);
    EscapeLessSlash(true, s);
    ReplaceEscaped(s[2..]);
    ReplaceClose(EscapeAll(false, false, s[2..]));
  }

  lemma ReplaceQuoted(s: string, rest: string)
    ensures Replace(Quote(false, s) + rest) == Quote(true, s) + Replace(rest)
  {
    var inside := EscapeAll(false, false, s);
    ReplaceEscaped(s);
    PlainThen("\"", rest);
    ReplaceConcat(inside, "\"" + rest);
    Twice(inside, EscapeAll(true, false, s), "\"", "\"", rest);
    Joined("\"", inside + "\"", EscapeAll(true, false, s) + "\"", rest);
  }

  /** Replacing in printed text is printing the safe way; what follows is replaced on its own. */
  lemma {:induction false} ReplacePrinted(v: Json, rest: string)
    requires WellFormed(v)
    ensures Replace(Print(false, v) + rest) == Print(true, v) + Replace(rest)
    decreases v, 1, 0
  {
    match v {
      case Null => PlainThen("null", rest);
      case Bool(b) => PlainThen(if b then "true" else "false", rest);
      case Int(n) => DecNumeric(if n < 0 then -n else n); PlainThen(DecInt(n), rest);
      case Float(lexeme) => FloatNumeric(lexeme); PlainThen(lexeme, rest);
      case Str(s) => ReplaceQuoted(s, rest);
      case Arr(items) => ReplaceArray(v, rest);
      case Obj(ms) => ReplaceObject(v, rest);
    }
  }

  lemma {:induction false} ReplaceArray(v: Json, rest: string)
    requires v.Arr? && WellFormed(v)
    ensures Replace(Print(false, v) + rest) == Print(true, v) + Replace(rest)
    decreases v, 0, |v.items| + 1
  {
    if v.items == [] {
      PlainThen("[]", rest);
    } else {
      ReplaceItems(v, v.items, rest);
      Joined("[", PrintItems(false, v.items), PrintItems(true, v.items), rest);
    }
  }

  lemma {:induction false} ReplaceObject(v: Json, rest: string)
    requires v.Obj? && WellFormed(v)
    ensures Replace(Print(false, v) + rest) == Print(true, v) + Replace(rest)
    decreases v, 0, |v.members| + 1
  {
    if v.members == [] {
      PlainThen("{}", rest);
    } else {
      ReplaceMembers(v, v.members, rest);
      Joined("{", PrintMembers(false, v.members), PrintMembers(true, v.members), rest);
    }
  }

  /** A plain piece in front of text whose replacement is known. */
  lemma Joined(a: string, b: string, b': string, rest: string)
    requires Plain(a) && Replace(b + rest) == b' + Replace(rest)
    ensures Replace(a + b + rest) == a + b' + Replace(rest)
  {
    assert a + b + rest == a + (b + rest);
    PlainThen(a, b + rest);
  }

  /** Two pieces one after the other. */
  lemma Twice(a: string, a': string, b: string, b': string, rest: string)
    requires Replace(a + (b + rest)) == a' + Replace(b + rest)
    requires Replace(b + rest) == b' + Replace(rest)
    ensures Replace(a + b + rest) == a' + b' + Replace(rest)
  {
    assert a + b + rest == a + (b + rest);
  }

  lemma {:induction false} ReplaceItems(parent: Json, items: seq<Json>, rest: string)
    requires parent.Arr? && items != [] && AllWellFormed(items) && forall v :: v in items ==> v in parent.items
    ensures Replace(PrintItems(false, items) + rest) == PrintItems(true, items) + Replace(rest)
    decreases parent, 0, |items|
  {
    var v, more := items[0], items[1..];
    assert v in parent.items;
    ReplacePrinted(v, ItemsTail(false, more) + rest);
    if more == [] {
      PlainThen("]", rest);
    } else {
      ReplaceItems(parent, more, rest);
      Joined(",", PrintItems(false, more), PrintItems(true, more), rest);
    }
    Twice(Print(false, v), Print(true, v), ItemsTail(false, more), ItemsTail(true, more), rest);
  }

  lemma {:induction false} ReplaceMembers(parent: Json, ms: seq<Member>, rest: string)
    requires parent.Obj? && ms != [] && MembersWellFormed(ms) && forall m :: m in ms ==> m in parent.members
    ensures Replace(PrintMembers(false, ms) + rest) == PrintMembers(true, ms) + Replace(rest)
    decreases parent, 0, |ms|
  {
    var m, more := ms[0], ms[1..];
    assert m in parent.members;
    var text, text', tail, tail' := Print(false, m.value), Print(true, m.value), MembersTail(false, more), MembersTail(true, more);
    ReplacePrinted(m.value, tail + rest);
    if more == [] {
      PlainThen("}", rest);
    } else {
      ReplaceMembers(parent, more, rest);
      Joined(",", PrintMembers(false, more), PrintMembers(true, more), rest);
    }
    Twice(text, text', tail, tail', rest);
    Joined(":", text + tail, text' + tail', rest);
    ReplaceQuoted(m.key, ":" + (text + tail) + rest);
    Twice(Quote(false, m.key), Quote(true, m.key), ":" + (text + tail), ":" + (text' + tail'), rest);
  }

  /** The safe text holds no `</`, and still parses to the value itself. */
  lemma SafeJsonSound(v: Json)
    requires WellFormed(v)
    ensures NoClose(SafeJson(v))
    ensures Loads(SafeJson(v)) == Some(v)
  {
    ReplaceCloses(Print(false, v));
    ReplacePrinted(v, []);
    assert Print(false, v) + [] == Print(false, v) && Print(true, v) + [] == Print(true, v);
    PrintParses(true, v);
  }
}
