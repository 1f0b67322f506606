/**
 Two facts about parsing arbitrary text: what is parsed is always a well-formed value, and
 text that follows a parsed value is left untouched unless it could carry on a number.
 */
module JsonStability {
  import opened Common
  import opened Json
  import opened JsonParser

  // More text after a parse.

  /** `y` neither is space nor carries on a number. */
  predicate Starts(y: string) {
    y != [] && !IsSpace(y[0]) && Stops(y)
  }

  lemma {:induction false} SkipStable(s: string, y: string)
    requires Starts(y)
    ensures SkipSpace(s + y) == SkipSpace(s) + y
  {
    if s == [] {
      assert s + y == y;
    } else {
      DropConcat(s, y, 1);
      if IsSpace(s[0]) {
        SkipStable(s[1..], y);
      }
    }
  }

  lemma Hex4Stable(s: string, y: string)
    requires Hex4(s).Some?
    ensures Hex4(s + y) == Hex4(s)
  {
    assert (s + y)[0] == s[0] && (s + y)[1] == s[1] && (s + y)[2] == s[2] && (s + y)[3] == s[3];
  }

  lemma UnicodeStable(s: string, y: string)
    requires ParseUnicode(s).Got?
    ensures ParseUnicode(s + y) == Got(ParseUnicode(s).value, ParseUnicode(s).rest + y)
  {
    Hex4Stable(s, y);
    DropConcat(s, y, 4);
    if IsHigh(Hex4(s).value) {
      Hex4Stable(s[6..], y);
      DropConcat(s, y, 6);
      DropConcat(s, y, 10);
      assert (s + y)[4] == s[4] && (s + y)[5] == s[5];
    }
  }

  lemma EscapeStable(s: string, y: string)
    requires ParseEscape(s).Got?
    ensures ParseEscape(s + y) == Got(ParseEscape(s).value, ParseEscape(s).rest + y)
  {
    DropConcat(s, y, 1);
    assert (s + y)[0] == s[0];
    if ShortEscape(s[0]).None? {
      UnicodeStable(s[1..], y);
    }
  }

  lemma {:induction false} StringStable(s: string, y: string)
    requires ParseString(s).Got?
    ensures ParseString(s + y) == Got(ParseString(s).value, ParseString(s).rest + y)
    decreases |s|
  {
    DropConcat(s, y, 1);
    assert (s + y)[0] == s[0];
    if s[0] == '\"' {
    } else if s[0] == '\\' {
      EscapeStable(s[1..], y);
      StringStable(ParseEscape(s[1..]).rest, y);
    } else {
      StringStable(s[1..], y);
    }
  }

  lemma WordStable(s: string, y: string, word: string, v: Json)
    requires ParseWord(s, word, v).Got?
    ensures ParseWord(s + y, word, v) == Got(v, ParseWord(s, word, v).rest + y)
  {
    DropConcat(s, y, |word|);
    assert (s + y)[..|word|] == s[..|word|];
  }

  lemma KeyStable(s: string, y: string)
    requires ParseKey(s).Got? && Starts(y)
    ensures ParseKey(s + y) == Got(ParseKey(s).value, ParseKey(s).rest + y)
  {
    SkipStable(s, y);
    var t := SkipSpace(s);
    DropConcat(t, y, 1);
    StringStable(t[1..], y);
    var rest := ParseString(t[1..]).rest;
    SkipStable(rest, y);
    DropConcat(SkipSpace(rest), y, 1);
  }

  lemma {:induction false} ValueStable(s: string, y: string)
    requires ParseValue(s).Got? && Starts(y)
    ensures ParseValue(s + y) == Got(ParseValue(s).value, ParseValue(s).rest + y)
    decreases |s|, 1
  {
    SkipStable(s, y);
    var t := SkipSpace(s);
    assert (t + y)[0] == t[0];
    SkipTwice(s + y);
    SkipTwice(s);
    HeadStable(t, y);
  }

  lemma {:induction false} HeadStable(t: string, y: string)
    requires t != [] && !IsSpace(t[0]) && ParseValue(t).Got? && Starts(y)
    ensures ParseValue(t + y) == Got(ParseValue(t).value, ParseValue(t).rest + y)
    decreases |t|, 0
  {
    var s := t[1..];
    DropConcat(t, y, 1);
    if t[0] == '\"' {
      assert t == "\"" + s && t + y == "\"" + (s + y);
      TextDispatch(s);
      TextDispatch(s + y);
      StringStable(s, y);
    } else if t[0] == '[' {
      assert t == "[" + s && t + y == "[" + (s + y);
      ArrayDispatch(s);
      ArrayDispatch(s + y);
      ArrayStable(s, y);
    } else if t[0] == '{' {
      assert t == "{" + s && t + y == "{" + (s + y);
      ObjectDispatch(s);
      ObjectDispatch(s + y);
      ObjectStable(s, y);
    } else if t[0] == 'n' || t[0] == 't' || t[0] == 'f' {
      WordsStable(t, y);
    } else {
      NumberDispatch(t);
      NumberDispatch(t + y);
      NumberStable(t, y);
    }
  }

  lemma WordsStable(t: string, y: string)
    requires t != [] && (t[0] == 'n' || t[0] == 't' || t[0] == 'f') && ParseValue(t).Got?
    ensures ParseValue(t + y) == Got(ParseValue(t).value, ParseValue(t).rest + y)
  {
    assert (t + y)[0] == t[0];
    WordDispatch(t);
    WordDispatch(t + y);
    if t[0] == 'n' {
      WordStable(t, y, "null", Null);
    } else if t[0] == 't' {
      WordStable(t, y, "true", Bool(true));
    } else {
      WordStable(t, y, "false", Bool(false));
    }
  }

  lemma WordDispatch(t: string)
    requires t != [] && (t[0] == 'n' || t[0] == 't' || t[0] == 'f')
    ensures ParseValue(t) ==
      if t[0] == 'n' then ParseWord(t, "null", Null)
      else if t[0] == 't' then ParseWord(t, "true", Bool(true))
      else ParseWord(t, "false", Bool(false))
  {
  }

  lemma {:induction false} ArrayStable(s: string, y: string)
    requires ParseArray(s).Got? && Starts(y)
    ensures ParseArray(s + y) == Got(ParseArray(s).value, ParseArray(s).rest + y)
    decreases |s|, 3
  {
    SkipStable(s, y);
    if Heads(SkipSpace(s), ']') {
      DropConcat(SkipSpace(s), y, 1);
    } else {
      ItemsStable(s, y, []);
      ItemsNeedHead(s, []);
      assert (SkipSpace(s) + y)[0] == SkipSpace(s)[0];
    }
  }

  lemma ItemsNeedHead(s: string, done: seq<Json>)
    requires ParseItems(s, done).Got?
    ensures SkipSpace(s) != []
  {
  }

  lemma {:induction false} ItemsStable(s: string, y: string, done: seq<Json>)
    requires ParseItems(s, done).Got? && Starts(y)
    ensures ParseItems(s + y, done) == Got(ParseItems(s, done).value, ParseItems(s, done).rest + y)
    decreases |s|, 2
  {
    ValueStable(s, y);
    var v, rest := ParseValue(s).value, ParseValue(s).rest;
    SkipStable(rest, y);
    var t := SkipSpace(rest);
    DropConcat(t, y, 1);
    if Heads(t, ',') {
      ItemsStable(t[1..], y, done + [v]);
    }
  }

  lemma {:induction false} ObjectStable(s: string, y: string)
    requires ParseObject(s).Got? && Starts(y)
    ensures ParseObject(s + y) == Got(ParseObject(s).value, ParseObject(s).rest + y)
    decreases |s|, 3
  {
    SkipStable(s, y);
    if Heads(SkipSpace(s), '}') {
      DropConcat(SkipSpace(s), y, 1);
    } else {
      MembersStable(s, y, []);
      MembersNeedHead(s, []);
      assert (SkipSpace(s) + y)[0] == SkipSpace(s)[0];
    }
  }

  lemma MembersNeedHead(s: string, done: seq<Member>)
    requires ParseMembers(s, done).Got?
    ensures SkipSpace(s) != []
  {
  }

  lemma {:induction false} MembersStable(s: string, y: string, done: seq<Member>)
    requires ParseMembers(s, done).Got? && Starts(y)
    ensures ParseMembers(s + y, done) == Got(ParseMembers(s, done).value, ParseMembers(s, done).rest + y)
    decreases |s|, 2
  {
    KeyStable(s, y);
    var key, after := ParseKey(s).value, ParseKey(s).rest;
    ValueStable(after, y);
    var v, rest := ParseValue(after).value, ParseValue(after).rest;
    SkipStable(rest, y);
    var t := SkipSpace(rest);
    DropConcat(t, y, 1);
    if Heads(t, ',') {
      MembersStable(t[1..], y, Put(done, Member(key, v)));
    }
  }

  /** A whole text followed by more is no text at all. */
  lemma ExtraData(s: string, y: string)
    requires Loads(s).Some? && Starts(y)
    ensures Loads(s + y) == None
  {
    ValueStable(s, y);
    SkipStable(ParseValue(s).rest, y);
  }

  // What is parsed is well formed.

  lemma {:induction false} DigitsPrefix(s: string, k: nat)
    requires Digits(s) <= k <= |s|
    ensures Digits(s[..k]) == Digits(s)
  {
    if StartsDigit(s) {
      DigitsPrefix(s[1..], k - 1);
      assert s[..k][1..] == s[1..][..k - 1];
    }
  }

  lemma FractionPrefix(s: string, k: nat)
    requires FractionLength(s) <= k <= |s|
    ensures FractionLength(s[..k]) == FractionLength(s)
  {
    if k > 0 {
      assert s[..k][1..] == s[1..][..k - 1];
      if FractionLength(s) > 0 {
        DigitsPrefix(s[1..], k - 1);
      }
    }
  }

  lemma ExponentPrefix(s: string, k: nat)
    requires k == ExponentLength(s)
    ensures ExponentLength(s[..k]) == k
  {
    if k > 0 {
      var sign := if |s| > 1 && (s[1] == '+' || s[1] == '-') then 1 else 0;
      assert s[..k][1 + sign..] == s[1 + sign..][..k - 1 - sign];
      DigitsPrefix(s[1 + sign..], k - 1 - sign);
    }
  }

  lemma TailPrefix(s: string, k: nat)
    requires k == TailLength(s)
    ensures TailLength(s[..k]) == k
  {
    var f := FractionLength(s);
    FractionPrefix(s, k);
    assert s[..k][f..] == s[f..][..k - f];
    ExponentPrefix(s[f..], k - f);
  }

  lemma WholePrefix(s: string, k: nat)
    requires WholeLength(s) <= k <= |s|
    ensures WholeLength(s[..k]) == WholeLength(s)
  {
    if s == [] || s[0] != '0' {
      DigitsPrefix(s, k);
    }
  }

  lemma TakeDrop(s: string, n: nat, i: nat)
    requires i <= n <= |s|
    ensures s[..n][i..] == s[i..][..n - i]
  {
  }

  lemma SignPrefix(s: string, n: nat)
    requires 0 < n <= |s|
    ensures SignLength(s[..n]) == SignLength(s)
  {
    assert s[..n][0] == s[0];
  }

  lemma TokenFrom(s: string, t: Token)
    requires t.sign + t.whole <= |s| && SignLength(s) == t.sign && WholeLength(s[t.sign..]) == t.whole > 0
    requires TailLength(s[t.sign + t.whole..]) == t.tail
    ensures NumberToken(s) == t
  {
  }

  lemma TokenParts(s: string, t: Token)
    requires t == NumberToken(s) && t.whole > 0
    ensures t.sign + t.whole + t.tail <= |s| && SignLength(s) == t.sign && WholeLength(s[t.sign..]) == t.whole
    ensures TailLength(s[t.sign + t.whole..]) == t.tail
  {
  }

  lemma WholeOfPrefix(s: string, n: nat, i: nat)
    requires i <= n <= |s| && WholeLength(s[i..]) <= n - i
    ensures WholeLength(s[..n][i..]) == WholeLength(s[i..])
  {
    TakeDrop(s, n, i);
    WholePrefix(s[i..], n - i);
  }

  lemma TailOfPrefix(s: string, n: nat, i: nat)
    requires i <= n <= |s| && TailLength(s[i..]) == n - i
    ensures TailLength(s[..n][i..]) == TailLength(s[i..])
  {
    TakeDrop(s, n, i);
    TailPrefix(s[i..], n - i);
  }

  lemma PrefixToken(s: string, t: Token, n: nat)
    requires n == t.sign + t.whole + t.tail <= |s| && t.whole > 0
    requires SignLength(s) == t.sign && WholeLength(s[t.sign..]) == t.whole && TailLength(s[t.sign + t.whole..]) == t.tail
    ensures NumberToken(s[..n]) == t
  {
    SignPrefix(s, n);
    WholeOfPrefix(s, n, t.sign);
    TailOfPrefix(s, n, t.sign + t.whole);
    TokenFrom(s[..n], t);
  }

  /** A number token, cut off where it ends, is that token. */
  lemma TokenPrefix(s: string)
    requires NumberToken(s).whole > 0
    ensures NumberToken(s[..NumberToken(s).Length()]) == NumberToken(s)
  {
    var t := NumberToken(s);
    TokenParts(s, t);
    PrefixToken(s, t, t.sign + t.whole + t.tail);
  }

  lemma NumberWellFormed(s: string)
    requires ParseNumber(s).Got?
    ensures WellFormed(ParseNumber(s).value)
  {
    TokenPrefix(s);
  }

  ghost predicate HasMember(ms: seq<Member>, key: string) {
    exists j :: 0 <= j < |ms| && ms[j].key == key
  }

  lemma {:induction false} PutKeys(ms: seq<Member>, m: Member, i: nat)
    requires i < |Put(ms, m)|
    ensures Put(ms, m)[i].key == m.key || HasMember(ms, Put(ms, m)[i].key)
  {
    if ms != [] {
      if ms[0].key == m.key {
        assert Put(ms, m)[i].key == ms[i].key;
      } else if i > 0 {
        PutKeys(ms[1..], m, i - 1);
        if Put(ms, m)[i].key != m.key {
          var j :| 0 <= j < |ms[1..]| && ms[1..][j].key == Put(ms, m)[i].key;
          assert ms[j + 1].key == Put(ms, m)[i].key;
        }
      } else {
        assert ms[0].key == Put(ms, m)[0].key;
      }
    }
  }

  lemma {:induction false} PutDistinct(ms: seq<Member>, m: Member)
    requires DistinctKeys(ms)
    ensures DistinctKeys(Put(ms, m))
  {
    if ms != [] {
      if ms[0].key == m.key {
        assert forall i :: 0 <= i < |ms| ==> Put(ms, m)[i].key == ms[i].key;
      } else {
        PutDistinct(ms[1..], m);
        var rest := Put(ms[1..], m);
        forall i | 0 <= i < |rest| ensures rest[i].key != ms[0].key {
          PutKeys(ms[1..], m, i);
          if rest[i].key != m.key {
            var j :| 0 <= j < |ms[1..]| && ms[1..][j].key == rest[i].key;
            assert ms[j + 1].key == rest[i].key;
          }
        }
      }
    }
  }

  lemma {:induction false} PutWellFormed(ms: seq<Member>, m: Member)
    requires MembersWellFormed(ms) && WellFormed(m.value)
    ensures MembersWellFormed(Put(ms, m))
  {
    if ms == [] {
      assert [m][1..] == [];
    } else if ms[0].key == m.key {
      assert ([m] + ms[1..])[1..] == ms[1..];
    } else {
      PutWellFormed(ms[1..], m);
      assert Put(ms, m)[1..] == Put(ms[1..], m);
    }
  }

  lemma {:induction false} AllWellFormedSnoc(vs: seq<Json>, v: Json)
    requires AllWellFormed(vs) && WellFormed(v)
    ensures AllWellFormed(vs + [v])
  {
    if vs != [] {
      AllWellFormedSnoc(vs[1..], v);
      assert (vs + [v])[1..] == vs[1..] + [v];
    }
  }

  /** Whatever text a value was parsed from, the value is well formed. */
  lemma {:induction false} ParsedWellFormed(s: string)
    requires ParseValue(s).Got?
    ensures WellFormed(ParseValue(s).value)
    decreases |s|, 1
  {
    var t := SkipSpace(s);
    SkipTwice(s);
    var u := t[1..];
    if t[0] == '\"' {
      assert t == "\"" + u;
      TextDispatch(u);
    } else if t[0] == '[' {
      assert t == "[" + u;
      ArrayDispatch(u);
      if !Heads(SkipSpace(u), ']') {
        ItemsWellFormed(u, []);
      }
    } else if t[0] == '{' {
      assert t == "{" + u;
      ObjectDispatch(u);
      if !Heads(SkipSpace(u), '}') {
        MembersParsedWellFormed(u, []);
      }
    } else if t[0] == 'n' || t[0] == 't' || t[0] == 'f' {
      WordDispatch(t);
    } else {
      NumberDispatch(t);
      NumberWellFormed(t);
    }
  }

  lemma {:induction false} ItemsWellFormed(s: string, done: seq<Json>)
    requires ParseItems(s, done).Got? && AllWellFormed(done)
    ensures WellFormed(ParseItems(s, done).value)
    decreases |s|, 2
  {
    ParsedWellFormed(s);
    var v := ParseValue(s).value;
    AllWellFormedSnoc(done, v);
    var t := SkipSpace(ParseValue(s).rest);
    if Heads(t, ',') {
      ItemsWellFormed(t[1..], done + [v]);
    }
  }

  lemma {:induction false} MembersParsedWellFormed(s: string, done: seq<Member>)
    requires ParseMembers(s, done).Got? && DistinctKeys(done) && MembersWellFormed(done)
    ensures WellFormed(ParseMembers(s, done).value)
    decreases |s|, 2
  {
    var key, after := ParseKey(s).value, ParseKey(s).rest;
    ParsedWellFormed(after);
    var m := Member(key, ParseValue(after).value);
    PutWellFormed(done, m);
    PutDistinct(done, m);
    var t := SkipSpace(ParseValue(after).rest);
    if Heads(t, ',') {
      MembersParsedWellFormed(t[1..], Put(done, m));
    }
  }

  lemma LoadsWellFormed(s: string)
    requires Loads(s).Some?
    ensures WellFormed(Loads(s).value)
  {
    ParsedWellFormed(s);
  }
}
