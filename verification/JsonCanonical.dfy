/**
 What the canonical text of a value determines: the value itself up to the order of
 object keys, and nothing less.
 */
module JsonCanonical {
  import opened Common
  import opened Numerals
  import opened Ordering
  import opened Json
  import opened JsonParser

  // Equality up to key order.

  /** The same value when the order of object members is ignored. */
  predicate Same(v: Json, w: Json)
    decreases v, 1
  {
    match (v, w)
    case (Arr(xs), Arr(ys)) => |xs| == |ys| && forall i :: 0 <= i < |xs| ==> Same(xs[i], ys[i])
    case (Obj(ms), Obj(ns)) => |ms| == |ns| && forall i :: 0 <= i < |ms| ==> Holds(ns, ms[i])
    case _ => v == w
  }

  /** Some member of `ns` has the key of `m` and the same value. */
  predicate Holds(ns: seq<Member>, m: Member)
    decreases m, 0
  {
    exists j :: 0 <= j < |ns| && ns[j].key == m.key && Same(m.value, ns[j].value)
  }

  lemma {:induction false} SortedItem(vs: seq<Json>, i: nat)
    requires i < |vs|
    ensures |SortKeysAll(vs)| == |vs| && SortKeysAll(vs)[i] == SortKeys(vs[i])
  {
    if |vs| > 1 {
      SortedItem(vs[1..], if i == 0 then 0 else i - 1);
    }
  }

  lemma SortedItems(vs: seq<Json>)
    ensures |SortKeysAll(vs)| == |vs|
    ensures forall i :: 0 <= i < |vs| ==> SortKeysAll(vs)[i] == SortKeys(vs[i])
  {
    forall i | 0 <= i < |vs| ensures |SortKeysAll(vs)| == |vs| && SortKeysAll(vs)[i] == SortKeys(vs[i]) {
      SortedItem(vs, i);
    }
  }

  lemma {:induction false} SortedMember(ms: seq<Member>, i: nat)
    requires i < |ms|
    ensures |SortKeysMembers(ms)| == |ms|
    ensures SortKeysMembers(ms)[i] == Member(ms[i].key, SortKeys(ms[i].value))
  {
    if |ms| > 1 {
      SortedMember(ms[1..], if i == 0 then 0 else i - 1);
    }
  }

  lemma SortedMembers(ms: seq<Member>)
    ensures |SortKeysMembers(ms)| == |ms|
    ensures forall i :: 0 <= i < |ms| ==> SortKeysMembers(ms)[i] == Member(ms[i].key, SortKeys(ms[i].value))
  {
    forall i | 0 <= i < |ms|
      ensures |SortKeysMembers(ms)| == |ms| && SortKeysMembers(ms)[i] == Member(ms[i].key, SortKeys(ms[i].value))
    {
      SortedMember(ms, i);
    }
  }

  /** Values with one canonical form are the same up to key order. */
  lemma {:induction false} OneFormIsSame(v: Json, w: Json)
    requires SortKeys(v) == SortKeys(w)
    ensures Same(v, w)
    decreases v, 1
  {
    match v {
      case Arr(xs) =>
        SortedItems(xs);
        SortedItems(w.items);
        forall i | 0 <= i < |xs| ensures Same(xs[i], w.items[i]) {
          OneFormIsSame(xs[i], w.items[i]);
        }
      case Obj(ms) =>
        FormMembers(ms, w.members);
        forall i | 0 <= i < |ms| ensures Holds(w.members, ms[i]) {
          FindMember(w.members, ms[i]);
        }
      case _ =>
    }
  }

  lemma FormMembers(ms: seq<Member>, ns: seq<Member>)
    requires SortBy(KeyLeq, SortKeysMembers(ms)) == SortBy(KeyLeq, SortKeysMembers(ns))
    ensures |ms| == |ns|
    ensures forall i :: 0 <= i < |ms| ==> Member(ms[i].key, SortKeys(ms[i].value)) in SortKeysMembers(ns)
  {
    SameSorted(KeyLeq, SortKeysMembers(ms), SortKeysMembers(ns));
    SortedMembers(ms);
    SortedMembers(ns);
  }

  lemma SameSorted<T>(le: (T, T) -> bool, s: seq<T>, t: seq<T>)
    requires SortBy(le, s) == SortBy(le, t)
    ensures |s| == |t| && forall i :: 0 <= i < |s| ==> s[i] in t
  {
    SortContents(le, s);
    SortContents(le, t);
    forall i | 0 <= i < |s| ensures s[i] in t {
      assert s[i] in s;
    }
  }

  lemma {:induction false} FindMember(ns: seq<Member>, m: Member)
    requires Member(m.key, SortKeys(m.value)) in SortKeysMembers(ns)
    ensures Holds(ns, m)
    decreases m, 0
  {
    SortedMembers(ns);
    var j :| 0 <= j < |ns| && SortKeysMembers(ns)[j] == Member(m.key, SortKeys(m.value));
    assert ns[j].key == m.key;
    OneFormIsSame(m.value, ns[j].value);
  }

  lemma {:induction false} WellFormedItem(vs: seq<Json>, i: nat)
    requires AllWellFormed(vs) && i < |vs|
    ensures WellFormed(vs[i])
  {
    if i > 0 {
      WellFormedItem(vs[1..], i - 1);
    }
  }

  lemma {:induction false} WellFormedMember(ms: seq<Member>, i: nat)
    requires MembersWellFormed(ms) && i < |ms|
    ensures WellFormed(ms[i].value)
  {
    if i > 0 {
      WellFormedMember(ms[1..], i - 1);
    }
  }

  lemma KeyLeqOrder()
    ensures TotalPreorder(KeyLeq)
  {
    StringLeqOrder();
    forall a, b ensures KeyLeq(a, b) || KeyLeq(b, a) {
      StringLeqTotal(a.key, b.key);
    }
    forall a, b, c | KeyLeq(a, b) && KeyLeq(b, c) ensures KeyLeq(a, c) {
      StringLeqTransitive(a.key, b.key, c.key);
    }
  }

  /** Two key-sorted member lists with distinct keys and the same members are the same list. */
  lemma {:induction false} KeySortedUnique(a: seq<Member>, b: seq<Member>)
    requires Sorted(KeyLeq, a) && Sorted(KeyLeq, b) && DistinctKeys(a) && DistinctKeys(b)
    requires |a| == |b| && forall m :: m in a <==> m in b
    ensures a == b
    decreases |a|
  {
    if a != [] {
      var x, y := a[0], b[0];
      assert x in b && y in a;
      assert x == y || KeyLeq(x, y);
      assert x == y || KeyLeq(y, x);
      if x != y {
        StringLeqAntisymmetric(x.key, y.key);
      }
      var a', b' := a[1..], b[1..];
      forall m ensures m in a' <==> m in b' {
        if m in a' { assert m in a && m != x; assert m in b; }
        if m in b' { assert m in b && m != y; assert m in a; }
      }
      KeySortedUnique(a', b');
      assert a == [x] + a' && b == [y] + b';
    }
  }

  lemma SortedKeysDistinct(ms: seq<Member>)
    requires DistinctKeys(ms)
    ensures var s := SortBy(KeyLeq, SortKeysMembers(ms)); DistinctKeys(s) && Sorted(KeyLeq, s)
  {
    var t := SortKeysMembers(ms);
    SortedMembers(ms);
    SortContents(KeyLeq, t);
    KeyLeqOrder();
    SortSorts(KeyLeq, t);
    var s := SortBy(KeyLeq, t);
    SortNoRepeats(KeyLeq, t);
    KeysStayDistinct(t, s);
  }

  lemma KeysStayDistinct(t: seq<Member>, s: seq<Member>)
    requires DistinctKeys(t) && NoRepeats(s) && forall m :: m in s ==> m in t
    ensures DistinctKeys(s)
  {
    forall i, j | 0 <= i < j < |s| ensures s[i].key != s[j].key {
      assert s[i] in t && s[j] in t;
    }
  }

  /** The same value up to key order has one canonical form. */
  lemma {:induction false} SameIsOneForm(v: Json, w: Json)
    requires WellFormed(v) && WellFormed(w) && Same(v, w)
    ensures SortKeys(v) == SortKeys(w)
    decreases v
  {
    match v {
      case Arr(xs) =>
        var ys := w.items;
        SortedItems(xs);
        SortedItems(ys);
        forall i | 0 <= i < |xs| ensures SortKeysAll(xs)[i] == SortKeysAll(ys)[i] {
          WellFormedItem(xs, i);
          WellFormedItem(ys, i);
          SameIsOneForm(xs[i], ys[i]);
        }
        assert SortKeysAll(xs) == SortKeysAll(ys);
      case Obj(ms) =>
        var ns := w.members;
        forall i | 0 <= i < |ms| ensures Member(ms[i].key, SortKeys(ms[i].value)) in SortKeysMembers(ns) {
          var j :| 0 <= j < |ns| && ns[j].key == ms[i].key && Same(ms[i].value, ns[j].value);
          WellFormedMember(ms, i);
          WellFormedMember(ns, j);
          SameIsOneForm(ms[i].value, ns[j].value);
          SortedMember(ns, j);
        }
        OneFormOfMembers(ms, ns);
      case _ =>
    }
  }

  lemma OneFormOfMembers(ms: seq<Member>, ns: seq<Member>)
    requires |ms| == |ns| && DistinctKeys(ms) && DistinctKeys(ns)
    requires forall i :: 0 <= i < |ms| ==> Member(ms[i].key, SortKeys(ms[i].value)) in SortKeysMembers(ns)
    ensures SortBy(KeyLeq, SortKeysMembers(ms)) == SortBy(KeyLeq, SortKeysMembers(ns))
  {
    var s, t := SortKeysMembers(ms), SortKeysMembers(ns);
    SortedMembers(ms);
    SortedMembers(ns);
    assert forall i :: 0 <= i < |s| ==> s[i] == Member(ms[i].key, SortKeys(ms[i].value));
    SameMembers(s, t);
    SortContents(KeyLeq, s);
    SortContents(KeyLeq, t);
    SortedKeysDistinct(ms);
    SortedKeysDistinct(ns);
    KeySortedUnique(SortBy(KeyLeq, s), SortBy(KeyLeq, t));
  }

  /** As many members, with distinct keys, all found in `t`: then `t` has no others. */
  lemma SameMembers(s: seq<Member>, t: seq<Member>)
    requires |s| == |t| && DistinctKeys(s) && DistinctKeys(t) && forall i :: 0 <= i < |s| ==> s[i] in t
    ensures forall m :: m in s <==> m in t
  {
    var a, b := set m | m in s, set m | m in t;
    assert NoRepeats(s) && NoRepeats(t);
    DistinctCount(s);
    DistinctCount(t);
    assert a <= b;
    if a != b {
      SubsetSize(a, b);
    }
    forall m ensures m in s <==> m in t {
      assert m in a <==> m in s;
      assert m in b <==> m in t;
    }
  }

  lemma {:induction false} SortKeysWellFormed(v: Json)
    requires WellFormed(v)
    ensures WellFormed(SortKeys(v))
    decreases v, 1, 0
  {
    match v {
      case Arr(items) => SortKeysAllWellFormed(v, items);
      case Obj(ms) =>
        SortKeysMembersWellFormed(v, ms);
        SortedKeysDistinct(ms);
        SortContents(KeyLeq, SortKeysMembers(ms));
        var s := SortBy(KeyLeq, SortKeysMembers(ms));
        forall m | m in s ensures WellFormed(m.value) {
          var i :| 0 <= i < |SortKeysMembers(ms)| && SortKeysMembers(ms)[i] == m;
          WellFormedMember(SortKeysMembers(ms), i);
        }
        EachWellFormed(s);
      case _ =>
    }
  }

  lemma {:induction false} EachWellFormed(ms: seq<Member>)
    requires forall m :: m in ms ==> WellFormed(m.value)
    ensures MembersWellFormed(ms)
  {
    if ms != [] {
      EachWellFormed(ms[1..]);
    }
  }

  lemma {:induction false} SortKeysAllWellFormed(parent: Json, vs: seq<Json>)
    requires parent.Arr? && AllWellFormed(vs) && forall v :: v in vs ==> v in parent.items
    ensures AllWellFormed(SortKeysAll(vs))
    decreases parent, 0, |vs|
  {
    if vs != [] {
      assert vs[0] in parent.items;
      SortKeysWellFormed(vs[0]);
      SortKeysAllWellFormed(parent, vs[1..]);
    }
  }

  lemma {:induction false} SortKeysMembersWellFormed(parent: Json, ms: seq<Member>)
    requires parent.Obj? && MembersWellFormed(ms) && forall m :: m in ms ==> m in parent.members
    ensures MembersWellFormed(SortKeysMembers(ms))
    decreases parent, 0, |ms|
  {
    if ms != [] {
      assert ms[0] in parent.members;
      SortKeysWellFormed(ms[0].value);
      SortKeysMembersWellFormed(parent, ms[1..]);
    }
  }

  /** The canonical text parses, to the value with its keys sorted. */
  lemma CanonicalParses(v: Json)
    requires WellFormed(v)
    ensures Loads(CanonicalJson(v)) == Some(SortKeys(v))
    ensures Same(v, SortKeys(v))
  {
    SortKeysWellFormed(v);
    PrintParses(false, SortKeys(v));
    SortTwice(v);
    OneFormIsSame(v, SortKeys(v));
  }

  lemma {:induction false} SortTwice(v: Json)
    requires WellFormed(v)
    ensures SortKeys(SortKeys(v)) == SortKeys(v)
    decreases v
  {
    match v {
      case Arr(items) =>
        var s := SortKeysAll(items);
        SortedItems(items);
        SortedItems(s);
        forall i | 0 <= i < |items| ensures SortKeysAll(s)[i] == s[i] {
          WellFormedItem(items, i);
          SortTwice(items[i]);
        }
        assert SortKeysAll(s) == s;
      case Obj(ms) =>
        var t := SortKeysMembers(ms);
        var s := SortBy(KeyLeq, t);
        SortedMembers(ms);
        SortContents(KeyLeq, t);
        SortedMembers(s);
        forall i | 0 <= i < |s| ensures SortKeysMembers(s)[i] == s[i] {
          assert s[i] in t;
          var j :| 0 <= j < |t| && t[j] == s[i];
          WellFormedMember(ms, j);
          SortTwice(ms[j].value);
        }
        assert SortKeysMembers(s) == s;
        SortedKeysDistinct(ms);
        SortedKeysDistinct(s);
        SortContents(KeyLeq, s);
        KeySortedUnique(SortBy(KeyLeq, s), s);
      case _ =>
    }
  }

  /** Two values print equally exactly when they are equal up to key order. */
  lemma CanonicalExactlySame(v: Json, w: Json)
    requires WellFormed(v) && WellFormed(w)
    ensures CanonicalJson(v) == CanonicalJson(w) <==> Same(v, w)
  {
    if Same(v, w) {
      SameIsOneForm(v, w);
    }
    if CanonicalJson(v) == CanonicalJson(w) {
      CanonicalParses(v);
      CanonicalParses(w);
      OneFormIsSame(v, w);
    }
  }

  // One line of text.

  predicate Printable(s: string) {
    forall i :: 0 <= i < |s| ==> s[i] >= ' '
  }

  lemma PrintableConcat(a: string, b: string)
    requires Printable(a) && Printable(b)
    ensures Printable(a + b)
  {
  }

  lemma ShortPrintable(e: char)
    requires ShortEscape(e).Some?
    ensures e >= ' '
  {
  }

  lemma LongPrintable(c: char)
    requires c < ' '
    ensures Printable("\\u" + Hex(4, c as int))
  {
    HexShort(c as int);
    DigitPrintable(c as int / 16);
    DigitPrintable(c as int % 16);
  }

  lemma DigitPrintable(d: nat)
    requires d < 16
    ensures DigitChar(d) >= ' '
  {
  }

  lemma CharPrintable(c: char)
    ensures Printable(Escape(c))
  {
    EscapeIsShort(c);
    if |Escape(c)| == 2 {
      ShortPrintable(Escape(c)[1]);
    } else if |Escape(c)| != 1 {
      LongPrintable(c);
    }
  }

  lemma {:induction false} EscapePrintable(safe: bool, afterLess: bool, s: string)
    ensures Printable(EscapeAll(safe, afterLess, s))
    decreases |s|
  {
    if s != [] {
      EscapePrintable(safe, s[0] == '<', s[1..]);
      CharPrintable(s[0]);
      PrintableConcat(if safe && afterLess && s[0] == '/' then "\\/" else Escape(s[0]),
                      EscapeAll(safe, s[0] == '<', s[1..]));
    }
  }

  predicate NumberChar(c: char) {
    IsDigit(c) || c == '.' || c == 'e' || c == 'E' || c == '+' || c == '-'
  }

  predicate Numeric(s: string) {
    forall i :: 0 <= i < |s| ==> NumberChar(s[i])
  }

  lemma {:induction false} DecNumeric(n: nat)
    ensures Numeric(Dec(n))
  {
    if n >= 10 {
      DecNumeric(n / 10);
    }
  }

  lemma {:induction false} DigitsNumeric(s: string)
    ensures Numeric(s[..Digits(s)])
  {
    if StartsDigit(s) {
      DigitsNumeric(s[1..]);
      assert s[..Digits(s)] == [s[0]] + s[1..][..Digits(s[1..])];
    }
  }

  lemma NumericSplit(s: string, k: nat)
    requires k <= |s| && Numeric(s[..k]) && Numeric(s[k..])
    ensures Numeric(s)
  {
    assert s == s[..k] + s[k..];
  }

  lemma FractionNumeric(s: string)
    ensures Numeric(s[..FractionLength(s)])
  {
    if FractionLength(s) > 0 {
      DigitsNumeric(s[1..]);
      assert s[..FractionLength(s)] == ['.'] + s[1..][..Digits(s[1..])];
    }
  }

  lemma ExponentNumeric(s: string)
    ensures Numeric(s[..ExponentLength(s)])
  {
    if ExponentLength(s) > 0 {
      var sign := if |s| > 1 && (s[1] == '+' || s[1] == '-') then 1 else 0;
      var digits := s[1 + sign..];
      DigitsNumeric(digits);
      assert s[..ExponentLength(s)] == s[..1 + sign] + digits[..Digits(digits)];
    }
  }

  lemma TailNumeric(s: string)
    requires TailLength(s) == |s|
    ensures Numeric(s)
  {
    var k := FractionLength(s);
    FractionNumeric(s);
    ExponentNumeric(s[k..]);
    assert s[k..][..|s[k..]|] == s[k..];
    NumericSplit(s, k);
  }

  lemma FloatNumeric(s: string)
    requires FloatText(s)
    ensures Numeric(s)
  {
    var t := NumberToken(s);
    var a := s[t.sign..];
    DigitsNumeric(a);
    assert a[t.whole..] == s[t.sign + t.whole..];
    TailNumeric(a[t.whole..]);
    NumericSplit(a, t.whole);
    NumericSplit(s, t.sign);
  }

  lemma QuotePrintable(safe: bool, s: string)
    ensures Printable(Quote(safe, s))
  {
    EscapePrintable(safe, false, s);
    PrintableConcat(EscapeAll(safe, false, s), "\"");
    PrintableConcat("\"", EscapeAll(safe, false, s) + "\"");
  }

  lemma NumericPrintable(s: string)
    requires Numeric(s)
    ensures Printable(s)
  {
  }

  lemma IntPrintable(n: int)
    ensures Printable(DecInt(n))
  {
    DecNumeric(if n < 0 then -n else n);
    NumericPrintable(Dec(if n < 0 then -n else n));
  }

  lemma WordsPrintable()
    ensures Printable("null") && Printable("true") && Printable("false") && Printable("[]") && Printable("{}")
  {
  }

  /** Printed text holds no control character, so no line break. */
  lemma {:induction false} PrintPrintable(safe: bool, v: Json)
    requires WellFormed(v)
    ensures Printable(Print(safe, v))
    decreases v, 1, 0
  {
    match v {
      case Null => WordsPrintable();
      case Bool(b) => WordsPrintable();
      case Int(n) => IntPrintable(n);
      case Float(lexeme) => FloatNumeric(lexeme); NumericPrintable(lexeme);
      case Str(s) => QuotePrintable(safe, s);
      case Arr(items) => ArrayPrintable(safe, v);
      case Obj(ms) => ObjectPrintable(safe, v);
    }
  }

  lemma {:induction false} ArrayPrintable(safe: bool, v: Json)
    requires v.Arr? && WellFormed(v)
    ensures Printable(Print(safe, v))
    decreases v, 0, |v.items| + 1
  {
    if v.items == [] {
      WordsPrintable();
    } else {
      ItemsPrintable(safe, v, v.items);
      PrintableConcat("[", PrintItems(safe, v.items));
    }
  }

  lemma {:induction false} ObjectPrintable(safe: bool, v: Json)
    requires v.Obj? && WellFormed(v)
    ensures Printable(Print(safe, v))
    decreases v, 0, |v.members| + 1
  {
    if v.members == [] {
      WordsPrintable();
    } else {
      MembersPrintable(safe, v, v.members);
      PrintableConcat("{", PrintMembers(safe, v.members));
    }
  }

  lemma {:induction false} ItemsPrintable(safe: bool, parent: Json, items: seq<Json>)
    requires parent.Arr? && items != [] && AllWellFormed(items) && forall v :: v in items ==> v in parent.items
    ensures Printable(PrintItems(safe, items))
    decreases parent, 0, |items|
  {
    assert items[0] in parent.items;
    PrintPrintable(safe, items[0]);
    if |items| > 1 {
      ItemsPrintable(safe, parent, items[1..]);
      PrintableConcat(",", PrintItems(safe, items[1..]));
    }
    PrintableConcat(Print(safe, items[0]), ItemsTail(safe, items[1..]));
  }

  lemma {:induction false} MembersPrintable(safe: bool, parent: Json, ms: seq<Member>)
    requires parent.Obj? && ms != [] && MembersWellFormed(ms) && forall m :: m in ms ==> m in parent.members
    ensures Printable(PrintMembers(safe, ms))
    decreases parent, 0, |ms|
  {
    var text, tail := Print(safe, ms[0].value), MembersTail(safe, ms[1..]);
    assert ms[0] in parent.members;
    QuotePrintable(safe, ms[0].key);
    PrintPrintable(safe, ms[0].value);
    if |ms| > 1 {
      MembersPrintable(safe, parent, ms[1..]);
      PrintableConcat(",", PrintMembers(safe, ms[1..]));
    }
    PrintableConcat(text, tail);
    PrintableConcat(":", text + tail);
    PrintableConcat(Quote(safe, ms[0].key), ":" + (text + tail));
  }
}
