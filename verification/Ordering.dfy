/** Python's orders on strings and tuples, and its stable sort by a key order. */
module Ordering {

  /** Code-point order on strings; a proper prefix comes first. */
  predicate StringLeq(a: string, b: string) {
    a == [] || (b != [] && (a[0] < b[0] || (a[0] == b[0] && StringLeq(a[1..], b[1..]))))
  }

  lemma {:induction false} StringLeqTotal(a: string, b: string)
    ensures StringLeq(a, b) || StringLeq(b, a)
  {
    if a != [] && b != [] && a[0] == b[0] {
      StringLeqTotal(a[1..], b[1..]);
    }
  }

  lemma {:induction false} StringLeqAntisymmetric(a: string, b: string)
    requires StringLeq(a, b) && StringLeq(b, a)
    ensures a == b
  {
    if a != [] {
      StringLeqAntisymmetric(a[1..], b[1..]);
      assert a == [a[0]] + a[1..] && b == [b[0]] + b[1..];
    }
  }

  lemma {:induction false} StringLeqTransitive(a: string, b: string, c: string)
    requires StringLeq(a, b) && StringLeq(b, c)
    ensures StringLeq(a, c)
  {
    if a != [] && a[0] == b[0] && b[0] == c[0] {
      StringLeqTransitive(a[1..], b[1..], c[1..]);
    }
  }

  /** Python's order on tuples of strings. */
  predicate StringsLeq(a: seq<string>, b: seq<string>) {
    a == [] || (b != [] && (if a[0] == b[0] then StringsLeq(a[1..], b[1..]) else StringLeq(a[0], b[0])))
  }

  lemma {:induction false} StringsLeqTotal(a: seq<string>, b: seq<string>)
    ensures StringsLeq(a, b) || StringsLeq(b, a)
  {
    if a != [] && b != [] {
      StringLeqTotal(a[0], b[0]);
      StringsLeqTotal(a[1..], b[1..]);
    }
  }

  lemma {:induction false} StringsLeqAntisymmetric(a: seq<string>, b: seq<string>)
    requires StringsLeq(a, b) && StringsLeq(b, a)
    ensures a == b
  {
    if a != [] {
      if a[0] == b[0] {
        StringsLeqAntisymmetric(a[1..], b[1..]);
        assert a == [a[0]] + a[1..] && b == [b[0]] + b[1..];
      } else {
        StringLeqAntisymmetric(a[0], b[0]);
      }
    }
  }

  lemma {:induction false} StringsLeqTransitive(a: seq<string>, b: seq<string>, c: seq<string>)
    requires StringsLeq(a, b) && StringsLeq(b, c)
    ensures StringsLeq(a, c)
  {
    if a != [] {
      if a[0] == b[0] && b[0] == c[0] {
        StringsLeqTransitive(a[1..], b[1..], c[1..]);
      } else {
        if a[0] != b[0] && b[0] != c[0] {
          StringLeqTransitive(a[0], b[0], c[0]);
          if a[0] == c[0] {
            StringLeqAntisymmetric(a[0], b[0]);
          }
        }
      }
    }
  }

  ghost predicate TotalPreorder<T(!new)>(le: (T, T) -> bool) {
    && (forall a, b :: le(a, b) || le(b, a))
    && (forall a, b, c :: le(a, b) && le(b, c) ==> le(a, c))
  }

  ghost predicate Antisymmetric<T(!new)>(le: (T, T) -> bool) {
    forall a, b :: le(a, b) && le(b, a) ==> a == b
  }

  lemma StringLeqOrder()
    ensures TotalPreorder(StringLeq) && Antisymmetric(StringLeq)
  {
    forall a, b ensures StringLeq(a, b) || StringLeq(b, a) {
      StringLeqTotal(a, b);
    }
    forall a, b, c | StringLeq(a, b) && StringLeq(b, c) ensures StringLeq(a, c) {
      StringLeqTransitive(a, b, c);
    }
    forall a, b | StringLeq(a, b) && StringLeq(b, a) ensures a == b {
      StringLeqAntisymmetric(a, b);
    }
  }

  ghost predicate Sorted<T>(le: (T, T) -> bool, s: seq<T>) {
    forall i, j :: 0 <= i < j < |s| ==> le(s[i], s[j])
  }

  /** `x` goes before everything that is not strictly below it. */
  function Insert<T>(le: (T, T) -> bool, x: T, s: seq<T>): seq<T> {
    if s == [] then [x] else if le(x, s[0]) then [x] + s else [s[0]] + Insert(le, x, s[1..])
  }

  /** `sorted(s, key=...)`: stable, because an earlier element goes before its equals. */
  function SortBy<T>(le: (T, T) -> bool, s: seq<T>): seq<T> {
    if s == [] then [] else Insert(le, s[0], SortBy(le, s[1..]))
  }

  lemma {:induction false} InsertContents<T>(le: (T, T) -> bool, x: T, s: seq<T>)
    ensures multiset(Insert(le, x, s)) == multiset{x} + multiset(s)
  {
    if s != [] && !le(x, s[0]) {
      InsertContents(le, x, s[1..]);
      assert s == [s[0]] + s[1..];
    }
  }

  lemma {:induction false} SortContents<T>(le: (T, T) -> bool, s: seq<T>)
    ensures multiset(SortBy(le, s)) == multiset(s)
    ensures |SortBy(le, s)| == |s|
    ensures forall x :: x in SortBy(le, s) <==> x in s
  {
    if s != [] {
      SortContents(le, s[1..]);
      InsertContents(le, s[0], SortBy(le, s[1..]));
      assert s == [s[0]] + s[1..];
    }
    assert |SortBy(le, s)| == |multiset(SortBy(le, s))|;
    forall x ensures x in SortBy(le, s) <==> x in s {
      assert x in SortBy(le, s) <==> x in multiset(SortBy(le, s));
    }
  }

  lemma {:induction false} InsertSorted<T(!new)>(le: (T, T) -> bool, x: T, s: seq<T>)
    requires TotalPreorder(le) && Sorted(le, s)
    ensures Sorted(le, Insert(le, x, s))
  {
    if s != [] && !le(x, s[0]) {
      InsertSorted(le, x, s[1..]);
      InsertContents(le, x, s[1..]);
      var rest := Insert(le, x, s[1..]);
      forall j | 0 <= j < |rest| ensures le(s[0], rest[j]) {
        assert rest[j] in multiset(rest);
        if rest[j] != x {
          assert rest[j] in s[1..];
        }
      }
    }
  }

  lemma {:induction false} SortSorts<T(!new)>(le: (T, T) -> bool, s: seq<T>)
    requires TotalPreorder(le)
    ensures Sorted(le, SortBy(le, s))
  {
    if s != [] {
      SortSorts(le, s[1..]);
      InsertSorted(le, s[0], SortBy(le, s[1..]));
    }
  }

  /** Sorting leaves a list alone that is in order already. */
  lemma {:induction false} SortedStays<T>(le: (T, T) -> bool, s: seq<T>)
    requires forall i :: 0 < i < |s| ==> le(s[i - 1], s[i])
    ensures SortBy(le, s) == s
  {
    if s != [] {
      forall i | 0 < i < |s[1..]| ensures le(s[1..][i - 1], s[1..][i]) {
        assert le(s[i], s[i + 1]);
      }
      SortedStays(le, s[1..]);
      assert s == [s[0]] + s[1..];
    }
  }

  ghost predicate NoRepeats<T>(s: seq<T>) {
    forall i, j :: 0 <= i < j < |s| ==> s[i] != s[j]
  }

  lemma {:induction false} NoRepeatsByCount<T>(s: seq<T>)
    ensures NoRepeats(s) <==> forall x :: x in s ==> multiset(s)[x] == 1
  {
    if s != [] {
      NoRepeatsByCount(s[1..]);
      assert s == [s[0]] + s[1..];
      if NoRepeats(s) {
        assert s[0] !in s[1..];
        forall x | x in s ensures multiset(s)[x] == 1 {
          if x != s[0] { assert x in s[1..]; }
        }
      }
      if forall x :: x in s ==> multiset(s)[x] == 1 {
        assert s[0] in s;
        assert s[0] !in multiset(s[1..]);
        forall x | x in s[1..] ensures multiset(s[1..])[x] == 1 {
          assert x in s && x in multiset(s[1..]);
        }
      }
    }
  }

  lemma SortNoRepeats<T>(le: (T, T) -> bool, s: seq<T>)
    requires NoRepeats(s)
    ensures NoRepeats(SortBy(le, s))
  {
    SortContents(le, s);
    NoRepeatsByCount(s);
    NoRepeatsByCount(SortBy(le, s));
  }

  /** A list is as long as the set of its elements exactly when it has no repeats. */
  lemma {:induction false} DistinctCount<T>(s: seq<T>)
    ensures var distinct := set v | v in s; |distinct| <= |s| && (|distinct| == |s| <==> NoRepeats(s))
  {
    if s != [] {
      var rest := set v | v in s[1..];
      DistinctCount(s[1..]);
      assert (set v | v in s) == rest + {s[0]};
    }
  }

  lemma SubsetSize<T>(a: set<T>, b: set<T>)
    requires a <= b
    ensures |a| <= |b| && (a != b ==> |a| < |b|)
  {
    assert b == a + (b - a);
    if a != b {
      var x :| x in b - a;
    }
  }

  /** Two sorted lists without repeats that have the same elements are the same list. */
  lemma {:induction false} SortedUnique<T(!new)>(le: (T, T) -> bool, a: seq<T>, b: seq<T>)
    requires Antisymmetric(le) && Sorted(le, a) && Sorted(le, b) && NoRepeats(a) && NoRepeats(b)
    requires |a| == |b| && forall x :: x in a <==> x in b
    ensures a == b
    decreases |a|
  {
    if a != [] {
      assert a[0] in b;
      var x, y := a[0], b[0];
      assert y in a;
      assert x == y || le(x, y);
      assert x == y || le(y, x);
      var a', b' := a[1..], b[1..];
      forall z ensures z in a' <==> z in b' {
        if z in a' { assert z in a && z != x; assert z in b; }
        if z in b' { assert z in b && z != y; assert z in a; }
      }
      SortedUnique(le, a', b');
      assert a == [x] + a' && b == [y] + b';
    }
  }

  /** A list with its repeats dropped, as building a set does. */
  function Unique<T(==)>(s: seq<T>): seq<T> {
    if s == [] then []
    else if s[0] in s[1..] then Unique(s[1..])
    else [s[0]] + Unique(s[1..])
  }

  lemma {:induction false} UniqueContents<T>(s: seq<T>)
    ensures NoRepeats(Unique(s)) && forall x :: x in Unique(s) <==> x in s
  {
    if s != [] {
      UniqueContents(s[1..]);
      forall x ensures x in Unique(s) <==> x in s {
        assert s == [s[0]] + s[1..];
      }
    }
  }

  /** `sorted(set(a) & set(b))`. */
  function SharedNames(a: seq<string>, b: seq<string>): seq<string> {
    SortBy(StringLeq, Intersect(a, b))
  }

  function Intersect(a: seq<string>, b: seq<string>): seq<string> {
    if a == [] then []
    else
      var rest := Intersect(a[1..], b);
      if a[0] in b && a[0] !in rest then [a[0]] + rest else rest
  }

  lemma {:induction false} IntersectAre(a: seq<string>, b: seq<string>)
    ensures NoRepeats(Intersect(a, b))
    ensures forall x :: x in Intersect(a, b) <==> x in a && x in b
  {
    if a != [] {
      IntersectAre(a[1..], b);
      assert forall x :: x in a <==> x == a[0] || x in a[1..];
    }
  }

  lemma SharedNamesAre(a: seq<string>, b: seq<string>)
    ensures var s := SharedNames(a, b);
            Sorted(StringLeq, s) && NoRepeats(s) && forall x :: x in s <==> x in a && x in b
  {
    IntersectAre(a, b);
    SortContents(StringLeq, Intersect(a, b));
    SortNoRepeats(StringLeq, Intersect(a, b));
    StringLeqOrder();
    SortSorts(StringLeq, Intersect(a, b));
  }
}
