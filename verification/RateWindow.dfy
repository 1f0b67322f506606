/** Histories of recorded sends, and how many of them a window of time can hold. */
module RateWindow {

  /** One pass through the limiter: the rule's key, the recorded time, and the rate asked for. */
  datatype Send = Send(key: string, at: real, rps: real)

  /** The dictionary that the limiter keeps: for each key, the time recorded last. */
  function LastTimes(sends: seq<Send>): map<string, real> {
    if sends == [] then map[]
    else
      var n := |sends| - 1;
      LastTimes(sends[..n])[sends[n].key := sends[n].at]
  }

  ghost predicate Monotone(sends: seq<Send>) {
    forall i, j :: 0 <= i < j < |sends| ==> sends[i].at <= sends[j].at
  }

  /** The later send waited for its own interval after the earlier one. */
  ghost predicate Waited(earlier: Send, later: Send) {
    later.rps > 0.0 && later.at - earlier.at >= 1.0 / later.rps
  }

  /** Sends of one key lie at least the later one's interval apart, whatever comes between them. */
  ghost predicate Spaced(sends: seq<Send>) {
    forall i, j :: 0 <= i < j < |sends| && sends[i].key == sends[j].key ==> Waited(sends[i], sends[j])
  }

  lemma {:induction false} LastIsLatest(sends: seq<Send>, key: string)
    requires Monotone(sends)
    ensures key in LastTimes(sends) <==> exists i :: 0 <= i < |sends| && sends[i].key == key
    ensures forall i :: 0 <= i < |sends| && sends[i].key == key ==> sends[i].at <= LastTimes(sends)[key]
  {
    if sends != [] {
      var n := |sends| - 1;
      LastIsLatest(sends[..n], key);
      assert forall i :: 0 <= i < n ==> sends[..n][i] == sends[i];
    }
  }

  /** One more send, not too early for its key, keeps the spacing. */
  lemma SpacedStep(sends: seq<Send>, s: Send)
    requires Monotone(sends) && Spaced(sends) && s.rps > 0.0
    requires s.key in LastTimes(sends) ==> Waited(Send(s.key, LastTimes(sends)[s.key], s.rps), s)
    ensures Spaced(sends + [s])
  {
    LastIsLatest(sends, s.key);
    forall i | 0 <= i < |sends| && sends[i].key == s.key ensures Waited(sends[i], s) {
      assert sends[i].at <= LastTimes(sends)[s.key];
    }
  }

  lemma LastTimesStep(sends: seq<Send>, s: Send)
    ensures LastTimes(sends + [s]) == LastTimes(sends)[s.key := s.at]
  {
    assert (sends + [s])[..|sends|] == sends;
  }

  /** Between calls: the dictionary holds the latest times, and the sends up to `now` are spaced. */
  ghost predicate Coherent(last: map<string, real>, sends: seq<Send>, now: real) {
    && last == LastTimes(sends)
    && Monotone(sends) && Spaced(sends)
    && (forall i :: 0 <= i < |sends| ==> sends[i].rps > 0.0 && sends[i].at <= now)
  }

  lemma CoherentStep(last: map<string, real>, sends: seq<Send>, before: real, s: Send)
    requires Coherent(last, sends, before) && before <= s.at && s.rps > 0.0
    requires s.key in last ==> Waited(Send(s.key, last[s.key], s.rps), s)
    ensures Coherent(last[s.key := s.at], sends + [s], s.at)
  {
    SpacedStep(sends, s);
    LastTimesStep(sends, s);
    MonotoneStep(sends, before, s);
  }

  lemma MonotoneStep(sends: seq<Send>, before: real, s: Send)
    requires Monotone(sends) && before <= s.at && s.rps > 0.0
    requires forall i :: 0 <= i < |sends| ==> sends[i].rps > 0.0 && sends[i].at <= before
    ensures Monotone(sends + [s])
    ensures forall i :: 0 <= i < |sends| + 1 ==> (sends + [s])[i].rps > 0.0 && (sends + [s])[i].at <= s.at
  {
  }

  /** The times of the sends of `key` within the `length` seconds from `start`. */
  function Within(sends: seq<Send>, key: string, start: real, length: real): seq<real> {
    if sends == [] then []
    else
      var n := |sends| - 1;
      var s := sends[n];
      Within(sends[..n], key, start, length)
      + (if s.key == key && start <= s.at <= start + length then [s.at] else [])
  }

  ghost predicate Apart(times: seq<real>, gap: real) {
    forall i, j :: 0 <= i < j < |times| ==> times[j] - times[i] >= gap
  }

  /** Sends of `key` lie at least `gap` apart. */
  ghost predicate KeyApart(sends: seq<Send>, key: string, gap: real) {
    forall i, j :: 0 <= i < j < |sends| && sends[i].key == key == sends[j].key ==> sends[j].at - sends[i].at >= gap
  }

  ghost predicate SentAt(sends: seq<Send>, key: string, t: real) {
    exists i :: 0 <= i < |sends| && sends[i].key == key && sends[i].at == t
  }

  lemma {:induction false} WithinAre(sends: seq<Send>, key: string, start: real, length: real)
    ensures forall t :: t in Within(sends, key, start, length) ==>
              start <= t <= start + length && SentAt(sends, key, t)
  {
    if sends != [] {
      var n := |sends| - 1;
      var p := sends[..n];
      WithinAre(p, key, start, length);
      forall t | SentAt(p, key, t) ensures SentAt(sends, key, t) {
        var i :| 0 <= i < |p| && p[i].key == key && p[i].at == t;
        assert sends[i] == p[i];
      }
    }
  }

  lemma {:induction false} WithinApart(sends: seq<Send>, key: string, start: real, length: real, gap: real)
    requires KeyApart(sends, key, gap)
    ensures Apart(Within(sends, key, start, length), gap)
  {
    if sends != [] {
      var n := |sends| - 1;
      var p := sends[..n];
      WithinApart(p, key, start, length, gap);
      WithinAre(p, key, start, length);
      var w := Within(p, key, start, length);
      forall i | 0 <= i < |w| && sends[n].key == key ensures sends[n].at - w[i] >= gap {
        assert w[i] in w;
        var k :| 0 <= k < n && p[k].key == key && p[k].at == w[i];
        assert sends[k] == p[k];
      }
    }
  }

  lemma {:induction false} ApartSpan(times: seq<real>, gap: real)
    requires Apart(times, gap) && times != [] && gap >= 0.0
    ensures times[|times| - 1] - times[0] >= (|times| - 1) as real * gap
  {
    var n := |times|;
    if n > 1 {
      ApartSpan(times[..n - 1], gap);
      assert times[n - 1] - times[n - 2] >= gap;
      assert (n - 1) as real * gap == (n - 2) as real * gap + gap;
    }
  }

  lemma ScaleUp(k: real, gap: real, rate: real, length: real)
    requires rate > 0.0 && gap * rate == 1.0 && k * gap <= length
    ensures k <= length * rate
  {
    assert (k * gap) * rate == k * (gap * rate);
    assert (k * gap) * rate <= length * rate;
  }

  lemma Reciprocal(rate: real) returns (gap: real)
    requires rate > 0.0
    ensures gap == 1.0 / rate && gap > 0.0 && gap * rate == 1.0
  {
    gap := 1.0 / rate;
  }

  /** Asking for a lower rate means a longer interval. */
  lemma SlowerWaitsLonger(later: Send, rate: real, gap: real)
    requires 0.0 < later.rps <= rate && gap * rate == 1.0
    ensures 1.0 / later.rps >= gap
  {
    var slow := Reciprocal(later.rps);
    assert gap > 0.0;
    assert gap * later.rps <= gap * rate;
    assert (slow - gap) * later.rps >= 0.0;
  }

  lemma WaitedApart(earlier: Send, later: Send, rate: real, gap: real)
    requires Waited(earlier, later) && later.rps <= rate && gap * rate == 1.0
    ensures later.at - earlier.at >= gap
  {
    SlowerWaitsLonger(later, rate, gap);
  }

  lemma KeyWaits(sends: seq<Send>, key: string, rate: real, gap: real)
    requires Spaced(sends) && rate > 0.0 && gap * rate == 1.0
    requires forall i :: 0 <= i < |sends| && sends[i].key == key ==> sends[i].rps <= rate
    ensures KeyApart(sends, key, gap)
  {
    forall i, j | 0 <= i < j < |sends| && sends[i].key == key == sends[j].key ensures sends[j].at - sends[i].at >= gap {
      WaitedApart(sends[i], sends[j], rate, gap);
    }
  }

  lemma SpanBound(n: int, gap: real, length: real, rate: real)
    requires rate > 0.0 && gap * rate == 1.0 && n as real * gap <= length
    ensures n <= (length * rate).Floor
  {
    ScaleUp(n as real, gap, rate, length);
  }

  lemma WindowOf(sends: seq<Send>, key: string, start: real, length: real, rate: real, gap: real)
    requires KeyApart(sends, key, gap) && length >= 0.0 && rate > 0.0 && gap >= 0.0 && gap * rate == 1.0
    ensures |Within(sends, key, start, length)| <= (length * rate).Floor + 1
  {
    var w := Within(sends, key, start, length);
    WithinApart(sends, key, start, length, gap);
    if w != [] {
      WithinAre(sends, key, start, length);
      ApartSpan(w, gap);
      assert w[0] in w && w[|w| - 1] in w;
      SpanBound(|w| - 1, gap, length, rate);
    } else {
      SpanBound(0, gap, length, rate);
    }
  }

  /**
   Any window of `length` seconds holds at most floor(length * rate) + 1 sends of a key whose
   rules never ask for more than `rate`, however the sends of other keys lie between them.
   */
  lemma WindowBound(sends: seq<Send>, key: string, start: real, length: real, rate: real)
    requires Spaced(sends) && length >= 0.0 && rate > 0.0
    requires forall i :: 0 <= i < |sends| && sends[i].key == key ==> sends[i].rps <= rate
    ensures |Within(sends, key, start, length)| <= (length * rate).Floor + 1
  {
    var gap := Reciprocal(rate);
    KeyWaits(sends, key, rate, gap);
    WindowOf(sends, key, start, length, rate, gap);
  }

  /** Sends at the full rate, one interval apart, starting at zero. */
  function Steady(key: string, rate: real, gap: real, n: nat): seq<Send> {
    if n == 0 then [] else Steady(key, rate, gap, n - 1) + [Send(key, (n - 1) as real * gap, rate)]
  }

  lemma {:induction false} SteadyIs(key: string, rate: real, gap: real, n: nat)
    ensures var s := Steady(key, rate, gap, n);
            |s| == n && forall i :: 0 <= i < n ==> s[i] == Send(key, i as real * gap, rate)
  {
    if n > 0 {
      SteadyIs(key, rate, gap, n - 1);
    }
  }

  lemma {:induction false} SteadyWithin(key: string, rate: real, gap: real, n: nat, length: real)
    requires gap >= 0.0 && n as real * gap <= length + gap
    ensures |Within(Steady(key, rate, gap, n), key, 0.0, length)| == n
  {
    if n > 0 {
      var last := (n - 1) as real * gap;
      assert n as real * gap == last + gap;
      assert 0.0 <= last <= length;
      SteadyWithin(key, rate, gap, n - 1, length);
      var s, p := Steady(key, rate, gap, n), Steady(key, rate, gap, n - 1);
      assert s == p + [Send(key, last, rate)];
      assert s[..|s| - 1] == p;
      assert Within(s, key, 0.0, length) == Within(p, key, 0.0, length) + [last];
    }
  }

  lemma StepsApart(i: nat, j: nat, gap: real)
    requires i < j && gap >= 0.0
    ensures j as real * gap - i as real * gap >= gap
  {
    assert j as real * gap - i as real * gap == (j - i) as real * gap;
    assert (j - i) as real >= 1.0;
  }

  lemma WaitedBy(earlier: Send, later: Send, gap: real)
    requires later.rps > 0.0 && gap == 1.0 / later.rps && later.at - earlier.at >= gap
    ensures Waited(earlier, later)
  {
  }

  lemma SteadySpaced(key: string, rate: real, gap: real, n: nat)
    requires rate > 0.0 && gap >= 0.0 && gap == 1.0 / rate
    ensures Spaced(Steady(key, rate, gap, n))
  {
    SteadyIs(key, rate, gap, n);
    var s := Steady(key, rate, gap, n);
    forall i, j | 0 <= i < j < |s| && s[i].key == s[j].key ensures Waited(s[i], s[j]) {
      StepsApart(i, j, gap);
      WaitedBy(s[i], s[j], gap);
    }
  }

  lemma Unscale(n: nat, gap: real, rate: real)
    requires gap * rate == 1.0
    ensures ((n as real * gap) * rate).Floor == n
  {
    assert (n as real * gap) * rate == n as real * (gap * rate);
  }

  /** The bound is reached: sending one interval apart for `n` intervals makes `n` + 1 sends. */
  lemma BoundReached(key: string, rate: real, gap: real, n: nat)
    requires rate > 0.0 && gap == 1.0 / rate
    ensures var length, s := n as real * gap, Steady(key, rate, gap, n + 1);
            Spaced(s) && |Within(s, key, 0.0, length)| == (length * rate).Floor + 1
  {
    var g := Reciprocal(rate);
    SteadySpaced(key, rate, gap, n + 1);
    assert (n + 1) as real * gap == n as real * gap + gap;
    SteadyWithin(key, rate, gap, n + 1, n as real * gap);
    Unscale(n, gap, rate);
  }
}
