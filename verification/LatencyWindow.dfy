/** The sliding window of execution times and its percentiles. */
module LatencyWindow {
  const WINDOW_LIMIT: nat := 10000
  const WINDOW_TRIM: nat := 1000

  /** How long the window is after `n` recordings. */
  function WindowLength(n: nat): (r: nat)
    ensures r <= WINDOW_LIMIT
    ensures n <= WINDOW_LIMIT ==> r == n
    ensures n > WINDOW_LIMIT ==> r >= WINDOW_LIMIT + 1 - WINDOW_TRIM
  {
    if n <= WINDOW_LIMIT then n else WINDOW_LIMIT + 1 - WINDOW_TRIM + (n - WINDOW_LIMIT - 1) % WINDOW_TRIM
  }

  // ------------------------------------------------------------ order statistics

  ghost predicate Sorted(s: seq<int>) {
    forall i, j :: 0 <= i < j < |s| ==> s[i] <= s[j]
  }

  /** How many samples are at most `v`. */
  function CountAtMost(s: seq<int>, v: int): (n: nat)
    ensures n <= |s|
  {
    if s == [] then 0 else CountAtMost(s[..|s| - 1], v) + (if s[|s| - 1] <= v then 1 else 0)
  }

  /** How many samples are below `v`. */
  function CountBelow(s: seq<int>, v: int): (n: nat)
    ensures n <= |s|
  {
    if s == [] then 0 else CountBelow(s[..|s| - 1], v) + (if s[|s| - 1] < v then 1 else 0)
  }

  lemma {:induction false} CountsSplit(a: seq<int>, b: seq<int>, v: int)
    ensures CountAtMost(a + b, v) == CountAtMost(a, v) + CountAtMost(b, v)
    ensures CountBelow(a + b, v) == CountBelow(a, v) + CountBelow(b, v)
  {
    if b == [] {
      assert a + b == a;
    } else {
      assert (a + b)[..|a + b| - 1] == a + b[..|b| - 1];
      CountsSplit(a, b[..|b| - 1], v);
    }
  }

  lemma {:induction false} AllAtMost(s: seq<int>, v: int)
    requires forall i :: 0 <= i < |s| ==> s[i] <= v
    ensures CountAtMost(s, v) == |s|
  {
    if s != [] { AllAtMost(s[..|s| - 1], v); }
  }

  lemma {:induction false} NoneBelow(s: seq<int>, v: int)
    requires forall i :: 0 <= i < |s| ==> s[i] >= v
    ensures CountBelow(s, v) == 0
  {
    if s != [] { NoneBelow(s[..|s| - 1], v); }
  }

  lemma RankBelow(s: seq<int>, k: nat)
    requires Sorted(s) && k < |s|
    ensures CountBelow(s, s[k]) <= k
  {
    var front, back := s[..k], s[k..];
    assert front + back == s;
    CountsSplit(front, back, s[k]);
    forall i | 0 <= i < |back| ensures back[i] >= s[k] {
      assert back[i] == s[k + i] && (i == 0 || s[k] <= s[k + i]);
    }
    NoneBelow(back, s[k]);
  }

  lemma RankAtMost(s: seq<int>, k: nat)
    requires Sorted(s) && k < |s|
    ensures k < CountAtMost(s, s[k])
  {
    var front, back := s[..k + 1], s[k + 1..];
    assert front + back == s;
    CountsSplit(front, back, s[k]);
    forall i | 0 <= i < |front| ensures front[i] <= s[k] {
      assert front[i] == s[i] && (i == k || s[i] <= s[k]);
    }
    AllAtMost(front, s[k]);
  }

  /** The sample at position `k` of the sorted samples has at most `k` samples below it and more than
      `k` samples at most it. */
  lemma SortedRank(s: seq<int>, k: nat)
    requires Sorted(s) && k < |s|
    ensures CountBelow(s, s[k]) <= k < CountAtMost(s, s[k])
  {
    RankBelow(s, k);
    RankAtMost(s, k);
  }

  /** The same samples in another order, as far as counting goes. */
  ghost predicate SameCounts(a: seq<int>, b: seq<int>) {
    |a| == |b| && forall v :: CountAtMost(a, v) == CountAtMost(b, v) && CountBelow(a, v) == CountBelow(b, v)
  }

  // ------------------------------------------------------------ the object

  /** The value reported for the p-th percentile of a window. */
  ghost predicate IsPercentile(window: seq<int>, p: nat, v: int) {
    && v in window
    && CountBelow(window, v) <= |window| * p / 100 < CountAtMost(window, v)
  }

  /** The rank determines the value. */
  lemma PercentileUnique(window: seq<int>, p: nat, v: int, u: int)
    requires IsPercentile(window, p, v) && IsPercentile(window, p, u)
    ensures v == u
  {
    if v < u { AtMostIsBelow(window, v, u); }
    if u < v { AtMostIsBelow(window, u, v); }
  }

  lemma {:induction false} AtMostIsBelow(s: seq<int>, v: int, u: int)
    requires v < u
    ensures CountAtMost(s, v) <= CountBelow(s, u)
  {
    if s != [] { AtMostIsBelow(s[..|s| - 1], v, u); }
  }

  datatype Percentiles = Percentiles(p50: int, p90: int, p95: int, p99: int)

  class ExecutionTimes {
    var times: seq<int>
    var total: int
    ghost var recorded: seq<int>

    /** The window is the end of everything recorded, of a length fixed by the number of recordings. */
    ghost predicate Valid()
      reads this
    {
      && |times| == WindowLength(|recorded|)
      && |times| <= |recorded| && times == recorded[|recorded| - |times|..]
    }

    constructor ()
      ensures Valid() && recorded == [] && total == 0
    {
      times, recorded, total := [], [], 0;
      new;
      assert WindowLength(|recorded|) == 0 && recorded[0..] == times;
    }

    method RecordTime(duration: int)
      requires Valid()
      modifies this
      ensures Valid() && recorded == old(recorded) + [duration] && total == old(total) + duration
    {
      total := total + duration;
      WindowLengthNext(|recorded|);
      times := times + [duration];
      recorded := recorded + [duration];
      if |times| > WINDOW_LIMIT {
        times := times[WINDOW_TRIM..];
      }
    }

    /** None before the first recording. The four values are ordered, and each is the sample of its rank
        in the window. */
    method CalculatePercentiles() returns (empty: bool, r: Percentiles)
      requires Valid()
      ensures empty <==> recorded == []
      ensures !empty ==> Reports(times, r)
    {
      if |times| == 0 { return true, Percentiles(0, 0, 0, 0); }
      var n := |times|;
      var sorted := SortTimes(times);
      PercentileIndices(n);
      r := Percentiles(sorted[n * 50 / 100], sorted[n * 90 / 100], sorted[n * 95 / 100], sorted[n * 99 / 100]);
      empty := false;
      SortedReports(times, sorted, r);
    }
  }

  /** Four ordered values, each the sample of its rank. */
  ghost predicate Reports(window: seq<int>, r: Percentiles) {
    && IsPercentile(window, 50, r.p50) && IsPercentile(window, 90, r.p90)
    && IsPercentile(window, 95, r.p95) && IsPercentile(window, 99, r.p99)
    && r.p50 <= r.p90 <= r.p95 <= r.p99
  }

  lemma SortedReports(window: seq<int>, sorted: seq<int>, r: Percentiles)
    requires Sorted(sorted) && multiset(sorted) == multiset(window) && SameCounts(sorted, window)
    requires var n := |window|;
             && 0 <= n * 50 / 100 <= n * 90 / 100 <= n * 95 / 100 <= n * 99 / 100 < n
             && r == Percentiles(sorted[n * 50 / 100], sorted[n * 90 / 100], sorted[n * 95 / 100], sorted[n * 99 / 100])
    ensures Reports(window, r)
  {
    RankInWindow(window, sorted, 50);
    RankInWindow(window, sorted, 90);
    RankInWindow(window, sorted, 95);
    RankInWindow(window, sorted, 99);
    var n := |window|;
    SortedAt(sorted, n * 50 / 100, n * 90 / 100);
    SortedAt(sorted, n * 90 / 100, n * 95 / 100);
    SortedAt(sorted, n * 95 / 100, n * 99 / 100);
  }

  lemma SortedAt(s: seq<int>, i: nat, j: nat)
    requires Sorted(s) && i <= j < |s|
    ensures s[i] <= s[j]
  {
  }

  lemma WindowLengthNext(n: nat)
    ensures WindowLength(n + 1) ==
            if WindowLength(n) + 1 > WINDOW_LIMIT then WindowLength(n) + 1 - WINDOW_TRIM else WindowLength(n) + 1
  {
  }

  lemma PercentileIndices(n: nat)
    requires n > 0
    ensures 0 <= n * 50 / 100 <= n * 90 / 100 <= n * 95 / 100 <= n * 99 / 100 < n
  {
  }

  lemma RankInWindow(window: seq<int>, sorted: seq<int>, p: nat)
    requires Sorted(sorted) && multiset(sorted) == multiset(window) && SameCounts(sorted, window)
    requires |window| * p / 100 < |window|
    ensures IsPercentile(window, p, sorted[|window| * p / 100])
  {
    var k := |window| * p / 100;
    SortedRank(sorted, k);
    assert sorted[k] in multiset(sorted);
  }

  /** The library sort, by insertion. */
  method SortTimes(times: seq<int>) returns (sorted: seq<int>)
    ensures Sorted(sorted) && multiset(sorted) == multiset(times) && SameCounts(sorted, times)
  {
    sorted := [];
    for i := 0 to |times|
      invariant Sorted(sorted) && multiset(sorted) == multiset(times[..i]) && SameCounts(sorted, times[..i])
    {
      ghost var done := times[..i];
      assert times[..i + 1] == done + [times[i]];
      ghost var before := sorted;
      var at := Position(sorted, times[i]);
      InsertKeeps(before, done, at, times[i]);
      sorted := sorted[..at] + [times[i]] + sorted[at..];
    }
    assert times[..|times|] == times;
  }

  method Position(s: seq<int>, x: int) returns (at: nat)
    requires Sorted(s)
    ensures at <= |s| && (forall j :: at <= j < |s| ==> s[j] > x) && (forall j :: 0 <= j < at ==> s[j] <= x)
  {
    at := |s|;
    while at > 0 && s[at - 1] > x
      invariant 0 <= at <= |s| && forall j :: at <= j < |s| ==> s[j] > x
    {
      at := at - 1;
    }
  }

  lemma InsertSorted(s: seq<int>, at: nat, x: int)
    requires Sorted(s) && at <= |s|
    requires (forall j :: at <= j < |s| ==> s[j] > x) && (forall j :: 0 <= j < at ==> s[j] <= x)
    ensures Sorted(s[..at] + [x] + s[at..])
  {
    var r := s[..at] + [x] + s[at..];
    assert forall j :: 0 <= j < |r| ==> r[j] == if j < at then s[j] else if j == at then x else s[j - 1];
  }

  lemma InsertCounts(s: seq<int>, done: seq<int>, at: nat, x: int, v: int)
    requires at <= |s| && SameCounts(s, done)
    ensures CountAtMost(s[..at] + [x] + s[at..], v) == CountAtMost(done + [x], v)
    ensures CountBelow(s[..at] + [x] + s[at..], v) == CountBelow(done + [x], v)
  {
    assert s[..at] + s[at..] == s;
    CountsSplit(s[..at] + [x], s[at..], v);
    CountsSplit(s[..at], [x], v);
    CountsSplit(s[..at], s[at..], v);
    CountsSplit(done, [x], v);
  }

  lemma InsertKeeps(s: seq<int>, done: seq<int>, at: nat, x: int)
    requires Sorted(s) && multiset(s) == multiset(done) && SameCounts(s, done) && at <= |s|
    requires (forall j :: at <= j < |s| ==> s[j] > x) && (forall j :: 0 <= j < at ==> s[j] <= x)
    ensures var r := s[..at] + [x] + s[at..];
            Sorted(r) && multiset(r) == multiset(done + [x]) && SameCounts(r, done + [x])
  {
    InsertSorted(s, at, x);
    assert s[..at] + s[at..] == s;
    forall v ensures CountAtMost(s[..at] + [x] + s[at..], v) == CountAtMost(done + [x], v)
                     && CountBelow(s[..at] + [x] + s[at..], v) == CountBelow(done + [x], v) {
      InsertCounts(s, done, at, x, v);
    }
  }
}
