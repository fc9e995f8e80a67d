/** The message rate ring buffer, against the full history of timestamps. */
module RateWindow {
  import opened Wrappers
  import opened Numbers

  /** Timestamps are integers; zero is Go's zero time, the mark of an unused slot. */
  const ZERO_TIME: int := 0

  /** Durations are nanoseconds. */
  const SECOND: real := 1000000000.0

  predicate InWindow(t: int, now: int, duration: int) {
    t != ZERO_TIME && now - t <= duration
  }

  function CountIn(s: seq<int>, now: int, duration: int): (n: nat)
    ensures n <= |s|
  {
    if s == [] then 0 else CountIn(s[..|s| - 1], now, duration) + (if InWindow(s[|s| - 1], now, duration) then 1 else 0)
  }

  /** Exactly the times from `duration` before `now` on are in the window: one that old still is, anything
      older is not, and an unused slot never. */
  lemma WindowEdge(t: int, now: int, duration: int)
    ensures InWindow(t, now, duration) <==> t != ZERO_TIME && !(t < now - duration)
    ensures now - duration != ZERO_TIME ==> InWindow(now - duration, now, duration)
    ensures !InWindow(now - duration - 1, now, duration)
  {
  }

  lemma {:induction false} CountInAppend(a: seq<int>, b: seq<int>, now: int, duration: int)
    ensures CountIn(a + b, now, duration) == CountIn(a, now, duration) + CountIn(b, now, duration)
  {
    if b == [] {
      assert a + b == a;
    } else {
      assert (a + b)[..|a + b| - 1] == a + b[..|b| - 1];
      CountInAppend(a, b[..|b| - 1], now, duration);
    }
  }

  lemma {:induction false} CountAll(s: seq<int>, now: int, duration: int)
    requires forall i :: 0 <= i < |s| ==> InWindow(s[i], now, duration)
    ensures CountIn(s, now, duration) == |s|
  {
    if s != [] { CountAll(s[..|s| - 1], now, duration); }
  }

  lemma {:induction false} CountNone(s: seq<int>, now: int, duration: int)
    requires forall i :: 0 <= i < |s| ==> !InWindow(s[i], now, duration)
    ensures CountIn(s, now, duration) == 0
  {
    if s != [] { CountNone(s[..|s| - 1], now, duration); }
  }

  lemma {:induction false} CountMisses(s: seq<int>, i: nat, now: int, duration: int)
    requires i < |s| && !InWindow(s[i], now, duration)
    ensures CountIn(s, now, duration) < |s|
  {
    if i < |s| - 1 { CountMisses(s[..|s| - 1], i, now, duration); }
  }

  lemma {:induction false} CountHits(s: seq<int>, i: nat, now: int, duration: int)
    requires i < |s| && InWindow(s[i], now, duration)
    ensures CountIn(s, now, duration) > 0
  {
    if i < |s| - 1 { CountHits(s[..|s| - 1], i, now, duration); }
  }

  /** The last `size` elements. */
  function Last(s: seq<int>, size: nat): (r: seq<int>)
    ensures |r| == Min(|s|, size)
  {
    if |s| <= size then s else s[|s| - size..]
  }

  /** For any history: counting only the last `size` timestamps gives min(size, all in the window)
      exactly when nothing forgotten is in the window or everything kept is. */
  lemma WindowExactIff(history: seq<int>, size: nat, now: int, duration: int)
    ensures var kept := Last(history, size);
            var forgotten := history[..|history| - |kept|];
            CountIn(kept, now, duration) == Min(size, CountIn(history, now, duration)) <==>
            (forall i :: 0 <= i < |forgotten| ==> !InWindow(forgotten[i], now, duration))
            || (|kept| == size && forall i :: 0 <= i < |kept| ==> InWindow(kept[i], now, duration))
  {
    var kept := Last(history, size);
    var forgotten := history[..|history| - |kept|];
    assert forgotten + kept == history;
    CountInAppend(forgotten, kept, now, duration);
    if forall i :: 0 <= i < |forgotten| ==> !InWindow(forgotten[i], now, duration) {
      CountNone(forgotten, now, duration);
    } else {
      var i :| 0 <= i < |forgotten| && InWindow(forgotten[i], now, duration);
      CountHits(forgotten, i, now, duration);
      if forall i :: 0 <= i < |kept| ==> InWindow(kept[i], now, duration) {
        CountAll(kept, now, duration);
      } else {
        var j :| 0 <= j < |kept| && !InWindow(kept[j], now, duration);
        CountMisses(kept, j, now, duration);
      }
    }
  }

  ghost predicate Ordered(s: seq<int>) {
    forall i, j :: 0 <= i < j < |s| ==> s[i] <= s[j]
  }

  /** A clock that never steps back meets the condition: the ring buffer agrees with the history. */
  lemma OrderedHistoryExact(history: seq<int>, size: nat, now: int, duration: int)
    requires Ordered(history) && ZERO_TIME !in history
    ensures CountIn(Last(history, size), now, duration) == Min(size, CountIn(history, now, duration))
  {
    var kept := Last(history, size);
    var forgotten := history[..|history| - |kept|];
    WindowExactIff(history, size, now, duration);
    if i :| 0 <= i < |forgotten| && InWindow(forgotten[i], now, duration) {
      forall j | 0 <= j < |kept| ensures InWindow(kept[j], now, duration) {
        assert kept[j] == history[|forgotten| + j] && forgotten[i] == history[i];
        assert history[|forgotten| + j] in history;
      }
    }
  }

  /** The ring's slots, oldest first: unused slots, then the timestamps kept. */
  function Unrolled(slots: seq<int>, position: nat): (r: seq<int>)
    requires position <= |slots|
    ensures |r| == |slots|
  {
    slots[position..] + slots[..position]
  }

  function Zeros(n: nat): (r: seq<int>)
    ensures |r| == n && forall i :: 0 <= i < n ==> r[i] == ZERO_TIME
  {
    seq(n, i => ZERO_TIME)
  }

  class MessageRateCalculator {
    const messageTimestamps: array<int>
    const windowSize: nat
    const windowDuration: int
    var position: nat
    ghost var history: seq<int>

    ghost predicate Valid()
      reads this, messageTimestamps
    {
      && messageTimestamps.Length == windowSize && (if windowSize == 0 then position == 0 else position < windowSize)
      && Unrolled(messageTimestamps[..], position) == Zeros(windowSize - Min(|history|, windowSize)) + Last(history, windowSize)
    }

    constructor (windowSize: nat, windowDuration: int)
      ensures Valid() && fresh(messageTimestamps) && history == []
      ensures this.windowSize == windowSize && this.windowDuration == windowDuration
    {
      messageTimestamps := new int[windowSize](i => ZERO_TIME);
      this.windowSize, this.windowDuration := windowSize, windowDuration;
      position, history := 0, [];
      new;
      assert Unrolled(messageTimestamps[..], 0) == Zeros(windowSize) + [];
    }

    /** With a window of no messages the original indexes out of range here. */
    method AddMessage(timestamp: int)
      requires Valid() && windowSize > 0
      modifies this`position, this`history, messageTimestamps
      ensures Valid() && history == old(history) + [timestamp]
    {
      ghost var slots, p := messageTimestamps[..], position;
      ghost var next := if p + 1 == windowSize then 0 else p + 1;
      RingStep(slots, p, history, timestamp);
      NextSlot(p, windowSize);
      messageTimestamps[position] := timestamp;
      position := (position + 1) % windowSize;
      assert position == next && messageTimestamps[..] == slots[p := timestamp];
      history := history + [timestamp];
    }

    /** The number of slots holding a time within the window before `now`: the rate's numerator. */
    method CountInWindow(now: int) returns (count: nat)
      requires Valid()
      ensures count == CountIn(Last(history, windowSize), now, windowDuration)
      ensures Ordered(history) && ZERO_TIME !in history ==>
                count == Min(windowSize, CountIn(history, now, windowDuration))
    {
      count := 0;
      for i := 0 to messageTimestamps.Length
        invariant count == CountIn(messageTimestamps[..i], now, windowDuration)
      {
        assert messageTimestamps[..i + 1][..i] == messageTimestamps[..i];
        if messageTimestamps[i] != ZERO_TIME && now - messageTimestamps[i] <= windowDuration {
          count := count + 1;
        }
      }
      assert messageTimestamps[..messageTimestamps.Length] == messageTimestamps[..];
      UnrolledCount(messageTimestamps[..], position, windowSize - Min(|history|, windowSize), Last(history, windowSize), now, windowDuration);
      if Ordered(history) && ZERO_TIME !in history { OrderedHistoryExact(history, windowSize, now, windowDuration); }
    }

    /** Messages per second; None stands for the infinite or undefined quotient of a window of no length. */
    method GetRate(now: int) returns (rate: Option<real>)
      requires Valid()
      ensures rate.Some? <==> windowDuration != 0
      ensures rate.Some? ==> IsRate(rate.value, CountIn(Last(history, windowSize), now, windowDuration), windowDuration)
      ensures rate.Some? && Ordered(history) && ZERO_TIME !in history ==>
                IsRate(rate.value, Min(windowSize, CountIn(history, now, windowDuration)), windowDuration)
    {
      var count := CountInWindow(now);
      if windowDuration == 0 { return None; }
      rate := Some(PerSecond(count, windowDuration));
    }
  }

  function Seconds(duration: int): real { duration as real / SECOND }

  function PerSecond(count: int, duration: int): (r: real)
    requires duration != 0
    ensures IsRate(r, count, duration)
  {
    count as real / Seconds(duration)
  }

  /** Over the length of the window this rate gives the count. */
  predicate IsRate(rate: real, count: int, duration: int) {
    rate * Seconds(duration) == count as real
  }

  lemma UnrolledCount(slots: seq<int>, p: nat, unused: nat, kept: seq<int>, now: int, duration: int)
    requires p <= |slots| && Unrolled(slots, p) == Zeros(unused) + kept
    ensures CountIn(slots, now, duration) == CountIn(kept, now, duration)
  {
    assert slots[..p] + slots[p..] == slots;
    CountInAppend(slots[..p], slots[p..], now, duration);
    CountInAppend(slots[p..], slots[..p], now, duration);
    CountInAppend(Zeros(unused), kept, now, duration);
    CountNone(Zeros(unused), now, duration);
  }

  lemma NextSlot(p: nat, n: nat)
    requires p < n
    ensures (p + 1) % n == if p + 1 == n then 0 else p + 1
  {
  }

  /** Overwriting the oldest slot and moving on drops the oldest and appends the newest. */
  lemma RotateSlots(slots: seq<int>, p: nat, t: int)
    requires p < |slots|
    ensures Unrolled(slots[p := t], if p + 1 == |slots| then 0 else p + 1) == Unrolled(slots, p)[1..] + [t]
  {
    var after := slots[p := t];
    if p + 1 == |slots| {
      assert after == slots[..p] + [t];
    } else {
      assert after[p + 1..] == slots[p + 1..] && after[..p + 1] == slots[..p] + [t];
    }
  }

  /** The ring one message later still holds the end of the history. */
  lemma RingStep(slots: seq<int>, p: nat, history: seq<int>, t: int)
    requires p < |slots|
    requires Unrolled(slots, p) == Zeros(|slots| - Min(|history|, |slots|)) + Last(history, |slots|)
    ensures var after := history + [t];
            Unrolled(slots[p := t], if p + 1 == |slots| then 0 else p + 1) ==
            Zeros(|slots| - Min(|after|, |slots|)) + Last(after, |slots|)
  {
    RotateSlots(slots, p, t);
    LastSnoc(history, t, |slots|);
  }

  lemma LastSnoc(history: seq<int>, t: int, size: nat)
    requires size > 0
    ensures var all := Zeros(size - Min(|history|, size)) + Last(history, size);
            Zeros(size - Min(|history| + 1, size)) + Last(history + [t], size) == all[1..] + [t]
  {
  }
}
