/** Chunked writes with retries: which client calls are made, what is reported, how long is waited. */
module WriteService {
  import opened Wrappers
  import opened Numbers
  import opened Seqs

  // ------------------------------------------------------------ retry policy

  function Pow2(n: nat): (p: nat)
    ensures p > 0
  {
    if n == 0 then 1 else 2 * Pow2(n - 1)
  }

  /** Delays are nanoseconds. Which errors may be retried is a matter of substrings, left abstract. */
  datatype RetryManager = RetryManager(maxRetries: int, baseDelay: int, maxDelay: int, retryable: string -> bool)

  predicate ShouldRetry(rm: RetryManager, cancelled: bool, attempt: nat, error: string) {
    attempt < rm.maxRetries && !cancelled && rm.retryable(error)
  }

  /** The delay before jitter, with Go's wrapping shift and multiplication. */
  function BaseDelayAt(rm: RetryManager, attempt: nat): int {
    var delay := Wrap64(rm.baseDelay * Wrap64(Pow2(attempt)));
    if delay > rm.maxDelay then rm.maxDelay else delay
  }

  function Truncate(x: real): int {
    if x >= 0.0 then x.Floor else -((-x).Floor)
  }

  function Product(a: real, b: real): real { a * b }

  function Scaled(delay: int, factor: real): int { Truncate(Product(delay as real, factor)) }

  /** Jitter of 20% either way; `random` is in [0, 1). */
  function Jitter(delay: int, random: real): int { Scaled(delay, 0.8 + 0.4 * random) }

  function NextRetryDelay(rm: RetryManager, attempt: nat, random: real): int {
    Jitter(BaseDelayAt(rm, attempt), random)
  }

  lemma {:induction false} Pow2Monotone(a: nat, b: nat)
    requires a <= b
    ensures Pow2(a) <= Pow2(b)
    decreases b
  {
    if a < b { Pow2Monotone(a, b - 1); }
  }

  lemma MulMonotone(x: int, a: int, b: int)
    requires x > 0 && a <= b
    ensures x * a <= x * b
  {
  }

  /** The backoff is the intended min(BaseDelay * 2^attempt, MaxDelay) exactly when the product does
      not overflow, or overflows to something that still reaches the maximum. */
  lemma {:induction false} BackoffExact(rm: RetryManager, attempt: nat)
    requires 0 < rm.baseDelay < TWO_63 && 0 < rm.maxDelay < TWO_63
    ensures BaseDelayAt(rm, attempt) == Min(rm.baseDelay * Pow2(attempt), rm.maxDelay) <==>
            rm.baseDelay * Pow2(attempt) < TWO_63 || Wrap64(rm.baseDelay * Wrap64(Pow2(attempt))) >= rm.maxDelay
  {
    MulMonotone(rm.baseDelay, 1, Pow2(attempt));
    if rm.baseDelay * Pow2(attempt) < TWO_63 {
      MulMonotone(Pow2(attempt), 1, rm.baseDelay);
      assert Wrap64(Pow2(attempt)) == Pow2(attempt);
    }
  }

  lemma Pow2Of34()
    ensures Pow2(34) == 17179869184
  {
    assert Pow2(8) == 256;
    assert Pow2(16) == 65536;
    assert Pow2(24) == 16777216;
  }

  lemma Pow2Of64()
    ensures Pow2(64) == TWO_64
  {
    Pow2Of34();
    assert Pow2(42) == 0x400_0000_0000;
    assert Pow2(50) == 0x4_0000_0000_0000;
    assert Pow2(58) == 0x400_0000_0000_0000;
  }

  lemma {:induction false} Pow2Wraps(n: nat)
    requires n >= 64
    ensures Pow2(n) % TWO_64 == 0
  {
    if n == 64 { Pow2Of64(); } else { Pow2Wraps(n - 1); }
  }

  /** From the 64th attempt on the shift gives zero, and so the delay before jitter is zero, or the maximum
      if that is negative. */
  lemma BackoffVanishes(rm: RetryManager, attempt: nat)
    requires attempt >= 64
    ensures BaseDelayAt(rm, attempt) == Min(0, rm.maxDelay)
  {
    Pow2Wraps(attempt);
  }

  /** A base delay of one second overflows at the 34th attempt: the wait falls below zero. */
  lemma BackoffOverflows()
    ensures BaseDelayAt(RetryManager(100, 1_000_000_000, 60_000_000_000, (e: string) => true), 34) < 0
  {
    Pow2Of34();
  }

  /** Without overflow the backoff never shrinks from one attempt to the next. */
  lemma {:induction false} BackoffMonotone(rm: RetryManager, a: nat, b: nat)
    requires 0 < rm.baseDelay && 0 < rm.maxDelay && a <= b && rm.baseDelay * Pow2(b) < TWO_63
    ensures 0 < BaseDelayAt(rm, a) <= BaseDelayAt(rm, b) <= rm.maxDelay
    ensures BaseDelayAt(rm, a) == Min(rm.baseDelay * Pow2(a), rm.maxDelay)
  {
    Pow2Monotone(a, b);
    MulMonotone(rm.baseDelay, Pow2(a), Pow2(b));
    MulMonotone(rm.baseDelay, 1, Pow2(a));
    MulMonotone(Pow2(a), 1, rm.baseDelay);
    MulMonotone(Pow2(b), 1, rm.baseDelay);
  }

  /** Without any condition on overflow the backoff is never above the maximum. */
  lemma BackoffCapped(rm: RetryManager, attempt: nat)
    ensures BaseDelayAt(rm, attempt) <= rm.maxDelay
  {
  }

  lemma ProductOrder(d: real, a: real, b: real)
    requires d > 0.0 && a < b
    ensures d * a < d * b
  {
    assert d * (b - a) > 0.0;
  }

  lemma ProductSign(d: real, a: real)
    requires d <= 0.0 && a > 0.0
    ensures d * a <= 0.0
  {
  }

  /** A positive delay times a factor between 0.8 and 1.2. */
  lemma WithinAFifth(d: real, factor: real)
    requires 0.8 <= factor < 1.2
    ensures d > 0.0 ==> 0.8 * d <= Product(d, factor) < 1.2 * d
    ensures d <= 0.0 ==> Product(d, factor) <= 0.0
  {
    if d > 0.0 {
      ProductOrder(d, factor, 1.2);
      if factor > 0.8 { ProductOrder(d, 0.8, factor); }
    } else {
      ProductSign(d, factor);
    }
  }

  /** Truncation toward zero of a positive number loses less than one. */
  lemma TruncateAbove(x: real, delay: int)
    requires 0 < delay && 0.8 * (delay as real) <= x
    ensures 4 * delay - 5 < 5 * Truncate(x)
  {
    var t := x.Floor;
    assert t as real > x - 1.0;
    assert (5 * t) as real == 5.0 * (t as real);
    assert (4 * delay - 5) as real == 4.0 * (delay as real) - 5.0;
  }

  lemma TruncateBelow(x: real, delay: int)
    requires 0 < delay && x < 1.2 * (delay as real)
    ensures 5 * Truncate(x) < 6 * delay
  {
    if x >= 0.0 {
      var t := x.Floor;
      assert t as real <= x;
      assert (5 * t) as real == 5.0 * (t as real);
      assert (6 * delay) as real == 6.0 * (delay as real);
    }
  }

  lemma TruncateNegative(x: real)
    requires x <= 0.0
    ensures Truncate(x) <= 0
  {
  }

  lemma TruncateWithin(x: real, d: real, delay: int)
    requires d == delay as real && (d > 0.0 ==> 0.8 * d <= x < 1.2 * d) && (d <= 0.0 ==> x <= 0.0)
    ensures delay > 0 ==> 4 * delay - 5 < 5 * Truncate(x) < 6 * delay
    ensures delay <= 0 ==> Truncate(x) <= 0
  {
    if delay > 0 {
      TruncateAbove(x, delay);
      TruncateBelow(x, delay);
    } else {
      TruncateNegative(x);
    }
  }

  lemma ScaledBound(delay: int, factor: real)
    requires 0.8 <= factor < 1.2
    ensures delay > 0 ==> 4 * delay - 5 < 5 * Scaled(delay, factor) < 6 * delay
    ensures delay <= 0 ==> Scaled(delay, factor) <= 0
  {
    WithinAFifth(delay as real, factor);
    TruncateWithin(Product(delay as real, factor), delay as real, delay);
  }

  /** Jitter keeps a positive delay within 20% of its value, up to one nanosecond of truncation: above
      0.8 * delay - 1 and below 1.2 * delay. A delay that is not positive stays so. */
  lemma JitterBound(delay: int, random: real)
    requires 0.0 <= random < 1.0
    ensures delay > 0 ==> 4 * delay - 5 < 5 * Jitter(delay, random) < 6 * delay
    ensures delay <= 0 ==> Jitter(delay, random) <= 0
  {
    ScaledBound(delay, 0.8 + 0.4 * random);
  }

  // --------------------------------------------------------- the outside world

  datatype Reply = Rows(rows: int, warnings: seq<string>) | Failure(error: string)

  /** Everything the service does not decide: data conversion, the answer to the k-th client call,
      whether the context is cancelled when the k-th answer is judged or during the wait after it,
      and the random numbers. */
  datatype World<!T> = World(
    convert: seq<T> -> Option<string>,
    reply: nat -> Reply,
    cancelled: nat -> bool,
    interrupted: nat -> bool,
    random: nat -> real)

  datatype Error = ConversionError(text: string) | ClientError(text: string) | ContextError

  /** When no attempt is allowed nothing is sent, and the missing result is then dereferenced. */
  datatype Outcome =
    | NotConverted(text: string)
    | Wrote(rows: int, warnings: seq<string>)
    | GaveUp(text: string)
    | Interrupted
    | Panicked

  /** One payload: how often it was sent, how that ended, and the delays it waited for. */
  datatype Attempts = Attempts(calls: nat, outcome: Outcome, waits: seq<int>)

  /** The client's k-th answer leads to another attempt. */
  predicate Retried<T>(w: World<T>, rm: RetryManager, k: nat, attempt: nat) {
    w.reply(k).Failure? && ShouldRetry(rm, w.cancelled(k), attempt, w.reply(k).error)
  }

  /** After its j-th failure (from zero) a payload first sent as call `k` is retried, and the wait is not cut short. */
  predicate GoesOn<T>(w: World<T>, rm: RetryManager, k: nat, j: nat) {
    Retried(w, rm, k + j, j) && !w.interrupted(k + j)
  }

  /** The limit of the retry loop, computed in Go's int. */
  function MaxAttempts(retryCount: Int64): Int64 { Wrap64(retryCount + 1) }

  /** The retry counts with which nothing is ever sent. */
  predicate NoAttempt(retryCount: Int64) { retryCount < 0 || retryCount == MAX_INT64 }

  /** The loop is skipped for a negative retry count and for the largest one, where the limit wraps. */
  lemma NoAttemptIff(retryCount: Int64)
    ensures MaxAttempts(retryCount) <= 0 <==> NoAttempt(retryCount)
    ensures !NoAttempt(retryCount) ==> MaxAttempts(retryCount) == retryCount + 1
  {
  }

  /** Exactly what the retry loop does with a payload whose first call is the client's k-th. */
  ghost predicate Attempted<T>(w: World<T>, rm: RetryManager, retryCount: Int64, k: nat, a: Attempts) {
    if MaxAttempts(retryCount) <= 0 then a == Attempts(0, Panicked, []) else
    && 1 <= a.calls <= MaxAttempts(retryCount)
    && (forall j :: 0 <= j < a.calls - 1 ==> GoesOn(w, rm, k, j))
    && (match a.outcome
        case NotConverted(_) => false
        case Panicked => false
        case Wrote(rows, warnings) => w.reply(k + a.calls - 1) == Rows(rows, warnings)
        case GaveUp(text) =>
          && w.reply(k + a.calls - 1) == Failure(text)
          && (a.calls == MaxAttempts(retryCount) || !Retried(w, rm, k + a.calls - 1, a.calls - 1))
        case Interrupted =>
          && a.calls < MaxAttempts(retryCount)
          && Retried(w, rm, k + a.calls - 1, a.calls - 1) && w.interrupted(k + a.calls - 1))
    && |a.waits| == a.calls - 1 + (if a.outcome.Interrupted? then 1 else 0)
    && (forall j :: 0 <= j < |a.waits| ==> a.waits[j] == NextRetryDelay(rm, j + 1, w.random(k + j)))
  }

  /** The conditions leave no choice: they determine the calls, the outcome and the waits. */
  lemma AttemptedUnique<T>(w: World<T>, rm: RetryManager, retryCount: Int64, k: nat, a: Attempts, b: Attempts)
    requires Attempted(w, rm, retryCount, k, a) && Attempted(w, rm, retryCount, k, b)
    ensures a == b
  {
    assert a.calls < b.calls ==> GoesOn(w, rm, k, a.calls - 1);
    assert b.calls < a.calls ==> GoesOn(w, rm, k, b.calls - 1);
    assert a.calls == b.calls;
    assert a.waits == b.waits;
  }

  /** One payload is sent at most min(RetryCount, MaxRetries) + 1 times, and not at all exactly when the
      retry count allows no attempt. */
  lemma AttemptsBounded<T>(w: World<T>, rm: RetryManager, retryCount: Int64, k: nat, a: Attempts)
    requires Attempted(w, rm, retryCount, k, a)
    ensures if NoAttempt(retryCount) then a.calls == 0 else 1 <= a.calls <= Min(retryCount, Max(rm.maxRetries, 0)) + 1
    ensures |a.waits| <= Max(retryCount, 0)
  {
    if a.calls >= 2 { assert GoesOn(w, rm, k, a.calls - 2); }
  }

  /** An error after which the loop would go on: a failure that may be retried, within both retry limits, on
      a context that still lives. */
  predicate MayGoOn<T>(w: World<T>, rm: RetryManager, retryCount: Int64, k: nat, j: nat) {
    && w.reply(k + j).Failure? && rm.retryable(w.reply(k + j).error)
    && !w.cancelled(k + j) && j < rm.maxRetries && j + 1 < MaxAttempts(retryCount)
  }

  /** A call is followed by another one exactly when it failed with an error that may be retried, neither
      limit is used up, and the context neither was cancelled nor is during the wait. */
  lemma NextCallIff<T>(w: World<T>, rm: RetryManager, retryCount: Int64, k: nat, a: Attempts, j: nat)
    requires Attempted(w, rm, retryCount, k, a) && j < a.calls
    ensures j + 1 < a.calls <==> MayGoOn(w, rm, retryCount, k, j) && !w.interrupted(k + j)
  {
    if j + 1 < a.calls { assert GoesOn(w, rm, k, j); }
  }

  /** How the last call decides the outcome: success with its rows and warnings; interruption when another
      attempt was due; otherwise its error, which then was not to be retried or came at a limit. */
  lemma LastCallDecides<T>(w: World<T>, rm: RetryManager, retryCount: Int64, k: nat, a: Attempts)
    requires Attempted(w, rm, retryCount, k, a) && a.calls > 0
    ensures var last := a.calls - 1;
            a.outcome == match w.reply(k + last)
                         case Rows(rows, warnings) => Wrote(rows, warnings)
                         case Failure(text) => if MayGoOn(w, rm, retryCount, k, last) then Interrupted else GaveUp(text)
    ensures a.outcome.Interrupted? ==> w.interrupted(k + a.calls - 1)
  {
    NextCallIff(w, rm, retryCount, k, a, a.calls - 1);
  }

  /** Without overflow the wait before the next attempt is within 20% of twice the base delay for the first,
      and twice as long each time, up to the maximum. */
  lemma WaitsFollowBackoff<T>(w: World<T>, rm: RetryManager, retryCount: Int64, k: nat, a: Attempts, j: nat)
    requires Attempted(w, rm, retryCount, k, a) && j < |a.waits| && 0.0 <= w.random(k + j) < 1.0
    requires 0 < rm.baseDelay && 0 < rm.maxDelay && rm.baseDelay * Pow2(j + 1) < TWO_63
    ensures var delay := Min(rm.baseDelay * Pow2(j + 1), rm.maxDelay);
            4 * delay - 5 < 5 * a.waits[j] < 6 * delay
  {
    BackoffMonotone(rm, j + 1, j + 1);
    JitterBound(BaseDelayAt(rm, j + 1), w.random(k + j));
  }

  /** How long a timer with this delay waits: not at all when it is negative. */
  function Waited(delay: int): nat { Max(delay, 0) }

  function AllWaited(waits: seq<int>): (r: seq<int>)
    ensures |r| == |waits| && forall i :: 0 <= i < |r| ==> r[i] == Waited(waits[i])
  {
    seq(|waits|, i requires 0 <= i < |waits| => Waited(waits[i]))
  }

  lemma {:induction false} SumBound(waits: seq<int>, most: int)
    requires forall j :: 0 <= j < |waits| ==> 5 * waits[j] < 6 * most
    ensures 5 * Sum(waits) + |waits| <= 6 * most * |waits|
  {
    if waits != [] {
      var rest := waits[1..];
      SumBound(rest, most);
      assert 6 * most * |waits| == 6 * most + 6 * most * |rest|;
    }
  }

  lemma SumBelow(waits: seq<int>, most: int, n: nat)
    requires waits != [] && |waits| <= n && most > 0
    requires forall j :: 0 <= j < |waits| ==> 5 * waits[j] < 6 * most
    ensures 5 * Sum(waits) < 6 * most * n
  {
    SumBound(waits, most);
    MulMonotone(6 * most, |waits|, n);
  }

  lemma {:induction false} SumAtMost(a: seq<int>, b: seq<int>)
    requires |a| == |b| && forall i :: 0 <= i < |a| ==> a[i] <= b[i]
    ensures Sum(a) <= Sum(b)
  {
    if a != [] { SumAtMost(a[1..], b[1..]); }
  }

  /** No wait reaches 1.2 * MaxDelay, overflow or not; with no positive maximum there is no wait. */
  lemma {:induction false} OneWaitBounded(rm: RetryManager, attempt: nat, random: real)
    requires 0.0 <= random < 1.0
    ensures rm.maxDelay > 0 ==> 5 * Waited(NextRetryDelay(rm, attempt, random)) < 6 * rm.maxDelay
    ensures rm.maxDelay <= 0 ==> Waited(NextRetryDelay(rm, attempt, random)) == 0
  {
    BackoffCapped(rm, attempt);
    JitterBound(BaseDelayAt(rm, attempt), random);
  }

  /** For every configuration, overflowing ones included: a payload that waits at all waits less than
      1.2 * MaxDelay * RetryCount in total, and without a positive maximum it never waits. */
  lemma {:induction false} TotalWaitBounded<T>(w: World<T>, rm: RetryManager, retryCount: Int64, k: nat, a: Attempts)
    requires Attempted(w, rm, retryCount, k, a) && a.waits != []
    requires forall j :: 0.0 <= w.random(j) < 1.0
    ensures Sum(a.waits) <= Sum(AllWaited(a.waits))
    ensures rm.maxDelay > 0 ==> 5 * Sum(AllWaited(a.waits)) < 6 * rm.maxDelay * retryCount
    ensures rm.maxDelay <= 0 ==> Sum(AllWaited(a.waits)) == 0
  {
    var waited := AllWaited(a.waits);
    AttemptsBounded(w, rm, retryCount, k, a);
    forall j | 0 <= j < |waited|
      ensures rm.maxDelay > 0 ==> 5 * waited[j] < 6 * rm.maxDelay
      ensures rm.maxDelay <= 0 ==> waited[j] == 0
    {
      OneWaitBounded(rm, j + 1, w.random(k + j));
    }
    SumAtMost(a.waits, waited);
    if rm.maxDelay > 0 { SumBelow(waited, rm.maxDelay, retryCount); } else { SumZero(waited); }
  }

  /** The retry loop, shared in text by the single and the batch write. `k` calls were made before. */
  method SendWithRetries<T>(w: World<T>, rm: RetryManager, retryCount: Int64, k: nat) returns (a: Attempts)
    ensures Attempted(w, rm, retryCount, k, a)
  {
    var attempt: nat := 0;
    var maxAttempts: int := MaxAttempts(retryCount);
    var waits: seq<int> := [];
    var reply := Failure("");
    while attempt < maxAttempts
      invariant attempt <= Max(maxAttempts, 0) && |waits| == Min(attempt, Max(maxAttempts - 1, 0))
      invariant forall j :: 0 <= j < |waits| ==> GoesOn(w, rm, k, j)
      invariant forall j :: 0 <= j < |waits| ==> waits[j] == NextRetryDelay(rm, j + 1, w.random(k + j))
      invariant 0 < attempt == maxAttempts ==> reply.Failure? && reply == w.reply(k + attempt - 1)
    {
      reply := w.reply(k + attempt);
      if reply.Rows? || !ShouldRetry(rm, w.cancelled(k + attempt), attempt, reply.error) {
        var o := if reply.Rows? then Wrote(reply.rows, reply.warnings) else GaveUp(reply.error);
        return Attempts(attempt + 1, o, waits);
      }
      attempt := attempt + 1;
      if attempt < maxAttempts {
        waits := waits + [NextRetryDelay(rm, attempt, w.random(k + attempt - 1))];
        if w.interrupted(k + attempt - 1) { return Attempts(attempt, Interrupted, waits); }
        assert GoesOn(w, rm, k, attempt - 1);
      }
    }
    a := if attempt == 0 then Attempts(0, Panicked, waits) else Attempts(attempt, GaveUp(reply.error), waits);
  }

  // -------------------------------------------------------------- chunking

  /** The data cut into pieces of `size`, the last one possibly shorter. */
  function Chunks<T>(data: seq<T>, size: nat): seq<seq<T>>
    requires size > 0
  {
    if data == [] then []
    else if |data| <= size then [data]
    else [data[..size]] + Chunks(data[size..], size)
  }

  lemma {:induction false} ChunksConcatenate<T>(data: seq<T>, size: nat)
    requires size > 0
    ensures Flatten(Chunks(data, size)) == data
    ensures forall i :: 0 <= i < |Chunks(data, size)| ==> 0 < |Chunks(data, size)[i]| <= size
    ensures forall i :: 0 <= i < |Chunks(data, size)| - 1 ==> |Chunks(data, size)[i]| == size
    decreases |data|
  {
    if data == [] {
    } else if |data| <= size {
      assert Flatten([data]) == data + Flatten([data][1..]);
    } else {
      ChunksConcatenate(data[size..], size);
      assert data[..size] + data[size..] == data;
    }
  }

  /** The pieces a batch size stands for: one for all the data when it is not positive. */
  function BatchesOf<T>(data: seq<T>, batchSize: int): (r: seq<seq<T>>)
    ensures Flatten(r) == data
    ensures batchSize <= 0 ==> |r| <= 1
    ensures batchSize > 0 ==>
              && (forall i :: 0 <= i < |r| ==> 0 < |r[i]| <= batchSize)
              && (forall i :: 0 <= i < |r| - 1 ==> |r[i]| == batchSize)
  {
    ChunksConcatenate(data, if batchSize > 0 then batchSize else Max(|data|, 1));
    Chunks(data, if batchSize > 0 then batchSize else Max(|data|, 1))
  }

  /** What is still to be cut from position `i` on. */
  function Uncut<T>(data: seq<T>, size: nat, i: nat): seq<seq<T>>
    requires size > 0
  {
    if i < |data| then Chunks(data[i..], size) else []
  }

  lemma UncutAtFirst<T>(data: seq<T>, batchSize: int)
    ensures var size := if batchSize > 0 then batchSize else Max(|data|, 1);
            Uncut(data, size, 0) == BatchesOf(data, batchSize)
  {
    assert data[0..] == data;
  }

  lemma NextPiece<T>(data: seq<T>, size: nat, i: nat)
    requires size > 0 && i < |data|
    ensures Uncut(data, size, i) == [data[i..Min(i + size, |data|)]] + Uncut(data, size, i + size)
  {
    var rest := data[i..];
    if |rest| > size {
      assert rest[size..] == data[i + size..] && rest[..size] == data[i..i + size];
    } else {
      assert data[i..|data|] == rest && [rest] + [] == [rest];
    }
  }

  lemma Regroup<T>(a: seq<T>, x: T, b: seq<T>)
    ensures a + ([x] + b) == a + [x] + b
  {
  }

  lemma CutNext<T>(batches: seq<seq<T>>, data: seq<T>, size: nat, i: nat)
    requires size > 0 && i < |data|
    ensures batches + Uncut(data, size, i) == batches + [data[i..Min(i + size, |data|)]] + Uncut(data, size, i + size)
  {
    NextPiece(data, size, i);
    Regroup(batches, data[i..Min(i + size, |data|)], Uncut(data, size, i + size));
  }

  method MakeChunks<T>(data: seq<T>, batchSize: int) returns (batches: seq<seq<T>>)
    ensures batches == BatchesOf(data, batchSize)
  {
    var size := if batchSize <= 0 then |data| else batchSize;
    batches := [];
    var i := 0;
    ghost var step: nat := Max(size, 1);
    UncutAtFirst(data, batchSize);
    while i < |data|
      invariant 0 <= i && (i < |data| ==> size == step)
      invariant batches + Uncut(data, step, i) == BatchesOf(data, batchSize)
    {
      var end := i + size;
      if end > |data| { end := |data|; }
      CutNext(batches, data, step, i);
      batches := batches + [data[i..end]];
      i := i + size;
    }
    assert batches + [] == batches;
  }

  // ------------------------------------------------------------- the batch

  datatype Options = Options(batchSize: int, retryCount: Int64, allowPartialFailure: bool)

  datatype ChunkTrace<T> = ChunkTrace(chunk: seq<T>, attempts: Attempts)

  datatype Warning = ChunkFailed(index: nat, error: Error) | FromClient(index: nat, text: string)

  datatype Response = Response(success: bool, rows: int, warnings: seq<Warning>, errors: seq<Error>, counts: Option<(nat, nat)>)

  function Repeat<T>(x: T, n: nat): seq<T> { seq(n, i => x) }

  /** Every payload given to the client, call by call. */
  function Sent<T>(trace: seq<ChunkTrace<T>>): seq<seq<T>> {
    if trace == [] then []
    else
      var last := trace[|trace| - 1];
      Sent(trace[..|trace| - 1]) + Repeat(last.chunk, last.attempts.calls)
  }

  function ErrorOf(o: Outcome): Error {
    match o
    case NotConverted(text) => ConversionError(text)
    case GaveUp(text) => ClientError(text)
    case _ => ContextError
  }

  predicate Failed(o: Outcome) { !o.Wrote? }

  function RowsOf<T>(trace: seq<ChunkTrace<T>>): int {
    if trace == [] then 0
    else
      var o := trace[|trace| - 1].attempts.outcome;
      RowsOf(trace[..|trace| - 1]) + (if o.Wrote? then o.rows else 0)
  }

  function Successes<T>(trace: seq<ChunkTrace<T>>): nat {
    if trace == [] then 0
    else Successes(trace[..|trace| - 1]) + (if trace[|trace| - 1].attempts.outcome.Wrote? then 1 else 0)
  }

  function Errors<T>(trace: seq<ChunkTrace<T>>): seq<Error> {
    if trace == [] then []
    else
      var o := trace[|trace| - 1].attempts.outcome;
      Errors(trace[..|trace| - 1]) + (if Failed(o) then [ErrorOf(o)] else [])
  }

  function ClientWarnings(index: nat, texts: seq<string>): (r: seq<Warning>)
    ensures |r| == |texts| && forall i :: 0 <= i < |texts| ==> r[i] == FromClient(index, texts[i])
  {
    seq(|texts|, i requires 0 <= i < |texts| => FromClient(index, texts[i]))
  }

  /** Warnings number the chunks from one. */
  function Warnings<T>(trace: seq<ChunkTrace<T>>): seq<Warning> {
    if trace == [] then []
    else
      var o := trace[|trace| - 1].attempts.outcome;
      Warnings(trace[..|trace| - 1]) +
      (if o.Wrote? then ClientWarnings(|trace|, o.warnings) else [ChunkFailed(|trace|, ErrorOf(o))])
  }

  /** The outcomes after which the service returns at once. */
  predicate Stops(o: Outcome, opts: Options) {
    o.Interrupted? || o.Panicked? || (Failed(o) && !opts.allowPartialFailure)
  }

  /** What the caller sees: an answer, or a panic. */
  datatype Report = Returned(response: Response, error: Option<Error>) | Crashed

  /** The answer after a chunk that stopped the service; `before` are the chunks handled before it. */
  function StoppedReport<T>(before: seq<ChunkTrace<T>>, o: Outcome): Report {
    if o.Panicked? then Crashed
    else
      Returned(Response(o.Interrupted? && Successes(before) > 0, RowsOf(before), Warnings(before),
                        Errors(before) + [ErrorOf(o)], None),
               Some(ErrorOf(o)))
  }

  function FinishedReport<T>(opts: Options, trace: seq<ChunkTrace<T>>, total: nat): Report {
    var errors := Errors(trace);
    Returned(Response(errors == [] || (opts.allowPartialFailure && Successes(trace) > 0), RowsOf(trace), Warnings(trace),
                      errors, Some((Successes(trace), total))),
             if errors != [] && !opts.allowPartialFailure then Some(errors[0]) else None)
  }

  function ReportOf<T>(opts: Options, trace: seq<ChunkTrace<T>>, total: nat): Report {
    if trace != [] && Stops(trace[|trace| - 1].attempts.outcome, opts)
    then StoppedReport(trace[..|trace| - 1], trace[|trace| - 1].attempts.outcome)
    else FinishedReport(opts, trace, total)
  }

  /** One chunk handled as it should be, its first call being the client's k-th. */
  ghost predicate Handled<T>(w: World<T>, rm: RetryManager, opts: Options, k: nat, c: ChunkTrace<T>) {
    match w.convert(c.chunk)
    case Some(text) => c.attempts == Attempts(0, NotConverted(text), [])
    case None => Attempted(w, rm, opts.retryCount, k, c.attempts)
  }

  /** The chunks are taken in order, each handled after the calls of those before, and all but the last
      let the service go on. */
  ghost predicate Follows<T>(w: World<T>, rm: RetryManager, opts: Options, chunks: seq<seq<T>>, trace: seq<ChunkTrace<T>>) {
    trace == [] ||
    (var n := |trace| - 1;
     && n < |chunks| && trace[n].chunk == chunks[n]
     && Handled(w, rm, opts, |Sent(trace[..n])|, trace[n])
     && (n > 0 ==> !Stops(trace[n - 1].attempts.outcome, opts))
     && Follows(w, rm, opts, chunks, trace[..n]))
  }

  /** The run is over: every chunk was handled, or the last one stopped the service. */
  predicate Over<T>(opts: Options, total: nat, trace: seq<ChunkTrace<T>>) {
    |trace| == total || (trace != [] && Stops(trace[|trace| - 1].attempts.outcome, opts))
  }

  method HandleChunk<T>(w: World<T>, rm: RetryManager, opts: Options, k: nat, chunk: seq<T>) returns (c: ChunkTrace<T>)
    ensures c.chunk == chunk && Handled(w, rm, opts, k, c)
  {
    var bad := w.convert(chunk);
    if bad.Some? { return ChunkTrace(chunk, Attempts(0, NotConverted(bad.value), [])); }
    var a := SendWithRetries(w, rm, opts.retryCount, k);
    c := ChunkTrace(chunk, a);
  }

  /** How each summary grows by one chunk. */
  lemma TraceSnoc<T>(trace: seq<ChunkTrace<T>>, c: ChunkTrace<T>)
    ensures var o, t := c.attempts.outcome, trace + [c];
            && t[..|trace|] == trace && t[|trace|] == c
            && Sent(t) == Sent(trace) + Repeat(c.chunk, c.attempts.calls)
            && (if o.Wrote? then
                  RowsOf(t) == RowsOf(trace) + o.rows && Successes(t) == Successes(trace) + 1 && Errors(t) == Errors(trace)
                  && Warnings(t) == Warnings(trace) + ClientWarnings(|t|, o.warnings)
                else
                  RowsOf(t) == RowsOf(trace) && Successes(t) == Successes(trace) && Errors(t) == Errors(trace) + [ErrorOf(o)]
                  && Warnings(t) == Warnings(trace) + [ChunkFailed(|t|, ErrorOf(o))])
  {
    var t := trace + [c];
    assert t[..|t| - 1] == trace;
    assert Errors(trace) + [] == Errors(trace);
  }

  lemma FollowsSnoc<T>(w: World<T>, rm: RetryManager, opts: Options, chunks: seq<seq<T>>, trace: seq<ChunkTrace<T>>, c: ChunkTrace<T>)
    requires Follows(w, rm, opts, chunks, trace) && |trace| < |chunks| && c.chunk == chunks[|trace|]
    requires Handled(w, rm, opts, |Sent(trace)|, c)
    requires trace != [] ==> !Stops(trace[|trace| - 1].attempts.outcome, opts)
    ensures Follows(w, rm, opts, chunks, trace + [c])
  {
    var t := trace + [c];
    assert t[..|t| - 1] == trace;
  }

  /** The running totals of the loop over the chunks. */
  datatype Totals = Totals(rows: int, successful: nat, warnings: seq<Warning>, errors: seq<Error>)

  function TotalsOf<T>(trace: seq<ChunkTrace<T>>): Totals {
    Totals(RowsOf(trace), Successes(trace), Warnings(trace), Errors(trace))
  }

  /** Adds the i-th chunk's outcome to the totals. */
  method AddOutcome<T>(t: Totals, i: nat, ghost trace: seq<ChunkTrace<T>>, c: ChunkTrace<T>) returns (t1: Totals)
    requires t == TotalsOf(trace) && i == |trace|
    ensures t1 == TotalsOf(trace + [c])
  {
    TraceSnoc(trace, c);
    var o := c.attempts.outcome;
    if o.Wrote? {
      t1 := Totals(t.rows + o.rows, t.successful + 1, t.warnings + ClientWarnings(i + 1, o.warnings), t.errors);
    } else {
      t1 := t.(warnings := t.warnings + [ChunkFailed(i + 1, ErrorOf(o))], errors := t.errors + [ErrorOf(o)]);
    }
  }

  /** The early return. */
  method StopEarly<T>(t: Totals, ghost before: seq<ChunkTrace<T>>, o: Outcome) returns (report: Report)
    requires t == TotalsOf(before)
    ensures report == StoppedReport(before, o)
  {
    if o.Panicked? { return Crashed; }
    if o.Interrupted? {
      return Returned(Response(t.successful > 0, t.rows, t.warnings, t.errors + [ContextError], None), Some(ContextError));
    }
    report := Returned(Response(false, t.rows, t.warnings, t.errors + [ErrorOf(o)], None), Some(ErrorOf(o)));
  }

  /** Handles the next chunk and records what was sent for it. */
  method NextChunk<T>(w: World<T>, rm: RetryManager, opts: Options, batches: seq<seq<T>>, trace: seq<ChunkTrace<T>>, sent: seq<seq<T>>)
    returns (c: ChunkTrace<T>, sent1: seq<seq<T>>)
    requires |trace| < |batches| && Follows(w, rm, opts, batches, trace) && sent == Sent(trace)
    requires trace != [] ==> !Stops(trace[|trace| - 1].attempts.outcome, opts)
    ensures Follows(w, rm, opts, batches, trace + [c]) && sent1 == Sent(trace + [c])
  {
    c := HandleChunk(w, rm, opts, |sent|, batches[|trace|]);
    FollowsSnoc(w, rm, opts, batches, trace, c);
    TraceSnoc(trace, c);
    sent1 := sent + Repeat(c.chunk, c.attempts.calls);
  }

  lemma ReportAfterStop<T>(opts: Options, trace: seq<ChunkTrace<T>>, c: ChunkTrace<T>, total: nat)
    requires Stops(c.attempts.outcome, opts)
    ensures ReportOf(opts, trace + [c], total) == StoppedReport(trace, c.attempts.outcome)
    ensures Over(opts, total, trace + [c])
  {
    assert (trace + [c])[..|trace|] == trace;
  }

  /** The answer of a loop that ran to its end. */
  function Finish(opts: Options, t: Totals, total: nat): Report {
    var success := |t.errors| == 0 || (opts.allowPartialFailure && t.successful > 0);
    Returned(Response(success, t.rows, t.warnings, t.errors, Some((t.successful, total))),
             if |t.errors| > 0 && !opts.allowPartialFailure then Some(t.errors[0]) else None)
  }

  /** `sent` is what the client received; `trace` how each chunk went. */
  method ExecuteBatchWrite<T>(w: World<T>, rm: RetryManager, opts: Options, data: seq<T>)
    returns (report: Report, sent: seq<seq<T>>, trace: seq<ChunkTrace<T>>)
    ensures var chunks := BatchesOf(data, opts.batchSize);
            && Follows(w, rm, opts, chunks, trace) && Over(opts, |chunks|, trace)
            && sent == Sent(trace)
            && report == ReportOf(opts, trace, |chunks|)
  {
    var batches := MakeChunks(data, opts.batchSize);
    var t := Totals(0, 0, [], []);
    sent, trace := [], [];
    for i := 0 to |batches|
      invariant |trace| == i && Follows(w, rm, opts, batches, trace) && sent == Sent(trace)
      invariant trace != [] ==> !Stops(trace[|trace| - 1].attempts.outcome, opts)
      invariant t == TotalsOf(trace)
    {
      var c;
      c, sent := NextChunk(w, rm, opts, batches, trace, sent);
      if Stops(c.attempts.outcome, opts) {
        report := StopEarly(t, trace, c.attempts.outcome);
        ReportAfterStop(opts, trace, c, |batches|);
        trace := trace + [c];
        return;
      }
      t := AddOutcome(t, i, trace, c);
      trace := trace + [c];
    }
    report := Finish(opts, t, |batches|);
  }

  /** A single synchronous write: one conversion, one retry loop, one answer. Its warnings carry no
      batch number, which index zero stands for. */
  method ExecuteSyncWrite<T>(w: World<T>, rm: RetryManager, opts: Options, data: seq<T>)
    returns (report: Report, c: ChunkTrace<T>)
    ensures c.chunk == data && Handled(w, rm, opts, 0, c)
    ensures report == match c.attempts.outcome
                      case Panicked => Crashed
                      case Wrote(rows, warnings) => Returned(Response(true, rows, ClientWarnings(0, warnings), [], None), None)
                      case o => Returned(Response(false, 0, [], [ErrorOf(o)], None), Some(ErrorOf(o)))
    ensures report.Crashed? <==> NoAttempt(opts.retryCount) && w.convert(data).None?
  {
    c := HandleChunk(w, rm, opts, 0, data);
    var o := c.attempts.outcome;
    if o.Panicked? { return Crashed, c; }
    if !o.Wrote? {
      return Returned(Response(false, 0, [], [ErrorOf(o)], None), Some(ErrorOf(o))), c;
    }
    report := Returned(Response(true, o.rows, ClientWarnings(0, o.warnings), [], None), None);
  }

  // ---------------------------------------------------- what the batch means

  lemma {:induction false} FollowsAt<T>(w: World<T>, rm: RetryManager, opts: Options, chunks: seq<seq<T>>, trace: seq<ChunkTrace<T>>, i: nat)
    requires Follows(w, rm, opts, chunks, trace) && i < |trace|
    ensures i < |chunks| && trace[i].chunk == chunks[i]
    ensures Handled(w, rm, opts, |Sent(trace[..i])|, trace[i])
    ensures i < |trace| - 1 ==> !Stops(trace[i].attempts.outcome, opts)
    ensures Follows(w, rm, opts, chunks, trace[..i])
    decreases |trace|
  {
    var n := |trace| - 1;
    if i < n {
      FollowsAt(w, rm, opts, chunks, trace[..n], i);
      assert trace[..n][..i] == trace[..i];
    }
  }

  lemma {:induction false} AllWrote<T>(trace: seq<ChunkTrace<T>>)
    requires forall i :: 0 <= i < |trace| ==> trace[i].attempts.outcome.Wrote?
    ensures Errors(trace) == [] && Successes(trace) == |trace|
  {
    if trace != [] { AllWrote(trace[..|trace| - 1]); }
  }

  /** Without AllowPartialFailure: every chunk before the last one handled was written, nothing after
      the first failure is sent, and the rows reported are those of exactly the earlier chunks. */
  lemma StrictStopsAtFirstFailure<T>(w: World<T>, rm: RetryManager, opts: Options, chunks: seq<seq<T>>, trace: seq<ChunkTrace<T>>)
    requires Follows(w, rm, opts, chunks, trace) && Over(opts, |chunks|, trace) && !opts.allowPartialFailure
    ensures forall i :: 0 <= i < |trace| - 1 ==> trace[i].attempts.outcome.Wrote?
    ensures var report := ReportOf(opts, trace, |chunks|);
            if trace != [] && Failed(trace[|trace| - 1].attempts.outcome)
            then
              var o := trace[|trace| - 1].attempts.outcome;
              if o.Panicked? then report == Crashed
              else
                && report.Returned? && report.error == Some(ErrorOf(o)) && report.response.errors == [ErrorOf(o)]
                && report.response.rows == RowsOf(trace[..|trace| - 1]) && (report.response.success ==> o.Interrupted?)
            else
              && report.Returned? && report.error == None && report.response.success && |trace| == |chunks|
              && report.response.errors == [] && report.response.rows == RowsOf(trace)
  {
    forall i | 0 <= i < |trace| - 1 ensures trace[i].attempts.outcome.Wrote? {
      FollowsAt(w, rm, opts, chunks, trace, i);
    }
    if trace != [] { AllWrote(trace[..|trace| - 1]); }
    if trace == [] || !Failed(trace[|trace| - 1].attempts.outcome) { AllWrote(trace); }
  }

  lemma {:induction false} SuccessesAndErrors<T>(trace: seq<ChunkTrace<T>>)
    ensures Successes(trace) + |Errors(trace)| == |trace|
  {
    if trace != [] { SuccessesAndErrors(trace[..|trace| - 1]); }
  }

  /** With AllowPartialFailure only cancellation, or the panic, ends early; a run that reaches the end
      reports no error value, and its successful chunks and errors add up to the number of chunks. */
  lemma PartialCounts<T>(w: World<T>, rm: RetryManager, opts: Options, chunks: seq<seq<T>>, trace: seq<ChunkTrace<T>>)
    requires Follows(w, rm, opts, chunks, trace) && Over(opts, |chunks|, trace) && opts.allowPartialFailure
    ensures var report := ReportOf(opts, trace, |chunks|);
            if trace != [] && trace[|trace| - 1].attempts.outcome.Panicked? then report == Crashed
            else
              && report.Returned?
              && if trace != [] && trace[|trace| - 1].attempts.outcome.Interrupted?
                 then report.error == Some(ContextError) && report.response.counts == None
                 else
                   var resp := report.response;
                   && |trace| == |chunks| && report.error == None && resp.counts.Some?
                   && resp.counts.value.0 + |resp.errors| == |chunks|
                   && (resp.success <==> resp.errors == [] || resp.counts.value.0 > 0)
  {
    SuccessesAndErrors(trace);
  }

  /** How often each chunk is sent: at most min(RetryCount, MaxRetries) + 1 times, and not at all exactly
      when it cannot be converted or the retry count allows no attempt. */
  lemma ChunkCallsBounded<T>(w: World<T>, rm: RetryManager, opts: Options, chunks: seq<seq<T>>, trace: seq<ChunkTrace<T>>, i: nat)
    requires Follows(w, rm, opts, chunks, trace) && i < |trace|
    ensures trace[i].attempts.calls <= Min(Max(opts.retryCount, 0), Max(rm.maxRetries, 0)) + 1
    ensures trace[i].attempts.calls == 0 <==> w.convert(chunks[i]).Some? || NoAttempt(opts.retryCount)
    ensures trace[i].attempts.outcome.Panicked? <==> w.convert(chunks[i]).None? && NoAttempt(opts.retryCount)
  {
    FollowsAt(w, rm, opts, chunks, trace, i);
    if w.convert(chunks[i]).None? {
      AttemptsBounded(w, rm, opts.retryCount, |Sent(trace[..i])|, trace[i].attempts);
    }
  }

  lemma NoAttemptFailsAll<T>(w: World<T>, rm: RetryManager, opts: Options, chunks: seq<seq<T>>, trace: seq<ChunkTrace<T>>, i: nat)
    requires Follows(w, rm, opts, chunks, trace) && i < |trace| && NoAttempt(opts.retryCount)
    ensures i < |chunks|
    ensures trace[i].attempts.outcome.Panicked? <==> w.convert(chunks[i]).None?
    ensures !trace[i].attempts.outcome.Panicked? ==> trace[i].attempts.outcome.NotConverted?
    ensures i < |trace| - 1 ==> opts.allowPartialFailure && w.convert(chunks[i]).Some?
  {
    FollowsAt(w, rm, opts, chunks, trace, i);
  }

  /** Exactly when a batch write panics: the retry count allows no attempt and a chunk is reached that can be
      converted, which is any of them if failures may be partial and else only the first. */
  lemma CrashesIff<T>(w: World<T>, rm: RetryManager, opts: Options, chunks: seq<seq<T>>, trace: seq<ChunkTrace<T>>)
    requires Follows(w, rm, opts, chunks, trace) && Over(opts, |chunks|, trace)
    ensures ReportOf(opts, trace, |chunks|).Crashed? <==>
              && NoAttempt(opts.retryCount) && chunks != []
              && if opts.allowPartialFailure then exists i :: 0 <= i < |chunks| && w.convert(chunks[i]).None?
                 else w.convert(chunks[0]).None?
  {
    forall i | 0 <= i < |trace| ensures trace[i].attempts.outcome.Panicked? <==> w.convert(chunks[i]).None? && NoAttempt(opts.retryCount) {
      ChunkCallsBounded(w, rm, opts, chunks, trace, i);
    }
    if NoAttempt(opts.retryCount) && trace != [] {
      NoAttemptFailsAll(w, rm, opts, chunks, trace, |trace| - 1);
      forall i | 0 <= i < |trace| ensures i < |trace| - 1 ==> opts.allowPartialFailure && w.convert(chunks[i]).Some? {
        NoAttemptFailsAll(w, rm, opts, chunks, trace, i);
      }
    }
  }

  /** The client's calls, read without repetitions, are an initial part of the chunks with the
      unconvertible ones left out: chunks are sent in order, each consecutively. */
  function Distinct<T>(trace: seq<ChunkTrace<T>>): seq<seq<T>> {
    if trace == [] then []
    else
      var last := trace[|trace| - 1];
      Distinct(trace[..|trace| - 1]) + (if last.attempts.calls == 0 then [] else [last.chunk])
  }

  function Convertible<T>(w: World<T>, chunks: seq<seq<T>>): seq<seq<T>> {
    if chunks == [] then []
    else
      var last := chunks[|chunks| - 1];
      Convertible(w, chunks[..|chunks| - 1]) + (if w.convert(last).Some? then [] else [last])
  }

  lemma SentStep<T>(w: World<T>, chunks: seq<seq<T>>, trace: seq<ChunkTrace<T>>)
    requires trace != [] && |trace| <= |chunks| && trace[|trace| - 1].chunk == chunks[|trace| - 1]
    ensures var n := |trace| - 1;
            && Distinct(trace) == Distinct(trace[..n]) + (if trace[n].attempts.calls == 0 then [] else [chunks[n]])
            && Convertible(w, chunks[..n + 1]) == Convertible(w, chunks[..n]) + (if w.convert(chunks[n]).Some? then [] else [chunks[n]])
  {
    var n := |trace| - 1;
    assert chunks[..n + 1][..n] == chunks[..n];
  }

  lemma {:induction false} SentInOrder<T>(w: World<T>, rm: RetryManager, opts: Options, chunks: seq<seq<T>>, trace: seq<ChunkTrace<T>>)
    requires Follows(w, rm, opts, chunks, trace)
    ensures |trace| <= |chunks|
    ensures Distinct(trace) == if NoAttempt(opts.retryCount) then [] else Convertible(w, chunks[..|trace|])
    decreases |trace|
  {
    if trace != [] {
      var n := |trace| - 1;
      SentInOrder(w, rm, opts, chunks, trace[..n]);
      ChunkCallsBounded(w, rm, opts, chunks, trace, n);
      SentStep(w, chunks, trace);
    }
  }

  /** The retry rule for every chunk of a batch, its first call being the client's next one. */
  lemma ChunkRetriesIff<T>(w: World<T>, rm: RetryManager, opts: Options, chunks: seq<seq<T>>, trace: seq<ChunkTrace<T>>, i: nat, j: nat)
    requires Follows(w, rm, opts, chunks, trace) && i < |trace| && j < trace[i].attempts.calls
    ensures var k := |Sent(trace[..i])|;
            j + 1 < trace[i].attempts.calls <==> MayGoOn(w, rm, opts.retryCount, k, j) && !w.interrupted(k + j)
  {
    FollowsAt(w, rm, opts, chunks, trace, i);
    if w.convert(chunks[i]).None? {
      NextCallIff(w, rm, opts.retryCount, |Sent(trace[..i])|, trace[i].attempts, j);
    }
  }

  // ------------------------------------- the report, from the client's side

  /** What the client's first `n` answers add up to: rows, successes and warnings. */
  function ClientRows<T>(w: World<T>, n: nat): int {
    if n == 0 then 0 else ClientRows(w, n - 1) + (match w.reply(n - 1) case Rows(rows, _) => rows case _ => 0)
  }

  function ClientSuccesses<T>(w: World<T>, n: nat): nat {
    if n == 0 then 0 else ClientSuccesses(w, n - 1) + (if w.reply(n - 1).Rows? then 1 else 0)
  }

  function ClientTexts<T>(w: World<T>, n: nat): seq<string> {
    if n == 0 then [] else ClientTexts(w, n - 1) + (match w.reply(n - 1) case Rows(_, warnings) => warnings case _ => [])
  }

  /** The client's own warnings among those reported, in order. */
  function Texts(ws: seq<Warning>): seq<string> {
    if ws == [] then [] else Texts(ws[..|ws| - 1]) + (match ws[|ws| - 1] case FromClient(_, t) => [t] case _ => [])
  }

  lemma {:induction false} TextsAppend(a: seq<Warning>, b: seq<Warning>)
    ensures Texts(a + b) == Texts(a) + Texts(b)
  {
    if b == [] {
      assert a + b == a;
    } else {
      assert (a + b)[..|a + b| - 1] == a + b[..|b| - 1];
      TextsAppend(a, b[..|b| - 1]);
    }
  }

  lemma {:induction false} TextsOfClient(index: nat, texts: seq<string>)
    ensures Texts(ClientWarnings(index, texts)) == texts
  {
    if texts != [] {
      var n := |texts| - 1;
      assert ClientWarnings(index, texts)[..n] == ClientWarnings(index, texts[..n]);
      TextsOfClient(index, texts[..n]);
      assert texts[..n] + [texts[n]] == texts;
    }
  }

  ghost predicate AllFail<T>(w: World<T>, lo: nat, hi: nat) {
    forall j :: lo <= j < hi ==> w.reply(j).Failure?
  }

  lemma {:induction false} FailuresAddNothing<T>(w: World<T>, lo: nat, hi: nat)
    requires lo <= hi && AllFail(w, lo, hi)
    ensures ClientRows(w, hi) == ClientRows(w, lo) && ClientSuccesses(w, hi) == ClientSuccesses(w, lo)
    ensures ClientTexts(w, hi) == ClientTexts(w, lo)
    decreases hi
  {
    if lo < hi { FailuresAddNothing(w, lo, hi - 1); }
  }

  lemma EarlierCallsFail<T>(w: World<T>, rm: RetryManager, retryCount: Int64, k: nat, a: Attempts)
    requires Attempted(w, rm, retryCount, k, a) && a.calls > 0
    ensures AllFail(w, k, k + a.calls - 1)
  {
    forall j | k <= j < k + a.calls - 1 ensures w.reply(j).Failure? {
      NextCallIff(w, rm, retryCount, k, a, j - k);
    }
  }

  /** What one chunk's outcome contributes. */
  function RowsIn(o: Outcome): int { if o.Wrote? then o.rows else 0 }
  function TextsIn(o: Outcome): seq<string> { if o.Wrote? then o.warnings else [] }

  /** A chunk's calls add exactly what its outcome says. */
  lemma ChunkAdds<T>(w: World<T>, rm: RetryManager, opts: Options, k: nat, c: ChunkTrace<T>)
    requires Handled(w, rm, opts, k, c)
    ensures var o, n := c.attempts.outcome, k + c.attempts.calls;
            && ClientRows(w, n) == ClientRows(w, k) + RowsIn(o)
            && ClientSuccesses(w, n) == ClientSuccesses(w, k) + (if o.Wrote? then 1 else 0)
            && ClientTexts(w, n) == ClientTexts(w, k) + TextsIn(o)
  {
    var a := c.attempts;
    if a.calls > 0 {
      EarlierCallsFail(w, rm, opts.retryCount, k, a);
      FailuresAddNothing(w, k, k + a.calls - 1);
      LastCallDecides(w, rm, opts.retryCount, k, a);
    }
  }

  /** The totals of a trace are those over the calls the client received. */
  ghost predicate Matches<T>(w: World<T>, trace: seq<ChunkTrace<T>>) {
    var n := |Sent(trace)|;
    && RowsOf(trace) == ClientRows(w, n) && Successes(trace) == ClientSuccesses(w, n)
    && Texts(Warnings(trace)) == ClientTexts(w, n)
  }

  /** The warnings a chunk's outcome leads to. */
  function OwnWarnings(index: nat, o: Outcome): seq<Warning> {
    if o.Wrote? then ClientWarnings(index, o.warnings) else [ChunkFailed(index, ErrorOf(o))]
  }

  lemma OwnTexts(index: nat, o: Outcome)
    ensures Texts(OwnWarnings(index, o)) == TextsIn(o)
  {
    if o.Wrote? {
      TextsOfClient(index, o.warnings);
    } else {
      assert OwnWarnings(index, o)[..0] == [];
    }
  }

  lemma WarningsSnoc<T>(trace: seq<ChunkTrace<T>>, c: ChunkTrace<T>)
    ensures Warnings(trace + [c]) == Warnings(trace) + OwnWarnings(|trace| + 1, c.attempts.outcome)
  {
    assert (trace + [c])[..|trace|] == trace;
  }

  lemma WarningTexts<T>(trace: seq<ChunkTrace<T>>, c: ChunkTrace<T>)
    ensures Texts(Warnings(trace + [c])) == Texts(Warnings(trace)) + TextsIn(c.attempts.outcome)
  {
    WarningsSnoc(trace, c);
    TextsAppend(Warnings(trace), OwnWarnings(|trace| + 1, c.attempts.outcome));
    OwnTexts(|trace| + 1, c.attempts.outcome);
  }

  lemma SentLength<T>(trace: seq<ChunkTrace<T>>, c: ChunkTrace<T>)
    ensures |Sent(trace + [c])| == |Sent(trace)| + c.attempts.calls
    ensures RowsOf(trace + [c]) == RowsOf(trace) + RowsIn(c.attempts.outcome)
    ensures Successes(trace + [c]) == Successes(trace) + (if c.attempts.outcome.Wrote? then 1 else 0)
  {
    TraceSnoc(trace, c);
  }

  lemma MatchesSnoc<T>(w: World<T>, rm: RetryManager, opts: Options, trace: seq<ChunkTrace<T>>, c: ChunkTrace<T>)
    requires Matches(w, trace) && Handled(w, rm, opts, |Sent(trace)|, c)
    ensures Matches(w, trace + [c])
  {
    SentLength(trace, c);
    WarningTexts(trace, c);
    ChunkAdds(w, rm, opts, |Sent(trace)|, c);
  }

  lemma {:induction false} TotalsAreTheClients<T>(w: World<T>, rm: RetryManager, opts: Options, chunks: seq<seq<T>>, trace: seq<ChunkTrace<T>>)
    requires Follows(w, rm, opts, chunks, trace)
    ensures Matches(w, trace)
    decreases |trace|
  {
    if trace != [] {
      var n := |trace| - 1;
      TotalsAreTheClients(w, rm, opts, chunks, trace[..n]);
      MatchesSnoc(w, rm, opts, trace[..n], trace[n]);
      assert trace[..n] + [trace[n]] == trace;
    }
  }

  /** A last chunk that was not written adds no rows, successes or client warnings. */
  lemma FailedLastAddsNothing<T>(w: World<T>, trace: seq<ChunkTrace<T>>)
    requires Matches(w, trace) && trace != [] && Failed(trace[|trace| - 1].attempts.outcome)
    ensures var before, n := trace[..|trace| - 1], |Sent(trace)|;
            && RowsOf(before) == ClientRows(w, n) && Successes(before) == ClientSuccesses(w, n)
            && Texts(Warnings(before)) == ClientTexts(w, n)
  {
    var before, c := trace[..|trace| - 1], trace[|trace| - 1];
    assert before + [c] == trace;
    SentLength(before, c);
    WarningTexts(before, c);
    EmptyTexts(Texts(Warnings(before)));
  }

  lemma EmptyTexts(a: seq<string>)
    ensures a + [] == a
  {
  }

  /** What the caller is told of the client's work. */
  ghost predicate TellsOf<T>(w: World<T>, n: nat, handled: nat, total: nat, resp: Response) {
    && resp.rows == ClientRows(w, n)
    && Texts(resp.warnings) == ClientTexts(w, n)
    && |resp.errors| + ClientSuccesses(w, n) == handled
    && (resp.counts.Some? ==> resp.counts == Some((ClientSuccesses(w, n), total)))
    && (resp.success && resp.errors != [] ==> ClientSuccesses(w, n) > 0)
  }

  lemma StoppedTells<T>(w: World<T>, trace: seq<ChunkTrace<T>>, total: nat)
    requires Matches(w, trace) && trace != [] && Failed(trace[|trace| - 1].attempts.outcome)
    ensures var report := StoppedReport(trace[..|trace| - 1], trace[|trace| - 1].attempts.outcome);
            report.Returned? ==> TellsOf(w, |Sent(trace)|, |trace|, total, report.response)
  {
    FailedLastAddsNothing(w, trace);
    SuccessesAndErrors(trace[..|trace| - 1]);
  }

  lemma FinishedTells<T>(w: World<T>, opts: Options, trace: seq<ChunkTrace<T>>, total: nat)
    requires Matches(w, trace)
    ensures TellsOf(w, |Sent(trace)|, |trace|, total, FinishedReport(opts, trace, total).response)
  {
    SuccessesAndErrors(trace);
  }

  /** Whatever the options, what is reported is what the client did: the rows are those of all its successful
      answers, its warnings are all there and in order, there is one error for each chunk that was not
      written, and the counts are those of the successful answers. */
  lemma ReportIsTheClients<T>(w: World<T>, rm: RetryManager, opts: Options, chunks: seq<seq<T>>, trace: seq<ChunkTrace<T>>)
    requires Follows(w, rm, opts, chunks, trace) && ReportOf(opts, trace, |chunks|).Returned?
    ensures TellsOf(w, |Sent(trace)|, |trace|, |chunks|, ReportOf(opts, trace, |chunks|).response)
  {
    TotalsAreTheClients(w, rm, opts, chunks, trace);
    if trace != [] && Stops(trace[|trace| - 1].attempts.outcome, opts) {
      StoppedTells(w, trace, |chunks|);
    } else {
      FinishedTells(w, opts, trace, |chunks|);
    }
  }

  /** Interruption during a wait reports success exactly when some answer before it was one. */
  lemma InterruptedReport<T>(w: World<T>, rm: RetryManager, opts: Options, chunks: seq<seq<T>>, trace: seq<ChunkTrace<T>>)
    requires Follows(w, rm, opts, chunks, trace) && trace != [] && trace[|trace| - 1].attempts.outcome.Interrupted?
    ensures var report := ReportOf(opts, trace, |chunks|);
            && report.Returned? && report.error == Some(ContextError) && report.response.errors != []
            && report.response.errors[|report.response.errors| - 1] == ContextError
            && (report.response.success <==> ClientSuccesses(w, |Sent(trace)|) > 0)
  {
    TotalsAreTheClients(w, rm, opts, chunks, trace);
    FailedLastAddsNothing(w, trace);
  }

  /** Which error a chunk that was not written stands for: what the conversion said; the client's answer to
      its last call; or the cancelled context. */
  lemma ErrorMeaning<T>(w: World<T>, rm: RetryManager, opts: Options, chunks: seq<seq<T>>, trace: seq<ChunkTrace<T>>, i: nat)
    requires Follows(w, rm, opts, chunks, trace) && i < |trace| && Failed(trace[i].attempts.outcome)
    requires !trace[i].attempts.outcome.Panicked?
    ensures i < |chunks|
    ensures var last, e := |Sent(trace[..i])| + trace[i].attempts.calls - 1, ErrorOf(trace[i].attempts.outcome);
            if w.convert(chunks[i]).Some? then e == ConversionError(w.convert(chunks[i]).value)
            else last >= 0 && w.reply(last).Failure? && (e == ClientError(w.reply(last).error) || (e == ContextError && w.interrupted(last)))
  {
    FollowsAt(w, rm, opts, chunks, trace, i);
    if w.convert(chunks[i]).None? { LastCallDecides(w, rm, opts.retryCount, |Sent(trace[..i])|, trace[i].attempts); }
  }

  /** Warnings carry the number of their chunk, counted from one: a failure warning for each chunk that was
      not written and for no other, and the client's warnings under the chunk they came with. */
  lemma {:induction false} WarningsNumbered<T>(trace: seq<ChunkTrace<T>>, x: Warning)
    ensures x in Warnings(trace) <==>
              && 1 <= x.index <= |trace|
              && var o := trace[x.index - 1].attempts.outcome;
                 if x.ChunkFailed? then Failed(o) && x.error == ErrorOf(o) else o.Wrote? && x.text in o.warnings
    decreases |trace|
  {
    if trace != [] {
      var n := |trace| - 1;
      var o := trace[n].attempts.outcome;
      var last := if o.Wrote? then ClientWarnings(n + 1, o.warnings) else [ChunkFailed(n + 1, ErrorOf(o))];
      WarningsNumbered(trace[..n], x);
      ClientWarningsIn(n + 1, if o.Wrote? then o.warnings else [], x);
      InEither(Warnings(trace[..n]), last, x);
      assert Warnings(trace) == Warnings(trace[..n]) + last;
    }
  }

  lemma InEither(a: seq<Warning>, b: seq<Warning>, x: Warning)
    ensures x in a + b <==> x in a || x in b
  {
  }

  lemma ClientWarningsIn(index: nat, texts: seq<string>, x: Warning)
    ensures x in ClientWarnings(index, texts) <==> x.FromClient? && x.index == index && x.text in texts
  {
    if x.FromClient? && x.index == index && x.text in texts {
      var i :| 0 <= i < |texts| && texts[i] == x.text;
      assert ClientWarnings(index, texts)[i] == x;
    }
  }
}
