/** Batch creation strategies: a tree built from a configuration, and what its advertised limits mean. */
module Strategy {
  import opened Wrappers
  import opened Numbers

  const MAX_INT: int := MAX_INT64
  const SECOND: int := 1_000_000_000
  const DAY: int := 24 * 3600 * 1_000_000_000
  const MILLISECOND: int := 1_000_000

  const DEFAULT_MAX_DELAY_MS: int := 10000
  const DEFAULT_MIN_DELAY_MS: int := 1000
  const DEFAULT_MAX_SIZE: int := 10 * 1024 * 1024
  const DEFAULT_MIN_SIZE: int := 1024 * 1024
  const DEFAULT_MAX_COUNT: int := 1000
  const DEFAULT_MIN_COUNT: int := 100

  /** What a strategy looks at; durations in nanoseconds. `quiet` is the time since the last message. */
  datatype BatchInfo = BatchInfo(size: int, count: int, elapsed: int, quiet: int)

  datatype Limits = Limits(size: int, count: int, delay: int)

  datatype Strategy =
    | TimeInterval(maxDelay: int, minDelay: int)
    | BatchSize(maxSize: int, minSize: int)
    | BatchCount(maxCount: int, minCount: int)
    | Hybrid(limits: Limits, strategies: seq<Strategy>, requireAll: bool)

  /** GetMaxBatchSize, GetMaxBatchCount and GetMaxBatchDelay. */
  function Advertised(s: Strategy): Limits {
    match s
    case TimeInterval(maxDelay, _) => Limits(MAX_INT64, MAX_INT, maxDelay)
    case BatchSize(maxSize, _) => Limits(maxSize, MAX_INT, DAY)
    case BatchCount(maxCount, _) => Limits(MAX_INT64, maxCount, DAY)
    case Hybrid(limits, _, _) => limits
  }

  /** Go's signed division by two. */
  function Half(n: int): int { if n >= 0 then n / 2 else -((-n) / 2) }

  predicate ShouldCreateBatch(s: Strategy, info: BatchInfo) {
    info.count != 0 &&
    match s
    case TimeInterval(maxDelay, minDelay) =>
      info.elapsed >= maxDelay || (info.elapsed >= minDelay && info.count > 0 && info.quiet >= Half(minDelay))
    case BatchSize(maxSize, minSize) =>
      info.size >= maxSize || (info.size >= minSize && info.count > 0 && info.quiet >= SECOND)
    case BatchCount(maxCount, minCount) =>
      info.count >= maxCount || (info.count >= minCount && info.quiet >= SECOND)
    case Hybrid(_, strategies, requireAll) =>
      if requireAll then forall i :: 0 <= i < |strategies| ==> ShouldCreateBatch(strategies[i], info)
      else exists i :: 0 <= i < |strategies| && ShouldCreateBatch(strategies[i], info)
  }

  // ------------------------------------------------------------ construction

  /** The smallest limits of a list of strategies, starting from no limit and one day. */
  function LeastLimits(strategies: seq<Strategy>): Limits {
    if strategies == [] then Limits(MAX_INT64, MAX_INT, DAY)
    else
      var rest, last := LeastLimits(strategies[..|strategies| - 1]), Advertised(strategies[|strategies| - 1]);
      Limits(Min(last.size, rest.size), Min(last.count, rest.count), Min(last.delay, rest.delay))
  }

  method NewHybridStrategy(strategies: seq<Strategy>, requireAll: bool) returns (s: Strategy)
    ensures s == Hybrid(LeastLimits(strategies), strategies, requireAll)
  {
    var size, count, delay := MAX_INT64, MAX_INT, DAY;
    for i := 0 to |strategies|
      invariant Limits(size, count, delay) == LeastLimits(strategies[..i])
    {
      var l := Advertised(strategies[i]);
      if l.size < size { size := l.size; }
      if l.count < count { count := l.count; }
      if l.delay < delay { delay := l.delay; }
      assert strategies[..i + 1][..i] == strategies[..i];
    }
    assert strategies[..|strategies|] == strategies;
    s := Hybrid(Limits(size, count, delay), strategies, requireAll);
  }

  /** The configuration; adaptive strategies are not part of this model. */
  datatype StrategyConfig =
    | TimeIntervalConfig(maxDelayMS: int, minDelayMS: int)
    | BatchSizeConfig(maxSize: int, minSize: int)
    | BatchCountConfig(maxCount: int, minCount: int)
    | HybridConfig(strategies: seq<StrategyConfig>, requireAll: bool)
    | UnknownConfig(name: string)

  datatype CreateError = UnknownType(name: string) | NoStrategies

  function Positive(n: int, default: int): int { if n <= 0 then default else n }

  /** Milliseconds to nanoseconds, wrapping like a 64-bit multiplication. */
  function Millis(ms: int): int {
    Wrap64(ms * MILLISECOND)
  }

  /** The constructors raise a maximum below its minimum to the minimum. */
  function AtLeast(most: int, least: int): int { if most < least then least else most }

  function CreateStrategy(c: StrategyConfig): Result<Strategy, CreateError> {
    match c
    case TimeIntervalConfig(maxMS, minMS) =>
      var least := Millis(Positive(minMS, DEFAULT_MIN_DELAY_MS));
      Ok(TimeInterval(AtLeast(Millis(Positive(maxMS, DEFAULT_MAX_DELAY_MS)), least), least))
    case BatchSizeConfig(maxSize, minSize) =>
      var least := Positive(minSize, DEFAULT_MIN_SIZE);
      Ok(BatchSize(AtLeast(Positive(maxSize, DEFAULT_MAX_SIZE), least), least))
    case BatchCountConfig(maxCount, minCount) =>
      var least := Positive(minCount, DEFAULT_MIN_COUNT);
      Ok(BatchCount(AtLeast(Positive(maxCount, DEFAULT_MAX_COUNT), least), least))
    case UnknownConfig(name) => Err(UnknownType(name))
    case HybridConfig(configs, requireAll) =>
      if configs == [] then Err(NoStrategies)
      else
        match CreateAll(configs)
        case Err(e) => Err(e)
        case Ok(strategies) => Ok(Hybrid(LeastLimits(strategies), strategies, requireAll))
  }

  /** In order; the first failure wins. */
  function CreateAll(configs: seq<StrategyConfig>): (r: Result<seq<Strategy>, CreateError>)
    ensures r.Ok? ==> |r.value| == |configs|
  {
    if configs == [] then Ok([])
    else
      match CreateStrategy(configs[0])
      case Err(e) => Err(e)
      case Ok(s) =>
        match CreateAll(configs[1..])
        case Err(e) => Err(e)
        case Ok(rest) => Ok([s] + rest)
  }

  // -------------------------------------------------- what is constructed

  /** Every type in the tree is known, and every hybrid has parts. */
  predicate Buildable(c: StrategyConfig) {
    match c
    case UnknownConfig(_) => false
    case HybridConfig(configs, _) => configs != [] && forall i :: 0 <= i < |configs| ==> Buildable(configs[i])
    case _ => true
  }

  /** The factory succeeds exactly on such configurations. */
  lemma {:induction false} CreatedIff(c: StrategyConfig)
    ensures CreateStrategy(c).Ok? <==> Buildable(c)
    decreases c, 0
  {
    if c.HybridConfig? { AllCreatedIff(c.strategies); }
  }

  /** Parts are created one for one and in order, and the first that cannot be is the one reported. */
  lemma {:induction false} AllCreatedIff(configs: seq<StrategyConfig>)
    ensures CreateAll(configs).Ok? <==> forall i :: 0 <= i < |configs| ==> Buildable(configs[i])
    ensures CreateAll(configs).Ok? ==>
              forall i :: 0 <= i < |configs| ==> CreateStrategy(configs[i]) == Ok(CreateAll(configs).value[i])
    ensures CreateAll(configs).Err? ==>
              exists i :: 0 <= i < |configs| && CreateStrategy(configs[i]) == Err(CreateAll(configs).error)
                          && forall j :: 0 <= j < i ==> Buildable(configs[j])
    decreases configs
  {
    if configs != [] {
      var rest := configs[1..];
      CreatedIff(configs[0]);
      AllCreatedIff(rest);
      assert forall i :: 0 <= i < |rest| ==> rest[i] == configs[i + 1];
      if CreateStrategy(configs[0]).Ok? && CreateAll(rest).Err? {
        var i :| 0 <= i < |rest| && CreateStrategy(rest[i]) == Err(CreateAll(rest).error) && forall j :: 0 <= j < i ==> Buildable(rest[j]);
        assert CreateStrategy(configs[i + 1]) == Err(CreateAll(configs).error);
        assert forall j :: 0 <= j < i + 1 ==> Buildable(configs[j]) by {
          assert forall j :: 0 < j < i + 1 ==> configs[j] == rest[j - 1];
        }
      }
    }
  }

  /** A created hybrid has the configured parts, in order, and the configured way of combining them. */
  lemma HybridAsConfigured(configs: seq<StrategyConfig>, requireAll: bool)
    requires CreateStrategy(HybridConfig(configs, requireAll)).Ok?
    ensures var s := CreateStrategy(HybridConfig(configs, requireAll)).value;
            && s.Hybrid? && s.requireAll == requireAll && |s.strategies| == |configs|
            && forall i :: 0 <= i < |configs| ==> CreateStrategy(configs[i]) == Ok(s.strategies[i])
  {
    AllCreatedIff(configs);
  }

  /** A time leaf advertises exactly the configured maximum in milliseconds, no size and no count. */
  lemma TimeAsConfigured(most: int, least: int)
    requires 0 < least <= most && most * 1_000_000 <= MAX_INT64
    ensures var s := CreateStrategy(TimeIntervalConfig(most, least)).value;
            && Advertised(s) == Limits(MAX_INT64, MAX_INT, most * 1_000_000)
            && s.TimeInterval? && s.minDelay == least * 1_000_000
  {
  }

  lemma SizeAsConfigured(most: int, least: int)
    requires 0 < least <= most
    ensures var s := CreateStrategy(BatchSizeConfig(most, least)).value;
            && Advertised(s) == Limits(most, MAX_INT, DAY) && s.BatchSize? && s.minSize == least
  {
  }

  lemma CountAsConfigured(most: int, least: int)
    requires 0 < least <= most
    ensures var s := CreateStrategy(BatchCountConfig(most, least)).value;
            && Advertised(s) == Limits(MAX_INT64, most, DAY) && s.BatchCount? && s.minCount == least
  {
  }

  /** A maximum below the minimum is raised to it, and numbers that are not positive stand for the defaults:
      ten seconds and one, ten mebibytes and one, a thousand messages and a hundred. */
  lemma OddNumbers(most: int, least: int)
    ensures 0 < most < least ==>
              && CreateStrategy(BatchSizeConfig(most, least)) == CreateStrategy(BatchSizeConfig(least, least))
              && CreateStrategy(BatchCountConfig(most, least)) == CreateStrategy(BatchCountConfig(least, least))
              && (least * 1_000_000 <= MAX_INT64 ==>
                    CreateStrategy(TimeIntervalConfig(most, least)) == CreateStrategy(TimeIntervalConfig(least, least)))
    ensures most <= 0 ==>
              && CreateStrategy(TimeIntervalConfig(most, least)) == CreateStrategy(TimeIntervalConfig(10_000, least))
              && CreateStrategy(BatchSizeConfig(most, least)) == CreateStrategy(BatchSizeConfig(10_485_760, least))
              && CreateStrategy(BatchCountConfig(most, least)) == CreateStrategy(BatchCountConfig(1000, least))
    ensures least <= 0 ==>
              && CreateStrategy(TimeIntervalConfig(most, least)) == CreateStrategy(TimeIntervalConfig(most, 1000))
              && CreateStrategy(BatchSizeConfig(most, least)) == CreateStrategy(BatchSizeConfig(most, 1_048_576))
              && CreateStrategy(BatchCountConfig(most, least)) == CreateStrategy(BatchCountConfig(most, 100))
  {
  }

  /** When a leaf fires on a non-empty batch: at its maximum, or at its minimum once no message has come for a
      second, which for a time leaf is half its minimum, rounded down. */
  lemma LeafFires(s: Strategy, info: BatchInfo)
    requires info.count > 0 && !s.Hybrid?
    ensures s.BatchSize? ==>
              (ShouldCreateBatch(s, info) <==> info.size >= s.maxSize || (info.size >= s.minSize && info.quiet >= 1_000_000_000))
    ensures s.BatchCount? ==>
              (ShouldCreateBatch(s, info) <==> info.count >= s.maxCount || (info.count >= s.minCount && info.quiet >= 1_000_000_000))
    ensures s.TimeInterval? && s.minDelay >= 0 ==>
              (ShouldCreateBatch(s, info) <==> info.elapsed >= s.maxDelay || (info.elapsed >= s.minDelay && 2 * info.quiet + 1 >= s.minDelay))
  {
  }

  // ------------------------------------------------------- what is enforced

  /** Every hybrid advertises the least limits of its parts, and no leaf has a maximum below its
      minimum: what CreateStrategy builds. */
  predicate WellBuilt(s: Strategy) {
    match s
    case Hybrid(limits, strategies, _) =>
      strategies != [] && limits == LeastLimits(strategies) && forall i :: 0 <= i < |strategies| ==> WellBuilt(strategies[i])
    case TimeInterval(most, least) => least <= most
    case BatchSize(most, least) => least <= most
    case BatchCount(most, least) => least <= most
  }

  lemma {:induction false} CreatedIsWellBuilt(c: StrategyConfig)
    ensures CreateStrategy(c).Ok? ==> WellBuilt(CreateStrategy(c).value)
    decreases c, 0
  {
    if c.HybridConfig? { AllCreatedWellBuilt(c.strategies); }
  }

  lemma {:induction false} AllCreatedWellBuilt(configs: seq<StrategyConfig>)
    ensures CreateAll(configs).Ok? ==>
              forall i :: 0 <= i < |configs| ==> WellBuilt(CreateAll(configs).value[i])
    decreases configs
  {
    if configs != [] {
      CreatedIsWellBuilt(configs[0]);
      AllCreatedWellBuilt(configs[1..]);
    }
  }

  /** Any hybrid in the tree triggers on one of its parts, or has only one. */
  predicate Disjunctive(s: Strategy) {
    match s
    case Hybrid(_, strategies, requireAll) =>
      (!requireAll || |strategies| == 1) && forall i :: 0 <= i < |strategies| ==> Disjunctive(strategies[i])
    case _ => true
  }

  function Leaves(s: Strategy): seq<Strategy> {
    match s
    case Hybrid(_, strategies, _) => AllLeaves(strategies)
    case _ => [s]
  }

  function AllLeaves(strategies: seq<Strategy>): seq<Strategy> {
    if strategies == [] then [] else Leaves(strategies[0]) + AllLeaves(strategies[1..])
  }

  ghost predicate SomeFires(leaves: seq<Strategy>, info: BatchInfo) {
    exists l :: l in leaves && ShouldCreateBatch(l, info)
  }

  /** A disjunctive tree is nothing but its leaves: it fires exactly when some leaf fires. */
  lemma {:induction false} TreeFiresIffLeafFires(s: Strategy, info: BatchInfo)
    requires Disjunctive(s)
    ensures ShouldCreateBatch(s, info) <==> SomeFires(Leaves(s), info)
    decreases s, 0
  {
    match s
    case Hybrid(_, strategies, requireAll) =>
      AllFireIffLeafFires(strategies, info);
      if SomeFires(AllLeaves(strategies), info) {
        var l :| l in AllLeaves(strategies) && ShouldCreateBatch(l, info);
        FiringNeedsMessages(l, info);
      }
    case _ =>
      assert s in Leaves(s);
  }

  lemma FiringNeedsMessages(s: Strategy, info: BatchInfo)
    ensures ShouldCreateBatch(s, info) ==> info.count != 0
  {
  }

  lemma {:induction false} AllFireIffLeafFires(strategies: seq<Strategy>, info: BatchInfo)
    requires forall i :: 0 <= i < |strategies| ==> Disjunctive(strategies[i])
    ensures (exists i :: 0 <= i < |strategies| && ShouldCreateBatch(strategies[i], info)) <==>
            SomeFires(AllLeaves(strategies), info)
    decreases strategies
  {
    if strategies != [] {
      var rest := strategies[1..];
      TreeFiresIffLeafFires(strategies[0], info);
      AllFireIffLeafFires(rest, info);
      assert forall l :: l in AllLeaves(strategies) <==> l in Leaves(strategies[0]) || l in AllLeaves(rest);
      if i :| 0 <= i < |strategies| && ShouldCreateBatch(strategies[i], info) && i > 0 {
        assert rest[i - 1] == strategies[i];
      }
      if i :| 0 <= i < |rest| && ShouldCreateBatch(rest[i], info) {
        assert strategies[i + 1] == rest[i];
      }
    }
  }

  /** The limits a list of leaves stands for. */
  ghost predicate LeastOf(l: Limits, leaves: seq<Strategy>) {
    && (forall x :: x in leaves ==> l.size <= Advertised(x).size && l.count <= Advertised(x).count)
    && (forall x :: x in leaves ==> l.delay <= Advertised(x).delay)
    && (l.size < MAX_INT64 ==> exists x :: x in leaves && Advertised(x).size == l.size)
    && (l.count < MAX_INT ==> exists x :: x in leaves && Advertised(x).count == l.count)
    && (l.delay < DAY ==> exists x :: x in leaves && Advertised(x).delay == l.delay)
  }

  /** A well-built tree advertises the least limits of its leaves, however deep they are. */
  lemma {:induction false} TreeAdvertisesLeast(s: Strategy)
    requires WellBuilt(s)
    ensures LeastOf(Advertised(s), Leaves(s))
    decreases s, 0
  {
    if s.Hybrid? {
      ListAdvertisesLeast(s.strategies);
    } else {
      assert Leaves(s) == [s] && s in Leaves(s);
    }
  }

  lemma {:induction false} AllLeavesSnoc(a: seq<Strategy>, x: Strategy)
    ensures AllLeaves(a + [x]) == AllLeaves(a) + Leaves(x)
  {
    if a == [] {
      assert a + [x] == [x];
      assert AllLeaves([x]) == Leaves(x) + AllLeaves([x][1..]);
    } else {
      assert (a + [x])[1..] == a[1..] + [x];
      AllLeavesSnoc(a[1..], x);
    }
  }

  lemma {:induction false} ListAdvertisesLeast(strategies: seq<Strategy>)
    requires forall i :: 0 <= i < |strategies| ==> WellBuilt(strategies[i])
    ensures LeastOf(LeastLimits(strategies), AllLeaves(strategies))
    decreases strategies, |strategies|
  {
    if strategies != [] {
      var n := |strategies| - 1;
      var front, last := strategies[..n], strategies[n];
      ListAdvertisesLeast(front);
      TreeAdvertisesLeast(last);
      assert front + [last] == strategies;
      AllLeavesSnoc(front, last);
      LeastOfBoth(LeastLimits(front), AllLeaves(front), Advertised(last), Leaves(last));
    }
  }

  lemma LeastOfBoth(a: Limits, xs: seq<Strategy>, b: Limits, ys: seq<Strategy>)
    requires LeastOf(a, xs) && LeastOf(b, ys)
    ensures LeastOf(Limits(Min(b.size, a.size), Min(b.count, a.count), Min(b.delay, a.delay)), xs + ys)
  {
    assert forall x :: x in xs + ys <==> x in xs || x in ys;
  }

  /** The batch is at or over one of the limits, each counting only below its "no limit" value. */
  predicate Reaches(l: Limits, info: BatchInfo) {
    || (l.size < MAX_INT64 && info.size >= l.size)
    || (l.count < MAX_INT && info.count >= l.count)
    || (l.delay < DAY && info.elapsed >= l.delay)
  }

  lemma LeafLimits(x: Strategy, info: BatchInfo)
    requires !x.Hybrid? && info.count != 0
    ensures Advertised(x).size < MAX_INT64 && info.size >= Advertised(x).size ==> ShouldCreateBatch(x, info)
    ensures Advertised(x).count < MAX_INT && info.count >= Advertised(x).count ==> ShouldCreateBatch(x, info)
    ensures Advertised(x).delay < DAY && info.elapsed >= Advertised(x).delay ==> ShouldCreateBatch(x, info)
  {
  }

  lemma {:induction false} LeavesAreLeaves(s: Strategy)
    ensures forall x :: x in Leaves(s) ==> !x.Hybrid?
    decreases s, 0
  {
    if s.Hybrid? { AllLeavesAreLeaves(s.strategies); }
  }

  lemma {:induction false} AllLeavesAreLeaves(strategies: seq<Strategy>)
    ensures forall x :: x in AllLeaves(strategies) ==> !x.Hybrid?
    decreases strategies
  {
    if strategies != [] {
      LeavesAreLeaves(strategies[0]);
      AllLeavesAreLeaves(strategies[1..]);
    }
  }

  lemma LeastFires(l: Limits, leaves: seq<Strategy>, info: BatchInfo)
    requires LeastOf(l, leaves) && (forall x :: x in leaves ==> !x.Hybrid?)
    requires info.count != 0 && Reaches(l, info)
    ensures SomeFires(leaves, info)
  {
    var x :| x in leaves &&
      ((l.size < MAX_INT64 && info.size >= l.size && Advertised(x).size == l.size)
       || (l.count < MAX_INT && info.count >= l.count && Advertised(x).count == l.count)
       || (l.delay < DAY && info.elapsed >= l.delay && Advertised(x).delay == l.delay));
    LeafLimits(x, info);
  }

  /** The advertised limits are enforced: every tree the factory builds from leaves and OR hybrids
      creates a batch as soon as a non-empty one reaches a limit the tree advertises. */
  lemma {:induction false} AdvertisedLimitsEnforced(c: StrategyConfig, info: BatchInfo)
    requires CreateStrategy(c).Ok? && Disjunctive(CreateStrategy(c).value)
    requires info.count != 0 && Reaches(Advertised(CreateStrategy(c).value), info)
    ensures ShouldCreateBatch(CreateStrategy(c).value, info)
  {
    var s := CreateStrategy(c).value;
    CreatedIsWellBuilt(c);
    TreeAdvertisesLeast(s);
    LeavesAreLeaves(s);
    LeastFires(Advertised(s), Leaves(s), info);
    TreeFiresIffLeafFires(s, info);
  }

  /** Without a time leaf the elapsed time makes no difference. */
  lemma {:induction false} DelayNeedsTimeLeaf(s: Strategy, info: BatchInfo)
    requires Disjunctive(s) && (forall x :: x in Leaves(s) ==> !x.TimeInterval?)
    ensures ShouldCreateBatch(s, info) <==> ShouldCreateBatch(s, info.(elapsed := 0))
  {
    LeavesAreLeaves(s);
    TreeFiresIffLeafFires(s, info);
    TreeFiresIffLeafFires(s, info.(elapsed := 0));
    forall x | x in Leaves(s) ensures ShouldCreateBatch(x, info) <==> ShouldCreateBatch(x, info.(elapsed := 0)) {}
  }

  // -------------------------------------------------- minimum, maximum, quiet

  /** The batch has everything `a` has: more bytes, more messages, more time, longer silence. */
  predicate Grows(a: BatchInfo, b: BatchInfo) {
    0 < a.count <= b.count && a.size <= b.size && a.elapsed <= b.elapsed && a.quiet <= b.quiet
  }

  /** Any tree, AND hybrids included, that would create a batch now still would when the batch has
      grown and stayed quiet. */
  lemma {:induction false} FiringIsMonotone(s: Strategy, a: BatchInfo, b: BatchInfo)
    requires Grows(a, b) && ShouldCreateBatch(s, a)
    ensures ShouldCreateBatch(s, b)
  {
    match s
    case Hybrid(_, strategies, requireAll) =>
      forall i | 0 <= i < |strategies| && ShouldCreateBatch(strategies[i], a) ensures ShouldCreateBatch(strategies[i], b) {
        FiringIsMonotone(strategies[i], a, b);
      }
    case _ =>
  }

  predicate AtMinimum(leaf: Strategy, info: BatchInfo) {
    match leaf
    case TimeInterval(_, least) => info.elapsed >= least
    case BatchSize(_, least) => info.size >= least
    case BatchCount(_, least) => info.count >= least
    case Hybrid(_, _, _) => false
  }

  predicate AtMaximum(leaf: Strategy, info: BatchInfo) {
    match leaf
    case TimeInterval(most, _) => info.elapsed >= most
    case BatchSize(most, _) => info.size >= most
    case BatchCount(most, _) => info.count >= most
    case Hybrid(_, _, _) => false
  }

  /** No message for half the minimum delay, or for a second. */
  predicate IsQuiet(leaf: Strategy, info: BatchInfo) {
    info.quiet >= if leaf.TimeInterval? then Half(leaf.minDelay) else SECOND
  }

  lemma {:induction false} LeavesWellBuilt(s: Strategy)
    requires WellBuilt(s)
    ensures forall x :: x in Leaves(s) ==> WellBuilt(x)
    decreases s, 0
  {
    if s.Hybrid? { AllLeavesWellBuilt(s.strategies); }
  }

  lemma {:induction false} AllLeavesWellBuilt(strategies: seq<Strategy>)
    requires forall i :: 0 <= i < |strategies| ==> WellBuilt(strategies[i])
    ensures forall x :: x in AllLeaves(strategies) ==> WellBuilt(x)
    decreases strategies
  {
    if strategies != [] {
      LeavesWellBuilt(strategies[0]);
      AllLeavesWellBuilt(strategies[1..]);
    }
  }

  /** What a factory-built tree of leaves and OR hybrids waits for: once it is quiet for all leaves, a
      batch is created exactly when some leaf's minimum is reached; while messages keep coming, exactly
      when some leaf's maximum is; and never below every minimum. */
  lemma {:induction false} QuietDecides(c: StrategyConfig, info: BatchInfo)
    requires CreateStrategy(c).Ok? && Disjunctive(CreateStrategy(c).value) && info.count > 0
    ensures var s := CreateStrategy(c).value;
            && ((forall x :: x in Leaves(s) ==> IsQuiet(x, info)) ==>
                  (ShouldCreateBatch(s, info) <==> exists x :: x in Leaves(s) && AtMinimum(x, info)))
            && ((forall x :: x in Leaves(s) ==> !IsQuiet(x, info)) ==>
                  (ShouldCreateBatch(s, info) <==> exists x :: x in Leaves(s) && AtMaximum(x, info)))
            && (ShouldCreateBatch(s, info) ==> exists x :: x in Leaves(s) && AtMinimum(x, info))
  {
    var s := CreateStrategy(c).value;
    CreatedIsWellBuilt(c);
    LeavesWellBuilt(s);
    LeavesAreLeaves(s);
    TreeFiresIffLeafFires(s, info);
    forall x | x in Leaves(s)
      ensures ShouldCreateBatch(x, info) <==> AtMaximum(x, info) || (AtMinimum(x, info) && IsQuiet(x, info))
      ensures AtMaximum(x, info) ==> AtMinimum(x, info)
    {
    }
  }

  // ---------------------------------------------- which limits a tree enforces

  datatype Dimension = Size | Count | Delay

  /** What a real batch looks like: some messages, no negative size or time. */
  predicate Sensible(info: BatchInfo) {
    info.count > 0 && info.size >= 0 && info.elapsed >= 0 && info.quiet >= 0
  }

  predicate AtLimit(d: Dimension, limit: int, info: BatchInfo) {
    match d
    case Size => info.size >= limit
    case Count => info.count >= limit
    case Delay => info.elapsed >= limit
  }

  /** Every batch at or over the limit is created, whatever else it looks like. */
  ghost predicate Enforces(s: Strategy, d: Dimension, limit: int) {
    forall info :: Sensible(info) && AtLimit(d, limit, info) ==> ShouldCreateBatch(s, info)
  }

  /** The least batch at the limit: as small, as young and as busy as can be. */
  function Corner(d: Dimension, limit: int): BatchInfo {
    match d
    case Size => BatchInfo(Max(limit, 0), 1, 0, 0)
    case Count => BatchInfo(0, Max(limit, 1), 0, 0)
    case Delay => BatchInfo(0, 1, Max(limit, 0), 0)
  }

  /** One look at the corner decides whether any tree enforces a limit. */
  lemma {:induction false} CornerDecides(s: Strategy, d: Dimension, limit: int)
    ensures Enforces(s, d, limit) <==> ShouldCreateBatch(s, Corner(d, limit))
  {
    assert Sensible(Corner(d, limit)) && AtLimit(d, limit, Corner(d, limit));
    if ShouldCreateBatch(s, Corner(d, limit)) {
      forall info | Sensible(info) && AtLimit(d, limit, info) ensures ShouldCreateBatch(s, info) {
        FiringIsMonotone(s, Corner(d, limit), info);
      }
    }
  }

  /** An AND hybrid enforces a limit exactly when all its parts do, an OR hybrid when some part does. */
  lemma {:induction false} HybridEnforcesIff(s: Strategy, d: Dimension, limit: int)
    requires s.Hybrid?
    ensures Enforces(s, d, limit) <==>
              if s.requireAll then forall i :: 0 <= i < |s.strategies| ==> Enforces(s.strategies[i], d, limit)
              else exists i :: 0 <= i < |s.strategies| && Enforces(s.strategies[i], d, limit)
  {
    CornerDecides(s, d, limit);
    forall i | 0 <= i < |s.strategies|
      ensures Enforces(s.strategies[i], d, limit) <==> ShouldCreateBatch(s.strategies[i], Corner(d, limit))
    {
      CornerDecides(s.strategies[i], d, limit);
    }
  }

  /** Read off the configured numbers: a part guards a limit when its own maximum is no higher, or when it
      fires on everything. */
  predicate Guards(s: Strategy, d: Dimension, limit: int) {
    match s
    case TimeInterval(most, least) =>
      var reached := if d.Delay? then Max(limit, 0) else 0;
      most <= reached || (least <= reached && least <= 1)
    case BatchSize(most, _) => most <= if d.Size? then Max(limit, 0) else 0
    case BatchCount(most, _) => most <= if d.Count? then Max(limit, 1) else 1
    case Hybrid(_, strategies, requireAll) =>
      if requireAll then forall i :: 0 <= i < |strategies| ==> Guards(strategies[i], d, limit)
      else exists i :: 0 <= i < |strategies| && Guards(strategies[i], d, limit)
  }

  lemma {:induction false} GuardsAtCorner(s: Strategy, d: Dimension, limit: int)
    ensures ShouldCreateBatch(s, Corner(d, limit)) <==> Guards(s, d, limit)
  {
    if s.Hybrid? {
      forall i | 0 <= i < |s.strategies|
        ensures ShouldCreateBatch(s.strategies[i], Corner(d, limit)) <==> Guards(s.strategies[i], d, limit)
      {
        GuardsAtCorner(s.strategies[i], d, limit);
      }
    }
  }

  /** Exactly which trees enforce which limits, AND hybrids and the one-day cut-off included. */
  lemma {:induction false} EnforcesIff(s: Strategy, d: Dimension, limit: int)
    ensures Enforces(s, d, limit) <==> Guards(s, d, limit)
  {
    CornerDecides(s, d, limit);
    GuardsAtCorner(s, d, limit);
  }

  function LimitOf(l: Limits, d: Dimension): int {
    match d
    case Size => l.size
    case Count => l.count
    case Delay => l.delay
  }

  /** Below the value that stands for "no limit". */
  predicate IsLimit(d: Dimension, limit: int) {
    limit < match d
      case Size => MAX_INT64
      case Count => MAX_INT
      case Delay => DAY
  }

  /** A tree keeps every limit it advertises exactly when it guards each of them. */
  lemma {:induction false} AdvertisedEnforcedIff(s: Strategy)
    ensures var l := Advertised(s);
            (forall d :: IsLimit(d, LimitOf(l, d)) ==> Enforces(s, d, LimitOf(l, d))) <==>
            (forall d :: IsLimit(d, LimitOf(l, d)) ==> Guards(s, d, LimitOf(l, d)))
  {
    forall d ensures Enforces(s, d, LimitOf(Advertised(s), d)) <==> Guards(s, d, LimitOf(Advertised(s), d)) {
      EnforcesIff(s, d, LimitOf(Advertised(s), d));
    }
  }

  /** The advertised delay of a factory-built tree of leaves and OR hybrids is enforced if it is below the
      one-day cut-off, and at any value exactly when some leaf guards it: a time leaf within it, or a count
      leaf that fires on a single message. */
  lemma {:induction false} DelayEnforcedIff(c: StrategyConfig)
    requires CreateStrategy(c).Ok? && Disjunctive(CreateStrategy(c).value)
    ensures var s := CreateStrategy(c).value;
            var delay := Advertised(s).delay;
            && (delay < DAY ==> Enforces(s, Delay, delay))
            && (Enforces(s, Delay, delay) <==> exists x :: x in Leaves(s) && Guards(x, Delay, delay))
  {
    var s := CreateStrategy(c).value;
    var delay := Advertised(s).delay;
    EnforcesIff(s, Delay, delay);
    CornerDecides(s, Delay, delay);
    TreeFiresIffLeafFires(s, Corner(Delay, delay));
    forall x | x in Leaves(s) ensures ShouldCreateBatch(x, Corner(Delay, delay)) <==> Guards(x, Delay, delay) {
      GuardsAtCorner(x, Delay, delay);
    }
    if delay < DAY { AdvertisedLimitsEnforced(c, Corner(Delay, delay)); }
  }

  /** Requiring both a size and a count gives up both limits: whatever the numbers, the factory-built
      conjunction enforces no size at all, nor any count, as soon as more than one message is asked for. */
  lemma {:induction false} ConjunctionDoesNotEnforce(size: StrategyConfig, count: StrategyConfig, limit: int)
    requires size.BatchSizeConfig? && count.BatchCountConfig?
    ensures var r := CreateStrategy(HybridConfig([size, count], true));
            && r.Ok? && |r.value.strategies| == 2 && r.value.strategies[0].BatchSize? && r.value.strategies[1].BatchCount?
            && !Enforces(r.value, Count, limit)
            && (Enforces(r.value, Size, limit) <==> limit >= r.value.strategies[0].maxSize && r.value.strategies[1].maxCount == 1)
  {
    var configs := [size, count];
    var parts := [CreateStrategy(size).value, CreateStrategy(count).value];
    assert configs[1..] == [count] && configs[1..][1..] == [];
    assert CreateAll([count]) == Ok([parts[1]] + []);
    assert [parts[1]] + [] == [parts[1]] && [parts[0]] + [parts[1]] == parts;
    assert CreateAll(configs) == Ok(parts);
    var s := CreateStrategy(HybridConfig(configs, true)).value;
    assert s.strategies == parts;
    EnforcesIff(s, Size, limit);
    EnforcesIff(s, Count, limit);
    assert parts[0].maxSize > 0 && !Guards(parts[0], Count, limit);
    assert Guards(s, Size, limit) <==> Guards(parts[0], Size, limit) && Guards(parts[1], Size, limit);
  }
}
