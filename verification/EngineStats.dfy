/** The execution engine's atomic counters under any interleaving of query and write workers: one step
    for each atomic operation, the compare-and-swap loop included. */
module EngineStats {
  import opened Wrappers
  import opened Seqs

  datatype Kind = Query | Write

  /** Where a worker stands with a task that waited `wait` in its queue. */
  datatype Stage =
    | Taken            // queue time known, nothing added yet
    | Added            // total queue time added
    | Loading          // before the atomic load of the maximum
    | Loaded(was: int) // before the comparison and the swap
    | Past             // out of the loop
    | Entered          // concurrency counter incremented
    | Holding          // semaphore acquired
    | Executed(ok: bool, hit: bool)
    | Counted(ok: bool, hit: bool)
    | Scored(hit: bool) // success counted, cache use not yet
    | Releasing        // semaphore still held
    | Leaving          // concurrency counter still to be decremented

  datatype Pc = Idle(kind: Kind) | Busy(kind: Kind, wait: int, stage: Stage)

  datatype Side = Side(total: int, ok: int, failed: int, current: int, slots: int)

  datatype Counters = Counters(maxWait: int, waitTotal: int, waitCount: int, query: Side, write: Side, hits: int, misses: int)

  /** `seen` lists the queue times of all tasks taken so far; it is not part of the original. */
  datatype State = State(c: Counters, threads: seq<Pc>, seen: seq<int>)

  datatype Config = Config(queryLimit: nat, writeLimit: nat)

  /** What a step depends on besides the shared state. */
  datatype Choice = Take(wait: int) | Acquire | TimeOut | Finish(ok: bool, hit: bool)

  const ZERO_SIDE: Side := Side(0, 0, 0, 0, 0)
  const ZERO_COUNTERS: Counters := Counters(0, 0, 0, ZERO_SIDE, ZERO_SIDE, 0, 0)

  function Initial(kinds: seq<Kind>): State {
    State(ZERO_COUNTERS, seq(|kinds|, i requires 0 <= i < |kinds| => Idle(kinds[i])), [])
  }

  function SideOf(c: Counters, k: Kind): Side { if k == Query then c.query else c.write }

  function WithSide(c: Counters, k: Kind, s: Side): Counters {
    if k == Query then c.(query := s) else c.(write := s)
  }

  function Limit(cfg: Config, k: Kind): nat { if k == Query then cfg.queryLimit else cfg.writeLimit }

  /** One atomic operation of a busy worker: the new counters, and the new stage (none once it is idle again). */
  function TaskStep(cfg: Config, c: Counters, k: Kind, wait: int, stage: Stage, choice: Choice): (Counters, Option<Stage>) {
    var side := SideOf(c, k);
    match stage
    case Taken => (c.(waitTotal := c.waitTotal + wait), Some(Added))
    case Added => (c.(waitCount := c.waitCount + 1), Some(Loading))
    case Loading => (c, Some(Loaded(c.maxWait)))
    case Loaded(was) =>
      if wait <= was then (c, Some(Past))
      else if c.maxWait == was then (c.(maxWait := wait), Some(Past))
      else (c, Some(Loading))
    case Past => (WithSide(c, k, side.(current := side.current + 1)), Some(Entered))
    case Entered =>
      // the semaphore is acquired if a slot is free, or the wait for it times out
      if choice.Acquire? && side.slots < Limit(cfg, k) then (WithSide(c, k, side.(slots := side.slots + 1)), Some(Holding))
      else if choice.TimeOut? then (c, Some(Leaving))
      else (c, Some(stage))
    case Holding => (c, Some(if choice.Finish? then Executed(choice.ok, choice.hit) else stage))
    case Executed(ok, hit) => (WithSide(c, k, side.(total := side.total + 1)), Some(Counted(ok, hit)))
    case Counted(ok, hit) =>
      if ok then (WithSide(c, k, side.(ok := side.ok + 1)), Some(if k == Query then Scored(hit) else Releasing))
      else (WithSide(c, k, side.(failed := side.failed + 1)), Some(Releasing))
    case Scored(hit) => (if hit then c.(hits := c.hits + 1) else c.(misses := c.misses + 1), Some(Releasing))
    case Releasing => (WithSide(c, k, side.(slots := side.slots - 1)), Some(Leaving))
    case Leaving => (WithSide(c, k, side.(current := side.current - 1)), None)
  }

  /** Thread `i` takes a step. An idle worker receives a task with some queue time. */
  function Step(cfg: Config, s: State, i: nat, choice: Choice): State {
    if i >= |s.threads| then s
    else
      match s.threads[i]
      case Idle(k) =>
        if choice.Take? then s.(threads := s.threads[i := Busy(k, choice.wait, Taken)], seen := s.seen + [choice.wait]) else s
      case Busy(k, wait, stage) =>
        var (c, next) := TaskStep(cfg, s.c, k, wait, stage, choice);
        s.(c := c, threads := s.threads[i := if next.Some? then Busy(k, wait, next.value) else Idle(k)])
  }

  function Run(cfg: Config, kinds: seq<Kind>, steps: seq<(nat, Choice)>): State {
    if steps == [] then Initial(kinds)
    else
      var last := steps[|steps| - 1];
      Step(cfg, Run(cfg, kinds, steps[..|steps| - 1]), last.0, last.1)
  }

  // ------------------------------------------------------- the swapped maximum

  predicate InLoop(stage: Stage) { stage.Taken? || stage.Added? || stage.Loading? || stage.Loaded? }

  /** A worker accounts for its queue time: still in the loop, or below the maximum. */
  ghost predicate MaxInv(s: State) {
    && s.c.maxWait >= 0
    && (s.c.maxWait == 0 || s.c.maxWait in s.seen)
    && (forall i :: 0 <= i < |s.threads| ==> ThreadMax(s, s.threads[i]))
    && (forall x :: x in s.seen ==> x <= s.c.maxWait || StillOut(s.threads, x))
  }

  ghost predicate ThreadMax(s: State, pc: Pc) {
    pc.Busy? ==>
      && pc.wait in s.seen
      && (!InLoop(pc.stage) ==> pc.wait <= s.c.maxWait)
      && (pc.stage.Loaded? ==> pc.stage.was <= s.c.maxWait)
  }

  /** Some worker with this queue time has not left the loop. */
  ghost predicate StillOut(threads: seq<Pc>, x: int) {
    exists i :: 0 <= i < |threads| && threads[i].Busy? && threads[i].wait == x && InLoop(threads[i].stage)
  }

  /** What one step does to the maximum. */
  lemma TaskStepMax(cfg: Config, c: Counters, k: Kind, wait: int, stage: Stage, choice: Choice)
    requires stage.Loaded? ==> stage.was <= c.maxWait
    requires !InLoop(stage) ==> wait <= c.maxWait
    ensures var (c1, next) := TaskStep(cfg, c, k, wait, stage, choice);
            && c.maxWait <= c1.maxWait && (c1.maxWait == c.maxWait || c1.maxWait == wait)
            && (next.Some? && InLoop(next.value) ==> InLoop(stage) && c1.maxWait == c.maxWait)
            && (next.Some? && next.value.Loaded? ==> next.value.was <= c1.maxWait)
            && (next.None? || !InLoop(next.value) ==> wait <= c1.maxWait)
  {
  }

  /** The maximum never decreases, whoever takes the step. */
  lemma MaxNeverDecreases(cfg: Config, s: State, i: nat, choice: Choice)
    requires MaxInv(s)
    ensures s.c.maxWait <= Step(cfg, s, i, choice).c.maxWait
  {
    if i < |s.threads| && s.threads[i].Busy? {
      var pc := s.threads[i];
      assert ThreadMax(s, pc);
      TaskStepMax(cfg, s.c, pc.kind, pc.wait, pc.stage, choice);
    }
  }

  lemma OutAfter(threads: seq<Pc>, i: nat, pc: Pc, x: int)
    requires i < |threads| && StillOut(threads, x)
    requires (pc.Busy? && pc.wait == x && InLoop(pc.stage)) || !(threads[i].Busy? && threads[i].wait == x && InLoop(threads[i].stage))
    ensures StillOut(threads[i := pc], x)
  {
    var j :| 0 <= j < |threads| && threads[j].Busy? && threads[j].wait == x && InLoop(threads[j].stage);
    var t := threads[i := pc];
    if j == i { assert t[i] == pc; } else { assert t[j] == threads[j]; }
  }

  lemma BusyStepKeepsMax(cfg: Config, s: State, i: nat, choice: Choice)
    requires MaxInv(s) && i < |s.threads| && s.threads[i].Busy?
    ensures MaxInv(Step(cfg, s, i, choice))
  {
    var pc, s1 := s.threads[i], Step(cfg, s, i, choice);
    assert ThreadMax(s, pc);
    TaskStepMax(cfg, s.c, pc.kind, pc.wait, pc.stage, choice);
    forall j | 0 <= j < |s1.threads| ensures ThreadMax(s1, s1.threads[j]) {
      if j != i { assert ThreadMax(s, s.threads[j]); }
    }
    forall x | x in s1.seen ensures x <= s1.c.maxWait || StillOut(s1.threads, x) {
      if x > s1.c.maxWait { OutAfter(s.threads, i, s1.threads[i], x); }
    }
  }

  lemma TakeKeepsMax(cfg: Config, s: State, i: nat, choice: Choice)
    requires MaxInv(s) && i < |s.threads| && s.threads[i].Idle? && choice.Take?
    ensures MaxInv(Step(cfg, s, i, choice))
  {
    var s1 := Step(cfg, s, i, choice);
    forall j | 0 <= j < |s1.threads| ensures ThreadMax(s1, s1.threads[j]) {
      if j != i { assert ThreadMax(s, s.threads[j]); }
    }
    forall x | x in s1.seen ensures x <= s1.c.maxWait || StillOut(s1.threads, x) {
      if x in s.seen && x > s.c.maxWait {
        OutAfter(s.threads, i, s1.threads[i], x);
      } else if x !in s.seen {
        assert s1.threads[i].wait == x && InLoop(s1.threads[i].stage);
      }
    }
  }

  /** In every interleaving: the maximum is zero or the queue time of a task actually taken, it is at
      least the queue time of every worker past the loop, and any larger queue time still belongs to a
      worker inside the loop. */
  lemma {:induction false} RunKeepsMax(cfg: Config, kinds: seq<Kind>, steps: seq<(nat, Choice)>)
    ensures MaxInv(Run(cfg, kinds, steps))
  {
    if steps != [] {
      var before, last := steps[..|steps| - 1], steps[|steps| - 1];
      RunKeepsMax(cfg, kinds, before);
      var s := Run(cfg, kinds, before);
      if last.0 < |s.threads| {
        if s.threads[last.0].Busy? {
          BusyStepKeepsMax(cfg, s, last.0, last.1);
        } else if last.1.Take? {
          TakeKeepsMax(cfg, s, last.0, last.1);
        }
      }
    }
  }

  lemma {:induction false} MaxMonotoneOverRuns(cfg: Config, kinds: seq<Kind>, steps: seq<(nat, Choice)>, n: nat)
    requires n <= |steps|
    ensures Run(cfg, kinds, steps[..n]).c.maxWait <= Run(cfg, kinds, steps).c.maxWait
    decreases |steps|
  {
    if n < |steps| {
      var before, last := steps[..|steps| - 1], steps[|steps| - 1];
      MaxMonotoneOverRuns(cfg, kinds, before, n);
      assert before[..n] == steps[..n];
      RunKeepsMax(cfg, kinds, before);
      MaxNeverDecreases(cfg, Run(cfg, kinds, before), last.0, last.1);
    } else {
      assert steps[..n] == steps;
    }
  }

  predicate AllIdle(s: State) { forall i :: 0 <= i < |s.threads| ==> s.threads[i].Idle? }

  /** When no worker is busy the maximum is exact: no update was lost to a failed swap. */
  lemma MaxExactAtRest(cfg: Config, kinds: seq<Kind>, steps: seq<(nat, Choice)>)
    requires AllIdle(Run(cfg, kinds, steps))
    ensures var s := Run(cfg, kinds, steps);
            && (forall x :: x in s.seen ==> x <= s.c.maxWait)
            && (s.c.maxWait == 0 || s.c.maxWait in s.seen)
  {
    RunKeepsMax(cfg, kinds, steps);
  }

  // ------------------------------------------------------------ the counters

  /** What is being counted over the workers. */
  datatype Measure =
    | BetweenCounts(k: Kind)  // total incremented, outcome not yet
    | BeforeCache             // success counted, cache use not yet
    | InTask(k: Kind)         // inside executeQueryTask or executeWriteTask
    | HoldsSlot(k: Kind)
    | WaitNotAdded            // queue time not yet in the total
    | WaitNotCounted

  predicate Inside(stage: Stage) { !InLoop(stage) && !stage.Past? }

  predicate Slotted(stage: Stage) {
    stage.Holding? || stage.Executed? || stage.Counted? || stage.Scored? || stage.Releasing?
  }

  function Weight(m: Measure, pc: Pc): int {
    if pc.Idle? then 0
    else
      match m
      case BetweenCounts(k) => if pc.kind == k && pc.stage.Counted? then 1 else 0
      case BeforeCache => if pc.stage.Scored? then 1 else 0
      case InTask(k) => if pc.kind == k && Inside(pc.stage) then 1 else 0
      case HoldsSlot(k) => if pc.kind == k && Slotted(pc.stage) then 1 else 0
      case WaitNotAdded => if pc.stage.Taken? then pc.wait else 0
      case WaitNotCounted => if pc.stage.Taken? || pc.stage.Added? then 1 else 0
  }

  function Weights(m: Measure, threads: seq<Pc>): (r: seq<int>)
    ensures |r| == |threads| && forall i :: 0 <= i < |threads| ==> r[i] == Weight(m, threads[i])
  {
    if threads == [] then [] else [Weight(m, threads[0])] + Weights(m, threads[1..])
  }

  ghost function Total(m: Measure, threads: seq<Pc>): int { Sum(Weights(m, threads)) }

  lemma TotalUpdate(m: Measure, threads: seq<Pc>, i: nat, pc: Pc)
    requires i < |threads|
    ensures Total(m, threads[i := pc]) == Total(m, threads) - Weight(m, threads[i]) + Weight(m, pc)
  {
    assert Weights(m, threads[i := pc]) == Weights(m, threads)[i := Weight(m, pc)];
    SumUpdate(Weights(m, threads), i, Weight(m, pc));
  }

  /** The amount by which a counter is behind or ahead, for each measure. */
  function Gap(m: Measure, s: Counters): int {
    match m
    case BetweenCounts(k) => SideOf(s, k).total - SideOf(s, k).ok - SideOf(s, k).failed
    case BeforeCache => s.query.ok - s.hits - s.misses
    case InTask(k) => SideOf(s, k).current
    case HoldsSlot(k) => SideOf(s, k).slots
    case WaitNotAdded => -s.waitTotal
    case WaitNotCounted => -s.waitCount
  }

  /** The part of a measure that the list of tasks taken accounts for. */
  ghost function Due(m: Measure, seen: seq<int>): int {
    match m
    case WaitNotAdded => Sum(seen)
    case WaitNotCounted => |seen|
    case _ => 0
  }

  ghost predicate Balanced(s: State, m: Measure) {
    Total(m, s.threads) == Due(m, s.seen) + Gap(m, s.c)
  }

  /** The step moves the measure exactly as much as the counters. */
  ghost predicate StepBalanced(cfg: Config, c: Counters, k: Kind, wait: int, stage: Stage, choice: Choice, m: Measure) {
    var (c1, next) := TaskStep(cfg, c, k, wait, stage, choice);
    var pc1 := if next.Some? then Busy(k, wait, next.value) else Idle(k);
    Weight(m, pc1) - Weight(m, Busy(k, wait, stage)) == Gap(m, c1) - Gap(m, c)
  }

  lemma EarlyStepBalanced(cfg: Config, c: Counters, k: Kind, wait: int, stage: Stage, choice: Choice, m: Measure)
    requires InLoop(stage) || stage.Past? || stage.Entered? || stage.Holding?
    ensures StepBalanced(cfg, c, k, wait, stage, choice, m)
  {
  }

  lemma OutcomeStepBalanced(cfg: Config, c: Counters, k: Kind, wait: int, stage: Stage, choice: Choice, m: Measure)
    requires stage.Executed? || stage.Counted?
    ensures StepBalanced(cfg, c, k, wait, stage, choice, m)
  {
  }

  lemma LateStepBalanced(cfg: Config, c: Counters, k: Kind, wait: int, stage: Stage, choice: Choice, m: Measure)
    requires stage.Releasing? || stage.Leaving? || (stage.Scored? && k == Query)
    ensures StepBalanced(cfg, c, k, wait, stage, choice, m)
  {
  }

  lemma TaskStepSlots(cfg: Config, c: Counters, k: Kind, wait: int, stage: Stage, choice: Choice)
    ensures var (c1, next) := TaskStep(cfg, c, k, wait, stage, choice);
            && (next.Some? && next.value.Scored? ==> k == Query)
            && (SideOf(c1, k).slots <= SideOf(c, k).slots || SideOf(c1, k).slots <= Limit(cfg, k))
            && (forall k1 :: k1 != k ==> SideOf(c1, k1) == SideOf(c, k1))
  {
  }

  ghost predicate ScoredQueries(s: State) {
    forall i :: 0 <= i < |s.threads| ==> s.threads[i].Busy? && s.threads[i].stage.Scored? ==> s.threads[i].kind == Query
  }

  ghost predicate SlotsBounded(cfg: Config, s: State) {
    s.c.query.slots <= cfg.queryLimit && s.c.write.slots <= cfg.writeLimit
  }

  ghost predicate CountInv(cfg: Config, s: State) {
    (forall m :: Balanced(s, m)) && ScoredQueries(s) && SlotsBounded(cfg, s)
  }

  lemma StepKeepsBalance(cfg: Config, s: State, i: nat, choice: Choice, m: Measure)
    requires Balanced(s, m) && ScoredQueries(s)
    ensures Balanced(Step(cfg, s, i, choice), m)
  {
    if i < |s.threads| {
      var s1 := Step(cfg, s, i, choice);
      match s.threads[i]
      case Busy(k, wait, stage) =>
        if InLoop(stage) || stage.Past? || stage.Entered? || stage.Holding? {
          EarlyStepBalanced(cfg, s.c, k, wait, stage, choice, m);
        } else if stage.Executed? || stage.Counted? {
          OutcomeStepBalanced(cfg, s.c, k, wait, stage, choice, m);
        } else {
          LateStepBalanced(cfg, s.c, k, wait, stage, choice, m);
        }
        TotalUpdate(m, s.threads, i, s1.threads[i]);
      case Idle(k) =>
        if choice.Take? {
          TotalUpdate(m, s.threads, i, s1.threads[i]);
          SumSnoc(s.seen, choice.wait);
        }
    }
  }

  lemma StepKeepsSlots(cfg: Config, s: State, i: nat, choice: Choice)
    requires SlotsBounded(cfg, s) && ScoredQueries(s)
    ensures SlotsBounded(cfg, Step(cfg, s, i, choice)) && ScoredQueries(Step(cfg, s, i, choice))
  {
    if i < |s.threads| && s.threads[i].Busy? {
      var pc := s.threads[i];
      TaskStepSlots(cfg, s.c, pc.kind, pc.wait, pc.stage, choice);
    }
  }

  lemma InitialBalance(kinds: seq<Kind>, m: Measure)
    ensures Balanced(Initial(kinds), m)
  {
    SumZero(Weights(m, Initial(kinds).threads));
  }

  /** In every interleaving all counters are in balance with where the workers stand. */
  lemma {:induction false} RunKeepsCounts(cfg: Config, kinds: seq<Kind>, steps: seq<(nat, Choice)>)
    ensures CountInv(cfg, Run(cfg, kinds, steps))
  {
    if steps == [] {
      forall m ensures Balanced(Initial(kinds), m) { InitialBalance(kinds, m); }
    } else {
      var before, last := steps[..|steps| - 1], steps[|steps| - 1];
      RunKeepsCounts(cfg, kinds, before);
      var s := Run(cfg, kinds, before);
      StepKeepsSlots(cfg, s, last.0, last.1);
      forall m ensures Balanced(Step(cfg, s, last.0, last.1), m) { StepKeepsBalance(cfg, s, last.0, last.1, m); }
    }
  }

  /** How many workers a predicate on positions picks out. */
  ghost function Workers(s: State, m: Measure): int { Total(m, s.threads) }

  /** The promises about the statistics, in every reachable state: executions add up to successes,
      failures and the workers between the two increments; cache hits and misses lag behind the
      successful queries by the workers that have not yet recorded; the concurrency counters and the
      semaphores count the workers inside; queue times are complete up to the workers still adding. */
  lemma CountersAddUp(cfg: Config, kinds: seq<Kind>, steps: seq<(nat, Choice)>)
    ensures var s := Run(cfg, kinds, steps);
            && s.c.query.total == s.c.query.ok + s.c.query.failed + Workers(s, BetweenCounts(Query))
            && s.c.write.total == s.c.write.ok + s.c.write.failed + Workers(s, BetweenCounts(Write))
            && s.c.hits + s.c.misses == s.c.query.ok - Workers(s, BeforeCache)
            && s.c.query.current == Workers(s, InTask(Query)) && s.c.write.current == Workers(s, InTask(Write))
            && s.c.query.slots == Workers(s, HoldsSlot(Query)) <= cfg.queryLimit
            && s.c.write.slots == Workers(s, HoldsSlot(Write)) <= cfg.writeLimit
            && s.c.waitTotal == Sum(s.seen) - Workers(s, WaitNotAdded)
            && s.c.waitCount == |s.seen| - Workers(s, WaitNotCounted)
  {
    var s := Run(cfg, kinds, steps);
    RunKeepsCounts(cfg, kinds, steps);
    assert Balanced(s, BetweenCounts(Query)) && Balanced(s, BetweenCounts(Write)) && Balanced(s, BeforeCache);
    assert Balanced(s, InTask(Query)) && Balanced(s, InTask(Write));
    assert Balanced(s, HoldsSlot(Query)) && Balanced(s, HoldsSlot(Write));
    assert Balanced(s, WaitNotAdded) && Balanced(s, WaitNotCounted);
  }

  /** With no worker busy the statistics are exact. */
  lemma CountersExactAtRest(cfg: Config, kinds: seq<Kind>, steps: seq<(nat, Choice)>)
    requires AllIdle(Run(cfg, kinds, steps))
    ensures var s := Run(cfg, kinds, steps);
            && s.c.query.total == s.c.query.ok + s.c.query.failed && s.c.write.total == s.c.write.ok + s.c.write.failed
            && s.c.hits + s.c.misses == s.c.query.ok
            && s.c.query.current == s.c.write.current == s.c.query.slots == s.c.write.slots == 0
            && s.c.waitTotal == Sum(s.seen) && s.c.waitCount == |s.seen|
  {
    var s := Run(cfg, kinds, steps);
    CountersAddUp(cfg, kinds, steps);
    forall m ensures Total(m, s.threads) == 0 { SumZero(Weights(m, s.threads)); }
  }

  // --------------------------------------------------- how the tasks ended

  /** The ways in which an execution can end, as far as they are counted. */
  datatype Ending = Success(k: Kind) | Failure(k: Kind) | CacheHit | CacheMiss

  /** A task of kind `k` ends with the given success and cache flags. */
  predicate EndsAs(e: Ending, k: Kind, ok: bool, hit: bool) {
    match e
    case Success(k1) => k == k1 && ok
    case Failure(k1) => k == k1 && !ok
    case CacheHit => k == Query && ok && hit
    case CacheMiss => k == Query && ok && !hit
  }

  /** This step is the end of an execution of that sort. */
  predicate IsEnd(e: Ending, pc: Pc, choice: Choice) {
    pc.Busy? && pc.stage.Holding? && choice.Finish? && EndsAs(e, pc.kind, choice.ok, choice.hit)
  }

  /** How many executions ended so in a run. */
  function Endings(cfg: Config, kinds: seq<Kind>, steps: seq<(nat, Choice)>, e: Ending): nat {
    if steps == [] then 0
    else
      var before, last := steps[..|steps| - 1], steps[|steps| - 1];
      var s := Run(cfg, kinds, before);
      Endings(cfg, kinds, before, e) +
      (if last.0 < |s.threads| && IsEnd(e, s.threads[last.0], last.1) then 1 else 0)
  }

  /** The counter meant for these endings. */
  function Recorded(e: Ending, c: Counters): int {
    match e
    case Success(k) => SideOf(c, k).ok
    case Failure(k) => SideOf(c, k).failed
    case CacheHit => c.hits
    case CacheMiss => c.misses
  }

  /** A worker whose execution ended so, but which has not reached that counter. */
  function Pending(e: Ending, pc: Pc): int {
    if pc.Idle? then 0
    else
      match pc.stage
      case Executed(ok, hit) => if EndsAs(e, pc.kind, ok, hit) then 1 else 0
      case Counted(ok, hit) => if EndsAs(e, pc.kind, ok, hit) then 1 else 0
      case Scored(hit) => if (e.CacheHit? || e.CacheMiss?) && EndsAs(e, pc.kind, true, hit) then 1 else 0
      case _ => 0
  }

  function Pendings(e: Ending, threads: seq<Pc>): (r: seq<int>)
    ensures |r| == |threads| && forall i :: 0 <= i < |threads| ==> r[i] == Pending(e, threads[i])
  {
    if threads == [] then [] else [Pending(e, threads[0])] + Pendings(e, threads[1..])
  }

  lemma PendingUpdate(e: Ending, threads: seq<Pc>, i: nat, pc: Pc)
    requires i < |threads|
    ensures Sum(Pendings(e, threads[i := pc])) == Sum(Pendings(e, threads)) - Pending(e, threads[i]) + Pending(e, pc)
  {
    assert Pendings(e, threads[i := pc]) == Pendings(e, threads)[i := Pending(e, pc)];
    SumUpdate(Pendings(e, threads), i, Pending(e, pc));
  }

  /** One step moves counter and worker together, and adds one exactly when an execution ends. */
  lemma TaskStepEnds(cfg: Config, c: Counters, k: Kind, wait: int, stage: Stage, choice: Choice, e: Ending)
    requires stage.Scored? ==> k == Query
    ensures var (c1, next) := TaskStep(cfg, c, k, wait, stage, choice);
            var pc, pc1 := Busy(k, wait, stage), if next.Some? then Busy(k, wait, next.value) else Idle(k);
            Recorded(e, c1) + Pending(e, pc1) - Recorded(e, c) - Pending(e, pc) == if IsEnd(e, pc, choice) then 1 else 0
  {
    if stage.Executed? || stage.Counted? {
    } else if stage.Scored? {
    } else {
    }
  }

  lemma StepEnds(cfg: Config, s: State, i: nat, choice: Choice, e: Ending)
    requires ScoredQueries(s)
    ensures var s1 := Step(cfg, s, i, choice);
            Recorded(e, s1.c) + Sum(Pendings(e, s1.threads)) ==
            Recorded(e, s.c) + Sum(Pendings(e, s.threads)) + (if i < |s.threads| && IsEnd(e, s.threads[i], choice) then 1 else 0)
  {
    if i < |s.threads| {
      var s1 := Step(cfg, s, i, choice);
      PendingUpdate(e, s.threads, i, s1.threads[i]);
      var pc := s.threads[i];
      if pc.Busy? { TaskStepEnds(cfg, s.c, pc.kind, pc.wait, pc.stage, choice, e); }
    }
  }

  /** Every counter counts what it is meant to count, in every interleaving: the successes of each kind, the
      failures, the cache hits and the cache misses are the executions that ended so, less those whose worker
      has not got to the counter. */
  lemma {:induction false} OutcomesCounted(cfg: Config, kinds: seq<Kind>, steps: seq<(nat, Choice)>, e: Ending)
    ensures var s := Run(cfg, kinds, steps);
            Endings(cfg, kinds, steps, e) == Recorded(e, s.c) + Sum(Pendings(e, s.threads))
  {
    if steps == [] {
      SumZero(Pendings(e, Initial(kinds).threads));
    } else {
      var before, last := steps[..|steps| - 1], steps[|steps| - 1];
      OutcomesCounted(cfg, kinds, before, e);
      RunKeepsCounts(cfg, kinds, before);
      StepEnds(cfg, Run(cfg, kinds, before), last.0, last.1, e);
    }
  }

  /** With no worker busy they are exact. */
  lemma OutcomesExactAtRest(cfg: Config, kinds: seq<Kind>, steps: seq<(nat, Choice)>)
    requires AllIdle(Run(cfg, kinds, steps))
    ensures var c := Run(cfg, kinds, steps).c;
            && c.query.ok == Endings(cfg, kinds, steps, Success(Query)) && c.query.failed == Endings(cfg, kinds, steps, Failure(Query))
            && c.write.ok == Endings(cfg, kinds, steps, Success(Write)) && c.write.failed == Endings(cfg, kinds, steps, Failure(Write))
            && c.hits == Endings(cfg, kinds, steps, CacheHit) && c.misses == Endings(cfg, kinds, steps, CacheMiss)
  {
    forall e ensures Recorded(e, Run(cfg, kinds, steps).c) == Endings(cfg, kinds, steps, e) {
      OutcomesCounted(cfg, kinds, steps, e);
      SumZero(Pendings(e, Run(cfg, kinds, steps).threads));
    }
    var c := Run(cfg, kinds, steps).c;
    assert c.query.ok == Recorded(Success(Query), c) && c.query.failed == Recorded(Failure(Query), c);
    assert c.write.ok == Recorded(Success(Write), c) && c.write.failed == Recorded(Failure(Write), c);
    assert c.hits == Recorded(CacheHit, c) && c.misses == Recorded(CacheMiss, c);
  }

  // ------------------------------------------------ a task gets to its end

  /** Thread `i` takes one step for each choice. */
  function Drive(cfg: Config, s: State, i: nat, choices: seq<Choice>): State {
    if choices == [] then s else Step(cfg, Drive(cfg, s, i, choices[..|choices| - 1]), i, choices[|choices| - 1])
  }

  /** Nothing has changed since `s0` but thread `i` and the counters. */
  ghost predicate At(s0: State, s: State, i: nat, pc: Pc, c: Counters) {
    i < |s0.threads| && s.threads == s0.threads[i := pc] && s.c == c
  }

  /** A busy worker's step, seen from `s0`. */
  lemma Onward(cfg: Config, s0: State, i: nat, before: seq<Choice>, k: Kind, wait: int, stage: Stage, c: Counters, choice: Choice)
      returns (choices: seq<Choice>)
    requires At(s0, Drive(cfg, s0, i, before), i, Busy(k, wait, stage), c)
    ensures var (c1, next) := TaskStep(cfg, c, k, wait, stage, choice);
            At(s0, Drive(cfg, s0, i, choices), i, if next.Some? then Busy(k, wait, next.value) else Idle(k), c1)
  {
    choices := before + [choice];
    assert choices[..|before|] == before;
  }

  lemma ThroughQueueTime(cfg: Config, s: State, i: nat, k: Kind, wait: int) returns (choices: seq<Choice>)
    requires i < |s.threads| && s.threads[i] == Idle(k)
    ensures At(s, Drive(cfg, s, i, choices), i, Busy(k, wait, Past),
               s.c.(waitTotal := s.c.waitTotal + wait, waitCount := s.c.waitCount + 1,
                    maxWait := if wait > s.c.maxWait then wait else s.c.maxWait))
  {
    var c0 := s.c;
    choices := [Take(wait)];
    assert choices[..0] == [] && Drive(cfg, s, i, choices[..0]) == s;
    var c1 := c0.(waitTotal := c0.waitTotal + wait);
    choices := Onward(cfg, s, i, choices, k, wait, Taken, c0, Acquire);
    var c2 := c1.(waitCount := c1.waitCount + 1);
    choices := Onward(cfg, s, i, choices, k, wait, Added, c1, Acquire);
    choices := Onward(cfg, s, i, choices, k, wait, Loading, c2, Acquire);
    choices := Onward(cfg, s, i, choices, k, wait, Loaded(c2.maxWait), c2, Acquire);
  }

  lemma ThroughSemaphore(cfg: Config, s: State, i: nat, before: seq<Choice>, k: Kind, wait: int, c: Counters) returns (choices: seq<Choice>)
    requires At(s, Drive(cfg, s, i, before), i, Busy(k, wait, Past), c) && SideOf(c, k).slots < Limit(cfg, k)
    ensures var side := SideOf(c, k);
            At(s, Drive(cfg, s, i, choices), i, Busy(k, wait, Holding),
               WithSide(c, k, side.(current := side.current + 1, slots := side.slots + 1)))
  {
    var side := SideOf(c, k);
    choices := Onward(cfg, s, i, before, k, wait, Past, c, Acquire);
    choices := Onward(cfg, s, i, choices, k, wait, Entered, WithSide(c, k, side.(current := side.current + 1)), Acquire);
  }

  lemma ThroughExecution(cfg: Config, s: State, i: nat, before: seq<Choice>, k: Kind, wait: int, c: Counters, ok: bool, hit: bool)
      returns (choices: seq<Choice>)
    requires At(s, Drive(cfg, s, i, before), i, Busy(k, wait, Holding), c)
    ensures var side := SideOf(c, k);
            At(s, Drive(cfg, s, i, choices), i, Busy(k, wait, Counted(ok, hit)), WithSide(c, k, side.(total := side.total + 1)))
  {
    choices := Onward(cfg, s, i, before, k, wait, Holding, c, Finish(ok, hit));
    choices := Onward(cfg, s, i, choices, k, wait, Executed(ok, hit), c, Acquire);
  }

  /** The counters after an outcome has been recorded. */
  function Scoring(c: Counters, k: Kind, ok: bool, hit: bool): Counters {
    var side := SideOf(c, k);
    var c1 := WithSide(c, k, side.(ok := side.ok + (if ok then 1 else 0), failed := side.failed + (if ok then 0 else 1)));
    if ok && k == Query then c1.(hits := c1.hits + (if hit then 1 else 0), misses := c1.misses + (if hit then 0 else 1)) else c1
  }

  lemma ThroughScore(cfg: Config, s: State, i: nat, before: seq<Choice>, k: Kind, wait: int, c: Counters, ok: bool, hit: bool)
      returns (choices: seq<Choice>)
    requires At(s, Drive(cfg, s, i, before), i, Busy(k, wait, Counted(ok, hit)), c)
    ensures At(s, Drive(cfg, s, i, choices), i, Busy(k, wait, Releasing), Scoring(c, k, ok, hit))
  {
    choices := Onward(cfg, s, i, before, k, wait, Counted(ok, hit), c, Acquire);
    if ok && k == Query {
      choices := Onward(cfg, s, i, choices, k, wait, Scored(hit), Drive(cfg, s, i, choices).c, Acquire);
    }
  }

  lemma ThroughRelease(cfg: Config, s: State, i: nat, before: seq<Choice>, k: Kind, wait: int, c: Counters) returns (choices: seq<Choice>)
    requires At(s, Drive(cfg, s, i, before), i, Busy(k, wait, Releasing), c)
    ensures var side := SideOf(c, k);
            At(s, Drive(cfg, s, i, choices), i, Idle(k), WithSide(c, k, side.(current := side.current - 1, slots := side.slots - 1)))
  {
    choices := Onward(cfg, s, i, before, k, wait, Releasing, c, Acquire);
    choices := Onward(cfg, s, i, choices, k, wait, Leaving, Drive(cfg, s, i, choices).c, Acquire);
  }

  /** No worker is ever stuck while a slot is free: an idle one that takes a task alone is idle again after
      finitely many steps, with the queue time recorded and exactly the one execution counted. */
  lemma TaskCompletes(cfg: Config, s: State, i: nat, k: Kind, wait: int, ok: bool, hit: bool) returns (choices: seq<Choice>)
    requires i < |s.threads| && s.threads[i] == Idle(k) && SideOf(s.c, k).slots < Limit(cfg, k)
    ensures var s1 := Drive(cfg, s, i, choices);
            var before, after := SideOf(s.c, k), SideOf(s1.c, k);
            && s1.threads == s.threads
            && after == before.(total := before.total + 1, ok := before.ok + (if ok then 1 else 0), failed := before.failed + (if ok then 0 else 1))
            && s1.c.maxWait == (if wait > s.c.maxWait then wait else s.c.maxWait)
            && s1.c.hits + s1.c.misses == s.c.hits + s.c.misses + (if ok && k == Query then 1 else 0)
  {
    choices := ThroughQueueTime(cfg, s, i, k, wait);
    choices := ThroughSemaphore(cfg, s, i, choices, k, wait, Drive(cfg, s, i, choices).c);
    choices := ThroughExecution(cfg, s, i, choices, k, wait, Drive(cfg, s, i, choices).c, ok, hit);
    choices := ThroughScore(cfg, s, i, choices, k, wait, Drive(cfg, s, i, choices).c, ok, hit);
    choices := ThroughRelease(cfg, s, i, choices, k, wait, Drive(cfg, s, i, choices).c);
    assert s.threads[i := Idle(k)] == s.threads;
  }
}
