/** The batch controller as a protocol: one step for each channel operation and each locked section,
    taken by submitters, workers and retry goroutines in any interleaving. */
module Controller {
  import opened Wrappers
  import opened Seqs

  datatype Batch = Batch(id: int, size: nat, messages: nat)

  datatype Config = Config(maxQueue: nat, maxConcurrent: nat, workers: nat, retryCount: int, deadLetters: bool)

  /** A batch as queued. The ticket names one accepted submission; it is not part of the original. */
  datatype Item = Item(ticket: nat, batch: Batch, retryCount: int)

  /** What a goroutine is doing with the submission it holds. */
  datatype Stage =
    // a worker, before and inside processBatch
    | Dequeued | Checked | Acquired | Processing | Returned(ok: bool) | Failed | RetryCounted
    // a retry goroutine
    | Sleeping | Waking | Resubmitting
    // sendToDeadLetterQueue, called by a worker or by a retry goroutine
    | DeadLettering(inWorker: bool)

  /** Where a goroutine stands. */
  datatype Pc =
    // a client's SubmitBatch that has seen the controller running
    | Submitting(batch: Batch)
    // queued, backlog statistics not yet updated (first submission or resubmission)
    | Enqueued(batch: Batch)
    // a worker with nothing in hand, or about to release its slot, or finished
    | Idle | Releasing | Exited
    | Holding(item: Item, stage: Stage)
    // in the dead-letter queue, statistics not yet updated
    | DeadCounting(batch: Batch, inWorker: bool)
    | Done

  datatype Fate = Skipped | Abandoned | Succeeded | RetryAbandoned | Resubmitted | DeadLettered | Dropped

  datatype Outcome = Outcome(fate: Fate, item: Item)

  datatype Status = NotStarted | Running | Stopping | Stopped

  datatype Stats = Stats(processed: int, succeeded: int, failed: int, retries: int, backlogSize: int, deadMessages: int)

  /** `ledger` records how each finished submission ended, and `consumed` what was taken out of the
      dead-letter queue; neither is part of the original. */
  datatype State = State(
    status: Status, cancelled: bool, queue: seq<Item>, semaphore: int, deadLetterQueue: seq<Batch>,
    threads: seq<Pc>, nextTicket: nat, stats: Stats, ledger: seq<Outcome>, consumed: seq<Batch>)

  const INITIAL: State := State(NotStarted, false, [], 0, [], [], 0, Stats(0, 0, 0, 0, 0, 0), [], [])

  /** Resolves a select statement, and whether ProcessBatch succeeds. */
  datatype Branch = First | Second | Third

  datatype Action =
    | Start
    | RequestStop
    | Cancel
    | FinishStop
    | Call(batch: Batch)
    | Go(thread: nat, branch: Branch)
    | ConsumeDeadLetter

  /** What one step of one goroutine does to the shared state. */
  datatype Effect = Effect(pc: Pc, take: bool, put: Option<Item>, done: Option<Outcome>, spawn: Option<Pc>,
                           slots: int, stats: Stats, dead: Option<Batch>)

  function Quiet(s: State, pc: Pc): Effect {
    Effect(pc, false, None, None, None, 0, s.stats, None)
  }

  function DeadLetterEffect(cfg: Config, s: State, item: Item, inWorker: bool): Effect {
    var next := if inWorker then Releasing else Done;
    if cfg.deadLetters && |s.deadLetterQueue| < cfg.maxQueue then
      Quiet(s, DeadCounting(item.batch, inWorker)).(done := Some(Outcome(DeadLettered, item)), dead := Some(item.batch))
    else
      Quiet(s, next).(done := Some(Outcome(Dropped, item)))
  }

  /** A step of a goroutine that holds `item`. */
  function HoldingEffect(cfg: Config, s: State, item: Item, stage: Stage, branch: Branch): (r: Option<Effect>)
    ensures r.Some? ==> !r.value.take
  {
    match stage
    case Dequeued =>
      // a batch context ends when the controller's does, or by its own timeout
      if branch.First? then (if s.cancelled then None else Some(Quiet(s, Holding(item, Checked))))
      else Some(Quiet(s, Idle).(done := Some(Outcome(Skipped, item))))
    case Checked =>
      if branch.First? then
        if s.semaphore < cfg.maxConcurrent then Some(Quiet(s, Holding(item, Acquired)).(slots := 1)) else None
      else if s.cancelled then Some(Quiet(s, Exited).(done := Some(Outcome(Abandoned, item)))) else None
    case Acquired =>
      Some(Quiet(s, Holding(item, Processing)).(stats := s.stats.(backlogSize := s.stats.backlogSize - item.batch.size)))
    case Processing => Some(Quiet(s, Holding(item, Returned(branch.First?))))
    case Returned(ok) =>
      var stats := s.stats.(processed := s.stats.processed + 1);
      if ok then
        Some(Quiet(s, Releasing).(done := Some(Outcome(Succeeded, item)), stats := stats.(succeeded := stats.succeeded + 1)))
      else
        Some(Quiet(s, Holding(item, Failed)).(stats := stats.(failed := stats.failed + 1)))
    case Failed =>
      if item.retryCount < cfg.retryCount then
        Some(Quiet(s, Holding(item, RetryCounted)).(stats := s.stats.(retries := s.stats.retries + 1)))
      else
        Some(Quiet(s, Holding(item, DeadLettering(true))))
    case RetryCounted => Some(Quiet(s, Releasing).(spawn := Some(Holding(item, Sleeping))))
    case Sleeping =>
      if branch.First? then Some(Quiet(s, Holding(item, Waking)))
      else if s.cancelled then Some(Quiet(s, Done).(done := Some(Outcome(RetryAbandoned, item)))) else None
    case Waking =>
      Some(Quiet(s, Holding(item, if s.status == Running then Resubmitting else DeadLettering(false))))
    case Resubmitting =>
      // SubmitBatch again: a new entry, whose retry count is zero; or five seconds; or the stop
      if branch.First? then
        if |s.queue| < cfg.maxQueue then
          Some(Quiet(s, Enqueued(item.batch)).(put := Some(Item(s.nextTicket, item.batch, 0)), done := Some(Outcome(Resubmitted, item))))
        else None
      else if branch.Second? || s.cancelled then Some(Quiet(s, Holding(item, DeadLettering(false)))) else None
    case DeadLettering(inWorker) => Some(DeadLetterEffect(cfg, s, item, inWorker))
  }

  /** The step a goroutine at `pc` can take, if the chosen branch is open. */
  function ThreadEffect(cfg: Config, s: State, pc: Pc, branch: Branch): (r: Option<Effect>)
    ensures r.Some? && r.value.take ==> s.queue != []
  {
    match pc
    case Submitting(batch) =>
      // enqueue, or give up after five seconds, or see the controller stopping
      if branch.First? then
        if |s.queue| < cfg.maxQueue then Some(Quiet(s, Enqueued(batch)).(put := Some(Item(s.nextTicket, batch, 0)))) else None
      else if branch.Second? || s.cancelled then Some(Quiet(s, Done)) else None
    case Enqueued(batch) =>
      Some(Quiet(s, Done).(stats := s.stats.(backlogSize := s.stats.backlogSize + batch.size)))
    case Idle =>
      if branch.First? then
        if s.queue != [] then Some(Quiet(s, Holding(s.queue[0], Dequeued)).(take := true)) else None
      else if s.cancelled then Some(Quiet(s, Exited)) else None
    case Releasing => Some(Quiet(s, Idle).(slots := -1))
    case Holding(item, stage) => HoldingEffect(cfg, s, item, stage, branch)
    case DeadCounting(batch, inWorker) =>
      Some(Quiet(s, if inWorker then Releasing else Done).(stats := s.stats.(deadMessages := s.stats.deadMessages + batch.messages)))
    case Exited => None
    case Done => None
  }

  function Opt<T>(o: Option<T>): seq<T> { match o case None => [] case Some(x) => [x] }

  function Apply(s: State, i: nat, e: Effect): State
    requires i < |s.threads| && (e.take ==> s.queue != [])
  {
    s.(queue := (if e.take then s.queue[1..] else s.queue) + Opt(e.put),
       threads := s.threads[i := e.pc] + Opt(e.spawn),
       ledger := s.ledger + Opt(e.done),
       deadLetterQueue := s.deadLetterQueue + Opt(e.dead),
       semaphore := s.semaphore + e.slots,
       stats := e.stats,
       nextTicket := s.nextTicket + |Opt(e.put)|)
  }

  predicate RetryStage(stage: Stage) { stage.Sleeping? || stage.Waking? || stage.Resubmitting? || stage == DeadLettering(false) }

  predicate IsWorker(pc: Pc) {
    || pc.Idle? || pc.Releasing? || (pc.Holding? && !RetryStage(pc.stage)) || (pc.DeadCounting? && pc.inWorker)
  }

  /** An action that is not possible changes nothing. Starting is modelled once, from a fresh controller. */
  function Exec(cfg: Config, s: State, a: Action): State {
    match a
    case Start =>
      if s.status == NotStarted then s.(status := Running, threads := s.threads + seq(cfg.workers, i => Idle)) else s
    case RequestStop => if s.status == Stopped then s else s.(status := Stopping)
    case Cancel => if s.status == Stopping then s.(cancelled := true) else s
    case FinishStop =>
      if s.status == Stopping && s.cancelled && (forall i :: 0 <= i < |s.threads| ==> !IsWorker(s.threads[i]))
      then s.(status := Stopped) else s
    case Call(batch) => if s.status == Running then s.(threads := s.threads + [Submitting(batch)]) else s
    case Go(i, branch) =>
      if i < |s.threads| then
        match ThreadEffect(cfg, s, s.threads[i], branch)
        case None => s
        case Some(e) => Apply(s, i, e)
      else s
    case ConsumeDeadLetter =>
      if s.deadLetterQueue != [] then
        s.(deadLetterQueue := s.deadLetterQueue[1..], consumed := s.consumed + [s.deadLetterQueue[0]])
      else s
  }

  /** The state after any sequence of actions: every interleaving is one such sequence. */
  function Run(cfg: Config, actions: seq<Action>): State {
    if actions == [] then INITIAL else Exec(cfg, Run(cfg, actions[..|actions| - 1]), actions[|actions| - 1])
  }

  // ------------------------------------------------------- weighing a state

  /** What is being counted. */
  datatype Measure = Ticket(t: nat) | Slots | Backlog | Successes | Failures | DeadMessages

  /** Inside processBatch: between acquiring and releasing a semaphore slot. */
  predicate Inside(pc: Pc) {
    || pc.Releasing? || (pc.DeadCounting? && pc.inWorker)
    || (pc.Holding? && !RetryStage(pc.stage) && !pc.stage.Dequeued? && !pc.stage.Checked?)
  }

  function PcBacklog(pc: Pc): int {
    if pc.Enqueued? then 0 - pc.batch.size
    else if pc.Holding? && (pc.stage.Dequeued? || pc.stage.Checked? || pc.stage.Acquired?) then pc.item.batch.size
    else 0
  }

  /** A submission whose processing failed, before its fate is known. */
  predicate AfterFailure(pc: Pc) {
    pc.Holding? && (pc.stage.Failed? || pc.stage.RetryCounted? || RetryStage(pc.stage) || pc.stage.DeadLettering?)
  }

  predicate FailedFate(f: Fate) { f == RetryAbandoned || f == Resubmitted || f == DeadLettered || f == Dropped }

  /** How much one queued item counts for. */
  function ItemWeight(m: Measure, x: Item): int {
    match m
    case Ticket(t) => if x.ticket == t then 1 else 0
    case Backlog => x.batch.size
    case _ => 0
  }

  function PcWeight(m: Measure, pc: Pc): int {
    match m
    case Ticket(t) => if pc.Holding? && pc.item.ticket == t then 1 else 0
    case Slots => if Inside(pc) then 1 else 0
    case Backlog => PcBacklog(pc)
    case Successes => 0
    case Failures => if AfterFailure(pc) then 1 else 0
    case DeadMessages => if pc.DeadCounting? then 0 - pc.batch.messages else 0
  }

  function OutcomeWeight(m: Measure, o: Outcome): int {
    match m
    case Ticket(t) => if o.item.ticket == t then 1 else 0
    case Slots => 0
    case Backlog => if o.fate == Skipped || o.fate == Abandoned then o.item.batch.size else 0
    case Successes => if o.fate == Succeeded then 1 else 0
    case Failures => if FailedFate(o.fate) then 1 else 0
    case DeadMessages => if o.fate == DeadLettered then o.item.batch.messages else 0
  }

  function ItemWeights(m: Measure, s: seq<Item>): (r: seq<int>)
    ensures |r| == |s| && forall i :: 0 <= i < |s| ==> r[i] == ItemWeight(m, s[i])
  {
    if s == [] then [] else [ItemWeight(m, s[0])] + ItemWeights(m, s[1..])
  }

  function PcWeights(m: Measure, s: seq<Pc>): (r: seq<int>)
    ensures |r| == |s| && forall i :: 0 <= i < |s| ==> r[i] == PcWeight(m, s[i])
  {
    if s == [] then [] else [PcWeight(m, s[0])] + PcWeights(m, s[1..])
  }

  function OutcomeWeights(m: Measure, s: seq<Outcome>): (r: seq<int>)
    ensures |r| == |s| && forall i :: 0 <= i < |s| ==> r[i] == OutcomeWeight(m, s[i])
  {
    if s == [] then [] else [OutcomeWeight(m, s[0])] + OutcomeWeights(m, s[1..])
  }

  /** The measure of a whole state: queue, goroutines and finished submissions. */
  ghost function Total(s: State, m: Measure): int {
    Sum(ItemWeights(m, s.queue)) + Sum(PcWeights(m, s.threads)) + Sum(OutcomeWeights(m, s.ledger))
  }

  /** What replacing `pc` by the effect `e` adds to the measure. */
  ghost function Change(s: State, pc: Pc, e: Effect, m: Measure): int
    requires e.take ==> s.queue != []
  {
    PcWeight(m, e.pc) - PcWeight(m, pc)
    - (if e.take then ItemWeight(m, s.queue[0]) else 0)
    + (if e.put.Some? then ItemWeight(m, e.put.value) else 0)
    + (if e.done.Some? then OutcomeWeight(m, e.done.value) else 0)
    + (if e.spawn.Some? then PcWeight(m, e.spawn.value) else 0)
  }

  lemma AfterTake(m: Measure, q: seq<Item>)
    requires q != []
    ensures Sum(ItemWeights(m, q[1..])) == Sum(ItemWeights(m, q)) - ItemWeight(m, q[0])
  {
    assert ItemWeights(m, q)[1..] == ItemWeights(m, q[1..]);
  }

  lemma AfterPut(m: Measure, q: seq<Item>, put: Option<Item>)
    ensures Sum(ItemWeights(m, q + Opt(put))) == Sum(ItemWeights(m, q)) + (if put.Some? then ItemWeight(m, put.value) else 0)
  {
    if put.Some? {
      assert ItemWeights(m, q + [put.value]) == ItemWeights(m, q) + [ItemWeight(m, put.value)];
      SumSnoc(ItemWeights(m, q), ItemWeight(m, put.value));
    } else {
      assert q + [] == q;
    }
  }

  lemma QueueTotal(m: Measure, q: seq<Item>, take: bool, put: Option<Item>)
    requires take ==> q != []
    ensures Sum(ItemWeights(m, (if take then q[1..] else q) + Opt(put))) ==
            Sum(ItemWeights(m, q)) - (if take then ItemWeight(m, q[0]) else 0)
            + (if put.Some? then ItemWeight(m, put.value) else 0)
  {
    if take { AfterTake(m, q); }
    AfterPut(m, if take then q[1..] else q, put);
  }

  lemma ThreadTotal(m: Measure, ts: seq<Pc>, i: nat, pc: Pc, spawn: Option<Pc>)
    requires i < |ts|
    ensures Sum(PcWeights(m, ts[i := pc] + Opt(spawn))) ==
            Sum(PcWeights(m, ts)) - PcWeight(m, ts[i]) + PcWeight(m, pc)
            + (if spawn.Some? then PcWeight(m, spawn.value) else 0)
  {
    assert PcWeights(m, ts[i := pc]) == PcWeights(m, ts)[i := PcWeight(m, pc)];
    SumUpdate(PcWeights(m, ts), i, PcWeight(m, pc));
    if spawn.Some? {
      assert PcWeights(m, ts[i := pc] + [spawn.value]) == PcWeights(m, ts[i := pc]) + [PcWeight(m, spawn.value)];
      SumSnoc(PcWeights(m, ts[i := pc]), PcWeight(m, spawn.value));
    } else {
      assert ts[i := pc] + [] == ts[i := pc];
    }
  }

  lemma LedgerTotal(m: Measure, l: seq<Outcome>, done: Option<Outcome>)
    ensures Sum(OutcomeWeights(m, l + Opt(done))) ==
            Sum(OutcomeWeights(m, l)) + (if done.Some? then OutcomeWeight(m, done.value) else 0)
  {
    if done.Some? {
      assert OutcomeWeights(m, l + [done.value]) == OutcomeWeights(m, l) + [OutcomeWeight(m, done.value)];
      SumSnoc(OutcomeWeights(m, l), OutcomeWeight(m, done.value));
    } else {
      assert l + [] == l;
    }
  }

  lemma ApplyTotal(s: State, i: nat, e: Effect, m: Measure)
    requires i < |s.threads| && (e.take ==> s.queue != [])
    ensures Total(Apply(s, i, e), m) == Total(s, m) + Change(s, s.threads[i], e, m)
  {
    QueueTotal(m, s.queue, e.take, e.put);
    ThreadTotal(m, s.threads, i, e.pc, e.spawn);
    LedgerTotal(m, s.ledger, e.done);
  }

  // ------------------------------------------------------------- invariants

  ghost predicate EveryTicketOnce(s: State) {
    forall t: nat :: Total(s, Ticket(t)) == if t < s.nextTicket then 1 else 0
  }

  ghost predicate SlotsMatch(cfg: Config, s: State) {
    s.semaphore == Total(s, Slots) && s.semaphore <= cfg.maxConcurrent
  }

  ghost predicate StatsMatch(s: State) {
    && s.stats.processed == s.stats.succeeded + s.stats.failed
    && s.stats.succeeded == Total(s, Successes)
    && s.stats.failed == Total(s, Failures)
    && s.stats.deadMessages == Total(s, DeadMessages)
  }

  ghost predicate BacklogMatches(s: State) {
    s.stats.backlogSize == Total(s, Backlog)
  }

  ghost predicate Bounded(cfg: Config, s: State) {
    |s.queue| <= cfg.maxQueue && |s.deadLetterQueue| <= cfg.maxQueue
  }

  ghost predicate FreshCounts(s: State) {
    && (forall i :: 0 <= i < |s.queue| ==> s.queue[i].retryCount == 0)
    && (forall i :: 0 <= i < |s.threads| ==> s.threads[i].Holding? ==> s.threads[i].item.retryCount == 0)
  }

  ghost predicate RetriesOnlyIfConfigured(cfg: Config, s: State) {
    && (cfg.retryCount <= 0 ==> s.stats.retries == 0)
    && (cfg.retryCount > 0 ==> forall i :: 0 <= i < |s.threads| ==> !WorkerDeadLetters(s.threads[i]))
  }

  ghost predicate StoppedIsQuiet(s: State) {
    && (s.cancelled ==> s.status == Stopping || s.status == Stopped)
    && (s.status == Stopped ==> s.cancelled && forall i :: 0 <= i < |s.threads| ==> !IsWorker(s.threads[i]))
    && (s.status == NotStarted ==> s.threads == [])
  }

  ghost predicate Shapes(cfg: Config, s: State) {
    Bounded(cfg, s) && FreshCounts(s) && RetriesOnlyIfConfigured(cfg, s) && StoppedIsQuiet(s)
  }

  ghost predicate Inv(cfg: Config, s: State) {
    EveryTicketOnce(s) && SlotsMatch(cfg, s) && StatsMatch(s) && BacklogMatches(s) && Shapes(cfg, s)
  }

  predicate WorkerDeadLetters(pc: Pc) {
    (pc.Holding? && pc.stage == DeadLettering(true)) || (pc.DeadCounting? && pc.inWorker)
  }

  /** What one step of a goroutine may do, measure by measure. */
  ghost predicate Sound(cfg: Config, s: State, pc: Pc, e: Effect, t: nat) {
    && (e.take ==> s.queue != [])
    && Change(s, pc, e, Ticket(t)) == (if e.put.Some? && t == s.nextTicket then 1 else 0)
    && Change(s, pc, e, Slots) == e.slots && (e.slots <= 0 || s.semaphore + e.slots <= cfg.maxConcurrent)
    && Change(s, pc, e, Backlog) == e.stats.backlogSize - s.stats.backlogSize
    && Change(s, pc, e, Successes) == e.stats.succeeded - s.stats.succeeded
    && Change(s, pc, e, Failures) == e.stats.failed - s.stats.failed
    && Change(s, pc, e, DeadMessages) == e.stats.deadMessages - s.stats.deadMessages
    && e.stats.processed - s.stats.processed
       == (e.stats.succeeded - s.stats.succeeded) + (e.stats.failed - s.stats.failed)
  }

  ghost predicate Tame(cfg: Config, s: State, pc: Pc, e: Effect) {
    && (e.put.Some? ==> |s.queue| < cfg.maxQueue && e.put.value.retryCount == 0)
    && (e.dead.Some? ==> |s.deadLetterQueue| < cfg.maxQueue)
    && (e.pc.Holding? ==> (pc.Holding? && e.pc.item == pc.item) || (e.take && s.queue != [] && e.pc.item == s.queue[0]))
    && (e.spawn.Some? ==> pc.Holding? && e.spawn == Some(Holding(pc.item, Sleeping)))
    && (IsWorker(e.pc) ==> IsWorker(pc))
    && (cfg.retryCount <= 0 && (pc.Holding? ==> pc.item.retryCount == 0) ==> e.stats.retries == s.stats.retries)
    && (cfg.retryCount > 0 && (pc.Holding? ==> pc.item.retryCount == 0) && WorkerDeadLetters(e.pc) ==> WorkerDeadLetters(pc))
  }

  ghost predicate StepSound(cfg: Config, s: State, pc: Pc, branch: Branch, t: nat) {
    var r := ThreadEffect(cfg, s, pc, branch);
    r.Some? ==> Sound(cfg, s, pc, r.value, t)
  }

  lemma FreeSound(cfg: Config, s: State, pc: Pc, branch: Branch, t: nat)
    requires !pc.Holding?
    ensures StepSound(cfg, s, pc, branch, t)
  {
  }

  lemma DequeuedSound(cfg: Config, s: State, item: Item, branch: Branch, t: nat)
    ensures StepSound(cfg, s, Holding(item, Dequeued), branch, t)
  {
  }

  lemma CheckedSound(cfg: Config, s: State, item: Item, branch: Branch, t: nat)
    ensures StepSound(cfg, s, Holding(item, Checked), branch, t)
  {
  }

  lemma ProcessSound(cfg: Config, s: State, item: Item, stage: Stage, branch: Branch, t: nat)
    requires stage.Acquired? || stage.Processing?
    ensures StepSound(cfg, s, Holding(item, stage), branch, t)
  {
  }

  lemma ReturnedSound(cfg: Config, s: State, item: Item, stage: Stage, branch: Branch, t: nat)
    requires stage.Returned?
    ensures StepSound(cfg, s, Holding(item, stage), branch, t)
  {
  }

  lemma FailedSound(cfg: Config, s: State, item: Item, stage: Stage, branch: Branch, t: nat)
    requires stage.Failed?
    ensures StepSound(cfg, s, Holding(item, stage), branch, t)
  {
  }

  lemma RetrySound(cfg: Config, s: State, item: Item, stage: Stage, branch: Branch, t: nat)
    requires stage.RetryCounted? || stage.Sleeping?
    ensures StepSound(cfg, s, Holding(item, stage), branch, t)
  {
  }

  lemma ResubmitSound(cfg: Config, s: State, item: Item, stage: Stage, branch: Branch, t: nat)
    requires stage.Waking? || stage.Resubmitting?
    ensures StepSound(cfg, s, Holding(item, stage), branch, t)
  {
  }

  lemma DeadLetterSound(cfg: Config, s: State, item: Item, stage: Stage, branch: Branch, t: nat)
    requires stage.DeadLettering?
    ensures StepSound(cfg, s, Holding(item, stage), branch, t)
  {
    if stage.inWorker {
      WorkerDeadLetterSound(cfg, s, item, branch, t);
    } else {
      RetrierDeadLetterSound(cfg, s, item, branch, t);
    }
  }

  lemma WorkerDeadLetterSound(cfg: Config, s: State, item: Item, branch: Branch, t: nat)
    ensures StepSound(cfg, s, Holding(item, DeadLettering(true)), branch, t)
  {
  }

  lemma RetrierDeadLetterSound(cfg: Config, s: State, item: Item, branch: Branch, t: nat)
    ensures StepSound(cfg, s, Holding(item, DeadLettering(false)), branch, t)
  {
  }

  /** Every step of every goroutine keeps all the accounts. */
  lemma EveryStepSound(cfg: Config, s: State, pc: Pc, branch: Branch, t: nat)
    ensures StepSound(cfg, s, pc, branch, t)
  {
    match pc
    case Holding(item, stage) =>
      match stage {
        case Dequeued => DequeuedSound(cfg, s, item, branch, t);
        case Checked => CheckedSound(cfg, s, item, branch, t);
        case Acquired => ProcessSound(cfg, s, item, stage, branch, t);
        case Processing => ProcessSound(cfg, s, item, stage, branch, t);
        case Returned(_) => ReturnedSound(cfg, s, item, stage, branch, t);
        case Failed => FailedSound(cfg, s, item, stage, branch, t);
        case RetryCounted => RetrySound(cfg, s, item, stage, branch, t);
        case Sleeping => RetrySound(cfg, s, item, stage, branch, t);
        case Waking => ResubmitSound(cfg, s, item, stage, branch, t);
        case Resubmitting => ResubmitSound(cfg, s, item, stage, branch, t);
        case DeadLettering(_) => DeadLetterSound(cfg, s, item, stage, branch, t);
      }
    case _ => FreeSound(cfg, s, pc, branch, t);
  }

  lemma FreeTame(cfg: Config, s: State, pc: Pc, branch: Branch)
    requires !pc.Holding? && ThreadEffect(cfg, s, pc, branch).Some?
    ensures Tame(cfg, s, pc, ThreadEffect(cfg, s, pc, branch).value)
  {
  }

  lemma HoldingTame(cfg: Config, s: State, item: Item, stage: Stage, branch: Branch)
    requires HoldingEffect(cfg, s, item, stage, branch).Some?
    ensures Tame(cfg, s, Holding(item, stage), HoldingEffect(cfg, s, item, stage, branch).value)
  {
    if RetryStage(stage) {
    } else if stage.Dequeued? || stage.Checked? || stage.Acquired? {
    } else {
    }
  }

  lemma EveryStepTame(cfg: Config, s: State, pc: Pc, branch: Branch)
    requires ThreadEffect(cfg, s, pc, branch).Some?
    ensures Tame(cfg, s, pc, ThreadEffect(cfg, s, pc, branch).value)
  {
    if pc.Holding? { HoldingTame(cfg, s, pc.item, pc.stage, branch); } else { FreeTame(cfg, s, pc, branch); }
  }

  // The same facts carried to the new state.

  lemma TicketsAfter(s: State, i: nat, e: Effect)
    requires i < |s.threads| && (e.take ==> s.queue != []) && EveryTicketOnce(s)
    requires forall t: nat :: Change(s, s.threads[i], e, Ticket(t)) == if e.put.Some? && t == s.nextTicket then 1 else 0
    ensures EveryTicketOnce(Apply(s, i, e))
  {
    var s1 := Apply(s, i, e);
    forall t: nat ensures Total(s1, Ticket(t)) == if t < s1.nextTicket then 1 else 0 {
      ApplyTotal(s, i, e, Ticket(t));
      assert Total(s, Ticket(t)) == if t < s.nextTicket then 1 else 0;
    }
  }

  lemma SumsAfter(cfg: Config, s: State, i: nat, e: Effect)
    requires i < |s.threads| && Sound(cfg, s, s.threads[i], e, 0)
    requires SlotsMatch(cfg, s) && StatsMatch(s) && BacklogMatches(s)
    ensures var s1 := Apply(s, i, e);
            SlotsMatch(cfg, s1) && StatsMatch(s1) && BacklogMatches(s1)
  {
    ApplyTotal(s, i, e, Slots);
    ApplyTotal(s, i, e, Successes);
    ApplyTotal(s, i, e, Failures);
    ApplyTotal(s, i, e, DeadMessages);
    ApplyTotal(s, i, e, Backlog);
  }

  lemma ShapesAfter(cfg: Config, s: State, i: nat, e: Effect)
    requires i < |s.threads| && (e.take ==> s.queue != []) && Tame(cfg, s, s.threads[i], e)
    requires Shapes(cfg, s)
    ensures Shapes(cfg, Apply(s, i, e))
  {
    var s1 := Apply(s, i, e);
    assert forall j :: 0 <= j < |s1.threads| ==>
        s1.threads[j] == (if j == i then e.pc else if j < |s.threads| then s.threads[j] else e.spawn.value);
  }

  lemma GoKeepsInv(cfg: Config, s: State, i: nat, branch: Branch)
    requires i < |s.threads| && ThreadEffect(cfg, s, s.threads[i], branch).Some? && Inv(cfg, s)
    ensures var e := ThreadEffect(cfg, s, s.threads[i], branch).value;
            (e.take ==> s.queue != []) && Inv(cfg, Apply(s, i, e))
  {
    var pc, e := s.threads[i], ThreadEffect(cfg, s, s.threads[i], branch).value;
    EveryStepSound(cfg, s, pc, branch, 0);
    EveryStepTame(cfg, s, pc, branch);
    forall t: nat ensures Change(s, pc, e, Ticket(t)) == if e.put.Some? && t == s.nextTicket then 1 else 0 {
      EveryStepSound(cfg, s, pc, branch, t);
    }
    TicketsAfter(s, i, e);
    SumsAfter(cfg, s, i, e);
    ShapesAfter(cfg, s, i, e);
  }

  lemma NewThreads(s: State, extra: seq<Pc>, m: Measure)
    requires forall i :: 0 <= i < |extra| ==> PcWeight(m, extra[i]) == 0
    ensures Sum(PcWeights(m, s.threads + extra)) == Sum(PcWeights(m, s.threads))
  {
    assert PcWeights(m, s.threads + extra) == PcWeights(m, s.threads) + PcWeights(m, extra);
    SumAppend(PcWeights(m, s.threads), PcWeights(m, extra));
    SumZero(PcWeights(m, extra));
  }

  lemma SpawnKeepsTotals(s: State, s1: State, extra: seq<Pc>, m: Measure)
    requires s1 == s.(status := s1.status, threads := s.threads + extra)
    requires forall i :: 0 <= i < |extra| ==> extra[i].Submitting? || extra[i].Idle?
    ensures Total(s1, m) == Total(s, m)
  {
    NewThreads(s, extra, m);
  }

  lemma SameTotalsKeep(cfg: Config, s: State, s1: State)
    requires Inv(cfg, s) && Shapes(cfg, s1)
    requires forall m :: Total(s1, m) == Total(s, m)
    requires s1.nextTicket == s.nextTicket && s1.semaphore == s.semaphore && s1.stats == s.stats
    ensures Inv(cfg, s1)
  {
    forall t: nat ensures Total(s1, Ticket(t)) == if t < s1.nextTicket then 1 else 0 {
      assert Total(s, Ticket(t)) == if t < s.nextTicket then 1 else 0;
    }
  }

  lemma SpawnKeeps(cfg: Config, s: State, s1: State, extra: seq<Pc>)
    requires Inv(cfg, s) && s.status != Stopped && !s.cancelled
    requires s1 == s.(status := Running, threads := s.threads + extra)
    requires forall i :: 0 <= i < |extra| ==> extra[i].Submitting? || extra[i].Idle?
    ensures Inv(cfg, s1)
  {
    forall m ensures Total(s1, m) == Total(s, m) { SpawnKeepsTotals(s, s1, extra, m); }
    SpawnKeepsShapes(cfg, s, s1, extra);
    SameTotalsKeep(cfg, s, s1);
  }

  lemma SpawnKeepsShapes(cfg: Config, s: State, s1: State, extra: seq<Pc>)
    requires Shapes(cfg, s) && s.status != Stopped && !s.cancelled
    requires s1 == s.(status := Running, threads := s.threads + extra)
    requires forall i :: 0 <= i < |extra| ==> extra[i].Submitting? || extra[i].Idle?
    ensures Shapes(cfg, s1)
  {
    assert forall j :: 0 <= j < |s1.threads| ==>
        s1.threads[j] == (if j < |s.threads| then s.threads[j] else extra[j - |s.threads|]);
  }

  lemma ControlKeeps(cfg: Config, s: State, s1: State)
    requires Inv(cfg, s) && s1 == s.(status := s1.status, cancelled := s1.cancelled, deadLetterQueue := s1.deadLetterQueue, consumed := s1.consumed)
    requires |s1.deadLetterQueue| <= |s.deadLetterQueue| && StoppedIsQuiet(s1)
    ensures Inv(cfg, s1)
  {
    assert forall m :: Total(s1, m) == Total(s, m);
    SameTotalsKeep(cfg, s, s1);
  }

  lemma ControlActionKeeps(cfg: Config, s: State, a: Action)
    requires Inv(cfg, s) && (a.RequestStop? || a.Cancel? || a.FinishStop? || a.ConsumeDeadLetter?)
    ensures Inv(cfg, Exec(cfg, s, a))
  {
    ControlKeeps(cfg, s, Exec(cfg, s, a));
  }

  lemma ExecKeepsInv(cfg: Config, s: State, a: Action)
    requires Inv(cfg, s)
    ensures Inv(cfg, Exec(cfg, s, a))
  {
    var s1 := Exec(cfg, s, a);
    match a
    case Start => if s.status == NotStarted { SpawnKeeps(cfg, s, s1, seq(cfg.workers, i => Idle)); }
    case Call(batch) => if s.status == Running { SpawnKeeps(cfg, s, s1, [Submitting(batch)]); }
    case Go(i, branch) =>
      if i < |s.threads| && ThreadEffect(cfg, s, s.threads[i], branch).Some? { GoKeepsInv(cfg, s, i, branch); }
    case _ => ControlActionKeeps(cfg, s, a);
  }

  lemma InitialInv(cfg: Config)
    ensures Inv(cfg, INITIAL)
  {
    forall m ensures Total(INITIAL, m) == 0 { EmptyTotal(INITIAL, m); }
    InitialShapes(cfg);
    InitialCounts(cfg, INITIAL);
  }

  lemma InitialShapes(cfg: Config)
    ensures Shapes(cfg, INITIAL)
  {
  }

  lemma InitialCounts(cfg: Config, s: State)
    requires forall m :: Total(s, m) == 0
    requires s.nextTicket == 0 && s.semaphore == 0 && s.stats == Stats(0, 0, 0, 0, 0, 0)
    ensures EveryTicketOnce(s) && SlotsMatch(cfg, s) && StatsMatch(s) && BacklogMatches(s)
  {
  }

  lemma EmptyTotal(s: State, m: Measure)
    requires s.queue == [] && s.threads == [] && s.ledger == []
    ensures Total(s, m) == 0
  {
  }

  /** In every state of every interleaving: each accepted submission is in exactly one place, the
      workers inside processBatch are as many as the taken semaphore slots, the statistics count the
      finished submissions, the backlog is exact up to its stated terms, both queues stay within
      their bounds, and a stopped controller has no worker left. */
  lemma {:induction false} RunKeepsInv(cfg: Config, actions: seq<Action>)
    ensures Inv(cfg, Run(cfg, actions))
  {
    if actions == [] {
      InitialInv(cfg);
    } else {
      RunKeepsInv(cfg, actions[..|actions| - 1]);
      ExecKeepsInv(cfg, Run(cfg, actions[..|actions| - 1]), actions[|actions| - 1]);
    }
  }

  // ------------------------------------------------------------ consequences

  /** Every submission accepted so far is in exactly one place, and nothing else is anywhere. */
  lemma {:induction false} ExactlyOnePlace(cfg: Config, actions: seq<Action>, t: nat)
    ensures Total(Run(cfg, actions), Ticket(t)) == if t < Run(cfg, actions).nextTicket then 1 else 0
  {
    RunKeepsInv(cfg, actions);
  }

  /** The workers inside processBatch are the taken semaphore slots, never more than the limit. */
  lemma {:induction false} WorkersWithinLimit(cfg: Config, actions: seq<Action>)
    ensures Sum(PcWeights(Slots, Run(cfg, actions).threads)) == Run(cfg, actions).semaphore <= cfg.maxConcurrent
  {
    var s := Run(cfg, actions);
    RunKeepsInv(cfg, actions);
    SumZero(ItemWeights(Slots, s.queue));
    SumZero(OutcomeWeights(Slots, s.ledger));
  }

  /** Processed batches are successes plus failures at every step; the failures are the submissions
      whose processing failed, wherever they have got to. */
  lemma {:induction false} StatisticsAddUp(cfg: Config, actions: seq<Action>)
    ensures var s := Run(cfg, actions);
            && s.stats.processed == s.stats.succeeded + s.stats.failed
            && s.stats.succeeded == Sum(OutcomeWeights(Successes, s.ledger))
            && s.stats.failed == Sum(PcWeights(Failures, s.threads)) + Sum(OutcomeWeights(Failures, s.ledger))
            && s.stats.deadMessages == Sum(OutcomeWeights(DeadMessages, s.ledger)) + Sum(PcWeights(DeadMessages, s.threads))
  {
    var s := Run(cfg, actions);
    RunKeepsInv(cfg, actions);
    SumZero(ItemWeights(Successes, s.queue));
    SumZero(PcWeights(Successes, s.threads));
    SumZero(ItemWeights(Failures, s.queue));
    SumZero(ItemWeights(DeadMessages, s.queue));
  }

  /** CurrentBacklogSize at every step: bytes queued, plus bytes taken from the queue and not yet
      subtracted less bytes queued and not yet added, plus bytes of skipped and abandoned batches. */
  lemma BacklogExact(cfg: Config, actions: seq<Action>)
    ensures var s := Run(cfg, actions);
            s.stats.backlogSize ==
            Sum(ItemWeights(Backlog, s.queue)) + Sum(PcWeights(Backlog, s.threads)) + Sum(OutcomeWeights(Backlog, s.ledger))
  {
    RunKeepsInv(cfg, actions);
  }

  /** Nobody is between two steps that touch the backlog. */
  predicate AtRest(s: State) {
    forall i :: 0 <= i < |s.threads| ==> PcBacklog(s.threads[i]) == 0
  }

  /** At rest, with batches still queued or not, the backlog shows the queued bytes and on top exactly the
      bytes of the batches skipped or abandoned, which nothing ever subtracts. */
  lemma {:induction false} BacklogLeak(cfg: Config, actions: seq<Action>)
    requires AtRest(Run(cfg, actions))
    ensures var s := Run(cfg, actions);
            var extra := s.stats.backlogSize - Sum(ItemWeights(Backlog, s.queue));
            && extra == Sum(OutcomeWeights(Backlog, s.ledger)) >= 0
            && (extra == 0 <==> forall o :: o in s.ledger && (o.fate == Skipped || o.fate == Abandoned) ==> o.item.batch.size == 0)
  {
    RunKeepsInv(cfg, actions);
    BacklogAtRest(Run(cfg, actions));
  }

  lemma BacklogAtRest(s: State)
    requires AtRest(s) && BacklogMatches(s)
    ensures var extra := s.stats.backlogSize - Sum(ItemWeights(Backlog, s.queue));
            && extra == Sum(OutcomeWeights(Backlog, s.ledger)) >= 0
            && (extra == 0 <==> forall o :: o in s.ledger && (o.fate == Skipped || o.fate == Abandoned) ==> o.item.batch.size == 0)
  {
    var w := OutcomeWeights(Backlog, s.ledger);
    SumZero(PcWeights(Backlog, s.threads));
    SumBounds(w);
    if forall o :: o in s.ledger && (o.fate == Skipped || o.fate == Abandoned) ==> o.item.batch.size == 0 {
      forall i | 0 <= i < |w| ensures w[i] == 0 { assert s.ledger[i] in s.ledger; }
      SumZero(w);
    } else {
      var o :| o in s.ledger && (o.fate == Skipped || o.fate == Abandoned) && o.item.batch.size > 0;
      var i :| 0 <= i < |s.ledger| && s.ledger[i] == o;
      assert w[i] > 0;
    }
  }

  /** A submission is never in two places: not twice in the queue, not queued and held, not held by
      two goroutines, and not both finished and alive. */
  lemma {:induction false} NeverTwice(cfg: Config, actions: seq<Action>, i: nat, j: nat)
    ensures Separate(Run(cfg, actions), i, j)
  {
    RunKeepsInv(cfg, actions);
    SeparateIfOnce(Run(cfg, actions), i, j);
  }

  lemma SeparateIfOnce(s: State, i: nat, j: nat)
    requires EveryTicketOnce(s)
    ensures Separate(s, i, j)
  {
    if i < |s.queue| { TotalApart(s, s.queue[i].ticket); }
    if i < |s.ledger| { TotalApart(s, s.ledger[i].item.ticket); }
    if i < |s.threads| && s.threads[i].Holding? { TotalApart(s, s.threads[i].item.ticket); }
  }

  /** The submissions at two different places are different. */
  predicate Separate(s: State, i: nat, j: nat) {
    && (i < j < |s.queue| ==> s.queue[i].ticket != s.queue[j].ticket)
    && (i < j < |s.threads| && s.threads[i].Holding? && s.threads[j].Holding? ==>
          s.threads[i].item.ticket != s.threads[j].item.ticket)
    && (i < |s.queue| && j < |s.threads| && s.threads[j].Holding? ==>
          s.queue[i].ticket != s.threads[j].item.ticket)
    && (i < |s.ledger| && j < |s.threads| && s.threads[j].Holding? ==>
          s.ledger[i].item.ticket != s.threads[j].item.ticket)
    && (i < |s.ledger| && j < |s.queue| ==> s.ledger[i].item.ticket != s.queue[j].ticket)
    && (i < j < |s.ledger| ==> s.ledger[i].item.ticket != s.ledger[j].item.ticket)
  }

  /** No two places count for ticket `t`. */
  ghost predicate Apart(s: State, m: Measure) {
    && (forall i, j :: 0 <= i < j < |s.queue| ==> ItemWeight(m, s.queue[i]) + ItemWeight(m, s.queue[j]) <= 1)
    && (forall i, j :: 0 <= i < j < |s.threads| ==> PcWeight(m, s.threads[i]) + PcWeight(m, s.threads[j]) <= 1)
    && (forall i, j :: 0 <= i < j < |s.ledger| ==> OutcomeWeight(m, s.ledger[i]) + OutcomeWeight(m, s.ledger[j]) <= 1)
    && (forall i, j :: 0 <= i < |s.queue| && 0 <= j < |s.threads| ==> ItemWeight(m, s.queue[i]) + PcWeight(m, s.threads[j]) <= 1)
    && (forall i, j :: 0 <= i < |s.ledger| && 0 <= j < |s.threads| ==> OutcomeWeight(m, s.ledger[i]) + PcWeight(m, s.threads[j]) <= 1)
    && (forall i, j :: 0 <= i < |s.ledger| && 0 <= j < |s.queue| ==> OutcomeWeight(m, s.ledger[i]) + ItemWeight(m, s.queue[j]) <= 1)
  }

  lemma TotalApart(s: State, t: nat)
    requires EveryTicketOnce(s)
    ensures Apart(s, Ticket(t))
  {
    var m := Ticket(t);
    assert Total(s, m) <= 1;
    var a, b, c := ItemWeights(m, s.queue), PcWeights(m, s.threads), OutcomeWeights(m, s.ledger);
    SumBounds(a);
    SumBounds(b);
    SumBounds(c);
  }

  /** What remains after a worker is gone: no slot, and no submission in hand but for a retry goroutine. */
  ghost predicate NoWorkerLeft(s: State) {
    && s.semaphore == 0
    && forall i :: 0 <= i < |s.threads| && s.threads[i].Holding? ==> RetryStage(s.threads[i].stage)
  }

  /** Where an accepted submission can be once the controller has stopped. */
  predicate Remains(s: State, t: nat) {
    || (exists i :: 0 <= i < |s.queue| && s.queue[i].ticket == t)
    || (exists i :: 0 <= i < |s.threads| && s.threads[i].Holding? && RetryStage(s.threads[i].stage) && s.threads[i].item.ticket == t)
    || (exists i :: 0 <= i < |s.ledger| && s.ledger[i].item.ticket == t)
  }

  /** A stopped controller holds no slot, and every submission it ever accepted is still queued, with a retry
      goroutine, or finished: none is stuck with a worker. */
  lemma StoppedLeavesNone(cfg: Config, actions: seq<Action>, t: nat)
    requires Run(cfg, actions).status == Stopped
    ensures NoWorkerLeft(Run(cfg, actions))
    ensures t < Run(cfg, actions).nextTicket <==> Remains(Run(cfg, actions), t)
  {
    var s := Run(cfg, actions);
    RunKeepsInv(cfg, actions);
    NoSlotHeld(s);
    WeighedSomewhere(s, t);
  }

  lemma NoSlotHeld(s: State)
    requires s.semaphore == Total(s, Slots)
    requires forall i :: 0 <= i < |s.threads| ==> !IsWorker(s.threads[i])
    ensures NoWorkerLeft(s)
  {
    SumZero(ItemWeights(Slots, s.queue));
    SumZero(PcWeights(Slots, s.threads));
    SumZero(OutcomeWeights(Slots, s.ledger));
  }

  /** A ticket weighs something exactly when some place holds it. */
  lemma WeighedSomewhere(s: State, t: nat)
    requires EveryTicketOnce(s) && NoWorkerLeft(s)
    ensures t < s.nextTicket <==> Remains(s, t)
  {
    var m := Ticket(t);
    var a, b, c := ItemWeights(m, s.queue), PcWeights(m, s.threads), OutcomeWeights(m, s.ledger);
    assert Total(s, m) == if t < s.nextTicket then 1 else 0;
    SumBounds(a);
    SumBounds(b);
    SumBounds(c);
    if !Remains(s, t) {
      SumZero(a);
      SumZero(b);
      SumZero(c);
    }
  }

  // ------------------------------------------------- the dead-letter queue

  /** The batches dead-lettered so far, in order. */
  function DeadBatches(ledger: seq<Outcome>): seq<Batch> {
    if ledger == [] then []
    else
      var last := ledger[|ledger| - 1];
      DeadBatches(ledger[..|ledger| - 1]) + (if last.fate == DeadLettered then [last.item.batch] else [])
  }

  lemma DeadBatchesSnoc(ledger: seq<Outcome>, done: Option<Outcome>)
    ensures DeadBatches(ledger + Opt(done)) ==
            DeadBatches(ledger) + (if done.Some? && done.value.fate == DeadLettered then [done.value.item.batch] else [])
  {
    if done.Some? {
      assert (ledger + [done.value])[..|ledger|] == ledger;
    } else {
      assert ledger + [] == ledger;
    }
  }

  /** The last step of a batch whose processing failed for good: it goes to the dead-letter queue exactly when
      that is enabled and has room, and is dropped otherwise; and nothing else ever does either. */
  ghost predicate DeadLetterRule(cfg: Config, s: State, pc: Pc, e: Effect) {
    var room := cfg.deadLetters && |s.deadLetterQueue| < cfg.maxQueue;
    && (e.dead == if e.done.Some? && e.done.value.fate == DeadLettered then Some(e.done.value.item.batch) else None)
    && (pc.Holding? && pc.stage.DeadLettering? ==> e.done == Some(Outcome(if room then DeadLettered else Dropped, pc.item)))
    && (!(pc.Holding? && pc.stage.DeadLettering?) && e.done.Some? ==> e.done.value.fate != DeadLettered && e.done.value.fate != Dropped)
  }

  lemma DeadLetterRuleHolds(cfg: Config, s: State, pc: Pc, branch: Branch)
    requires ThreadEffect(cfg, s, pc, branch).Some?
    ensures DeadLetterRule(cfg, s, pc, ThreadEffect(cfg, s, pc, branch).value)
  {
  }

  /** What was dead-lettered is what was consumed and what is still queued, in order; with the feature off
      that is nothing. */
  ghost predicate DeadLettersKept(cfg: Config, s: State) {
    && DeadBatches(s.ledger) == s.consumed + s.deadLetterQueue
    && (!cfg.deadLetters ==> s.deadLetterQueue == [] && s.consumed == [])
  }

  lemma GoKeepsDeadLetters(cfg: Config, s: State, i: nat, branch: Branch)
    requires i < |s.threads| && ThreadEffect(cfg, s, s.threads[i], branch).Some? && DeadLettersKept(cfg, s)
    ensures var e := ThreadEffect(cfg, s, s.threads[i], branch).value;
            (e.take ==> s.queue != []) && DeadLettersKept(cfg, Apply(s, i, e))
  {
    var e := ThreadEffect(cfg, s, s.threads[i], branch).value;
    DeadLetterRuleHolds(cfg, s, s.threads[i], branch);
    DeadBatchesSnoc(s.ledger, e.done);
    AssocBatches(s.consumed, s.deadLetterQueue, Opt(e.dead));
  }

  lemma AssocBatches(a: seq<Batch>, b: seq<Batch>, c: seq<Batch>)
    ensures a + b + c == a + (b + c)
  {
  }

  lemma ExecKeepsDeadLetters(cfg: Config, s: State, a: Action)
    requires DeadLettersKept(cfg, s)
    ensures DeadLettersKept(cfg, Exec(cfg, s, a))
  {
    match a
    case Go(i, branch) =>
      if i < |s.threads| && ThreadEffect(cfg, s, s.threads[i], branch).Some? { GoKeepsDeadLetters(cfg, s, i, branch); }
    case ConsumeDeadLetter =>
      if s.deadLetterQueue != [] {
        assert s.deadLetterQueue == [s.deadLetterQueue[0]] + s.deadLetterQueue[1..];
        AssocBatches(s.consumed, [s.deadLetterQueue[0]], s.deadLetterQueue[1..]);
      }
    case _ =>
  }

  /** In every run the batches dead-lettered are exactly those consumed from the queue and those still in it,
      in order; and there are none while the feature is off. */
  lemma {:induction false} DeadLettersAccounted(cfg: Config, actions: seq<Action>)
    ensures var s := Run(cfg, actions);
            && DeadBatches(s.ledger) == s.consumed + s.deadLetterQueue
            && (!cfg.deadLetters ==> DeadBatches(s.ledger) == [] && s.deadLetterQueue == [])
  {
    RunKeepsDeadLetters(cfg, actions);
  }

  lemma {:induction false} RunKeepsDeadLetters(cfg: Config, actions: seq<Action>)
    ensures DeadLettersKept(cfg, Run(cfg, actions))
  {
    if actions != [] {
      var n := |actions| - 1;
      RunKeepsDeadLetters(cfg, actions[..n]);
      ExecKeepsDeadLetters(cfg, Run(cfg, actions[..n]), actions[n]);
    }
  }

  /** The moment in a run at which the k-th submission finished. */
  ghost predicate FinishedAt(cfg: Config, actions: seq<Action>, k: nat, n: nat) {
    && n < |actions|
    && |Run(cfg, actions[..n]).ledger| == k < |Run(cfg, actions[..n + 1]).ledger|
  }

  lemma LedgerGrows(cfg: Config, s: State, a: Action)
    ensures s.ledger <= Exec(cfg, s, a).ledger && |Exec(cfg, s, a).ledger| <= |s.ledger| + 1
  {
    if a.Go? && a.thread < |s.threads| && ThreadEffect(cfg, s, s.threads[a.thread], a.branch).Some? {
      var e := ThreadEffect(cfg, s, s.threads[a.thread], a.branch).value;
      assert Exec(cfg, s, a).ledger == s.ledger + Opt(e.done);
    }
  }

  /** A batch is dropped only if the feature is off or the queue was full at the moment it was dropped. */
  lemma {:induction false} DroppedOnlyWhenFull(cfg: Config, actions: seq<Action>, k: nat) returns (n: nat)
    requires k < |Run(cfg, actions).ledger|
    ensures FinishedAt(cfg, actions, k, n)
    ensures Run(cfg, actions).ledger[k].fate == Dropped ==>
              !cfg.deadLetters || |Run(cfg, actions[..n]).deadLetterQueue| >= cfg.maxQueue
    ensures Run(cfg, actions).ledger[k].fate == DeadLettered ==>
              cfg.deadLetters && |Run(cfg, actions[..n]).deadLetterQueue| < cfg.maxQueue
    decreases |actions|
  {
    var last := |actions| - 1;
    var before, a := actions[..last], actions[last];
    var s := Run(cfg, before);
    LedgerGrows(cfg, s, a);
    assert actions[..last + 1] == actions;
    if k < |s.ledger| {
      n := DroppedOnlyWhenFull(cfg, before, k);
      assert before[..n] == actions[..n] && before[..n + 1] == actions[..n + 1];
    } else {
      n := last;
      DeadLetterRuleHolds(cfg, s, s.threads[a.thread], a.branch);
    }
  }

  // --------------------------------------------------------- first in, first out

  /** The queue holds the submissions accepted last, in the order of their acceptance, so that the one taken
      next is always the oldest still waiting. */
  ghost predicate InOrder(s: State) {
    && |s.queue| <= s.nextTicket
    && forall i :: 0 <= i < |s.queue| ==> s.queue[i].ticket == s.nextTicket - |s.queue| + i
  }

  lemma PutIsNew(cfg: Config, s: State, pc: Pc, branch: Branch)
    requires ThreadEffect(cfg, s, pc, branch).Some?
    ensures var e := ThreadEffect(cfg, s, pc, branch).value;
            && (e.put.Some? ==> e.put.value.ticket == s.nextTicket && !e.take)
            && (e.take ==> s.queue != [] && e.pc == Holding(s.queue[0], Dequeued))
  {
  }

  /** Every run keeps the queue first in, first out. */
  lemma {:induction false} QueueInOrder(cfg: Config, actions: seq<Action>)
    ensures InOrder(Run(cfg, actions))
  {
    if actions != [] {
      var n := |actions| - 1;
      var s, a := Run(cfg, actions[..n]), actions[n];
      QueueInOrder(cfg, actions[..n]);
      if a.Go? && a.thread < |s.threads| && ThreadEffect(cfg, s, s.threads[a.thread], a.branch).Some? {
        PutIsNew(cfg, s, s.threads[a.thread], a.branch);
      }
    }
  }

  // ------------------------------------------------- what ends what, and when

  /** Submissions are given up by the stop, or by a retry goroutine, only once the controller's context is
      cancelled; and a batch is resubmitted only by a goroutine that woke up while the controller was running. */
  ghost predicate StopRule(s: State, pc: Pc, e: Effect) {
    && (e.done.Some? && (e.done.value.fate == Abandoned || e.done.value.fate == RetryAbandoned) ==> s.cancelled)
    && (e.pc == Exited ==> s.cancelled)
    && (e.pc.Holding? && e.pc.stage.Checked? ==> !s.cancelled)
    && (e.pc.Holding? && e.pc.stage.Resubmitting? ==> s.status == Running)
    && (pc.Holding? && pc.stage.Waking? && s.status != Running ==> e.pc == Holding(pc.item, DeadLettering(false)))
    && (e.done.Some? && e.done.value.fate == Succeeded ==> pc == Holding(e.done.value.item, Returned(true)))
  }

  lemma StopRuleHolds(cfg: Config, s: State, pc: Pc, branch: Branch)
    requires ThreadEffect(cfg, s, pc, branch).Some?
    ensures StopRule(s, pc, ThreadEffect(cfg, s, pc, branch).value)
  {
  }

  ghost predicate GivenUpOnlyOnStop(s: State) {
    forall o :: o in s.ledger && (o.fate == Abandoned || o.fate == RetryAbandoned) ==> s.cancelled
  }

  lemma {:induction false} NothingAbandonedBeforeStop(cfg: Config, actions: seq<Action>)
    ensures GivenUpOnlyOnStop(Run(cfg, actions))
  {
    if actions != [] {
      var n := |actions| - 1;
      var s, a := Run(cfg, actions[..n]), actions[n];
      NothingAbandonedBeforeStop(cfg, actions[..n]);
      if a.Go? && a.thread < |s.threads| && ThreadEffect(cfg, s, s.threads[a.thread], a.branch).Some? {
        StopRuleHolds(cfg, s, s.threads[a.thread], a.branch);
      }
    }
  }

  // ------------------------------------------- successes are what the processor said

  /** Steps in which ProcessBatch returned, with or without an error. */
  predicate Returns(s: State, a: Action, ok: bool) {
    && a.Go? && a.thread < |s.threads| && s.threads[a.thread].Holding? && s.threads[a.thread].stage.Processing?
    && a.branch.First? == ok
  }

  function ProcessorReturns(cfg: Config, actions: seq<Action>, ok: bool): nat {
    if actions == [] then 0
    else
      var n := |actions| - 1;
      ProcessorReturns(cfg, actions[..n], ok) + (if Returns(Run(cfg, actions[..n]), actions[n], ok) then 1 else 0)
  }

  /** A worker that knows the outcome and has not counted it. */
  function Uncounted(pc: Pc, ok: bool): int { if pc.Holding? && pc.stage == Returned(ok) then 1 else 0 }

  function UncountedIn(threads: seq<Pc>, ok: bool): (r: seq<int>)
    ensures |r| == |threads| && forall i :: 0 <= i < |threads| ==> r[i] == Uncounted(threads[i], ok)
  {
    if threads == [] then [] else [Uncounted(threads[0], ok)] + UncountedIn(threads[1..], ok)
  }

  function CountOf(s: State, ok: bool): int { if ok then s.stats.succeeded else s.stats.failed }

  lemma UncountedAfter(threads: seq<Pc>, i: nat, pc: Pc, spawn: Option<Pc>, ok: bool)
    requires i < |threads| && (spawn.Some? ==> Uncounted(spawn.value, ok) == 0)
    ensures Sum(UncountedIn(threads[i := pc] + Opt(spawn), ok)) == Sum(UncountedIn(threads, ok)) - Uncounted(threads[i], ok) + Uncounted(pc, ok)
  {
    var t := threads[i := pc];
    assert UncountedIn(t, ok) == UncountedIn(threads, ok)[i := Uncounted(pc, ok)];
    SumUpdate(UncountedIn(threads, ok), i, Uncounted(pc, ok));
    if spawn.Some? {
      assert UncountedIn(t + [spawn.value], ok) == UncountedIn(t, ok) + [0];
      SumSnoc(UncountedIn(t, ok), 0);
    } else {
      assert t + [] == t;
    }
  }

  lemma UncountedSpawned(threads: seq<Pc>, extra: seq<Pc>, ok: bool)
    requires forall i :: 0 <= i < |extra| ==> Uncounted(extra[i], ok) == 0
    ensures Sum(UncountedIn(threads + extra, ok)) == Sum(UncountedIn(threads, ok))
  {
    assert UncountedIn(threads + extra, ok) == UncountedIn(threads, ok) + UncountedIn(extra, ok);
    SumAppend(UncountedIn(threads, ok), UncountedIn(extra, ok));
    SumZero(UncountedIn(extra, ok));
  }

  /** One step of one goroutine, as far as outcomes are counted. */
  lemma EffectCounts(cfg: Config, s: State, pc: Pc, branch: Branch, ok: bool)
    requires ThreadEffect(cfg, s, pc, branch).Some?
    ensures var e := ThreadEffect(cfg, s, pc, branch).value;
            var change := if ok then e.stats.succeeded - s.stats.succeeded else e.stats.failed - s.stats.failed;
            && Uncounted(e.pc, ok) - Uncounted(pc, ok) + change ==
               (if pc.Holding? && pc.stage.Processing? && branch.First? == ok then 1 else 0)
            && (e.spawn.Some? ==> Uncounted(e.spawn.value, ok) == 0)
  {
  }

  lemma GoCounts(cfg: Config, s: State, i: nat, branch: Branch, ok: bool)
    requires i < |s.threads| && ThreadEffect(cfg, s, s.threads[i], branch).Some?
    ensures var e := ThreadEffect(cfg, s, s.threads[i], branch).value;
            && (e.take ==> s.queue != [])
            && CountOf(Apply(s, i, e), ok) + Sum(UncountedIn(Apply(s, i, e).threads, ok)) ==
               CountOf(s, ok) + Sum(UncountedIn(s.threads, ok)) + (if Returns(s, Go(i, branch), ok) then 1 else 0)
  {
    var e := ThreadEffect(cfg, s, s.threads[i], branch).value;
    EffectCounts(cfg, s, s.threads[i], branch, ok);
    UncountedAfter(s.threads, i, e.pc, e.spawn, ok);
  }

  lemma ExecCounts(cfg: Config, s: State, a: Action, ok: bool)
    ensures var s1 := Exec(cfg, s, a);
            CountOf(s1, ok) + Sum(UncountedIn(s1.threads, ok)) ==
            CountOf(s, ok) + Sum(UncountedIn(s.threads, ok)) + (if Returns(s, a, ok) then 1 else 0)
  {
    match a
    case Go(i, branch) =>
      if i < |s.threads| && ThreadEffect(cfg, s, s.threads[i], branch).Some? { GoCounts(cfg, s, i, branch, ok); }
    case _ => OtherCounts(cfg, s, a, ok);
  }

  lemma OtherCounts(cfg: Config, s: State, a: Action, ok: bool)
    requires !a.Go?
    ensures var s1 := Exec(cfg, s, a);
            CountOf(s1, ok) == CountOf(s, ok) && Sum(UncountedIn(s1.threads, ok)) == Sum(UncountedIn(s.threads, ok))
  {
    match a
    case Start => UncountedSpawned(s.threads, seq(cfg.workers, i => Idle), ok);
    case Call(batch) => UncountedSpawned(s.threads, [Submitting(batch)], ok);
    case _ =>
  }

  /** TotalSuccessfulBatches and TotalFailedBatches are the calls of ProcessBatch that returned without and
      with an error, up to the workers that have not counted theirs. */
  lemma {:induction false} OutcomesCounted(cfg: Config, actions: seq<Action>, ok: bool)
    ensures var s := Run(cfg, actions);
            ProcessorReturns(cfg, actions, ok) == CountOf(s, ok) + Sum(UncountedIn(s.threads, ok))
  {
    if actions != [] {
      var n := |actions| - 1;
      OutcomesCounted(cfg, actions[..n], ok);
      ExecCounts(cfg, Run(cfg, actions[..n]), actions[n], ok);
    }
  }

  // ------------------------------------------------------ workers and the end

  /** Goroutines started as workers: still working, or finished. */
  function StartedAsWorker(pc: Pc): int { if IsWorker(pc) || pc.Exited? then 1 else 0 }

  function WorkersIn(threads: seq<Pc>): (r: seq<int>)
    ensures |r| == |threads| && forall i :: 0 <= i < |threads| ==> r[i] == StartedAsWorker(threads[i])
  {
    if threads == [] then [] else [StartedAsWorker(threads[0])] + WorkersIn(threads[1..])
  }

  lemma {:induction false} WorkersSum(threads: seq<Pc>, w: int)
    requires forall i :: 0 <= i < |threads| ==> StartedAsWorker(threads[i]) == w
    ensures Sum(WorkersIn(threads)) == w * |threads|
  {
    if threads != [] { WorkersSum(threads[1..], w); }
  }

  lemma WorkersAppend(a: seq<Pc>, b: seq<Pc>)
    ensures Sum(WorkersIn(a + b)) == Sum(WorkersIn(a)) + Sum(WorkersIn(b))
  {
    assert WorkersIn(a + b) == WorkersIn(a) + WorkersIn(b);
    SumAppend(WorkersIn(a), WorkersIn(b));
  }

  /** A step neither makes nor unmakes a worker, and no worker starts another. */
  lemma EffectKeepsWorker(cfg: Config, s: State, pc: Pc, branch: Branch)
    requires ThreadEffect(cfg, s, pc, branch).Some?
    ensures var e := ThreadEffect(cfg, s, pc, branch).value;
            StartedAsWorker(e.pc) == StartedAsWorker(pc) && (e.spawn.Some? ==> StartedAsWorker(e.spawn.value) == 0)
  {
  }

  lemma GoKeepsWorkers(cfg: Config, s: State, i: nat, branch: Branch)
    requires i < |s.threads| && ThreadEffect(cfg, s, s.threads[i], branch).Some?
    ensures var e := ThreadEffect(cfg, s, s.threads[i], branch).value;
            (e.take ==> s.queue != []) && Sum(WorkersIn(Apply(s, i, e).threads)) == Sum(WorkersIn(s.threads))
  {
    var e := ThreadEffect(cfg, s, s.threads[i], branch).value;
    EffectKeepsWorker(cfg, s, s.threads[i], branch);
    assert WorkersIn(s.threads[i := e.pc]) == WorkersIn(s.threads)[i := StartedAsWorker(e.pc)];
    SumUpdate(WorkersIn(s.threads), i, StartedAsWorker(e.pc));
    WorkersAppend(s.threads[i := e.pc], Opt(e.spawn));
    WorkersSum(Opt(e.spawn), 0);
  }

  /** All the configured workers were started, or none and then the controller is not running. */
  ghost predicate Staffed(cfg: Config, s: State) {
    || Sum(WorkersIn(s.threads)) == cfg.workers
    || (Sum(WorkersIn(s.threads)) == 0 && s.status != Running)
  }

  lemma ExecKeepsStaff(cfg: Config, s: State, a: Action)
    requires Staffed(cfg, s) && (s.status == NotStarted ==> s.threads == [])
    ensures Staffed(cfg, Exec(cfg, s, a))
  {
    match a
    case Go(i, branch) =>
      if i < |s.threads| && ThreadEffect(cfg, s, s.threads[i], branch).Some? { GoKeepsWorkers(cfg, s, i, branch); }
    case Start =>
      WorkersAppend(s.threads, seq(cfg.workers, i => Idle));
      WorkersSum(seq(cfg.workers, i => Idle), 1);
    case Call(batch) =>
      WorkersAppend(s.threads, [Submitting(batch)]);
      WorkersSum([Submitting(batch)], 0);
    case _ =>
  }

  /** A running controller has exactly the configured number of workers, in every interleaving. */
  lemma {:induction false} WorkersStarted(cfg: Config, actions: seq<Action>)
    ensures Staffed(cfg, Run(cfg, actions))
  {
    if actions != [] {
      var n := |actions| - 1;
      WorkersStarted(cfg, actions[..n]);
      RunKeepsInv(cfg, actions[..n]);
      ExecKeepsStaff(cfg, Run(cfg, actions[..n]), actions[n]);
    }
  }

  /** A client's call gets in exactly while the controller is running. */
  lemma CallsNeedRunning(cfg: Config, s: State, batch: Batch)
    ensures |Exec(cfg, s, Call(batch)).threads| == |s.threads| + (if s.status == Running then 1 else 0)
  {
  }

  /** Stopped, and every goroutine is finished. */
  ghost predicate Finished(s: State) {
    s.status == Stopped && forall i :: 0 <= i < |s.threads| ==> s.threads[i] == Done || s.threads[i] == Exited
  }

  lemma FinishedStep(cfg: Config, s: State, a: Action)
    requires Finished(s)
    ensures var s1 := Exec(cfg, s, a);
            && s1 == s.(deadLetterQueue := s1.deadLetterQueue, consumed := s1.consumed)
            && s1.consumed + s1.deadLetterQueue == s.consumed + s.deadLetterQueue
  {
    if a.ConsumeDeadLetter? && s.deadLetterQueue != [] {
      assert s.deadLetterQueue == [s.deadLetterQueue[0]] + s.deadLetterQueue[1..];
      AssocBatches(s.consumed, [s.deadLetterQueue[0]], s.deadLetterQueue[1..]);
    }
  }

  /** From then on nothing happens any more, whatever is called: no submission is taken, none is lost, and
      only the dead-letter queue can still be emptied. */
  lemma {:induction false} FinishedIsFinal(cfg: Config, actions: seq<Action>, later: seq<Action>)
    requires Finished(Run(cfg, actions))
    ensures var s, s1 := Run(cfg, actions), Run(cfg, actions + later);
            && s1 == s.(deadLetterQueue := s1.deadLetterQueue, consumed := s1.consumed)
            && s1.consumed + s1.deadLetterQueue == s.consumed + s.deadLetterQueue
    decreases |later|
  {
    if later == [] {
      assert actions + later == actions;
    } else {
      var n := |later| - 1;
      assert (actions + later)[..|actions| + n] == actions + later[..n];
      FinishedIsFinal(cfg, actions, later[..n]);
      FinishedStep(cfg, Run(cfg, actions + later[..n]), later[n]);
    }
  }

  // ------------------------------------------- how often one batch is retried

  function Calls(actions: seq<Action>): nat {
    if actions == [] then 0 else Calls(actions[..|actions| - 1]) + (if actions[|actions| - 1].Call? then 1 else 0)
  }

  /** One batch waits in the queue and worker 0 is free. */
  ghost predicate Ready(s: State) {
    && s.status == Running && !s.cancelled && s.semaphore == 0 && s.deadLetterQueue == []
    && |s.queue| == 1 && s.queue[0].retryCount == 0 && |s.threads| > 0 && s.threads[0] == Idle
  }

  lemma RunSnoc(cfg: Config, actions: seq<Action>, a: Action)
    ensures Run(cfg, actions + [a]) == Exec(cfg, Run(cfg, actions), a)
    ensures Calls(actions + [a]) == Calls(actions) + (if a.Call? then 1 else 0)
  {
    assert (actions + [a])[..|actions|] == actions;
  }

  /** Goroutine `i` takes the step `e`. */
  lemma OneStep(cfg: Config, before: seq<Action>, i: nat, branch: Branch, e: Effect) returns (actions: seq<Action>)
    requires i < |Run(cfg, before).threads|
    requires ThreadEffect(cfg, Run(cfg, before), Run(cfg, before).threads[i], branch) == Some(e)
    ensures Calls(actions) == Calls(before)
    ensures (e.take ==> Run(cfg, before).queue != []) && Run(cfg, actions) == Apply(Run(cfg, before), i, e)
  {
    RunSnoc(cfg, before, Go(i, branch));
    actions := before + [Go(i, branch)];
  }

  /** Worker 0 of `s0` holds the batch that was waiting there. */
  ghost predicate WorkerAt(s0: State, s: State, stage: Stage, slots: int) {
    && |s0.queue| > 0 && |s0.threads| > 0
    && s.status == Running && !s.cancelled && s.semaphore == slots && s.queue == [] && s.deadLetterQueue == []
    && s.threads == s0.threads[0 := Holding(s0.queue[0], stage)] && s.stats.retries == s0.stats.retries
  }

  /** Worker 0 moves on with the batch in hand. */
  lemma WorkerMoves(cfg: Config, s0: State, before: seq<Action>, stage: Stage, branch: Branch, e: Effect, next: Stage)
      returns (actions: seq<Action>)
    requires WorkerAt(s0, Run(cfg, before), stage, Run(cfg, before).semaphore)
    requires HoldingEffect(cfg, Run(cfg, before), s0.queue[0], stage, branch) == Some(e)
    requires e.pc == Holding(s0.queue[0], next) && e.put.None? && e.spawn.None? && e.dead.None? && e.stats.retries == s0.stats.retries
    ensures Calls(actions) == Calls(before)
    ensures WorkerAt(s0, Run(cfg, actions), next, Run(cfg, before).semaphore + e.slots)
  {
    var s := Run(cfg, before);
    actions := OneStep(cfg, before, 0, branch, e);
    assert Apply(s, 0, e).threads == s0.threads[0 := Holding(s0.queue[0], next)];
  }

  lemma TakeFirst(cfg: Config, before: seq<Action>) returns (actions: seq<Action>)
    requires Ready(Run(cfg, before))
    ensures Calls(actions) == Calls(before)
    ensures WorkerAt(Run(cfg, before), Run(cfg, actions), Dequeued, 0)
  {
    var s := Run(cfg, before);
    actions := OneStep(cfg, before, 0, First, Quiet(s, Holding(s.queue[0], Dequeued)).(take := true));
  }

  lemma TakeOnce(cfg: Config, before: seq<Action>) returns (actions: seq<Action>)
    requires Ready(Run(cfg, before)) && cfg.maxConcurrent > 0
    ensures Calls(actions) == Calls(before)
    ensures WorkerAt(Run(cfg, before), Run(cfg, actions), Acquired, 1)
  {
    var s := Run(cfg, before);
    var it := s.queue[0];
    actions := TakeFirst(cfg, before);
    actions := WorkerMoves(cfg, s, actions, Dequeued, First, Quiet(Run(cfg, actions), Holding(it, Checked)), Checked);
    actions := WorkerMoves(cfg, s, actions, Checked, First, Quiet(Run(cfg, actions), Holding(it, Acquired)).(slots := 1), Acquired);
  }

  lemma RunProcessor(cfg: Config, s: State, before: seq<Action>) returns (actions: seq<Action>)
    requires WorkerAt(s, Run(cfg, before), Acquired, 1)
    ensures Calls(actions) == Calls(before)
    ensures WorkerAt(s, Run(cfg, actions), Returned(false), 1)
  {
    var it, s0 := s.queue[0], Run(cfg, before);
    var less := s0.stats.(backlogSize := s0.stats.backlogSize - it.batch.size);
    actions := WorkerMoves(cfg, s, before, Acquired, First, Quiet(s0, Holding(it, Processing)).(stats := less), Processing);
    actions := WorkerMoves(cfg, s, actions, Processing, Second, Quiet(Run(cfg, actions), Holding(it, Returned(false))), Returned(false));
  }

  lemma FailOnce(cfg: Config, s: State, before: seq<Action>) returns (actions: seq<Action>)
    requires WorkerAt(s, Run(cfg, before), Returned(false), 1)
    ensures Calls(actions) == Calls(before)
    ensures WorkerAt(s, Run(cfg, actions), Failed, 1)
  {
    var it, s2 := s.queue[0], Run(cfg, before);
    var counted := s2.stats.(processed := s2.stats.processed + 1, failed := s2.stats.failed + 1);
    actions := WorkerMoves(cfg, s, before, Returned(false), First, Quiet(s2, Holding(it, Failed)).(stats := counted), Failed);
  }

  /** The retry of `s0`'s batch, by the goroutine started last, stands at `stage`. */
  ghost predicate RetrierAt(s0: State, s: State, stage: Stage, worker: Pc, slots: int) {
    && |s0.queue| > 0 && |s0.threads| > 0
    && s.status == Running && !s.cancelled && s.semaphore == slots && s.queue == [] && s.deadLetterQueue == []
    && s.threads == s0.threads[0 := worker] + [Holding(s0.queue[0], stage)]
    && s.stats.retries == s0.stats.retries + 1
  }

  lemma HandOver(cfg: Config, s: State, before: seq<Action>) returns (actions: seq<Action>)
    requires WorkerAt(s, Run(cfg, before), Failed, 1) && s.queue[0].retryCount < cfg.retryCount
    ensures Calls(actions) == Calls(before)
    ensures RetrierAt(s, Run(cfg, actions), Sleeping, Idle, 0)
  {
    var it, s0 := s.queue[0], Run(cfg, before);
    var counted := s0.stats.(retries := s0.stats.retries + 1);
    actions := OneStep(cfg, before, 0, First, Quiet(s0, Holding(it, RetryCounted)).(stats := counted));
    var s1 := Run(cfg, actions);
    assert s1.threads == s.threads[0 := Holding(it, RetryCounted)];
    actions := OneStep(cfg, actions, 0, First, Quiet(s1, Releasing).(spawn := Some(Holding(it, Sleeping))));
    var s2 := Run(cfg, actions);
    assert RetrierAt(s, s2, Sleeping, Releasing, 1);
    actions := OneStep(cfg, actions, 0, First, Quiet(s2, Idle).(slots := -1));
    assert Run(cfg, actions).threads == s.threads[0 := Idle] + [Holding(it, Sleeping)];
  }

  lemma RetrierPlace(s0: State, s: State, stage: Stage)
    requires RetrierAt(s0, s, stage, Idle, 0)
    ensures |s.threads| == |s0.threads| + 1 && s.threads[|s0.threads|] == Holding(s0.queue[0], stage)
  {
  }

  /** The retry goroutine moves on, touching nothing else. */
  lemma RetrierMoves(cfg: Config, s0: State, before: seq<Action>, stage: Stage, next: Stage) returns (actions: seq<Action>)
    requires RetrierAt(s0, Run(cfg, before), stage, Idle, 0)
    requires HoldingEffect(cfg, Run(cfg, before), s0.queue[0], stage, First) == Some(Quiet(Run(cfg, before), Holding(s0.queue[0], next)))
    ensures Calls(actions) == Calls(before) && RetrierAt(s0, Run(cfg, actions), next, Idle, 0)
  {
    var s, n := Run(cfg, before), |s0.threads|;
    var e := Quiet(s, Holding(s0.queue[0], next));
    RetrierPlace(s0, s, stage);
    actions := OneStep(cfg, before, n, First, e);
    assert Apply(s, n, e).threads == s0.threads[0 := Idle] + [Holding(s0.queue[0], next)];
  }

  lemma WakeUp(cfg: Config, s: State, before: seq<Action>) returns (actions: seq<Action>)
    requires RetrierAt(s, Run(cfg, before), Sleeping, Idle, 0)
    ensures Calls(actions) == Calls(before) && RetrierAt(s, Run(cfg, actions), Resubmitting, Idle, 0)
  {
    actions := RetrierMoves(cfg, s, before, Sleeping, Waking);
    actions := RetrierMoves(cfg, s, actions, Waking, Resubmitting);
  }

  lemma Requeue(cfg: Config, s: State, before: seq<Action>) returns (actions: seq<Action>)
    requires RetrierAt(s, Run(cfg, before), Resubmitting, Idle, 0) && cfg.maxQueue > 0
    ensures Calls(actions) == Calls(before) && Ready(Run(cfg, actions))
    ensures Run(cfg, actions).stats.retries == s.stats.retries + 1 && Run(cfg, actions).queue[0].batch == s.queue[0].batch
  {
    var it, n, s2 := s.queue[0], |s.threads|, Run(cfg, before);
    RetrierPlace(s, s2, Resubmitting);
    var again := Item(s2.nextTicket, it.batch, 0);
    actions := OneStep(cfg, before, n, First,
                       Quiet(s2, Enqueued(it.batch)).(put := Some(again), done := Some(Outcome(Resubmitted, it))));
    assert Run(cfg, actions).queue == [again];
  }

  /** The failed batch goes to a retry goroutine, which puts it back in the queue. */
  lemma {:induction false} RetryOnce(cfg: Config, before: seq<Action>) returns (actions: seq<Action>)
    requires Ready(Run(cfg, before)) && cfg.maxConcurrent > 0 && cfg.retryCount > 0 && cfg.maxQueue > 0
    ensures Calls(actions) == Calls(before) && Ready(Run(cfg, actions))
    ensures Run(cfg, actions).stats.retries == Run(cfg, before).stats.retries + 1
    ensures Run(cfg, actions).queue[0].batch == Run(cfg, before).queue[0].batch
  {
    var s := Run(cfg, before);
    actions := TakeOnce(cfg, before);
    actions := RunProcessor(cfg, s, actions);
    actions := FailOnce(cfg, s, actions);
    actions := HandOver(cfg, s, actions);
    actions := WakeUp(cfg, s, actions);
    actions := Requeue(cfg, s, actions);
  }

  /** Just started, with one client's batch at stage `pc` and all workers idle. */
  ghost predicate Fresh(cfg: Config, s: State, pc: Pc) {
    && s.status == Running && !s.cancelled && s.semaphore == 0 && s.stats.retries == 0 && s.stats.backlogSize == 0
    && s.deadLetterQueue == []
    && |s.threads| == cfg.workers + 1 && s.threads[cfg.workers] == pc
    && forall i :: 0 <= i < cfg.workers ==> s.threads[i] == Idle
  }

  lemma CallOnce(cfg: Config, batch: Batch) returns (actions: seq<Action>)
    ensures Calls(actions) == 1 && Fresh(cfg, Run(cfg, actions), Submitting(batch)) && Run(cfg, actions).queue == []
  {
    RunSnoc(cfg, [], Start);
    assert [] + [Start] == [Start];
    RunSnoc(cfg, [Start], Call(batch));
    actions := [Start] + [Call(batch)];
  }

  lemma QueueOnce(cfg: Config, batch: Batch) returns (actions: seq<Action>)
    requires cfg.maxQueue > 0
    ensures Calls(actions) == 1 && Fresh(cfg, Run(cfg, actions), Enqueued(batch))
    ensures var s := Run(cfg, actions);
            |s.queue| == 1 && s.queue[0].batch == batch && s.queue[0].retryCount == 0
  {
    actions := CallOnce(cfg, batch);
    var s := Run(cfg, actions);
    var item := Item(s.nextTicket, batch, 0);
    actions := OneStep(cfg, actions, cfg.workers, First, Quiet(s, Enqueued(batch)).(put := Some(item)));
    assert Run(cfg, actions).queue == [item];
  }

  lemma ReadyOnce(cfg: Config, batch: Batch) returns (actions: seq<Action>)
    requires cfg.maxQueue > 0 && cfg.workers > 0
    ensures Calls(actions) == 1 && Ready(Run(cfg, actions))
    ensures Run(cfg, actions).stats.retries == 0 && Run(cfg, actions).queue[0].batch == batch
  {
    actions := QueueOnce(cfg, batch);
  }

  /** One batch in the queue, counted in the backlog, its submitter gone and the workers idle. */
  ghost predicate Counted(s: State, batch: Batch) {
    && s.status == Running && |s.queue| == 1 && s.queue[0].batch == batch && s.stats.backlogSize == batch.size
    && |s.threads| > 0 && s.threads[0] == Idle && forall i :: 0 <= i < |s.threads| ==> s.threads[i] == Idle || s.threads[i] == Done
  }

  lemma CountedOnce(cfg: Config, batch: Batch) returns (actions: seq<Action>)
    requires cfg.maxQueue > 0 && cfg.workers > 0
    ensures Calls(actions) == 1 && Counted(Run(cfg, actions), batch)
  {
    actions := QueueOnce(cfg, batch);
    var s := Run(cfg, actions);
    actions := OneStep(cfg, actions, cfg.workers, First, Quiet(s, Done).(stats := s.stats.(backlogSize := batch.size)));
  }

  /** The leak happens: a single batch whose context ran out before a worker took it is skipped, and with an
      empty queue and all goroutines at rest the backlog shows its size for good. */
  lemma SkippedBatchLeaks(cfg: Config, batch: Batch) returns (actions: seq<Action>)
    requires cfg.maxQueue > 0 && cfg.workers > 0
    ensures var s := Run(cfg, actions);
            Calls(actions) == 1 && s.queue == [] && AtRest(s) && s.stats.backlogSize == batch.size
  {
    actions := CountedOnce(cfg, batch);
    var s := Run(cfg, actions);
    var item := s.queue[0];
    actions := OneStep(cfg, actions, 0, First, Quiet(s, Holding(item, Dequeued)).(take := true));
    var s1 := Run(cfg, actions);
    assert s1.queue == [] && s1.threads == s.threads[0 := Holding(item, Dequeued)];
    actions := OneStep(cfg, actions, 0, Second, Quiet(s1, Idle).(done := Some(Outcome(Skipped, item))));
    var s2 := Run(cfg, actions);
    assert s2.queue == [] && s2.threads == s1.threads[0 := Idle];
  }

  /** The submission last finished. */
  ghost predicate LastOutcome(s: State, fate: Fate, batch: Batch) {
    s.ledger != [] && s.ledger[|s.ledger| - 1].fate == fate && s.ledger[|s.ledger| - 1].item.batch == batch
  }

  /** A batch that is processed without error ends as a success, and its worker is free again. */
  lemma BatchSucceeds(cfg: Config, batch: Batch) returns (actions: seq<Action>)
    requires cfg.maxQueue > 0 && cfg.workers > 0 && cfg.maxConcurrent > 0
    ensures var s := Run(cfg, actions);
            LastOutcome(s, Succeeded, batch) && s.queue == [] && |s.threads| > 0 && s.threads[0] == Idle && s.semaphore == 0
  {
    actions := ReadyOnce(cfg, batch);
    var s := Run(cfg, actions);
    var it := s.queue[0];
    actions := TakeOnce(cfg, actions);
    var s0 := Run(cfg, actions);
    var less := s0.stats.(backlogSize := s0.stats.backlogSize - it.batch.size);
    actions := WorkerMoves(cfg, s, actions, Acquired, First, Quiet(s0, Holding(it, Processing)).(stats := less), Processing);
    actions := WorkerMoves(cfg, s, actions, Processing, First, Quiet(Run(cfg, actions), Holding(it, Returned(true))), Returned(true));
    actions := CountSuccess(cfg, s, actions);
  }

  lemma CountSuccess(cfg: Config, s: State, before: seq<Action>) returns (actions: seq<Action>)
    requires WorkerAt(s, Run(cfg, before), Returned(true), 1)
    ensures var s1 := Run(cfg, actions);
            LastOutcome(s1, Succeeded, s.queue[0].batch) && s1.queue == [] && |s1.threads| > 0 && s1.threads[0] == Idle && s1.semaphore == 0
  {
    var it, s0 := s.queue[0], Run(cfg, before);
    var counted := s0.stats.(processed := s0.stats.processed + 1, succeeded := s0.stats.succeeded + 1);
    actions := OneStep(cfg, before, 0, First, Quiet(s0, Releasing).(done := Some(Outcome(Succeeded, it)), stats := counted));
    var s1 := Run(cfg, actions);
    assert s1.threads[0] == Releasing;
    actions := OneStep(cfg, actions, 0, First, Quiet(s1, Idle).(slots := -1));
  }

  /** A batch whose processing fails when nothing is retried ends in the dead-letter queue if that is enabled,
      and is dropped if not. */
  lemma FailedBatchEnds(cfg: Config, batch: Batch) returns (actions: seq<Action>)
    requires cfg.maxQueue > 0 && cfg.workers > 0 && cfg.maxConcurrent > 0 && cfg.retryCount <= 0
    ensures var s := Run(cfg, actions);
            if cfg.deadLetters then LastOutcome(s, DeadLettered, batch) && s.deadLetterQueue == [batch]
            else LastOutcome(s, Dropped, batch) && s.deadLetterQueue == []
  {
    actions := ReadyOnce(cfg, batch);
    var s := Run(cfg, actions);
    actions := TakeOnce(cfg, actions);
    actions := RunProcessor(cfg, s, actions);
    actions := FailOnce(cfg, s, actions);
    actions := GiveUp(cfg, s, actions);
  }

  lemma GiveUp(cfg: Config, s: State, before: seq<Action>) returns (actions: seq<Action>)
    requires WorkerAt(s, Run(cfg, before), Failed, 1) && s.queue[0].retryCount >= cfg.retryCount && cfg.maxQueue > 0
    ensures var s1, batch := Run(cfg, actions), s.queue[0].batch;
            if cfg.deadLetters then LastOutcome(s1, DeadLettered, batch) && s1.deadLetterQueue == [batch]
            else LastOutcome(s1, Dropped, batch) && s1.deadLetterQueue == []
  {
    var it := s.queue[0];
    actions := WorkerMoves(cfg, s, before, Failed, First, Quiet(Run(cfg, before), Holding(it, DeadLettering(true))), DeadLettering(true));
    var s1 := Run(cfg, actions);
    actions := OneStep(cfg, actions, 0, First, DeadLetterEffect(cfg, s1, it, true));
  }

  /** The configured retry count does not bound the retries of one batch: with any positive count,
      for every `n` there is a run in which a single submitted batch has been retried `n` times and
      waits in the queue again. */
  lemma {:induction false} RetriesUnbounded(cfg: Config, batch: Batch, n: nat) returns (actions: seq<Action>)
    requires cfg.maxQueue > 0 && cfg.workers > 0 && cfg.maxConcurrent > 0 && cfg.retryCount > 0
    ensures Calls(actions) == 1 && Ready(Run(cfg, actions))
    ensures Run(cfg, actions).stats.retries == n && Run(cfg, actions).queue[0].batch == batch
  {
    if n == 0 {
      actions := ReadyOnce(cfg, batch);
    } else {
      var before := RetriesUnbounded(cfg, batch, n - 1);
      actions := RetryOnce(cfg, before);
    }
  }

  /** Without a positive retry count nothing is ever retried; with one, no worker ever sends a batch to the
      dead-letter queue for having used up its retries. */
  lemma OnlySignOfRetryCountMatters(cfg: Config, actions: seq<Action>)
    ensures cfg.retryCount <= 0 ==> Run(cfg, actions).stats.retries == 0
    ensures cfg.retryCount > 0 ==> forall pc :: pc in Run(cfg, actions).threads ==> !WorkerDeadLetters(pc)
  {
    RunKeepsInv(cfg, actions);
  }
}
