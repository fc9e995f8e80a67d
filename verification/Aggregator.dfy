/** The batch aggregator: a lock-protected object driven by messages, fetches, a timer, expiry and
    close. Its methods are proved against a machine on values, and the machine's runs against the
    promises about messages, limits and counters. */
module Aggregator {
  import opened Wrappers
  import opened Bytes

  datatype Message = Message(key: Option<bytes>, value: bytes)

  function MessageSize(m: Message): nat {
    |m.value| + (match m.key case None => 0 case Some(k) => |k|)
  }

  datatype Strategy = ByTime | BySize | ByCount | Mixed

  datatype Config = Config(strategy: Strategy, maxSize: int, maxCount: int)

  const DEFAULT_MAX_SIZE: int := 10 * 1024 * 1024
  const DEFAULT_MAX_COUNT: int := 1000

  function Normalized(cfg: Config): (r: Config)
    ensures r.maxSize > 0 && r.maxCount > 0 && r.strategy == cfg.strategy
    ensures (cfg.maxSize > 0 ==> r.maxSize == cfg.maxSize) && (cfg.maxCount > 0 ==> r.maxCount == cfg.maxCount)
  {
    Config(cfg.strategy, if cfg.maxSize <= 0 then DEFAULT_MAX_SIZE else cfg.maxSize,
           if cfg.maxCount <= 0 then DEFAULT_MAX_COUNT else cfg.maxCount)
  }

  datatype Status = Building | Ready | Processing | Expired

  datatype Reason = NoReason | SizeLimit | CountLimit | TimeLimit | Forced | Shutdown | ExpiredReason

  datatype BatchValue = BatchValue(messages: seq<Message>, size: int, count: int, status: Status, reason: Reason)

  datatype Stats = Stats(totalMessages: int, totalBatches: int, timeBatches: int, sizeBatches: int,
                         countBatches: int, forcedBatches: int, currentSize: int, currentCount: int)

  /** What became of a batch that is no longer the current one. */
  datatype Fate = Delivered | Lapsed | Overwritten

  datatype Past = Past(fate: Fate, batch: BatchValue)

  datatype State = State(current: BatchValue, closed: bool, stats: Stats, past: seq<Past>)

  const EMPTY_BATCH: BatchValue := BatchValue([], 0, 0, Building, NoReason)
  const INITIAL: State := State(EMPTY_BATCH, false, Stats(0, 0, 0, 0, 0, 0, 0, 0), [])

  datatype Event = Add(msg: Message) | Get | Force | Timer | Expire | Close

  /** The current batch leaves with the given fate and an empty one takes its place. */
  function Replace(st: State, fate: Fate, batch: BatchValue): State {
    st.(past := st.past + [Past(fate, batch)], current := EMPTY_BATCH, stats := st.stats.(currentSize := 0, currentCount := 0))
  }

  predicate LimitsSize(s: Strategy) { s == BySize || s == Mixed }
  predicate LimitsCount(s: Strategy) { s == ByCount || s == Mixed }

  function Append(st: State, msg: Message): State {
    var n := MessageSize(msg);
    var b := st.current;
    st.(current := b.(messages := b.messages + [msg], size := b.size + n, count := b.count + 1),
        stats := st.stats.(totalMessages := st.stats.totalMessages + 1, currentSize := st.stats.currentSize + n,
                           currentCount := st.stats.currentCount + 1))
  }

  function CheckSize(cfg: Config, st: State): State {
    if LimitsSize(cfg.strategy) && st.current.size >= cfg.maxSize then
      st.(current := st.current.(status := Ready, reason := SizeLimit),
          stats := st.stats.(sizeBatches := st.stats.sizeBatches + 1))
    else st
  }

  function CheckCount(cfg: Config, st: State): State {
    if LimitsCount(cfg.strategy) && st.current.count >= cfg.maxCount then
      st.(current := st.current.(status := Ready, reason := CountLimit),
          stats := st.stats.(countBatches := st.stats.countBatches + 1))
    else st
  }

  function Step(cfg: Config, st: State, e: Event): State {
    match e
    case Add(msg) =>
      if st.closed then st
      else
        var open := if st.current.status != Building then Replace(st, Overwritten, st.current) else st;
        CheckCount(cfg, CheckSize(cfg, Append(open, msg)))
    case Get =>
      if st.closed || st.current.status != Ready then st
      else
        Replace(st.(stats := st.stats.(totalBatches := st.stats.totalBatches + 1)), Delivered,
                st.current.(status := Processing))
    case Force =>
      if st.closed || st.current.count <= 0 then st
      else
        var stats := st.stats.(forcedBatches := st.stats.forcedBatches + 1, totalBatches := st.stats.totalBatches + 1);
        Replace(st.(stats := stats), Delivered, st.current.(status := Processing, reason := Forced))
    case Timer =>
      if st.current.status == Building && st.current.count > 0 then
        st.(current := st.current.(status := Ready, reason := TimeLimit),
            stats := st.stats.(timeBatches := st.stats.timeBatches + 1))
      else st
    case Expire =>
      if !st.closed && st.current.status == Building && st.current.count > 0 then
        Replace(st, Lapsed, st.current.(status := Expired, reason := ExpiredReason))
      else st
    case Close =>
      if st.closed then st
      else if st.current.count > 0 && st.current.status == Building then
        st.(closed := true, current := st.current.(status := Ready, reason := Shutdown),
            stats := st.stats.(forcedBatches := st.stats.forcedBatches + 1))
      else st.(closed := true)
  }

  function Run(cfg: Config, events: seq<Event>): State {
    if events == [] then INITIAL else Step(cfg, Run(cfg, events[..|events| - 1]), events[|events| - 1])
  }

  // ---------------------------------------------------------- conservation

  /** The messages whose AddMessage succeeds: those before the first Close. */
  function Accepted(events: seq<Event>): seq<Message> {
    if events == [] then []
    else
      var before, e := events[..|events| - 1], events[|events| - 1];
      Accepted(before) + (if e.Add? && Close !in before then [e.msg] else [])
  }

  function PastMessages(past: seq<Past>): seq<Message> {
    if past == [] then [] else past[0].batch.messages + PastMessages(past[1..])
  }

  lemma {:induction false} PastMessagesSnoc(past: seq<Past>, p: Past)
    ensures PastMessages(past + [p]) == PastMessages(past) + p.batch.messages
  {
    if past == [] {
      assert past + [p] == [p];
      assert PastMessages([p]) == p.batch.messages + PastMessages([p][1..]);
    } else {
      assert (past + [p])[1..] == past[1..] + [p];
      PastMessagesSnoc(past[1..], p);
      Assoc(past[0].batch.messages, PastMessages(past[1..]), p.batch.messages);
    }
  }

  ghost function Kept(st: State): seq<Message> {
    PastMessages(st.past) + st.current.messages
  }

  lemma ReplaceKept(st: State, fate: Fate, batch: BatchValue)
    requires batch.messages == st.current.messages
    ensures Kept(Replace(st, fate, batch)) == Kept(st)
  {
    PastMessagesSnoc(st.past, Past(fate, batch));
    assert PastMessages(st.past) + batch.messages + [] == PastMessages(st.past) + batch.messages;
  }

  lemma AddKeeps(cfg: Config, st: State, msg: Message)
    requires !st.closed
    ensures Kept(Step(cfg, st, Add(msg))) == Kept(st) + [msg]
  {
    ReplaceKept(st, Overwritten, st.current);
    var open := if st.current.status != Building then Replace(st, Overwritten, st.current) else st;
    Assoc(PastMessages(open.past), open.current.messages, [msg]);
  }

  lemma StepKeeps(cfg: Config, st: State, e: Event)
    ensures Kept(Step(cfg, st, e)) == Kept(st) + (if e.Add? && !st.closed then [e.msg] else [])
  {
    assert Kept(st) + [] == Kept(st);
    match e
    case Add(msg) => if !st.closed { AddKeeps(cfg, st, msg); }
    case Get => ReplaceKept(st.(stats := st.stats.(totalBatches := st.stats.totalBatches + 1)), Delivered,
                            st.current.(status := Processing));
    case Force =>
      var stats := st.stats.(forcedBatches := st.stats.forcedBatches + 1, totalBatches := st.stats.totalBatches + 1);
      ReplaceKept(st.(stats := stats), Delivered, st.current.(status := Processing, reason := Forced));
    case Expire => ReplaceKept(st, Lapsed, st.current.(status := Expired, reason := ExpiredReason));
    case _ =>
  }

  lemma {:induction false} ClosedIff(cfg: Config, events: seq<Event>)
    ensures Run(cfg, events).closed <==> Close in events
  {
    if events != [] { ClosedIff(cfg, events[..|events| - 1]); }
  }

  /** In every run no message is lost, repeated or reordered: the batches delivered, expired and
      overwritten, in creation order, and then the current one, hold exactly the accepted messages. */
  lemma {:induction false} RunConserves(cfg: Config, events: seq<Event>)
    ensures Kept(Run(cfg, events)) == Accepted(events)
  {
    if events != [] {
      var before := events[..|events| - 1];
      RunConserves(cfg, before);
      ClosedIff(cfg, before);
      StepKeeps(cfg, Run(cfg, before), events[|events| - 1]);
    }
  }

  // ------------------------------------------------------ state invariants

  function SizeOf(messages: seq<Message>): nat {
    if messages == [] then 0 else SizeOf(messages[..|messages| - 1]) + MessageSize(messages[|messages| - 1])
  }

  ghost predicate Measured(b: BatchValue) {
    b.count == |b.messages| && b.size == SizeOf(b.messages)
  }

  /** The limits every batch keeps: full batches are never more than one message over. */
  ghost predicate WithinLimits(cfg: Config, b: BatchValue) {
    && (LimitsCount(cfg.strategy) ==> b.count <= cfg.maxCount)
    && (LimitsSize(cfg.strategy) && b.messages != [] ==> SizeOf(b.messages[..|b.messages| - 1]) < cfg.maxSize)
  }

  ghost predicate CurrentInv(cfg: Config, st: State) {
    && Measured(st.current) && WithinLimits(cfg, st.current)
    && (st.current.status == Building || st.current.status == Ready)
    && (st.current.status == Ready ==> st.current.count > 0)
    && (st.current.status == Building && LimitsCount(cfg.strategy) ==> st.current.count < cfg.maxCount)
    && (st.current.status == Building && LimitsSize(cfg.strategy) ==> st.current.size < cfg.maxSize)
    && st.stats.currentSize == st.current.size && st.stats.currentCount == st.current.count
  }

  function CountFate(past: seq<Past>, fate: Fate): nat {
    if past == [] then 0 else CountFate(past[..|past| - 1], fate) + (if past[|past| - 1].fate == fate then 1 else 0)
  }

  ghost predicate StatsInv(st: State) {
    && st.stats.totalBatches == CountFate(st.past, Delivered)
    && st.stats.totalBatches + (if st.current.status == Ready then 1 else 0)
       <= st.stats.timeBatches + st.stats.sizeBatches + st.stats.countBatches + st.stats.forcedBatches
  }

  ghost predicate PastInv(cfg: Config, st: State) {
    forall p :: p in st.past ==> p.batch.messages != [] && Measured(p.batch) && WithinLimits(cfg, p.batch)
  }

  ghost predicate Inv(cfg: Config, st: State) {
    CurrentInv(cfg, st) && StatsInv(st) && PastInv(cfg, st)
  }

  lemma CountFateSnoc(past: seq<Past>, p: Past, fate: Fate)
    ensures CountFate(past + [p], fate) == CountFate(past, fate) + (if p.fate == fate then 1 else 0)
  {
    assert (past + [p])[..|past|] == past;
  }

  lemma ReplaceKeeps(cfg: Config, st: State, fate: Fate, batch: BatchValue, stats: Stats)
    requires cfg.maxSize > 0 && cfg.maxCount > 0 && PastInv(cfg, st)
    requires batch.messages != [] && Measured(batch) && WithinLimits(cfg, batch)
    requires CountFate(st.past, Delivered) + (if fate == Delivered then 1 else 0) == stats.totalBatches
    requires stats.totalBatches <= stats.timeBatches + stats.sizeBatches + stats.countBatches + stats.forcedBatches
    ensures Inv(cfg, Replace(st.(stats := stats), fate, batch))
  {
    CountFateSnoc(st.past, Past(fate, batch), Delivered);
  }

  /** The invariant right after appending, before the limits are looked at. */
  ghost predicate Appended(cfg: Config, st: State) {
    && Measured(st.current) && WithinLimits(cfg, st.current) && st.current.count > 0
    && (st.current.status == Building || st.current.status == Ready)
    && st.stats.currentSize == st.current.size && st.stats.currentCount == st.current.count
    && StatsInv(st) && PastInv(cfg, st)
  }

  lemma AppendMeasures(cfg: Config, st: State, msg: Message)
    requires Inv(cfg, st) && st.current.status == Building
    ensures Appended(cfg, Append(st, msg))
  {
    var b := Append(st, msg).current;
    assert b.messages[..|b.messages| - 1] == st.current.messages;
  }

  lemma ChecksKeep(cfg: Config, st: State)
    requires Appended(cfg, st)
    ensures Inv(cfg, CheckCount(cfg, CheckSize(cfg, st)))
  {
    assert Appended(cfg, CheckSize(cfg, st));
  }

  lemma AppendKeeps(cfg: Config, st: State, msg: Message)
    requires Inv(cfg, st) && st.current.status == Building
    ensures Inv(cfg, CheckCount(cfg, CheckSize(cfg, Append(st, msg))))
  {
    AppendMeasures(cfg, st, msg);
    ChecksKeep(cfg, Append(st, msg));
  }

  lemma StepKeepsInv(cfg: Config, st: State, e: Event)
    requires cfg.maxSize > 0 && cfg.maxCount > 0 && Inv(cfg, st)
    ensures Inv(cfg, Step(cfg, st, e))
  {
    var s := st.stats;
    match e
    case Add(msg) =>
      if !st.closed {
        if st.current.status != Building {
          ReplaceKeeps(cfg, st, Overwritten, st.current, s);
          AppendKeeps(cfg, Replace(st, Overwritten, st.current), msg);
        } else {
          AppendKeeps(cfg, st, msg);
        }
      }
    case Get =>
      if !st.closed && st.current.status == Ready {
        ReplaceKeeps(cfg, st, Delivered, st.current.(status := Processing), s.(totalBatches := s.totalBatches + 1));
      }
    case Force =>
      if !st.closed && st.current.count > 0 {
        ReplaceKeeps(cfg, st, Delivered, st.current.(status := Processing, reason := Forced),
                     s.(forcedBatches := s.forcedBatches + 1, totalBatches := s.totalBatches + 1));
      }
    case Expire =>
      if !st.closed && st.current.status == Building && st.current.count > 0 {
        ReplaceKeeps(cfg, st, Lapsed, st.current.(status := Expired, reason := ExpiredReason), s);
      }
    case _ =>
  }

  lemma InitialInv(cfg: Config)
    requires cfg.maxSize > 0 && cfg.maxCount > 0
    ensures Inv(cfg, INITIAL)
  {
  }

  /** Every reachable state: the current batch is building or ready and its counters are exact; no
      batch, current or past, ever exceeds its limits by more than the message that filled it; and the
      number of delivered batches is covered by the reasons counted for them. */
  lemma {:induction false} RunKeepsInv(cfg: Config, events: seq<Event>)
    requires cfg.maxSize > 0 && cfg.maxCount > 0
    ensures Inv(cfg, Run(cfg, events))
  {
    if events == [] {
      InitialInv(cfg);
    } else {
      var before := events[..|events| - 1];
      RunKeepsInv(cfg, before);
      StepKeepsInv(cfg, Run(cfg, before), events[|events| - 1]);
    }
  }

  lemma {:induction false} TotalMessagesExact(cfg: Config, events: seq<Event>)
    ensures Run(cfg, events).stats.totalMessages == |Accepted(events)|
  {
    if events != [] {
      var before := events[..|events| - 1];
      TotalMessagesExact(cfg, before);
      ClosedIff(cfg, before);
    }
  }

  // ------------------------------------------- sizes, reasons and counters

  /** All keys put together, and all values. */
  function Keys(messages: seq<Message>): bytes {
    if messages == [] then []
    else Keys(messages[..|messages| - 1]) + (match messages[|messages| - 1].key case None => [] case Some(k) => k)
  }

  function Values(messages: seq<Message>): bytes {
    if messages == [] then [] else Values(messages[..|messages| - 1]) + messages[|messages| - 1].value
  }

  /** A batch's size is the number of bytes in its keys and values. */
  lemma {:induction false} SizeIsBytes(messages: seq<Message>)
    ensures SizeOf(messages) == |Keys(messages)| + |Values(messages)|
  {
    if messages != [] { SizeIsBytes(messages[..|messages| - 1]); }
  }

  predicate FullBySize(cfg: Config, b: BatchValue) { LimitsSize(cfg.strategy) && b.size >= cfg.maxSize }
  predicate FullByCount(cfg: Config, b: BatchValue) { LimitsCount(cfg.strategy) && b.count >= cfg.maxCount }

  /** The reason a batch was closed for, if not forced: the count if it is full by count, else the size if it
      is full by size, and the timer or the shutdown only when it is neither. */
  ghost predicate ReasonFits(cfg: Config, b: BatchValue) {
    && (b.reason == CountLimit <==> FullByCount(cfg, b))
    && (b.reason == SizeLimit <==> FullBySize(cfg, b) && !FullByCount(cfg, b))
    && (b.reason == NoReason <==> b.status == Building)
  }

  ghost predicate CurrentReason(cfg: Config, st: State) {
    && ReasonFits(cfg, st.current)
    && st.current.reason != Forced && st.current.reason != ExpiredReason
    && (st.current.reason == Shutdown ==> st.closed)
  }

  /** How a batch that left was marked. */
  ghost predicate PastReason(cfg: Config, p: Past) {
    match p.fate
    case Delivered =>
      p.batch.status == Processing && p.batch.reason != ExpiredReason && p.batch.reason != NoReason && p.batch.reason != Shutdown
      && (p.batch.reason != Forced ==> ReasonFits(cfg, p.batch))
    case Lapsed =>
      p.batch.status == Expired && p.batch.reason == ExpiredReason && !FullBySize(cfg, p.batch) && !FullByCount(cfg, p.batch)
    case Overwritten =>
      p.batch.status == Ready && ReasonFits(cfg, p.batch) && p.batch.reason != Forced
  }

  function SizeFilled(cfg: Config, past: seq<Past>): nat {
    if past == [] then 0 else SizeFilled(cfg, past[..|past| - 1]) + (if FullBySize(cfg, past[|past| - 1].batch) then 1 else 0)
  }

  function CountFilled(cfg: Config, past: seq<Past>): nat {
    if past == [] then 0 else CountFilled(cfg, past[..|past| - 1]) + (if FullByCount(cfg, past[|past| - 1].batch) then 1 else 0)
  }

  lemma FilledSnoc(cfg: Config, past: seq<Past>, p: Past)
    ensures SizeFilled(cfg, past + [p]) == SizeFilled(cfg, past) + (if FullBySize(cfg, p.batch) then 1 else 0)
    ensures CountFilled(cfg, past + [p]) == CountFilled(cfg, past) + (if FullByCount(cfg, p.batch) then 1 else 0)
  {
    assert (past + [p])[..|past|] == past;
  }

  /** Each limit's counter is the number of batches, past or current, that ever reached the limit. */
  ghost predicate FillsCounted(cfg: Config, st: State) {
    && st.stats.sizeBatches == SizeFilled(cfg, st.past) + (if FullBySize(cfg, st.current) then 1 else 0)
    && st.stats.countBatches == CountFilled(cfg, st.past) + (if FullByCount(cfg, st.current) then 1 else 0)
  }

  ghost predicate ReasonInv(cfg: Config, st: State) {
    && CurrentReason(cfg, st) && FillsCounted(cfg, st)
    && forall p :: p in st.past ==> PastReason(cfg, p)
  }

  lemma ReplaceKeepsReasons(cfg: Config, st: State, fate: Fate, batch: BatchValue, stats: Stats)
    requires cfg.maxSize > 0 && cfg.maxCount > 0 && ReasonInv(cfg, st)
    requires batch.size == st.current.size && batch.count == st.current.count && PastReason(cfg, Past(fate, batch))
    requires stats.sizeBatches == st.stats.sizeBatches && stats.countBatches == st.stats.countBatches
    ensures ReasonInv(cfg, Replace(st.(stats := stats), fate, batch))
  {
    FilledSnoc(cfg, st.past, Past(fate, batch));
  }

  lemma AppendKeepsReasons(cfg: Config, st: State, msg: Message)
    requires ReasonInv(cfg, st) && st.current.status == Building
    ensures ReasonInv(cfg, CheckCount(cfg, CheckSize(cfg, Append(st, msg))))
  {
  }

  lemma StepKeepsReasons(cfg: Config, st: State, e: Event)
    requires cfg.maxSize > 0 && cfg.maxCount > 0 && Inv(cfg, st) && ReasonInv(cfg, st)
    ensures ReasonInv(cfg, Step(cfg, st, e))
  {
    var s := st.stats;
    match e
    case Add(msg) =>
      if !st.closed {
        if st.current.status != Building {
          ReplaceKeepsReasons(cfg, st, Overwritten, st.current, s);
          AppendKeepsReasons(cfg, Replace(st, Overwritten, st.current), msg);
        } else {
          AppendKeepsReasons(cfg, st, msg);
        }
      }
    case Get =>
      if !st.closed && st.current.status == Ready {
        ReplaceKeepsReasons(cfg, st, Delivered, st.current.(status := Processing), s.(totalBatches := s.totalBatches + 1));
      }
    case Force =>
      if !st.closed && st.current.count > 0 {
        ReplaceKeepsReasons(cfg, st, Delivered, st.current.(status := Processing, reason := Forced),
                            s.(forcedBatches := s.forcedBatches + 1, totalBatches := s.totalBatches + 1));
      }
    case Expire =>
      if !st.closed && st.current.status == Building && st.current.count > 0 {
        ReplaceKeepsReasons(cfg, st, Lapsed, st.current.(status := Expired, reason := ExpiredReason), s);
      }
    case _ =>
  }

  /** In every reachable state each batch carries the reason that closed it, and the size and count counters
      are exactly the numbers of batches that reached those limits. */
  lemma {:induction false} RunKeepsReasons(cfg: Config, events: seq<Event>)
    requires cfg.maxSize > 0 && cfg.maxCount > 0
    ensures ReasonInv(cfg, Run(cfg, events))
  {
    if events != [] {
      var before := events[..|events| - 1];
      RunKeepsReasons(cfg, before);
      RunKeepsInv(cfg, before);
      StepKeepsReasons(cfg, Run(cfg, before), events[|events| - 1]);
    }
  }

  /** Events that close the current batch by time, and by force or shutdown. */
  predicate FiresTimer(st: State, e: Event) { e.Timer? && st.current.status == Building && st.current.messages != [] }

  predicate Forces(st: State, e: Event) {
    !st.closed && st.current.messages != [] && (e.Force? || (e.Close? && st.current.status == Building))
  }

  function TimerFirings(cfg: Config, events: seq<Event>): nat {
    if events == [] then 0
    else
      var before, e := events[..|events| - 1], events[|events| - 1];
      TimerFirings(cfg, before) + (if FiresTimer(Run(cfg, before), e) then 1 else 0)
  }

  function Forcings(cfg: Config, events: seq<Event>): nat {
    if events == [] then 0
    else
      var before, e := events[..|events| - 1], events[|events| - 1];
      Forcings(cfg, before) + (if Forces(Run(cfg, before), e) then 1 else 0)
  }

  lemma StepCounted(cfg: Config, st: State, e: Event)
    requires Measured(st.current)
    ensures var s1 := Step(cfg, st, e).stats;
            && s1.timeBatches == st.stats.timeBatches + (if FiresTimer(st, e) then 1 else 0)
            && s1.forcedBatches == st.stats.forcedBatches + (if Forces(st, e) then 1 else 0)
  {
    match e
    case Add(msg) => AddCountsNothing(cfg, st, msg);
    case _ =>
  }

  lemma AddCountsNothing(cfg: Config, st: State, msg: Message)
    ensures var s1 := Step(cfg, st, Add(msg)).stats;
            s1.timeBatches == st.stats.timeBatches && s1.forcedBatches == st.stats.forcedBatches
  {
  }

  /** The time and forced counters are the numbers of events that closed a batch so. */
  lemma {:induction false} EventsCounted(cfg: Config, events: seq<Event>)
    requires cfg.maxSize > 0 && cfg.maxCount > 0
    ensures Run(cfg, events).stats.timeBatches == TimerFirings(cfg, events)
    ensures Run(cfg, events).stats.forcedBatches == Forcings(cfg, events)
  {
    if events != [] {
      var before := events[..|events| - 1];
      EventsCounted(cfg, before);
      RunKeepsInv(cfg, before);
      StepCounted(cfg, Run(cfg, before), events[|events| - 1]);
    }
  }

  /** What each closing event leaves: after the timer, and after Close, nothing is being built unless it is
      empty; after a Force on an open aggregator, nothing at all. */
  lemma ClosingEventsClose(cfg: Config, events: seq<Event>)
    requires cfg.maxSize > 0 && cfg.maxCount > 0
    ensures var st := Run(cfg, events + [Timer]); st.current.messages == [] || st.current.status == Ready
    ensures var st := Run(cfg, events + [Close]); Close !in events ==> st.current.messages == [] || st.current.status == Ready
    ensures Close !in events ==> Run(cfg, events + [Force]).current.messages == []
  {
    RunSnoc(cfg, events, Timer);
    RunSnoc(cfg, events, Close);
    RunSnoc(cfg, events, Force);
    RunKeepsInv(cfg, events);
    ClosedIff(cfg, events);
  }

  // --------------------------------------------------------- what is lost

  ghost predicate NothingLost(st: State) {
    forall p :: p in st.past ==> p.fate == Delivered
  }

  /** The two ways to lose messages: adding to a ready batch, and expiry of a building one. */
  predicate Loses(st: State, e: Event) {
    !st.closed && (if e.Add? then st.current.status == Ready else e.Expire? && st.current.status == Building && st.current.count > 0)
  }

  lemma StepLoses(cfg: Config, st: State, e: Event)
    requires st.current.status == Building || st.current.status == Ready
    ensures NothingLost(Step(cfg, st, e)) <==> NothingLost(st) && !Loses(st, e)
  {
    var st1 := Step(cfg, st, e);
    assert st.past <= st1.past;
    assert forall p :: p in st.past ==> p in st1.past;
    if |st1.past| > |st.past| { assert st1.past[|st.past|] in st1.past; }
  }

  /** No event of the run meets one of the two losing situations. */
  predicate LossFree(cfg: Config, events: seq<Event>) {
    events == [] ||
    (LossFree(cfg, events[..|events| - 1]) && !Loses(Run(cfg, events[..|events| - 1]), events[|events| - 1]))
  }

  /** A run loses nothing exactly when no AddMessage meets an unfetched ready batch and no expiry meets
      a non-empty building batch. */
  lemma {:induction false} LosesNothingIff(cfg: Config, events: seq<Event>)
    requires cfg.maxSize > 0 && cfg.maxCount > 0
    ensures NothingLost(Run(cfg, events)) <==> LossFree(cfg, events)
  {
    if events != [] {
      var before := events[..|events| - 1];
      LosesNothingIff(cfg, before);
      RunKeepsInv(cfg, before);
      StepLoses(cfg, Run(cfg, before), events[|events| - 1]);
    }
  }

  /** A client that asks for a batch right before each message, and is never overtaken by expiry. */
  predicate Polls(events: seq<Event>) {
    && (forall i :: 0 < i < |events| && events[i].Add? ==> events[i - 1].Get? || events[i - 1].Force?)
    && Expire !in events
  }

  lemma {:induction false} PollingIsLossFree(cfg: Config, events: seq<Event>)
    requires cfg.maxSize > 0 && cfg.maxCount > 0 && Polls(events)
    ensures LossFree(cfg, events)
  {
    if events != [] {
      var n := |events| - 1;
      var before := events[..n];
      PollingIsLossFree(cfg, before);
      assert events[n] in events;
      if n > 0 && events[n].Add? {
        RunKeepsInv(cfg, before[..n - 1]);
        assert before[n - 1] == events[n - 1];
      }
    }
  }

  /** Such a client gets every accepted message, in order, except those still in the current batch. */
  lemma PollingLosesNothing(cfg: Config, events: seq<Event>)
    requires cfg.maxSize > 0 && cfg.maxCount > 0 && Polls(events)
    ensures NothingLost(Run(cfg, events))
    ensures PastMessages(Run(cfg, events).past) + Run(cfg, events).current.messages == Accepted(events)
  {
    RunConserves(cfg, events);
    PollingIsLossFree(cfg, events);
    LosesNothingIff(cfg, events);
  }

  /** After any message the timer finds a batch to mark, or one already full. */
  lemma ReadyAfterTimer(cfg: Config, m: Message)
    ensures var st := Step(cfg, Step(cfg, INITIAL, Add(m)), Timer);
            !st.closed && st.current.status == Ready && st.current.messages == [m] && st.past == []
  {
    var st := CheckSize(cfg, Append(INITIAL, m));
    assert Append(INITIAL, m).current.messages == [m];
    assert Step(cfg, INITIAL, Add(m)) == CheckCount(cfg, st);
  }

  lemma AddOverwrites(cfg: Config, st: State, m: Message)
    requires !st.closed && st.current.status == Ready
    ensures Step(cfg, st, Add(m)).past == st.past + [Past(Overwritten, st.current)]
  {
    var open := Append(Replace(st, Overwritten, st.current), m);
    assert Step(cfg, st, Add(m)) == CheckCount(cfg, CheckSize(cfg, open));
  }

  /** A run that overwrites: the timer marks the batch ready, nobody fetches it, the next message comes. */
  lemma OverwriteLoses(cfg: Config, m: Message, n: Message)
    ensures var st := Run(cfg, [Add(m), Timer] + [Add(n)]);
            !NothingLost(st) && |st.past| == 1 && st.past[0].fate == Overwritten && st.past[0].batch.messages == [m]
  {
    RunOfTwo(cfg, Add(m), Timer);
    ReadyAfterTimer(cfg, m);
    var ready := Run(cfg, [Add(m), Timer]);
    RunSnoc(cfg, [Add(m), Timer], Add(n));
    AddOverwrites(cfg, ready, n);
    assert Step(cfg, ready, Add(n)).past[0] in Step(cfg, ready, Add(n)).past;
  }

  /** A run that expires: the message is lost exactly when it alone does not already fill the batch. */
  lemma ExpiryLoses(cfg: Config, m: Message)
    ensures !NothingLost(Run(cfg, [Add(m), Expire])) <==>
              !(LimitsSize(cfg.strategy) && MessageSize(m) >= cfg.maxSize) && !(LimitsCount(cfg.strategy) && 1 >= cfg.maxCount)
  {
    RunOfTwo(cfg, Add(m), Expire);
    var st := Run(cfg, [Add(m), Expire]);
    if st.past != [] { assert st.past[0] in st.past; }
  }

  lemma RunSnoc(cfg: Config, events: seq<Event>, e: Event)
    ensures Run(cfg, events + [e]) == Step(cfg, Run(cfg, events), e)
  {
    assert (events + [e])[..|events|] == events;
  }

  lemma RunOfTwo(cfg: Config, a: Event, b: Event)
    ensures Run(cfg, [a, b]) == Step(cfg, Step(cfg, INITIAL, a), b)
  {
    RunSnoc(cfg, [], a);
    assert [] + [a] == [a];
    RunSnoc(cfg, [a], b);
    assert [a] + [b] == [a, b];
  }

  /** GetBatch changes the state exactly when it hands out a batch. */
  lemma GetHandsOut(cfg: Config, st: State)
    ensures Step(cfg, st, Get) != st <==> !st.closed && st.current.status == Ready
    ensures Step(cfg, st, Get) != st ==> Step(cfg, st, Get).past == st.past + [Past(Delivered, st.current.(status := Processing))]
  {
    if !st.closed && st.current.status == Ready { assert |Step(cfg, st, Get).past| == |st.past| + 1; }
  }

  // ------------------------------------------------------------- the object

  class Batch {
    var messages: seq<Message>
    var size: int
    var count: int
    var status: Status
    var reason: Reason

    ghost function Value(): BatchValue
      reads this
    {
      BatchValue(messages, size, count, status, reason)
    }

    constructor ()
      ensures Value() == EMPTY_BATCH
    {
      messages, size, count, status, reason := [], 0, 0, Building, NoReason;
    }
  }

  class BatchAggregator {
    const config: Config
    var currentBatch: Batch
    var stats: Stats
    var closed: bool
    ghost var past: seq<Past>

    ghost function Value(): State
      reads this, currentBatch
    {
      State(currentBatch.Value(), closed, stats, past)
    }

    constructor (config: Config)
      ensures this.config == Normalized(config) && Value() == INITIAL && fresh(currentBatch)
    {
      this.config := Normalized(config);
      stats, closed, past := INITIAL.stats, false, [];
      currentBatch := new Batch();
    }

    method CreateNewBatch()
      modifies this`currentBatch, this`stats
      ensures fresh(currentBatch) && currentBatch.Value() == EMPTY_BATCH
      ensures stats == old(stats).(currentSize := 0, currentCount := 0)
    {
      currentBatch := new Batch();
      stats := stats.(currentSize := 0, currentCount := 0);
    }

    /** Fails only on a closed aggregator. A batch that is ready but not fetched is replaced. */
    method AddMessage(msg: Message) returns (ok: bool)
      modifies this, currentBatch
      ensures Value() == Step(config, old(Value()), Add(msg)) && ok == !old(closed)
      ensures currentBatch == old(currentBatch) || (fresh(currentBatch) && unchanged(old(currentBatch)))
    {
      if closed { return false; }
      if currentBatch.status != Building {
        past := past + [Past(Overwritten, currentBatch.Value())];
        CreateNewBatch();
      }
      AppendToCurrent(msg);
      CheckLimits();
      ok := true;
    }

    method AppendToCurrent(msg: Message)
      modifies this`stats, currentBatch
      ensures Value() == Append(old(Value()), msg)
    {
      var msgSize := |msg.value|;
      if msg.key.Some? { msgSize := msgSize + |msg.key.value|; }
      currentBatch.messages := currentBatch.messages + [msg];
      currentBatch.size := currentBatch.size + msgSize;
      currentBatch.count := currentBatch.count + 1;
      stats := stats.(totalMessages := stats.totalMessages + 1, currentSize := stats.currentSize + msgSize,
                      currentCount := stats.currentCount + 1);
    }

    method CheckLimits()
      modifies this`stats, currentBatch
      ensures Value() == CheckCount(config, CheckSize(config, old(Value())))
    {
      if config.strategy == BySize || config.strategy == Mixed {
        if currentBatch.size >= config.maxSize {
          currentBatch.reason, currentBatch.status := SizeLimit, Ready;
          stats := stats.(sizeBatches := stats.sizeBatches + 1);
        }
      }
      if config.strategy == ByCount || config.strategy == Mixed {
        if currentBatch.count >= config.maxCount {
          currentBatch.reason, currentBatch.status := CountLimit, Ready;
          stats := stats.(countBatches := stats.countBatches + 1);
        }
      }
    }

    /** The ready batch, if any. The object handed out is never touched by later calls: the
        aggregator goes on with a new one. */
    method GetBatch() returns (ok: bool, r: Option<Batch>)
      modifies this, currentBatch
      ensures Value() == Step(config, old(Value()), Get) && ok == !old(closed)
      ensures r.Some? <==> !old(closed) && old(currentBatch.status) == Ready
      ensures r.Some? ==> r.value == old(currentBatch) && fresh(currentBatch)
                          && r.value.Value() == old(currentBatch.Value()).(status := Processing)
                          && past == old(past) + [Past(Delivered, r.value.Value())]
    {
      if closed { return false, None; }
      if currentBatch.status == Ready {
        var batch := currentBatch;
        stats := stats.(totalBatches := stats.totalBatches + 1);
        batch.status := Processing;
        past := past + [Past(Delivered, batch.Value())];
        CreateNewBatch();
        return true, Some(batch);
      }
      return true, None;
    }

    /** Whether asking for a batch now would hand one out. */
    method IsBatchReady() returns (ready: bool)
      ensures ready <==> Step(config, Value(), Get) != Value()
    {
      GetHandsOut(config, Value());
      ready := !closed && currentBatch.status == Ready;
    }

    /** Hands out the current batch whatever its status; an error when it is empty. */
    method ForceBatch() returns (r: Option<Batch>)
      modifies this, currentBatch
      ensures Value() == Step(config, old(Value()), Force)
      ensures r.Some? <==> !old(closed) && old(currentBatch.count) > 0
      ensures r.Some? ==> r.value == old(currentBatch) && fresh(currentBatch)
                          && r.value.Value() == old(currentBatch.Value()).(status := Processing, reason := Forced)
                          && past == old(past) + [Past(Delivered, r.value.Value())]
    {
      if closed { return None; }
      if currentBatch.count > 0 {
        currentBatch.reason, currentBatch.status := Forced, Ready;
        stats := stats.(forcedBatches := stats.forcedBatches + 1);
        var batch := currentBatch;
        stats := stats.(totalBatches := stats.totalBatches + 1);
        batch.status := Processing;
        past := past + [Past(Delivered, batch.Value())];
        CreateNewBatch();
        return Some(batch);
      }
      return None;
    }

    /** The body of the batch timer, at whatever moment it gets the lock. */
    method TimerFires()
      modifies this`stats, currentBatch
      ensures Value() == Step(config, old(Value()), Timer)
    {
      if currentBatch.status == Building && currentBatch.count > 0 {
        currentBatch.reason, currentBatch.status := TimeLimit, Ready;
        stats := stats.(timeBatches := stats.timeBatches + 1);
      }
    }

    /** The expiry check; `late` says whether the clock is past the current batch's expiration time. */
    method CheckExpiredBatch(late: bool)
      modifies this, currentBatch
      ensures Value() == if late then Step(config, old(Value()), Expire) else old(Value())
    {
      if closed { return; }
      if late && currentBatch.status == Building && currentBatch.count > 0 {
        currentBatch.reason, currentBatch.status := ExpiredReason, Expired;
        past := past + [Past(Lapsed, currentBatch.Value())];
        CreateNewBatch();
      }
    }

    /** Marks what is left as ready, but no later call hands it out. */
    method CloseAggregator()
      modifies this`closed, this`stats, currentBatch
      ensures Value() == Step(config, old(Value()), Close)
    {
      if closed { return; }
      closed := true;
      if currentBatch.count > 0 && currentBatch.status == Building {
        currentBatch.reason, currentBatch.status := Shutdown, Ready;
        stats := stats.(forcedBatches := stats.forcedBatches + 1);
      }
    }
  }

  lemma ClosedStays(cfg: Config, st: State, e: Event)
    requires st.closed
    ensures var st1 := Step(cfg, st, e);
            st1.closed && st1.past == st.past && st1.current.messages == st.current.messages
  {
  }

  /** Messages left at Close stay undelivered whatever is called afterwards. */
  lemma {:induction false} CloseStrands(cfg: Config, events: seq<Event>, later: seq<Event>)
    requires Close in events
    ensures var st, st1 := Run(cfg, events), Run(cfg, events + later);
            st1.closed && st1.past == st.past && st1.current.messages == st.current.messages
    decreases |later|
  {
    if later == [] {
      assert events + later == events;
      ClosedIff(cfg, events);
    } else {
      var all := events + later;
      assert all[..|all| - 1] == events + later[..|later| - 1];
      CloseStrands(cfg, events, later[..|later| - 1]);
      ClosedStays(cfg, Run(cfg, all[..|all| - 1]), all[|all| - 1]);
    }
  }

  /** A message still there at Close is accepted and yet never delivered, whatever is called later. */
  lemma CloseLoses(cfg: Config, m: Message, later: seq<Event>)
    ensures var events := [Add(m), Close] + later;
            && Accepted(events) == [m]
            && Run(cfg, events).past == [] && Run(cfg, events).current.messages == [m]
  {
    var start := [Add(m), Close];
    RunOfTwo(cfg, Add(m), Close);
    assert start[1] == Close;
    CloseStrands(cfg, start, later);
    assert [] + [m] == [m];
    RunConserves(cfg, start + later);
    assert [] + [m] == [m];
  }
}
