/** The bare binary record writer and the hand-written buffered reader. */
module BinaryIo {
  import opened Wrappers
  import opened Numbers
  import opened Bytes
  import opened OcfObjects

  // ------------------------------------------------------- the record writer

  const DEFAULT_BUFFER_RECORDS: nat := 1000
  const DEFAULT_BUFFER_SIZE: nat := 64 * 1024

  datatype Config = Config(buffering: bool, bufferRecords: nat)

  datatype State<R> = State(out: bytes, buffer: seq<R>)

  datatype Op<R> = WriteRecord(record: R) | WriteRecords(records: seq<R>) | Flush | Close

  /** Encodes the buffer in order. A failure leaves the records before the bad one written and the
      whole buffer in place. */
  function FlushRecords<R>(rc: RecordCodec<R>, st: State<R>): (State<R>, bool) {
    var n := EncodablePrefix(rc, st.buffer);
    (State(st.out + Encoded(rc, st.buffer[..n]), if n == |st.buffer| then [] else st.buffer), n == |st.buffer|)
  }

  function Write<R>(rc: RecordCodec<R>, cfg: Config, st: State<R>, xs: seq<R>): (State<R>, bool) {
    if cfg.buffering then
      var st1 := st.(buffer := st.buffer + xs);
      if |st1.buffer| >= cfg.bufferRecords then FlushRecords(rc, st1) else (st1, true)
    else
      var n := EncodablePrefix(rc, xs);
      (st.(out := st.out + Encoded(rc, xs[..n])), n == |xs|)
  }

  function Records<R>(op: Op<R>): seq<R> {
    match op
    case WriteRecord(x) => [x]
    case WriteRecords(xs) => xs
    case _ => []
  }

  function Step<R>(rc: RecordCodec<R>, cfg: Config, st: State<R>, op: Op<R>): (State<R>, bool) {
    if op.Flush? || op.Close? then (if cfg.buffering then FlushRecords(rc, st) else (st, true))
    else Write(rc, cfg, st, Records(op))
  }

  function Run<R>(rc: RecordCodec<R>, cfg: Config, ops: seq<Op<R>>): State<R> {
    if ops == [] then State([], [])
    else Step(rc, cfg, Run(rc, cfg, ops[..|ops| - 1]), ops[|ops| - 1]).0
  }

  function Submitted<R>(ops: seq<Op<R>>): seq<R> {
    if ops == [] then [] else Submitted(ops[..|ops| - 1]) + Records(ops[|ops| - 1])
  }

  lemma PrefixOfEncodable<R>(rc: RecordCodec<R>, xs: seq<R>)
    ensures EncodablePrefix(rc, xs) == |xs| <==> Encodable(rc, xs)
    ensures xs[..|xs|] == xs
  {
  }

  lemma FlushKeeps<R>(rc: RecordCodec<R>, st: State<R>)
    ensures Encodable(rc, st.buffer) ==>
              FlushRecords(rc, st) == (State(st.out + Encoded(rc, st.buffer), []), true)
    ensures !Encodable(rc, st.buffer) ==> !FlushRecords(rc, st).1 && FlushRecords(rc, st).0.buffer == st.buffer
  {
    PrefixOfEncodable(rc, st.buffer);
  }

  /** The records `xs` are accounted for: written or buffered, in order. */
  ghost predicate Holds<R>(rc: RecordCodec<R>, st: State<R>, xs: seq<R>) {
    Encodable(rc, st.buffer) && st.out + Encoded(rc, st.buffer) == Encoded(rc, xs)
  }

  lemma BufferedStep<R>(rc: RecordCodec<R>, st: State<R>, before: seq<R>, xs: seq<R>)
    requires Encodable(rc, st.buffer) <==> Encodable(rc, before)
    requires Encodable(rc, before) ==> Holds(rc, st, before)
    ensures var st1 := st.(buffer := st.buffer + xs);
            && (Encodable(rc, st1.buffer) <==> Encodable(rc, before + xs))
            && (Encodable(rc, before + xs) ==> Holds(rc, st1, before + xs) && Holds(rc, FlushRecords(rc, st1).0, before + xs))
            && (!Encodable(rc, before + xs) ==> FlushRecords(rc, st1).0.buffer == st1.buffer)
  {
    var st1 := st.(buffer := st.buffer + xs);
    EncodableAppend(rc, before, xs);
    EncodableAppend(rc, st.buffer, xs);
    EncodedAppend(rc, before, xs);
    EncodedAppend(rc, st.buffer, xs);
    Assoc(st.out, Encoded(rc, st.buffer), Encoded(rc, xs));
    FlushKeeps(rc, st1);
    assert st1.out + Encoded(rc, st1.buffer) + [] == st1.out + Encoded(rc, st1.buffer);
  }

  lemma UnbufferedStep<R>(rc: RecordCodec<R>, st: State<R>, before: seq<R>, xs: seq<R>)
    requires st.buffer == [] && (Encodable(rc, before) ==> Holds(rc, st, before))
    ensures Encodable(rc, before + xs) ==>
              Holds(rc, st.(out := st.out + Encoded(rc, xs[..EncodablePrefix(rc, xs)])), before + xs)
  {
    EncodableAppend(rc, before, xs);
    EncodedAppend(rc, before, xs);
    PrefixOfEncodable(rc, xs);
    assert forall b: bytes :: b + [] == b;
  }

  /** What is written and buffered together encode `xs`, as long as every record of it can be encoded;
      with buffering, a record that cannot be is still there. */
  ghost predicate Keeps<R>(rc: RecordCodec<R>, cfg: Config, st: State<R>, xs: seq<R>) {
    && (Encodable(rc, xs) ==> Holds(rc, st, xs))
    && (cfg.buffering ==> (Encodable(rc, st.buffer) <==> Encodable(rc, xs)))
    && (!cfg.buffering ==> st.buffer == [])
  }

  lemma StepKeeps<R>(rc: RecordCodec<R>, cfg: Config, st: State<R>, before: seq<R>, op: Op<R>)
    requires Keeps(rc, cfg, st, before)
    ensures Keeps(rc, cfg, Step(rc, cfg, st, op).0, before + Records(op))
  {
    var xs := Records(op);
    assert xs == [] ==> st.buffer + xs == st.buffer && before + xs == before;
    if cfg.buffering {
      BufferedStep(rc, st, before, xs);
    } else {
      UnbufferedStep(rc, st, before, xs);
    }
  }

  /** After any calls, what is written and what is buffered together encode what was submitted, as long
      as every record can be encoded. With buffering, a record that cannot be is never dropped. */
  lemma {:induction false} RunKeeps<R>(rc: RecordCodec<R>, cfg: Config, ops: seq<Op<R>>)
    ensures Keeps(rc, cfg, Run(rc, cfg, ops), Submitted(ops))
  {
    if ops != [] {
      var before, op := ops[..|ops| - 1], ops[|ops| - 1];
      RunKeeps(rc, cfg, before);
      StepKeeps(rc, cfg, Run(rc, cfg, before), Submitted(before), op);
    }
  }

  /** Buffering and the buffer's size make no difference: with encodable records every configuration
      leaves, after Close, exactly the encodings in order. */
  lemma SameBytesForEveryConfig<R>(rc: RecordCodec<R>, cfg: Config, ops: seq<Op<R>>)
    requires Encodable(rc, Submitted(ops))
    ensures Step(rc, cfg, Run(rc, cfg, ops), Op.Close) == (State(Encoded(rc, Submitted(ops)), []), true)
  {
    RunKeeps(rc, cfg, ops);
    var st := Run(rc, cfg, ops);
    FlushKeeps(rc, st);
    assert !cfg.buffering ==> st.out + Encoded(rc, st.buffer) == st.out;
  }

  /** With buffering, Close succeeds exactly when every submitted record could be encoded. */
  lemma BufferedCloseTells<R>(rc: RecordCodec<R>, cfg: Config, ops: seq<Op<R>>)
    requires cfg.buffering
    ensures Step(rc, cfg, Run(rc, cfg, ops), Op.Close).1 <==> Encodable(rc, Submitted(ops))
  {
    RunKeeps(rc, cfg, ops);
    FlushKeeps(rc, Run(rc, cfg, ops));
  }

  /** With buffering fewer records than the configured number wait, as long as all could be encoded; a Flush
      that succeeds leaves none, and everything written. */
  lemma {:induction false} BufferBounded<R>(rc: RecordCodec<R>, cfg: Config, ops: seq<Op<R>>)
    requires cfg.bufferRecords > 0
    ensures var st := Run(rc, cfg, ops);
            !cfg.buffering || |st.buffer| < cfg.bufferRecords || !Encodable(rc, st.buffer)
    ensures cfg.buffering && Encodable(rc, Submitted(ops)) ==> |Run(rc, cfg, ops).buffer| < cfg.bufferRecords
  {
    if ops != [] {
      var before, op := ops[..|ops| - 1], ops[|ops| - 1];
      BufferBounded(rc, cfg, before);
      var st := Run(rc, cfg, before);
      if cfg.buffering {
        FlushKeeps(rc, st);
        FlushKeeps(rc, st.(buffer := st.buffer + Records(op)));
      }
    }
    RunKeeps(rc, cfg, ops);
  }

  /** A Flush that succeeds has written everything submitted, in every configuration. */
  lemma FlushWritesAll<R>(rc: RecordCodec<R>, cfg: Config, ops: seq<Op<R>>)
    requires Encodable(rc, Submitted(ops))
    ensures Step(rc, cfg, Run(rc, cfg, ops), Op.Flush) == (State(Encoded(rc, Submitted(ops)), []), true)
  {
    RunKeeps(rc, cfg, ops);
    var st := Run(rc, cfg, ops);
    FlushKeeps(rc, st);
    assert !cfg.buffering ==> st.out + Encoded(rc, st.buffer) == st.out;
  }

  /** What a call reports: with buffering a write fails exactly when it leaves a full buffer behind, Flush and
      Close exactly when they leave anything; without, a call fails exactly when one of its own records cannot
      be encoded. */
  lemma CallsReport<R>(rc: RecordCodec<R>, cfg: Config, st: State<R>, op: Op<R>)
    requires cfg.bufferRecords > 0
    ensures var (st1, ok) := Step(rc, cfg, st, op);
            if !cfg.buffering then ok <==> Encodable(rc, Records(op))
            else if op.Flush? || op.Close? then ok <==> st1.buffer == []
            else ok <==> |st1.buffer| < cfg.bufferRecords
  {
    PrefixOfEncodable(rc, Records(op));
    FlushKeeps(rc, st);
    FlushKeeps(rc, st.(buffer := st.buffer + Records(op)));
  }

  /** Without buffering a call writes its records up to the first that cannot be encoded. */
  lemma UnbufferedWrites<R>(rc: RecordCodec<R>, cfg: Config, st: State<R>, xs: seq<R>, n: nat)
    requires !cfg.buffering && n <= |xs| && Encodable(rc, xs[..n]) && (n < |xs| ==> rc.encode(xs[n]).None?)
    ensures Step(rc, cfg, st, Op.WriteRecords(xs)) == (State(st.out + Encoded(rc, xs[..n]), st.buffer), n == |xs|)
  {
    PrefixIs(rc, xs, n);
  }

  lemma {:induction false} PrefixIs<R>(rc: RecordCodec<R>, xs: seq<R>, n: nat)
    requires n <= |xs| && Encodable(rc, xs[..n]) && (n < |xs| ==> rc.encode(xs[n]).None?)
    ensures EncodablePrefix(rc, xs) == n
  {
    if n > 0 {
      assert xs[..n][0] == xs[0] && xs[1..][..n - 1] == xs[..n][1..];
      PrefixIs(rc, xs[1..], n - 1);
    }
  }

  function Copies(b: bytes, k: nat): bytes {
    if k == 0 then [] else Copies(b, k - 1) + b
  }

  function Flushes<R>(rc: RecordCodec<R>, st: State<R>, k: nat): State<R> {
    if k == 0 then st else FlushRecords(rc, Flushes(rc, st, k - 1)).0
  }

  /** The price of keeping the buffer: every retry of a failed flush writes the records before the
      bad one again. */
  lemma {:induction false} FailedFlushRepeats<R>(rc: RecordCodec<R>, st: State<R>, k: nat)
    requires !Encodable(rc, st.buffer)
    ensures Flushes(rc, st, k) ==
            State(st.out + Copies(Encoded(rc, st.buffer[..EncodablePrefix(rc, st.buffer)]), k), st.buffer)
  {
    var piece := Encoded(rc, st.buffer[..EncodablePrefix(rc, st.buffer)]);
    if k == 0 {
      assert st.out + [] == st.out;
    } else {
      FailedFlushRepeats(rc, st, k - 1);
      PrefixOfEncodable(rc, st.buffer);
      Assoc(st.out, Copies(piece, k - 1), piece);
    }
  }

  class BinaryWriter<R(!new)> {
    const rc: RecordCodec<R>
    const config: Config
    const out: BufWriter
    var buffer: seq<R>

    ghost function Value(): State<R>
      reads this, out
    {
      State(out.Contents(), buffer)
    }

    /** The schema is set once, before writing. */
    constructor (rc: RecordCodec<R>, bufferSize: int, enableBuffering: bool, bufferRecords: int)
      ensures fresh(out) && Value() == State([], [])
      ensures this.rc == rc
      ensures config == Config(enableBuffering, if bufferRecords <= 0 then DEFAULT_BUFFER_RECORDS else bufferRecords)
    {
      this.rc := rc;
      config := Config(enableBuffering, if bufferRecords <= 0 then DEFAULT_BUFFER_RECORDS else bufferRecords);
      out := new BufWriter(if bufferSize <= 0 then DEFAULT_BUFFER_SIZE else bufferSize);
      buffer := [];
    }

    method WriteRecord(record: R) returns (ok: bool)
      modifies this, out
      ensures (Value(), ok) == Step(rc, config, old(Value()), Op.WriteRecord(record))
    {
      if config.buffering {
        buffer := buffer + [record];
        if |buffer| >= config.bufferRecords {
          ok := FlushBufferLocked();
          return;
        }
        return true;
      }
      EncodedOne(record);
      var binary := rc.encode(record);
      if binary.None? { return false; }
      out.Write(binary.value);
      ok := true;
    }

    lemma EncodedOne(record: R)
      ensures rc.encode(record).Some? ==>
                EncodablePrefix(rc, [record]) == 1 && Encoded(rc, [record][..1]) == rc.encode(record).value
      ensures rc.encode(record).None? ==> EncodablePrefix(rc, [record]) == 0 && Encoded(rc, [record][..0]) == []
      ensures forall b: bytes :: b + [] == b
    {
      EncodedSnoc(rc, [], record);
      assert [] + [record] == [record] && [record][..1] == [record];
      assert forall b: bytes :: [] + b == b;
    }

    /** Without buffering the records go out one by one, and the first failure ends the call. */
    method WriteRecords(records: seq<R>) returns (ok: bool)
      modifies this, out
      ensures (Value(), ok) == Step(rc, config, old(Value()), Op.WriteRecords(records))
    {
      if config.buffering {
        buffer := buffer + records;
        if |buffer| >= config.bufferRecords {
          ok := FlushBufferLocked();
          return;
        }
        return true;
      }
      ok := WriteOneByOne(records);
    }

    method WriteOneByOne(records: seq<R>) returns (ok: bool)
      requires !config.buffering
      modifies this, out
      ensures (Value(), ok) == Write(rc, config, old(Value()), records)
    {
      ghost var base := out.Contents();
      assert base + Encoded(rc, records[..0]) == base;
      for i := 0 to |records|
        invariant i <= EncodablePrefix(rc, records)
        invariant Value() == State(base + Encoded(rc, records[..i]), old(buffer))
      {
        EncodedOne(records[i]);
        EncodedSnoc(rc, records[..i], records[i]);
        assert records[..i + 1] == records[..i] + [records[i]];
        Assoc(base, Encoded(rc, records[..i]), Encoding(rc, records[i]));
        ok := WriteRecord(records[i]);
        if !ok { return; }
      }
      ok := true;
    }

    method FlushBufferLocked() returns (ok: bool)
      modifies this, out
      ensures (Value(), ok) == FlushRecords(rc, old(Value()))
    {
      if |buffer| == 0 {
        assert out.Contents() + [] == out.Contents();
        return true;
      }
      var failed := WriteEach(rc, buffer, out);
      if failed { return false; }
      buffer := [];
      ok := true;
    }

    method Flush() returns (ok: bool)
      modifies this, out
      ensures (Value(), ok) == Step(rc, config, old(Value()), Op.Flush)
      ensures ok ==> out.sink == out.Contents()
    {
      ok := true;
      if config.buffering { ok := FlushBufferLocked(); }
      if ok { out.Flush(); }
    }

    method Close() returns (ok: bool)
      modifies this, out
      ensures (Value(), ok) == Step(rc, config, old(Value()), Op.Close)
      ensures ok ==> out.sink == out.Contents()
    {
      ok := true;
      if config.buffering { ok := FlushBufferLocked(); }
      if ok { out.Flush(); }
    }
  }

  // ------------------------------------------------------ the buffered reader

  datatype ReadError = Eof | Failed(code: int)

  /** One answer of the underlying reader: it may return bytes together with an error. */
  datatype Answer = Answer(data: bytes, error: Option<ReadError>)

  /** What reading with room for `cap` bytes returns, and the answers still to come. */
  function SourceRead(script: seq<Answer>, cap: nat): (bytes, Option<ReadError>, seq<Answer>) {
    if script == [] then ([], Some(Eof), [])
    else if |script[0].data| <= cap then (script[0].data, script[0].error, script[1..])
    else (script[0].data[..cap], None, [Answer(script[0].data[cap..], script[0].error)] + script[1..])
  }

  function SourceBytes(script: seq<Answer>): bytes {
    if script == [] then [] else script[0].data + SourceBytes(script[1..])
  }

  lemma SourceReadConserves(script: seq<Answer>, cap: nat)
    ensures var (data, _, later) := SourceRead(script, cap);
            data + SourceBytes(later) == SourceBytes(script) && |data| <= cap
  {
    if script != [] && |script[0].data| > cap {
      var later := [Answer(script[0].data[cap..], script[0].error)] + script[1..];
      assert later[1..] == script[1..];
      Assoc(script[0].data[..cap], script[0].data[cap..], SourceBytes(script[1..]));
      assert script[0].data[..cap] + script[0].data[cap..] == script[0].data;
    }
  }

  /** Bytes held back in the buffer, and the source's answers still to come. */
  datatype ReaderState = ReaderState(held: bytes, script: seq<Answer>)

  datatype ReadResult = ReadResult(data: bytes, error: Option<ReadError>, next: ReaderState)

  function ServeHeld(held: bytes, script: seq<Answer>, want: nat): ReadResult {
    var n := Min(want, |held|);
    ReadResult(held[..n], None, ReaderState(held[n..], script))
  }

  /** Read asks the source only when the buffer is empty. An error is passed on before the bytes that
      came with it, and an empty answer counts as end of file. */
  function ReadStep(st: ReaderState, cap: nat, want: nat): ReadResult {
    if st.held != [] then ServeHeld(st.held, st.script, want) else ReadFresh(st.script, cap, want)
  }

  function ReadFresh(script: seq<Answer>, cap: nat, want: nat): ReadResult {
    var (data, error, later) := SourceRead(script, cap);
    if error.Some? then ReadResult([], error, ReaderState(data, later))
    else if data == [] then ReadResult([], Some(Eof), ReaderState([], later))
    else ServeHeld(data, later, want)
  }

  function ReadRun(st: ReaderState, cap: nat, wants: seq<nat>): (bytes, ReaderState)
    decreases |wants|
  {
    if wants == [] then ([], st)
    else
      var r := ReadStep(st, cap, wants[0]);
      var (more, last) := ReadRun(r.next, cap, wants[1..]);
      (r.data + more, last)
  }

  lemma ServeConserves(held: bytes, script: seq<Answer>, want: nat)
    ensures var r := ServeHeld(held, script, want);
            r.data + (r.next.held + SourceBytes(r.next.script)) == held + SourceBytes(script)
  {
    var n := Min(want, |held|);
    Assoc(held[..n], held[n..], SourceBytes(script));
    assert held[..n] + held[n..] == held;
  }

  lemma ReadStepConserves(st: ReaderState, cap: nat, want: nat)
    ensures var r := ReadStep(st, cap, want);
            r.data + (r.next.held + SourceBytes(r.next.script)) == st.held + SourceBytes(st.script)
  {
    if st.held != [] {
      ServeConserves(st.held, st.script, want);
    } else {
      var (data, error, later) := SourceRead(st.script, cap);
      SourceReadConserves(st.script, cap);
      EmptyLeft(SourceBytes(st.script));
      EmptyLeft(data + SourceBytes(later));
      if error.None? && data != [] { ServeConserves(data, later, want); }
    }
  }

  /** For any read sizes, and whatever errors come between: the bytes delivered, then those held in
      the buffer, then those the source still has, are the source's bytes. Nothing is lost, repeated
      or reordered by carrying on after an error. */
  lemma {:induction false} ReadRunConserves(st: ReaderState, cap: nat, wants: seq<nat>)
    ensures var (data, last) := ReadRun(st, cap, wants);
            data + (last.held + SourceBytes(last.script)) == st.held + SourceBytes(st.script)
    decreases |wants|
  {
    if wants == [] {
      assert [] + (st.held + SourceBytes(st.script)) == st.held + SourceBytes(st.script);
    } else {
      var r := ReadStep(st, cap, wants[0]);
      ReadStepConserves(st, cap, wants[0]);
      ReadRunConserves(r.next, cap, wants[1..]);
      var (more, last) := ReadRun(r.next, cap, wants[1..]);
      Assoc(r.data, more, last.held + SourceBytes(last.script));
    }
  }

  /** A read that does not fail hands out something, and as much as there is room for while any is held. */
  lemma ReadsMakeProgress(st: ReaderState, cap: nat, want: nat)
    requires ReadStep(st, cap, want).error.None?
    ensures var r := ReadStep(st, cap, want);
            (want > 0 ==> r.data != []) && |r.data| <= want && (r.next.held != [] ==> |r.data| == want)
  {
  }

  /** Errors are the source's own, reported once the buffer is empty, and an empty answer is the end of file. */
  lemma ErrorsAreTheSources(st: ReaderState, cap: nat, want: nat)
    ensures var (came, error, _) := SourceRead(st.script, cap);
            ReadStep(st, cap, want).error ==
            if st.held != [] then None else if error.None? && came == [] then Some(Eof) else error
  {
  }

  /** A source that only ever answers with bytes. */
  predicate Plain(script: seq<Answer>) {
    forall a :: a in script ==> a.data != [] && a.error.None?
  }

  lemma SourceStaysPlain(script: seq<Answer>, cap: nat)
    requires Plain(script) && cap > 0
    ensures var (data, error, later) := SourceRead(script, cap);
            Plain(later) && (script != [] ==> data != [] && error.None?)
  {
    if script != [] {
      assert script[0] in script && forall a :: a in script[1..] ==> a in script;
    }
  }

  lemma NothingLeft(script: seq<Answer>)
    requires Plain(script)
    ensures SourceBytes(script) == [] <==> script == []
  {
    if script != [] { assert script[0] in script; }
  }

  lemma {:induction false} DrainedStays(cap: nat, wants: seq<nat>)
    ensures ReadRun(ReaderState([], []), cap, wants) == ([], ReaderState([], []))
  {
    if wants != [] {
      var r := ReadStep(ReaderState([], []), cap, wants[0]);
      assert r.data == [] && r.next == ReaderState([], []);
      DrainedStays(cap, wants[1..]);
      EmptyLeft(ReadRun(r.next, cap, wants[1..]).0);
    }
  }

  /** Enough reads of any positive sizes deliver everything such a source has, and then report its end. */
  lemma {:induction false} EnoughReadsDeliverAll(st: ReaderState, cap: nat, wants: seq<nat>)
    requires cap > 0 && Plain(st.script) && (forall w :: w in wants ==> w > 0)
    requires |wants| >= |st.held| + |SourceBytes(st.script)|
    ensures ReadRun(st, cap, wants) == (st.held + SourceBytes(st.script), ReaderState([], []))
    ensures forall want: nat :: ReadStep(ReaderState([], []), cap, want).error == Some(Eof)
    decreases |wants|
  {
    NothingLeft(st.script);
    EmptyLeft(SourceBytes(st.script));
    if st.held == [] && st.script == [] {
      DrainedStays(cap, wants);
    } else {
      var r := ReadStep(st, cap, wants[0]);
      SourceStaysPlain(st.script, cap);
      ReadStepConserves(st, cap, wants[0]);
      assert wants[0] in wants && forall w :: w in wants[1..] ==> w in wants;
      assert r.error.None? && Plain(r.next.script);
      ReadsMakeProgress(st, cap, wants[0]);
      assert |r.data| + (|r.next.held| + |SourceBytes(r.next.script)|) == |r.data + (r.next.held + SourceBytes(r.next.script))|;
      EnoughReadsDeliverAll(r.next, cap, wants[1..]);
    }
  }

  /** Reads with the given sizes up to the first error: what was delivered, and the state in which the
      failing read, if any, was made. */
  datatype Stop = Stop(data: bytes, failed: bool, at: ReaderState)

  function ReadToError(st: ReaderState, cap: nat, wants: seq<nat>): Stop
    decreases |wants|
  {
    if wants == [] then Stop([], false, st)
    else
      var r := ReadStep(st, cap, wants[0]);
      if r.error.Some? then Stop([], true, st)
      else
        var more := ReadToError(r.next, cap, wants[1..]);
        more.(data := r.data + more.data)
  }

  /** Bytes handed out before the error, then what came with the error, then what was never asked for. */
  lemma {:induction false} ReadToErrorConserves(st: ReaderState, cap: nat, wants: seq<nat>)
    ensures var stop := ReadToError(st, cap, wants);
            stop.data + (stop.at.held + SourceBytes(stop.at.script)) == st.held + SourceBytes(st.script)
            && (stop.failed ==> stop.at.held == [])
    decreases |wants|
  {
    EmptyLeft(st.held + SourceBytes(st.script));
    if wants != [] {
      var r := ReadStep(st, cap, wants[0]);
      if r.error.None? {
        ReadStepConserves(st, cap, wants[0]);
        ReadToErrorConserves(r.next, cap, wants[1..]);
        var more := ReadToError(r.next, cap, wants[1..]);
        Assoc(r.data, more.data, more.at.held + SourceBytes(more.at.script));
      }
    }
  }

  /** A caller that reads any sizes and stops at the first error misses exactly the bytes that came with
      that error: everything taken from the source was delivered if and only if the failing answer carried
      none. */
  lemma StoppingAtErrorLoses(st: ReaderState, cap: nat, wants: seq<nat>)
    requires ReadToError(st, cap, wants).failed
    ensures var stop := ReadToError(st, cap, wants);
            var (came, _, later) := SourceRead(stop.at.script, cap);
            && stop.data + (came + SourceBytes(later)) == st.held + SourceBytes(st.script)
            && (stop.data + SourceBytes(later) == st.held + SourceBytes(st.script) <==> came == [])
  {
    var stop := ReadToError(st, cap, wants);
    var (came, _, later) := SourceRead(stop.at.script, cap);
    ReadToErrorConserves(st, cap, wants);
    SourceReadConserves(stop.at.script, cap);
    EmptyLeft(SourceBytes(stop.at.script));
    EmptyLeft(SourceBytes(later));
    assert |stop.data + SourceBytes(later)| + |came| == |stop.data + (came + SourceBytes(later))|;
  }

  /** The underlying reader, answering from a script. */
  class Source {
    var script: seq<Answer>
    ghost var taken: bytes

    constructor (script: seq<Answer>)
      ensures this.script == script && taken == []
    {
      this.script := script;
      taken := [];
    }

    method Read(buf: array<byte>) returns (n: nat, error: Option<ReadError>)
      modifies this, buf
      ensures n <= buf.Length && taken == old(taken) + buf[..n]
      ensures (buf[..n], error, script) == SourceRead(old(script), buf.Length)
    {
      if script == [] {
        assert buf[..0] == [];
        return 0, Some(Eof);
      }
      var data := script[0].data;
      n := if |data| <= buf.Length then |data| else buf.Length;
      forall i | 0 <= i < n { buf[i] := data[i]; }
      assert buf[..n] == data[..n] && data[..|data|] == data;
      error := if n == |data| then script[0].error else None;
      script := if n == |data| then script[1..] else [Answer(data[n..], script[0].error)] + script[1..];
      taken := taken + buf[..n];
    }
  }

  class BufferedReader {
    const buf: array<byte>
    var reader: Source
    var start: nat
    var end: nat
    ghost var delivered: bytes
    ghost var attached: bytes

    /** Since the source was attached: what it gave is what was delivered and what is held. */
    ghost predicate Valid()
      reads this, buf, reader
    {
      start <= end <= buf.Length && reader.taken == attached + (delivered + buf[start..end])
    }

    ghost function Value(): ReaderState
      requires start <= end <= buf.Length
      reads this, buf, reader
    {
      ReaderState(buf[start..end], reader.script)
    }

    constructor (r: Source, size: nat)
      ensures Valid() && fresh(buf) && buf.Length == size && reader == r
      ensures Value() == ReaderState([], r.script) && delivered == []
    {
      buf := new byte[size];
      reader, start, end := r, 0, 0;
      delivered, attached := [], r.taken;
    }

    method Read(p: array<byte>) returns (n: nat, error: Option<ReadError>)
      requires Valid() && p != buf
      modifies this`start, this`end, this`delivered, buf, p, reader
      ensures Valid() && n <= p.Length && delivered == old(delivered) + p[..n]
      ensures ReadResult(p[..n], error, Value()) == ReadStep(old(Value()), buf.Length, p.Length)
    {
      if start >= end {
        n, error := ReadFromSource(p);
        return;
      }
      n := Serve(p);
      error := None;
    }

    /** The buffer is empty: ask the source once. */
    method ReadFromSource(p: array<byte>) returns (n: nat, error: Option<ReadError>)
      requires Valid() && p != buf && start >= end
      modifies this`start, this`end, this`delivered, buf, p, reader
      ensures Valid() && n <= p.Length && delivered == old(delivered) + p[..n]
      ensures ReadResult(p[..n], error, Value()) == ReadFresh(old(reader.script), buf.Length, p.Length)
    {
      error := Fill();
      assert p[..0] == [] && delivered + [] == delivered;
      if error.Some? { return 0, error; }
      if end == 0 { return 0, Some(Eof); }
      n := Serve(p);
      error := None;
    }

    method Fill() returns (error: Option<ReadError>)
      requires Valid() && start >= end
      modifies this`start, this`end, buf, reader
      ensures Valid() && start == 0
      ensures (Value().held, error, Value().script) == SourceRead(old(reader.script), buf.Length)
    {
      start := 0;
      end, error := reader.Read(buf);
      Assoc(attached, delivered, buf[..end]);
      assert buf[start..end] == buf[..end];
    }

    method Serve(p: array<byte>) returns (n: nat)
      requires Valid() && p != buf && start < end
      modifies this`start, this`delivered, p
      ensures Valid() && n <= p.Length && delivered == old(delivered) + p[..n]
      ensures ReadResult(p[..n], None, Value()) == ServeHeld(old(Value()).held, reader.script, p.Length)
    {
      ghost var held := buf[start..end];
      n := Min(p.Length, end - start);
      CopyOut(p, n);
      SplitHeld(delivered, held, n);
      SplitSlice(buf, start, n, end);
      start := start + n;
      delivered := delivered + p[..n];
    }

    static lemma SplitSlice(a: array<byte>, from: nat, n: nat, to: nat)
      requires from + n <= to <= a.Length
      ensures a[from..from + n] == a[from..to][..n] && a[from + n..to] == a[from..to][n..]
    {
    }

    static lemma SplitHeld(delivered: bytes, held: bytes, n: nat)
      requires n <= |held|
      ensures delivered + held == delivered + held[..n] + held[n..]
    {
      assert held[..n] + held[n..] == held;
      Assoc(delivered, held[..n], held[n..]);
    }

    method CopyOut(p: array<byte>, n: nat)
      requires p != buf && start + n <= buf.Length && n <= p.Length
      modifies p
      ensures p[..n] == buf[start..start + n]
    {
      forall i | 0 <= i < n { p[i] := buf[start + i]; }
    }

    /** A new source; bytes held from the old one are dropped. */
    method Reset(r: Source)
      modifies this
      ensures Valid() && reader == r && delivered == [] && Value() == ReaderState([], r.script)
    {
      reader, start, end := r, 0, 0;
      delivered, attached := [], r.taken;
      assert buf[0..0] == [];
    }
  }
}
