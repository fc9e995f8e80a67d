/** The writer and converter objects put together: what goes in through WriteBlock comes out of the
    conversion. */
module OcfRoundTrip {
  import opened Wrappers
  import opened Bytes
  import opened OcfFormat
  import opened OcfObjects
  import opened OcfReader
  import opened OcfWriter
  import opened Converter

  /** The map WriteHeader writes. */
  function FullMetadata(schema: bytes, codecArg: bytes, metadata: Metadata): Metadata {
    metadata[SCHEMA_KEY := schema][CODEC_KEY := codecArg]
  }

  function LayoutFor<R>(lib: Library<R>, schema: bytes, codecArg: bytes, sync: bytes): Layout<R>
    requires lib.newCodec(schema).Some? && ParseCompression(codecArg).Some?
  {
    Layout(lib, lib.newCodec(schema).value, ParseCompression(codecArg).value, sync)
  }

  /** Drives a writer object through any calls; a failed call changes what the contract says. */
  method RunOps<R(!new)>(w: OcfWriter<R>, ops: seq<WriterOp<R>>)
    requires w.Valid() && w.headerWritten && w.State() == WriterState([], [])
    modifies w, w.out
    ensures w.Valid() && w.headerWritten && w.prologue == old(w.prologue)
    ensures w.codec == old(w.codec) && w.codecName == old(w.codecName)
    ensures w.State() == WriterRun(w.codec.value, w.blockSize, ops)
  {
    assert ops[..0] == [];
    for i := 0 to |ops|
      invariant w.Valid() && w.headerWritten && w.prologue == old(w.prologue)
      invariant w.codec == old(w.codec) && w.codecName == old(w.codecName)
      invariant w.State() == WriterRun(w.codec.value, w.blockSize, ops[..i])
    {
      var ok;
      assert ops[..i + 1][..i] == ops[..i];
      match ops[i] {
        case WriteBlock(objects) => ok := w.WriteBlock(objects);
        case Flush => ok := w.Flush();
        case Close => ok := w.Close();
      }
    }
    assert ops[..|ops|] == ops;
  }

  lemma RunThenClose<R>(rc: RecordCodec<R>, blockSize: nat, ops: seq<WriterOp<R>>)
    ensures WriterStep(rc, blockSize, WriterRun(rc, blockSize, ops), Close) ==
            (WriterRun(rc, blockSize, ops + [Close]), Encodable(rc, Submitted(ops)))
  {
    CloseSucceedsIff(rc, blockSize, ops);
    assert (ops + [Close])[..|ops|] == ops;
  }

  /** A file written by the writer object: header, the given calls with encodable records, and Close. */
  method WriteFile<R(!new)>(lib: Library<R>, schema: bytes, codecArg: bytes, metadata: Metadata,
      bufferSize: int, blockSize: int, sync: bytes, ops: seq<WriterOp<R>>)
    returns (file: bytes, ghost order: seq<bytes>)
    requires |sync| == SYNC_SIZE
    requires lib.newCodec(schema).Some? && lib.validJson(schema) && ParseCompression(codecArg).Some?
    requires Encodable(lib.newCodec(schema).value, Submitted(ops))
    ensures var f, full := LayoutFor(lib, schema, codecArg, sync), FullMetadata(schema, codecArg, metadata);
            && IsIterationOrder(order, full.Keys)
            && file == HeaderBytes(order, full, sync) + BodyBytes(f, WriterRun(f.rc, EffectiveBlockSize(blockSize), ops + [Close]).segments)
  {
    var w := new OcfWriter(lib, bufferSize, blockSize, sync);
    var ok, written;
    ok, written, order := w.WriteHeader(schema, codecArg, metadata);
    RunOps(w, ops);
    RunThenClose(w.codec.value, w.blockSize, ops);
    ok := w.Close();
    file := w.out.sink;
    assert [] + HeaderBytes(order, written, sync) == HeaderBytes(order, written, sync);
  }

  /** The whole path through the objects, for any calls of WriteBlock and Flush before the Close. */
  method WriteThenConvert<R(!new)>(lib: Library<R>, schema: bytes, codecArg: bytes, metadata: Metadata,
      bufferSize: int, blockSize: int, sync: bytes, ops: seq<WriterOp<R>>)
    returns (file: bytes, r: Result<seq<bytes>, OcfError>)
    requires Lawful(lib) && |sync| == SYNC_SIZE && Close !in ops
    requires lib.newCodec(schema).Some? && lib.validJson(schema) && ParseCompression(codecArg).Some?
    requires GoSizedMap(FullMetadata(schema, codecArg, metadata)) && MetadataFits(FullMetadata(schema, codecArg, metadata))
    requires Encodable(lib.newCodec(schema).value, Submitted(ops))
    requires forall seg :: seg in WriterRun(lib.newCodec(schema).value, EffectiveBlockSize(blockSize), ops + [Close]).segments ==>
               SoundSegment(LayoutFor(lib, schema, codecArg, sync), seg)
    ensures var f := LayoutFor(lib, schema, codecArg, sync);
            if PayloadsFit(f, CONVERTER_MAX_BLOCK_SIZE, WriterRun(f.rc, EffectiveBlockSize(blockSize), ops + [Close]).segments)
            then r == Ok(Encodings(f.rc, Submitted(ops)))
            else r == Err(BadBlockSize)
  {
    ghost var f := LayoutFor(lib, schema, codecArg, sync);
    ghost var order;
    file, order := WriteFile(lib, schema, codecArg, metadata, bufferSize, blockSize, sync, ops);
    WrittenFileConverts(f, order, FullMetadata(schema, codecArg, metadata), EffectiveBlockSize(blockSize), ops);
    var converter := new AvroConverter(lib);
    r := converter.ConvertOCFToBinary(file);
  }
}
