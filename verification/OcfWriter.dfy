/** The container writer: header, buffered records, blocks, end marker. */
module OcfWriter {
  import opened Wrappers
  import opened Bytes
  import opened OcfFormat
  import opened OcfObjects

  const DEFAULT_BUFFER_SIZE: nat := 64 * 1024
  const DEFAULT_BLOCK_SIZE: nat := 1000

  /** The block size a configuration stands for. */
  function EffectiveBlockSize(blockSize: int): (n: nat)
    ensures n > 0 && (blockSize > 0 ==> n == blockSize)
  {
    if blockSize <= 0 then DEFAULT_BLOCK_SIZE else blockSize
  }

  lemma {:induction false} EntriesBytesSnoc(order: seq<bytes>, k: bytes, metadata: Metadata)
    requires k in metadata && forall x :: x in order ==> x in metadata
    ensures EntriesBytes(order + [k], metadata) == EntriesBytes(order, metadata) + EntryBytes(k, metadata[k])
  {
    if order == [] {
      assert order + [k] == [k];
      assert EntriesBytes([k], metadata) == EntryBytes(k, metadata[k]) + EntriesBytes([k][1..], metadata);
    } else {
      assert (order + [k])[1..] == order[1..] + [k];
      EntriesBytesSnoc(order[1..], k, metadata);
      Assoc(EntryBytes(order[0], metadata[order[0]]), EntriesBytes(order[1..], metadata), EntryBytes(k, metadata[k]));
    }
  }

  class OcfWriter<R(!new)> {
    const lib: Library<R>
    const blockSize: nat
    const syncMarker: bytes
    const out: BufWriter
    var codec: Option<RecordCodec<R>>
    var codecName: Compression
    var headerWritten: bool
    var buffer: seq<R>

    /** Everything sent out up to and including the header, and the segments sent after it. */
    ghost var prologue: bytes
    ghost var segments: seq<Segment<R>>

    ghost predicate Valid()
      reads this, out
    {
      && blockSize > 0 && |syncMarker| == SYNC_SIZE
      && if headerWritten then
           codec.Some? && out.Contents() == prologue + BodyBytes(FileLayout(), segments)
         else
           out.Contents() == prologue && segments == [] && buffer == []
    }

    ghost function FileLayout(): Layout<R>
      requires codec.Some?
      reads this
    {
      Layout(lib, codec.value, codecName, syncMarker)
    }

    ghost function State(): WriterState<R>
      reads this
    {
      WriterState(segments, buffer)
    }

    /** The sync marker is random in the original and a parameter here. */
    constructor (lib: Library<R>, bufferSize: int, blockSize: int, syncMarker: bytes)
      requires |syncMarker| == SYNC_SIZE
      ensures Valid() && fresh(out) && !headerWritten && out.Contents() == []
      ensures this.lib == lib && this.syncMarker == syncMarker
      ensures this.blockSize == EffectiveBlockSize(blockSize)
    {
      this.lib := lib;
      this.blockSize := EffectiveBlockSize(blockSize);
      this.syncMarker := syncMarker;
      out := new BufWriter(if bufferSize <= 0 then DEFAULT_BUFFER_SIZE else bufferSize);
      codec, codecName, headerWritten, buffer := None, NullCodec, false, [];
      prologue, segments := [], [];
    }

    /** Writes the header; `written` is the caller's map after the call, with the schema and codec
        entries set, and `order` is the order in which the map was ranged over. */
    method WriteHeader(schema: bytes, codecArg: bytes, metadata: Metadata)
      returns (r: Result<(), OcfError>, written: Metadata, ghost order: seq<bytes>)
      requires Valid()
      modifies this, out
      ensures Valid()
      ensures if old(headerWritten) then r == Err(HeaderAlreadyWritten)
              else if ParseCompression(codecArg).None? then r == Err(UnsupportedCodec)
              else if lib.newCodec(schema).None? || !lib.validJson(schema) then r == Err(BadSchema)
              else r.Ok?
      ensures r.Err? ==> out.Contents() == old(out.Contents()) && headerWritten == old(headerWritten)
                         && State() == old(State())
      ensures r.Ok? ==>
                && written == metadata[SCHEMA_KEY := schema][CODEC_KEY := codecArg]
                && IsIterationOrder(order, written.Keys)
                && headerWritten && State() == WriterState([], [])
                && prologue == old(out.Contents()) + HeaderBytes(order, written, syncMarker)
                && codec == lib.newCodec(schema) && Some(codecName) == ParseCompression(codecArg)
    {
      written, order := metadata, [];
      if headerWritten { return Err(HeaderAlreadyWritten), written, order; }
      var compression := ParseCompression(codecArg);
      if compression.None? { return Err(UnsupportedCodec), written, order; }
      var newCodec := lib.newCodec(schema);
      if newCodec.None? { return Err(BadSchema), written, order; }
      codec, codecName := newCodec, compression.value;
      if !lib.validJson(schema) { return Err(BadSchema), written, order; }

      ghost var before := out.Contents();
      out.Write(MAGIC);
      written := metadata[SCHEMA_KEY := schema][CODEC_KEY := codecArg];
      out.Write(PutInt64(|written|));
      order := WriteMetadata(written);
      out.Write(syncMarker);
      HeaderPieces(before, order, written);
      headerWritten := true;
      prologue := out.Contents();
      r := Ok(());
      assert prologue + BodyBytes(FileLayout(), segments) == prologue;
    }

    /** Ranges over the map in an order of its own choosing. */
    method WriteMetadata(metadata: Metadata) returns (ghost order: seq<bytes>)
      modifies out
      ensures IsIterationOrder(order, metadata.Keys)
      ensures out.Contents() == old(out.Contents()) + EntriesBytes(order, metadata)
    {
      order := [];
      ghost var lead := out.Contents();
      var keys := metadata.Keys;
      assert lead + [] == lead;
      while keys != {}
        invariant keys <= metadata.Keys
        invariant IsIterationOrder(order, metadata.Keys - keys)
        invariant out.Contents() == lead + EntriesBytes(order, metadata)
        decreases |keys|
      {
        var key :| key in keys;
        WriteSized(key);
        WriteSized(metadata[key]);
        EntryPieces(lead, order, key, metadata);
        assert forall k :: k in order + [key] <==> k in order || k == key;
        order := order + [key];
        keys := keys - {key};
      }
    }

    lemma EntryPieces(lead: bytes, order: seq<bytes>, key: bytes, metadata: Metadata)
      requires key in metadata && forall k :: k in order ==> k in metadata
      ensures lead + EntriesBytes(order, metadata) + (PutInt64(|key|) + key) + (PutInt64(|metadata[key]|) + metadata[key])
              == lead + EntriesBytes(order + [key], metadata)
    {
      Assoc(lead + EntriesBytes(order, metadata), PutInt64(|key|) + key, PutInt64(|metadata[key]|) + metadata[key]);
      EntriesBytesSnoc(order, key, metadata);
      Assoc(lead, EntriesBytes(order, metadata), EntryBytes(key, metadata[key]));
    }

    lemma HeaderPieces(before: bytes, order: seq<bytes>, written: Metadata)
      requires forall k :: k in order ==> k in written
      ensures before + MAGIC + PutInt64(|written|) + EntriesBytes(order, written) + syncMarker
              == before + HeaderBytes(order, written, syncMarker)
    {
      var entries := EntriesBytes(order, written);
      Assoc(before + MAGIC + PutInt64(|written|), entries, syncMarker);
      Assoc(before + MAGIC, PutInt64(|written|), entries + syncMarker);
      Assoc(before, MAGIC, PutInt64(|written|) + (entries + syncMarker));
    }

    /** A length and then the bytes. */
    method WriteSized(b: bytes)
      modifies out
      ensures out.Contents() == old(out.Contents()) + (PutInt64(|b|) + b)
    {
      out.Write(PutInt64(|b|));
      out.Write(b);
      Assoc(old(out.Contents()), PutInt64(|b|), b);
    }

    method WriteBlock(objects: seq<R>) returns (r: Result<(), OcfError>)
      requires Valid()
      modifies this, out
      ensures Valid() && codec == old(codec) && codecName == old(codecName) && prologue == old(prologue)
      ensures headerWritten == old(headerWritten)
      ensures !headerWritten ==> r == Err(HeaderNotWritten) && State() == old(State()) && out.Contents() == old(out.Contents())
      ensures headerWritten ==>
                (State(), r.Ok?) == WriterStep(codec.value, blockSize, old(State()), WriterOp.WriteBlock(objects))
    {
      if !headerWritten { return Err(HeaderNotWritten); }
      buffer := buffer + objects;
      if |buffer| >= blockSize {
        r := FlushBufferLocked();
      } else {
        r := Ok(());
      }
    }

    /** Encodes and compresses the whole buffer before any byte goes out, so a record that cannot be
        encoded leaves the file and the buffer as they were. */
    method FlushBufferLocked() returns (r: Result<(), OcfError>)
      requires Valid()
      modifies this`buffer, this`segments, out
      ensures Valid()
      ensures headerWritten ==> (State(), r.Ok?) == FlushBuffer(codec.value, old(State()))
      ensures !headerWritten ==> r.Ok? && State() == old(State()) && out.Contents() == old(out.Contents())
      ensures r.Err? ==> r == Err(EncodeFailed)
    {
      if |buffer| == 0 { return Ok(()); }
      var encoded := EncodeObjects(codec.value, buffer);
      if encoded.None? { return Err(EncodeFailed); }
      EmitFrame(|buffer|, Compress(lib, codecName, encoded.value));
      ghost var seg := Data(buffer);
      BodyBytesSnoc(FileLayout(), segments, seg);
      Assoc(prologue, BodyBytes(FileLayout(), segments), SegmentBytes(FileLayout(), seg));
      segments := segments + [seg];
      buffer := [];
      r := Ok(());
    }

    static method EncodeObjects(rc: RecordCodec<R>, objects: seq<R>) returns (encoded: Option<bytes>)
      ensures encoded == if Encodable(rc, objects) then Some(Encoded(rc, objects)) else None
    {
      var data: bytes := [];
      for i := 0 to |objects|
        invariant Encodable(rc, objects[..i])
        invariant data == Encoded(rc, objects[..i])
      {
        var binary := rc.encode(objects[i]);
        if binary.None? { return None; }
        EncodedSnoc(rc, objects[..i], objects[i]);
        assert objects[..i + 1] == objects[..i] + [objects[i]];
        data := data + binary.value;
      }
      assert objects[..|objects|] == objects;
      encoded := Some(data);
    }

    method EmitFrame(count: nat, data: bytes)
      modifies out
      ensures out.Contents() == old(out.Contents()) + FrameBytes(RawBlock(count, data), syncMarker)
    {
      ghost var before := out.Contents();
      out.Write(PutInt64(count));
      out.Write(PutInt64(|data|));
      out.Write(data);
      out.Write(syncMarker);
      FramePieces(before, count, data);
    }

    lemma FramePieces(before: bytes, count: nat, data: bytes)
      ensures before + PutInt64(count) + PutInt64(|data|) + data + syncMarker
              == before + FrameBytes(RawBlock(count, data), syncMarker)
    {
      Assoc(before + PutInt64(count) + PutInt64(|data|), data, syncMarker);
      Assoc(before + PutInt64(count), PutInt64(|data|), data + syncMarker);
      Assoc(before, PutInt64(count), PutInt64(|data|) + (data + syncMarker));
    }

    method Flush() returns (r: Result<(), OcfError>)
      requires Valid()
      modifies this`buffer, this`segments, out
      ensures Valid()
      ensures !headerWritten ==> r.Ok? && out.Contents() == old(out.Contents())
      ensures headerWritten ==> (State(), r.Ok?) == WriterStep(codec.value, blockSize, old(State()), WriterOp.Flush)
      ensures r.Ok? ==> out.sink == out.Contents()
    {
      r := FlushBufferLocked();
      if r.Ok? { out.Flush(); }
    }

    /** Close does not check that a header was written: without one it leaves a bare end marker. */
    method Close() returns (r: Result<(), OcfError>)
      requires Valid()
      modifies this`buffer, this`segments, this`prologue, out
      ensures Valid()
      ensures !headerWritten ==> r.Ok? && out.Contents() == old(out.Contents()) + TerminatorBytes(syncMarker)
      ensures headerWritten ==>
                && prologue == old(prologue)
                && (State(), r.Ok?) == WriterStep(codec.value, blockSize, old(State()), WriterOp.Close)
      ensures r.Ok? ==> out.sink == out.Contents()
    {
      r := FlushBufferLocked();
      if r.Err? {
        return;
      }
      ghost var before, mid := out.Contents(), State();
      out.Write(PutInt64(0));
      out.Write(syncMarker);
      Assoc(before, PutInt64(0), syncMarker);
      if headerWritten {
        BodyBytesSnoc(FileLayout(), segments, End);
        Assoc(prologue, BodyBytes(FileLayout(), segments), SegmentBytes(FileLayout(), End));
        segments := segments + [End];
        assert State() == mid.(segments := mid.segments + [End]);
      } else {
        prologue := out.Contents();
      }
      out.Flush();
    }
  }
}
