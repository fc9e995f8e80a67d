/** Converting a container file to a list, or a stream, of bare record encodings. */
module Converter {
  import opened Wrappers
  import opened Seqs
  import opened Bytes
  import opened OcfFormat
  import opened OcfObjects
  import opened OcfReader

  const CONVERTER_MAX_BLOCK_SIZE: int := 1024 * 1024 * 1024

  /** The encodings produced before the conversion stops, and why it stops. */
  datatype Conversion = Conversion(records: seq<bytes>, end: OcfError)

  function ConvertBlocks<R>(f: Layout<R>, maxSize: int, s: bytes, acc: seq<bytes>): Conversion
    decreases |s|
  {
    match TakeObjects(f, maxSize, s)
    case Fail(e) => Conversion(acc, e)
    case Took(xs, rest) =>
      var n := EncodablePrefix(f.rc, xs);
      if n < |xs| then Conversion(acc + Encodings(f.rc, xs[..n]), EncodeFailed)
      else ConvertBlocks(f, maxSize, rest, acc + Encodings(f.rc, xs))
  }

  function ConvertFile<R>(lib: Library<R>, s: bytes): Conversion {
    match TakeHeader(lib, s)
    case Fail(e) => Conversion([], e)
    case Took(h, rest) => ConvertBlocks(HeaderLayout(lib, h), CONVERTER_MAX_BLOCK_SIZE, rest, [])
  }

  lemma EncodingsAppend<R>(rc: RecordCodec<R>, xs: seq<R>, ys: seq<R>)
    ensures Encodings(rc, xs + ys) == Encodings(rc, xs) + Encodings(rc, ys)
  {
  }

  lemma ConvertOneBlock<R(!new)>(f: Layout<R>, maxSize: int, xs: seq<R>, tail: bytes, acc: seq<bytes>)
    requires LawfulLayout(f) && xs != [] && Encodable(f.rc, xs) && SoundSegment(f, Data(xs))
    ensures ConvertBlocks(f, maxSize, SegmentBytes(f, Data(xs)) + tail, acc) ==
            if BlockFits(BlockOf(f, xs), maxSize) then ConvertBlocks(f, maxSize, tail, acc + Encodings(f.rc, xs))
            else Conversion(acc, BadBlockSize)
  {
    TakeObjectsBack(f, maxSize, xs, tail);
    assert EncodablePrefix(f.rc, xs) == |xs|;
  }

  /** Converting the body of a written file: block boundaries leave no trace. */
  lemma {:induction false} BodyConverts<R(!new)>(f: Layout<R>, maxSize: int, segs: seq<Segment<R>>, acc: seq<bytes>)
    requires LawfulLayout(f) && GoodSegments(f.rc, segs)
    requires forall seg :: seg in segs ==> SoundSegment(f, seg)
    ensures var r := ConvertBlocks(f, maxSize, BodyBytes(f, segs), acc);
            if PayloadsFit(f, maxSize, BeforeEnd(segs))
            then r == Conversion(acc + Encodings(f.rc, SegmentObjects(BeforeEnd(segs))), EndOfFile)
            else r.end == BadBlockSize
    decreases |segs|
  {
    if segs == [] {
      assert acc + [] == acc;
    } else {
      var seg, tail := segs[0], BodyBytes(f, segs[1..]);
      match seg
      case End =>
        TakeTerminator(f.sync, maxSize, tail);
        assert acc + [] == acc;
      case Data(xs) =>
        assert SoundSegment(f, seg);
        ConvertOneBlock(f, maxSize, xs, tail, acc);
        var later := BeforeEnd(segs[1..]);
        assert BeforeEnd(segs) == [seg] + later && BeforeEnd(segs)[1..] == later;
        if BlockFits(BlockOf(f, xs), maxSize) {
          BodyConverts(f, maxSize, segs[1..], acc + Encodings(f.rc, xs));
          EncodingsAppend(f.rc, xs, SegmentObjects(later));
          Assoc(acc, Encodings(f.rc, xs), Encodings(f.rc, SegmentObjects(later)));
        }
    }
  }

  /** What a header writer leaves: the caller's map with the schema and codec entries set. */
  ghost predicate WrittenHeader<R>(lib: Library<R>, f: Layout<R>, order: seq<bytes>, metadata: Metadata) {
    && IsIterationOrder(order, metadata.Keys) && GoSizedMap(metadata) && MetadataFits(metadata)
    && SCHEMA_KEY in metadata && lib.newCodec(metadata[SCHEMA_KEY]) == Some(f.rc)
    && CODEC_KEY in metadata && ParseCompression(metadata[CODEC_KEY]) == Some(f.compression)
    && f.lib == lib
  }

  /** After a written header the conversion goes on with the blocks. */
  lemma HeaderConverts<R>(f: Layout<R>, order: seq<bytes>, metadata: Metadata, rest: bytes)
    requires WrittenHeader(f.lib, f, order, metadata) && |f.sync| == SYNC_SIZE
    ensures ConvertFile(f.lib, HeaderBytes(order, metadata, f.sync) + rest) == ConvertBlocks(f, CONVERTER_MAX_BLOCK_SIZE, rest, [])
  {
    HeaderRoundTrip(f.lib, order, metadata, f.sync, rest);
  }

  /** Converting the body of a file that was closed. */
  lemma ClosedBodyConverts<R(!new)>(f: Layout<R>, segs: seq<Segment<R>>)
    requires LawfulLayout(f) && GoodSegments(f.rc, segs) && BeforeEnd(segs) + [End] == segs
    requires forall seg :: seg in segs ==> SoundSegment(f, seg)
    ensures var r := ConvertBlocks(f, CONVERTER_MAX_BLOCK_SIZE, BodyBytes(f, segs), []);
            if PayloadsFit(f, CONVERTER_MAX_BLOCK_SIZE, segs)
            then r == Conversion(Encodings(f.rc, SegmentObjects(BeforeEnd(segs))), EndOfFile)
            else r.end == BadBlockSize
  {
    BodyConverts(f, CONVERTER_MAX_BLOCK_SIZE, segs, []);
    EndHasNoPayload(f, CONVERTER_MAX_BLOCK_SIZE, segs);
    EmptyLeft(Encodings(f.rc, SegmentObjects(BeforeEnd(segs))));
  }

  /** The whole path: header, any WriteBlock and Flush calls, Close, then conversion.
      Given payloads within the converter's limit the result is the encodings of the submitted
      records one by one, whatever the block size; otherwise the conversion fails. */
  lemma WrittenFileConverts<R(!new)>(f: Layout<R>, order: seq<bytes>, metadata: Metadata, blockSize: nat, ops: seq<WriterOp<R>>)
    requires LawfulLayout(f) && WrittenHeader(f.lib, f, order, metadata)
    requires Close !in ops && Encodable(f.rc, Submitted(ops))
    requires forall seg :: seg in WriterRun(f.rc, blockSize, ops + [Close]).segments ==> SoundSegment(f, seg)
    ensures var segs := WriterRun(f.rc, blockSize, ops + [Close]).segments;
            var r := ConvertFile(f.lib, HeaderBytes(order, metadata, f.sync) + BodyBytes(f, segs));
            if PayloadsFit(f, CONVERTER_MAX_BLOCK_SIZE, segs)
            then r == Conversion(Encodings(f.rc, Submitted(ops)), EndOfFile)
            else r.end == BadBlockSize
  {
    var segs := WriterRun(f.rc, blockSize, ops + [Close]).segments;
    HeaderConverts(f, order, metadata, BodyBytes(f, segs));
    ClosedSegments(f.rc, blockSize, ops);
    ClosedBodyConverts(f, segs);
  }

  // ------------------------------------------------------- a file cut short

  /** Converted so far: the encodings of `xs` up to the first record that cannot be encoded, which ends it. */
  function Converted<R>(rc: RecordCodec<R>, xs: seq<R>, end: OcfError): Conversion {
    var n := EncodablePrefix(rc, xs);
    Conversion(Encodings(rc, xs[..n]), if n == |xs| then end else EncodeFailed)
  }

  lemma {:induction false} PrefixAppend<R>(rc: RecordCodec<R>, xs: seq<R>, ys: seq<R>)
    requires Encodable(rc, xs)
    ensures EncodablePrefix(rc, xs + ys) == |xs| + EncodablePrefix(rc, ys)
  {
    if xs == [] {
      assert xs + ys == ys;
    } else {
      assert (xs + ys)[0] == xs[0] && (xs + ys)[1..] == xs[1..] + ys;
      PrefixAppend(rc, xs[1..], ys);
    }
  }

  lemma {:induction false} PrefixOfLonger<R>(rc: RecordCodec<R>, xs: seq<R>, all: seq<R>)
    requires xs <= all && EncodablePrefix(rc, xs) < |xs|
    ensures EncodablePrefix(rc, all) == EncodablePrefix(rc, xs)
  {
    if rc.encode(xs[0]).Some? { PrefixOfLonger(rc, xs[1..], all[1..]); }
  }

  lemma BadBlock<R>(rc: RecordCodec<R>, acc: seq<R>, xs: seq<R>, all: seq<R>, end: OcfError)
    requires Encodable(rc, acc) && acc + xs <= all && EncodablePrefix(rc, xs) < |xs|
    ensures Converted(rc, all, end) == Conversion(Encodings(rc, acc) + Encodings(rc, xs[..EncodablePrefix(rc, xs)]), EncodeFailed)
  {
    var n := EncodablePrefix(rc, xs);
    PrefixAppend(rc, acc, xs);
    PrefixOfLonger(rc, acc + xs, all);
    assert all[..|acc| + n] == (acc + xs)[..|acc| + n] == acc + xs[..n];
    EncodingsAppend(rc, acc, xs[..n]);
  }

  lemma AllGood<R>(rc: RecordCodec<R>, xs: seq<R>, end: OcfError)
    requires Encodable(rc, xs)
    ensures Converted(rc, xs, end) == Conversion(Encodings(rc, xs), end)
    ensures EncodablePrefix(rc, xs) == |xs| && xs[..|xs|] == xs
  {
  }

  /** On any bytes, conversion is reading to the end and then encoding, up to the first record that cannot be
      encoded; if there is none the two stop for the same reason. */
  lemma {:induction false} ConvertScans<R>(f: Layout<R>, maxSize: int, s: bytes, acc: seq<R>)
    requires Encodable(f.rc, acc)
    ensures var r := ScanObjects(f, maxSize, s, acc);
            ConvertBlocks(f, maxSize, s, Encodings(f.rc, acc)) == Converted(f.rc, r.objects, r.end)
    decreases |s|
  {
    var r := TakeObjects(f, maxSize, s);
    if r.Fail? {
      AllGood(f.rc, acc, r.error);
    } else if EncodablePrefix(f.rc, r.value) < |r.value| {
      var all := ScanObjects(f, maxSize, s, acc);
      ScanObjectsGrows(f, maxSize, r.rest, acc + r.value);
      BadBlock(f.rc, acc, r.value, all.objects, all.end);
    } else {
      EncodableAppend(f.rc, acc, r.value);
      EncodingsAppend(f.rc, acc, r.value);
      ConvertScans(f, maxSize, r.rest, acc + r.value);
    }
  }

  /** The conversion of the first `k` bytes of a written file, `segs` being its data blocks. */
  ghost predicate CutConverts<R>(f: Layout<R>, header: bytes, segs: seq<Segment<R>>, k: nat)
    requires forall seg :: seg in segs ==> seg.Data?
    requires k <= |header + BodyBytes(f, segs + [End])|
  {
    var r := ConvertFile(f.lib, (header + BodyBytes(f, segs + [End]))[..k]);
    if k < |header| then r.records == [] && r.end != EndOfFile
    else
      var blocks, cut := Blocks(f, segs), k - |header|;
      r == Conversion(Encodings(f.rc, SegmentObjects(segs[..WholeFrames(blocks, f.sync, cut)])),
                      if CleanCut(blocks, f.sync, cut) then EndOfFile else Truncated)
  }

  lemma {:induction false} FirstObjectsEncodable<R>(rc: RecordCodec<R>, segs: seq<Segment<R>>, j: nat)
    requires GoodSegments(rc, segs) && j <= |segs|
    ensures Encodable(rc, SegmentObjects(segs[..j]))
  {
    assert forall seg :: seg in segs[..j] ==> seg in segs;
    WrittenAreEncodable(rc, segs[..j]);
  }

  lemma CutInHeaderConverts<R>(f: Layout<R>, order: seq<bytes>, metadata: Metadata, segs: seq<Segment<R>>, k: nat)
    requires WrittenHeader(f.lib, f, order, metadata) && |f.sync| == SYNC_SIZE
    requires forall seg :: seg in segs ==> seg.Data?
    requires k < |HeaderBytes(order, metadata, f.sync)|
    ensures CutConverts(f, HeaderBytes(order, metadata, f.sync), segs, k)
  {
    var header := HeaderBytes(order, metadata, f.sync);
    CutInside(header, BodyBytes(f, segs + [End]), k);
    CutHeaderRefused(f.lib, order, metadata, f.sync, k);
    HeaderNeverEnds(f.lib, header[..k]);
  }

  lemma CutBlocksConvert<R(!new)>(f: Layout<R>, segs: seq<Segment<R>>, cut: nat)
    requires LawfulLayout(f) && GoodSegments(f.rc, segs) && PayloadsFit(f, CONVERTER_MAX_BLOCK_SIZE, segs)
    requires forall seg :: seg in segs ==> seg.Data? && SoundSegment(f, seg)
    requires cut <= |BodyBytes(f, segs + [End])|
    ensures var blocks := Blocks(f, segs);
            ConvertBlocks(f, CONVERTER_MAX_BLOCK_SIZE, BodyBytes(f, segs + [End])[..cut], []) ==
            Conversion(Encodings(f.rc, SegmentObjects(segs[..WholeFrames(blocks, f.sync, cut)])),
                       if CleanCut(blocks, f.sync, cut) then EndOfFile else Truncated)
  {
    CutBodyReads(f, CONVERTER_MAX_BLOCK_SIZE, segs, cut);
    FirstObjectsEncodable(f.rc, segs, WholeFrames(Blocks(f, segs), f.sync, cut));
    ConvertScans(f, CONVERTER_MAX_BLOCK_SIZE, BodyBytes(f, segs + [End])[..cut], []);
    AllGood(f.rc, SegmentObjects(segs[..WholeFrames(Blocks(f, segs), f.sync, cut)]),
            if CleanCut(Blocks(f, segs), f.sync, cut) then EndOfFile else Truncated);
  }

  lemma CutInBodyConverts<R(!new)>(f: Layout<R>, order: seq<bytes>, metadata: Metadata, segs: seq<Segment<R>>, k: nat)
    requires LawfulLayout(f) && WrittenHeader(f.lib, f, order, metadata)
    requires GoodSegments(f.rc, segs) && PayloadsFit(f, CONVERTER_MAX_BLOCK_SIZE, segs)
    requires forall seg :: seg in segs ==> seg.Data? && SoundSegment(f, seg)
    requires |HeaderBytes(order, metadata, f.sync)| <= k <= |HeaderBytes(order, metadata, f.sync) + BodyBytes(f, segs + [End])|
    ensures CutConverts(f, HeaderBytes(order, metadata, f.sync), segs, k)
  {
    var header, body := HeaderBytes(order, metadata, f.sync), BodyBytes(f, segs + [End]);
    CutPast(header, body, k);
    HeaderConverts(f, order, metadata, body[..k - |header|]);
    CutBlocksConvert(f, segs, k - |header|);
  }

  /** A whole written file cut at any byte. Inside the header the conversion fails; after it, it gives the
      encodings of exactly the records of the blocks whole before the cut, and takes the cut for the end of
      the file exactly at a block boundary and after the end marker. */
  lemma TruncatedFileConverts<R(!new)>(f: Layout<R>, order: seq<bytes>, metadata: Metadata, blockSize: nat, ops: seq<WriterOp<R>>, k: nat)
    requires LawfulLayout(f) && WrittenHeader(f.lib, f, order, metadata)
    requires Close !in ops && Encodable(f.rc, Submitted(ops))
    requires forall seg :: seg in WriterRun(f.rc, blockSize, ops + [Close]).segments ==> SoundSegment(f, seg)
    requires PayloadsFit(f, CONVERTER_MAX_BLOCK_SIZE, WriterRun(f.rc, blockSize, ops + [Close]).segments)
    requires k <= |HeaderBytes(order, metadata, f.sync) + BodyBytes(f, WriterRun(f.rc, blockSize, ops + [Close]).segments)|
    ensures var segs := ClosedData(f.rc, blockSize, ops);
            && segs + [End] == WriterRun(f.rc, blockSize, ops + [Close]).segments
            && SegmentObjects(segs) == Submitted(ops)
            && CutConverts(f, HeaderBytes(order, metadata, f.sync), segs, k)
  {
    var all, segs := WriterRun(f.rc, blockSize, ops + [Close]).segments, ClosedData(f.rc, blockSize, ops);
    ClosedSegments(f.rc, blockSize, ops);
    EndHasNoPayload(f, CONVERTER_MAX_BLOCK_SIZE, all);
    assert segs + [End] == all && forall seg :: seg in segs ==> seg in all;
    if k < |HeaderBytes(order, metadata, f.sync)| {
      CutInHeaderConverts(f, order, metadata, segs, k);
    } else {
      CutInBodyConverts(f, order, metadata, segs, k);
    }
  }

  class AvroConverter<R(!new)> {
    const lib: Library<R>
    var codecCache: map<bytes, RecordCodec<R>>

    ghost predicate Valid()
      reads this
    {
      forall schema :: schema in codecCache ==> lib.newCodec(schema) == Some(codecCache[schema])
    }

    constructor (lib: Library<R>)
      ensures Valid() && this.lib == lib
    {
      this.lib := lib;
      codecCache := map[];
    }

    /** The cache is transparent: cached or not, the codec is the library's. */
    method GetCodec(schema: bytes) returns (r: Option<RecordCodec<R>>)
      requires Valid()
      modifies this
      ensures Valid() && r == lib.newCodec(schema)
    {
      if schema in codecCache { return Some(codecCache[schema]); }
      r := lib.newCodec(schema);
      if r.Some? { codecCache := codecCache[schema := r.value]; }
    }

    /** Opens the file and finds its codec. */
    method Open(data: bytes) returns (r: Result<RecordCodec<R>, OcfError>, reader: OcfReader<R>)
      requires Valid()
      modifies this
      ensures Valid() && fresh(reader) && reader.Valid() && reader.lib == lib
      ensures reader.maxBlockSize == CONVERTER_MAX_BLOCK_SIZE
      ensures match TakeHeader(lib, data)
              case Fail(e) => r == Err(e)
              case Took(h, rest) => reader.headerRead && reader.header == Some(h) && reader.Rest() == rest
                                    && r == Ok(HeaderLayout(lib, h).rc)
    {
      reader := new OcfReader(lib, data, CONVERTER_MAX_BLOCK_SIZE);
      var header := reader.ReadHeader();
      if header.Err? { return Err(header.error), reader; }
      var codec := GetCodec(header.value.schema);
      r := if codec.None? then Err(BadSchema) else Ok(codec.value);
    }

    method ConvertOCFToBinary(ocfData: bytes) returns (r: Result<seq<bytes>, OcfError>)
      requires Valid()
      modifies this
      ensures Valid()
      ensures var c := ConvertFile(lib, ocfData);
              r == if c.end == EndOfFile then Ok(c.records) else Err(c.end)
    {
      var rc, reader := Open(ocfData);
      if rc.Err? {
        HeaderNeverEnds(lib, ocfData);
        return Err(rc.error);
      }
      var c := CollectBlocks(rc.value, reader);
      r := if c.end == EndOfFile then Ok(c.records) else Err(c.end);
    }

    /** The stream form writes each encoding as it goes, so a failure leaves the earlier ones written. */
    method ConvertStreamOCFToBinary(input: bytes, writer: BufWriter) returns (r: Result<(), OcfError>)
      requires Valid()
      modifies this, writer
      ensures Valid()
      ensures var c := ConvertFile(lib, input);
              && writer.Contents() == old(writer.Contents()) + Flatten(c.records)
              && (r.Ok? <==> c.end == EndOfFile) && (r.Err? ==> r.error == c.end)
    {
      var rc, reader := Open(input);
      if rc.Err? {
        HeaderNeverEnds(lib, input);
        return Err(rc.error);
      }
      var end := StreamBlocks(rc.value, reader, writer);
      r := if end == EndOfFile then Ok(()) else Err(end);
    }
  }

  /** A header that fails to parse is never taken for a clean end of file. */
  lemma HeaderNeverEnds<R>(lib: Library<R>, s: bytes)
    ensures TakeHeader(lib, s) != Fail(EndOfFile)
  {
    if TakeMagic(s).Took? { MetadataNeverEnds(TakeMagic(s).rest); }
  }

  lemma MetadataNeverEnds(s: bytes)
    ensures TakeMetadata(s) != Fail(EndOfFile)
  {
    if TakeInt64(s).Took? && 0 <= TakeInt64(s).value { EntriesNeverEnd(TakeInt64(s).value, TakeInt64(s).rest, map[]); }
  }

  lemma {:induction false} EntriesNeverEnd(n: nat, s: bytes, m: Metadata)
    ensures TakeEntries(n, s, m) != Fail(EndOfFile)
  {
    if n > 0 && TakeEntry(s).Took? {
      EntriesNeverEnd(n - 1, TakeEntry(s).rest, m[TakeEntry(s).value.0 := TakeEntry(s).value.1]);
    }
  }

  method CollectBlocks<R(!new)>(rc: RecordCodec<R>, reader: OcfReader<R>) returns (c: Conversion)
    requires reader.Valid() && reader.headerRead && reader.codec == Some(rc)
    modifies reader`pos
    ensures c == ConvertBlocks(HeaderLayout(reader.lib, reader.header.value), reader.maxBlockSize, old(reader.Rest()), [])
  {
    var result: seq<bytes> := [];
    ghost var f, max := HeaderLayout(reader.lib, reader.header.value), reader.maxBlockSize;
    ghost var goal := ConvertBlocks(f, max, reader.Rest(), []);
    while true
      invariant reader.Valid()
      invariant ConvertBlocks(f, max, reader.Rest(), result) == goal
      decreases |reader.Rest()|
    {
      var objects := reader.ReadBlockObjects();
      if objects.Err? { return Conversion(result, objects.error); }
      var records, failed := EncodeEach(rc, objects.value);
      result := result + records;
      if failed { return Conversion(result, EncodeFailed); }
      assert objects.value[..|objects.value|] == objects.value;
    }
  }

  method StreamBlocks<R(!new)>(rc: RecordCodec<R>, reader: OcfReader<R>, writer: BufWriter) returns (end: OcfError)
    requires reader.Valid() && reader.headerRead && reader.codec == Some(rc)
    modifies reader`pos, writer
    ensures var c := ConvertBlocks(HeaderLayout(reader.lib, reader.header.value), reader.maxBlockSize, old(reader.Rest()), []);
            end == c.end && writer.Contents() == old(writer.Contents()) + Flatten(c.records)
  {
    ghost var written: seq<bytes> := [];
    ghost var base := writer.Contents();
    assert base + Flatten(written) == base;
    ghost var f, max := HeaderLayout(reader.lib, reader.header.value), reader.maxBlockSize;
    ghost var goal := ConvertBlocks(f, max, reader.Rest(), []);
    while true
      invariant reader.Valid()
      invariant writer.Contents() == base + Flatten(written)
      invariant ConvertBlocks(f, max, reader.Rest(), written) == goal
      decreases |reader.Rest()|
    {
      var objects := reader.ReadBlockObjects();
      if objects.Err? { return objects.error; }
      ghost var done := objects.value[..EncodablePrefix(rc, objects.value)];
      var failed := WriteEach(rc, objects.value, writer);
      AppendEncodings(rc, base, written, done);
      written := written + Encodings(rc, done);
      if failed { return EncodeFailed; }
      assert done == objects.value;
    }
  }

  lemma AppendEncodings<R>(rc: RecordCodec<R>, base: bytes, written: seq<bytes>, xs: seq<R>)
    ensures base + Flatten(written) + Encoded(rc, xs) == base + Flatten(written + Encodings(rc, xs))
  {
    FlattenAppend(written, Encodings(rc, xs));
    EncodedIsFlattened(rc, xs);
    Assoc(base, Flatten(written), Encoded(rc, xs));
  }

  lemma EncodingsNext<R>(rc: RecordCodec<R>, xs: seq<R>, i: nat)
    requires i < |xs|
    ensures Encodings(rc, xs[..i + 1]) == Encodings(rc, xs[..i]) + [Encoding(rc, xs[i])]
  {
    assert xs[..i + 1] == xs[..i] + [xs[i]];
    EncodingsAppend(rc, xs[..i], [xs[i]]);
    assert Encodings(rc, [xs[i]]) == [Encoding(rc, xs[i])];
  }

  method EncodeEach<R>(rc: RecordCodec<R>, xs: seq<R>) returns (records: seq<bytes>, failed: bool)
    ensures failed <==> EncodablePrefix(rc, xs) < |xs|
    ensures records == Encodings(rc, xs[..EncodablePrefix(rc, xs)])
  {
    records := [];
    for i := 0 to |xs|
      invariant i <= EncodablePrefix(rc, xs)
      invariant records == Encodings(rc, xs[..i])
    {
      var binary := rc.encode(xs[i]);
      if binary.None? { return records, true; }
      EncodingsNext(rc, xs, i);
      records := records + [binary.value];
    }
    failed := false;
  }
}
