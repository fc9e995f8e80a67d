/** Records inside blocks: the record codec, the compressors, and what a sequence of writer calls
    leaves in the file. The Avro, flate, zlib and snappy libraries appear only through their laws. */
module OcfObjects {
  import opened Wrappers
  import opened Seqs
  import opened Bytes
  import opened OcfFormat

  datatype Compression = NullCodec | Deflate | Snappy | Zlib

  // "null", "deflate", "snappy", "zlib"
  function CompressionName(c: Compression): (name: bytes) {
    match c
    case NullCodec => [0x6E, 0x75, 0x6C, 0x6C]
    case Deflate => [0x64, 0x65, 0x66, 0x6C, 0x61, 0x74, 0x65]
    case Snappy => [0x73, 0x6E, 0x61, 0x70, 0x70, 0x79]
    case Zlib => [0x7A, 0x6C, 0x69, 0x62]
  }

  function ParseCompression(name: bytes): (c: Option<Compression>)
    ensures c.Some? <==> exists k :: name == CompressionName(k)
    ensures c.Some? ==> CompressionName(c.value) == name
  {
    if name == CompressionName(NullCodec) then Some(NullCodec)
    else if name == CompressionName(Deflate) then Some(Deflate)
    else if name == CompressionName(Snappy) then Some(Snappy)
    else if name == CompressionName(Zlib) then Some(Zlib)
    else None
  }

  lemma CompressionNameInjective(c: Compression)
    ensures ParseCompression(CompressionName(c)) == Some(c)
  {
    assert |CompressionName(Zlib)| == |CompressionName(NullCodec)| == 4;
    assert CompressionName(Zlib)[0] != CompressionName(NullCodec)[0];
  }

  /** Encoding can fail; decoding takes one record off the front. */
  datatype RecordCodec<!R> = RecordCodec(encode: R -> Option<bytes>, decode: bytes -> Option<(R, bytes)>)

  ghost predicate SelfDelimiting<R(!new)>(rc: RecordCodec<R>) {
    forall x, rest :: rc.encode(x).Some? ==> rc.decode(rc.encode(x).value + rest) == Some((x, rest))
  }

  datatype Library<!R> = Library(
    newCodec: bytes -> Option<RecordCodec<R>>,
    validJson: bytes -> bool,
    deflate: bytes -> bytes,
    inflate: bytes -> Option<bytes>,
    zlibPack: bytes -> bytes,
    zlibUnpack: bytes -> Option<bytes>,
    snappyEncode: bytes -> bytes,
    snappyDecode: bytes -> Option<bytes>)

  /** The library laws. */
  ghost predicate Lawful<R(!new)>(lib: Library<R>) {
    && (forall schema :: lib.newCodec(schema).Some? ==> SelfDelimiting(lib.newCodec(schema).value))
    && (forall b :: lib.inflate(lib.deflate(b)) == Some(b))
    && (forall b :: lib.zlibUnpack(lib.zlibPack(b)) == Some(b))
    && (forall b :: lib.snappyDecode(lib.snappyEncode(b)) == Some(b))
  }

  // A tiny library, to show that the laws can be met.

  function ByteCodec(): RecordCodec<byte> {
    RecordCodec((x: byte) => Some([x]), (b: bytes) => if b == [] then None else Some((b[0], b[1..])))
  }

  function Tag(t: byte, b: bytes): bytes { [t] + b }

  function Untag(t: byte, b: bytes): (r: Option<bytes>)
  {
    if b != [] && b[0] == t then Some(b[1..]) else None
  }

  lemma UntagBack(t: byte, u: byte, b: bytes)
    ensures Untag(t, Tag(u, b)) == if t == u then Some(b) else None
  {
    assert Tag(u, b)[1..] == b;
  }

  lemma ByteCodecSelfDelimiting()
    ensures SelfDelimiting(ByteCodec())
  {
    forall x: byte, rest: bytes ensures ([x] + rest)[1..] == rest {}
  }

  /** The laws can be met: records that are single bytes, and tagged copies as compressors. */
  lemma LawfulLibraryExists()
    ensures exists lib: Library<byte> :: Lawful(lib) && lib.newCodec([]).Some? && forall c, raw :: Unambiguous(lib, c, raw)
  {
    var lib := Library((s: bytes) => Some(ByteCodec()), (s: bytes) => true,
                       (b: bytes) => Tag(0, b), (b: bytes) => Untag(0, b),
                       (b: bytes) => Tag(1, b), (b: bytes) => Untag(1, b),
                       (b: bytes) => Tag(2, b), (b: bytes) => Untag(2, b));
    ByteCodecSelfDelimiting();
    forall t: byte, u: byte, b: bytes ensures Untag(t, Tag(u, b)) == if t == u then Some(b) else None {
      UntagBack(t, u, b);
    }
    assert Lawful(lib);
  }

  function Compress<R>(lib: Library<R>, c: Compression, raw: bytes): bytes {
    match c
    case NullCodec => raw
    case Deflate => lib.deflate(raw)
    case Snappy => lib.snappyEncode(raw)
    case Zlib => lib.zlibPack(raw)
  }

  /** Deflate and zlib share one decompressor, which tries raw deflate first. */
  function Decompress<R>(lib: Library<R>, c: Compression, data: bytes): Option<bytes> {
    match c
    case NullCodec => Some(data)
    case Snappy => lib.snappyDecode(data)
    case _ => if lib.inflate(data).Some? then lib.inflate(data) else lib.zlibUnpack(data)
  }

  /** Raw inflate, which the reader tries first, does not take these bytes' zlib stream for something else. */
  predicate Unambiguous<R>(lib: Library<R>, c: Compression, raw: bytes) {
    c == Zlib ==> lib.inflate(lib.zlibPack(raw)).None? || lib.inflate(lib.zlibPack(raw)) == Some(raw)
  }

  /** Decompression undoes compression exactly when the stream is not ambiguous; only zlib's can be. */
  lemma DecompressBack<R(!new)>(lib: Library<R>, c: Compression, raw: bytes)
    requires Lawful(lib)
    ensures Decompress(lib, c, Compress(lib, c, raw)) == Some(raw) <==> Unambiguous(lib, c, raw)
  {
    match c
    case Zlib =>
      if lib.inflate(lib.zlibPack(raw)).None? { assert lib.zlibUnpack(lib.zlibPack(raw)) == Some(raw); }
    case _ =>
  }

  function TagTwice(b: bytes): bytes { Tag(0, Tag(1, b)) }

  function UntagTwice(b: bytes): Option<bytes> {
    match Untag(0, b)
    case None => None
    case Some(r) => Untag(1, r)
  }

  lemma UntagTwiceBack(b: bytes)
    ensures UntagTwice(TagTwice(b)) == Some(b) && Untag(0, TagTwice(b)) == Some(Tag(1, b))
  {
    UntagBack(0, 0, Tag(1, b));
    UntagBack(1, 1, b);
  }

  /** Zlib streams that are deflate streams of longer data. */
  function MisreadLibrary(): Library<byte> {
    Library((s: bytes) => Some(ByteCodec()), (s: bytes) => true,
            (b: bytes) => Tag(0, b), (b: bytes) => Untag(0, b),
            (b: bytes) => TagTwice(b), (b: bytes) => UntagTwice(b),
            (b: bytes) => Tag(2, b), (b: bytes) => Untag(2, b))
  }

  lemma MisreadLibraryIsLawful()
    ensures Lawful(MisreadLibrary())
  {
    ByteCodecSelfDelimiting();
    forall b: bytes ensures Untag(0, Tag(0, b)) == Some(b) && Untag(2, Tag(2, b)) == Some(b) && UntagTwice(TagTwice(b)) == Some(b) {
      UntagBack(0, 0, b);
      UntagBack(2, 2, b);
      UntagTwiceBack(b);
    }
  }

  /** The laws do not exclude ambiguity. */
  lemma ZlibCanBeMisread()
    ensures exists lib: Library<byte>, raw :: Lawful(lib) && Decompress(lib, Zlib, Compress(lib, Zlib, raw)) != Some(raw)
  {
    var lib := MisreadLibrary();
    MisreadLibraryIsLawful();
    UntagTwiceBack([]);
    assert lib.inflate(lib.zlibPack([])) == Some(Tag(1, []));
    assert Decompress(lib, Zlib, Compress(lib, Zlib, [])) != Some([]);
  }

  // ------------------------------------------------------- records and blocks

  /** A record's bytes; empty for a record that cannot be encoded, which no block ever holds. */
  function Encoding<R>(rc: RecordCodec<R>, x: R): bytes {
    match rc.encode(x) case Some(b) => b case None => []
  }

  function Encodings<R>(rc: RecordCodec<R>, xs: seq<R>): (es: seq<bytes>)
    ensures |es| == |xs| && forall i :: 0 <= i < |xs| ==> es[i] == Encoding(rc, xs[i])
  {
    if xs == [] then [] else [Encoding(rc, xs[0])] + Encodings(rc, xs[1..])
  }

  function Encoded<R>(rc: RecordCodec<R>, xs: seq<R>): bytes {
    if xs == [] then [] else Encoding(rc, xs[0]) + Encoded(rc, xs[1..])
  }

  ghost predicate Encodable<R>(rc: RecordCodec<R>, xs: seq<R>) {
    forall i :: 0 <= i < |xs| ==> rc.encode(xs[i]).Some?
  }

  lemma {:induction false} EncodedAppend<R>(rc: RecordCodec<R>, xs: seq<R>, ys: seq<R>)
    ensures Encoded(rc, xs + ys) == Encoded(rc, xs) + Encoded(rc, ys)
  {
    if xs == [] {
      assert xs + ys == ys;
    } else {
      assert (xs + ys)[1..] == xs[1..] + ys;
      EncodedAppend(rc, xs[1..], ys);
      Assoc(Encoding(rc, xs[0]), Encoded(rc, xs[1..]), Encoded(rc, ys));
    }
  }

  lemma EncodedSnoc<R>(rc: RecordCodec<R>, xs: seq<R>, x: R)
    ensures Encoded(rc, xs + [x]) == Encoded(rc, xs) + Encoding(rc, x)
  {
    EncodedAppend(rc, xs, [x]);
    assert Encoded(rc, [x]) == Encoding(rc, x) + Encoded(rc, [x][1..]);
  }

  lemma {:induction false} EncodedIsFlattened<R>(rc: RecordCodec<R>, xs: seq<R>)
    ensures Flatten(Encodings(rc, xs)) == Encoded(rc, xs)
  {
    if xs != [] {
      assert Encodings(rc, xs)[1..] == Encodings(rc, xs[1..]);
      EncodedIsFlattened(rc, xs[1..]);
    }
  }

  /** How many leading records can be encoded. */
  function EncodablePrefix<R>(rc: RecordCodec<R>, xs: seq<R>): (n: nat)
    ensures n <= |xs| && (forall i :: 0 <= i < n ==> rc.encode(xs[i]).Some?)
    ensures n < |xs| ==> rc.encode(xs[n]).None?
  {
    if xs == [] || rc.encode(xs[0]).None? then 0 else 1 + EncodablePrefix(rc, xs[1..])
  }

  lemma EncodedNext<R>(rc: RecordCodec<R>, base: bytes, xs: seq<R>, i: nat)
    requires i < |xs|
    ensures base + Encoded(rc, xs[..i + 1]) == base + Encoded(rc, xs[..i]) + Encoding(rc, xs[i])
  {
    EncodedSnoc(rc, xs[..i], xs[i]);
    assert xs[..i + 1] == xs[..i] + [xs[i]];
    Assoc(base, Encoded(rc, xs[..i]), Encoding(rc, xs[i]));
  }

  /** Encodes and writes records one by one, stopping at the first that cannot be encoded. */
  method WriteEach<R>(rc: RecordCodec<R>, xs: seq<R>, writer: BufWriter) returns (failed: bool)
    modifies writer
    ensures failed <==> EncodablePrefix(rc, xs) < |xs|
    ensures writer.Contents() == old(writer.Contents()) + Encoded(rc, xs[..EncodablePrefix(rc, xs)])
  {
    ghost var base := writer.Contents();
    assert base + Encoded(rc, xs[..0]) == base;
    for i := 0 to |xs|
      invariant i <= EncodablePrefix(rc, xs)
      invariant writer.Contents() == base + Encoded(rc, xs[..i])
    {
      var binary := rc.encode(xs[i]);
      if binary.None? { return true; }
      EncodedNext(rc, base, xs, i);
      writer.Write(binary.value);
    }
    failed := false;
  }

  /** Decodes `n` records onto `acc`; bytes left over are not an error. */
  function DecodeRecords<R>(rc: RecordCodec<R>, n: nat, data: bytes, acc: seq<R>): Option<seq<R>> {
    if n == 0 then Some(acc)
    else
      match rc.decode(data)
      case None => None
      case Some((x, rest)) => DecodeRecords(rc, n - 1, rest, acc + [x])
  }

  lemma {:induction false} DecodeRecordsBack<R(!new)>(rc: RecordCodec<R>, xs: seq<R>, rest: bytes, acc: seq<R>)
    requires SelfDelimiting(rc) && Encodable(rc, xs)
    ensures DecodeRecords(rc, |xs|, Encoded(rc, xs) + rest, acc) == Some(acc + xs)
    decreases |xs|
  {
    if xs == [] {
      assert acc + xs == acc;
    } else {
      Assoc(Encoding(rc, xs[0]), Encoded(rc, xs[1..]), rest);
      DecodeRecordsBack(rc, xs[1..], rest, acc + [xs[0]]);
      assert acc + [xs[0]] + xs[1..] == acc + xs;
    }
  }

  /** How the records of one file are turned into bytes. */
  datatype Layout<!R> = Layout(lib: Library<R>, rc: RecordCodec<R>, compression: Compression, sync: bytes)

  ghost predicate LawfulLayout<R(!new)>(f: Layout<R>) {
    Lawful(f.lib) && SelfDelimiting(f.rc) && |f.sync| == SYNC_SIZE
  }

  function BlockOf<R>(f: Layout<R>, xs: seq<R>): RawBlock {
    RawBlock(|xs|, Compress(f.lib, f.compression, Encoded(f.rc, xs)))
  }

  /** A block of these records has lengths that fit Go's int, and a stream that is not ambiguous. */
  ghost predicate Sound<R>(f: Layout<R>, xs: seq<R>) {
    GoLength(|xs|) && GoLength(|BlockOf(f, xs).data|) && Unambiguous(f.lib, f.compression, Encoded(f.rc, xs))
  }

  /** The objects of a raw block, as ReadBlockObjects decodes them. */
  function BlockObjects<R>(f: Layout<R>, b: RawBlock): Result<seq<R>, OcfError>
    requires b.count >= 0
  {
    match Decompress(f.lib, f.compression, b.data)
    case None => Err(DecompressFailed)
    case Some(raw) =>
      match DecodeRecords(f.rc, b.count, raw, [])
      case None => Err(DecodeFailed)
      case Some(xs) => Ok(xs)
  }

  lemma BlockObjectsBack<R(!new)>(f: Layout<R>, xs: seq<R>)
    requires LawfulLayout(f) && Encodable(f.rc, xs) && Unambiguous(f.lib, f.compression, Encoded(f.rc, xs))
    ensures BlockObjects(f, BlockOf(f, xs)) == Ok(xs)
  {
    DecompressBack(f.lib, f.compression, Encoded(f.rc, xs));
    DecodeRecordsBack(f.rc, xs, [], []);
    assert Encoded(f.rc, xs) + [] == Encoded(f.rc, xs);
    assert [] + xs == xs;
  }

  /** The next block with its records decoded: what ReadBlockObjects yields. */
  function TakeObjects<R>(f: Layout<R>, maxSize: int, s: bytes): (r: Parsed<seq<R>>)
    ensures r.Took? ==> |r.rest| < |s|
  {
    match TakeBlock(f.sync, maxSize, s)
    case Fail(e) => Fail(e)
    case Took(b, rest) =>
      match BlockObjects(f, b)
      case Err(e) => Fail(e)
      case Ok(xs) => Took(xs, rest)
  }

  /** A written block is read back whole when its payload fits, and refused otherwise. */
  lemma {:induction false} TakeObjectsBack<R(!new)>(f: Layout<R>, maxSize: int, xs: seq<R>, rest: bytes)
    requires LawfulLayout(f) && xs != [] && Encodable(f.rc, xs)
    requires Sound(f, xs)
    ensures TakeObjects(f, maxSize, FrameBytes(BlockOf(f, xs), f.sync) + rest) ==
            if BlockFits(BlockOf(f, xs), maxSize) then Took(xs, rest) else Fail(BadBlockSize)
  {
    TakeBlockBack(BlockOf(f, xs), f.sync, maxSize, rest);
    BlockObjectsBack(f, xs);
  }

  // --------------------------------------------------- the writer as a machine

  /** One thing the writer has emitted after the header. */
  datatype Segment<R> = Data(objects: seq<R>) | End

  function SegmentBytes<R>(f: Layout<R>, seg: Segment<R>): bytes {
    match seg
    case Data(xs) => FrameBytes(BlockOf(f, xs), f.sync)
    case End => TerminatorBytes(f.sync)
  }

  function BodyBytes<R>(f: Layout<R>, segs: seq<Segment<R>>): bytes {
    if segs == [] then [] else SegmentBytes(f, segs[0]) + BodyBytes(f, segs[1..])
  }

  lemma {:induction false} BodyBytesSnoc<R>(f: Layout<R>, segs: seq<Segment<R>>, seg: Segment<R>)
    ensures BodyBytes(f, segs + [seg]) == BodyBytes(f, segs) + SegmentBytes(f, seg)
  {
    if segs == [] {
      assert segs + [seg] == [seg];
      assert BodyBytes(f, [seg]) == SegmentBytes(f, seg) + BodyBytes(f, [seg][1..]);
    } else {
      assert (segs + [seg])[1..] == segs[1..] + [seg];
      BodyBytesSnoc(f, segs[1..], seg);
      Assoc(SegmentBytes(f, segs[0]), BodyBytes(f, segs[1..]), SegmentBytes(f, seg));
    }
  }

  datatype WriterOp<R> = WriteBlock(objects: seq<R>) | Flush | Close

  /** Segments written so far and records still buffered. */
  datatype WriterState<R> = WriterState(segments: seq<Segment<R>>, buffer: seq<R>)

  /** Emits the buffer as one block, unless it is empty or holds a record that cannot be encoded. */
  ghost function FlushBuffer<R>(rc: RecordCodec<R>, st: WriterState<R>): (WriterState<R>, bool) {
    if st.buffer == [] then (st, true)
    else if Encodable(rc, st.buffer) then (WriterState(st.segments + [Data(st.buffer)], []), true)
    else (st, false)
  }

  ghost function WriterStep<R>(rc: RecordCodec<R>, blockSize: nat, st: WriterState<R>, op: WriterOp<R>): (WriterState<R>, bool) {
    match op
    case WriteBlock(xs) =>
      var st1 := st.(buffer := st.buffer + xs);
      if |st1.buffer| >= blockSize then FlushBuffer(rc, st1) else (st1, true)
    case Flush => FlushBuffer(rc, st)
    case Close =>
      var (st1, ok) := FlushBuffer(rc, st);
      if ok then (st1.(segments := st1.segments + [End]), true) else (st1, false)
  }

  ghost function WriterRun<R>(rc: RecordCodec<R>, blockSize: nat, ops: seq<WriterOp<R>>): WriterState<R> {
    if ops == [] then WriterState([], [])
    else WriterStep(rc, blockSize, WriterRun(rc, blockSize, ops[..|ops| - 1]), ops[|ops| - 1]).0
  }

  function ObjectsOf<R>(seg: Segment<R>): seq<R> {
    match seg
    case Data(xs) => xs
    case End => []
  }

  function SegmentObjects<R>(segs: seq<Segment<R>>): seq<R> {
    if segs == [] then []
    else ObjectsOf(segs[0]) + SegmentObjects(segs[1..])
  }

  /** The records handed to WriteBlock, in order. */
  function Submitted<R>(ops: seq<WriterOp<R>>): seq<R> {
    if ops == [] then []
    else Submitted(ops[..|ops| - 1]) + (match ops[|ops| - 1] case WriteBlock(xs) => xs case _ => [])
  }

  lemma {:induction false} SegmentObjectsSnoc<R>(segs: seq<Segment<R>>, seg: Segment<R>)
    ensures SegmentObjects(segs + [seg]) == SegmentObjects(segs) + ObjectsOf(seg)
  {
    var all := segs + [seg];
    if segs == [] {
      assert all[0] == seg && all[1..] == [];
    } else {
      assert all[0] == segs[0] && all[1..] == segs[1..] + [seg];
      SegmentObjectsSnoc(segs[1..], seg);
      Assoc(ObjectsOf(segs[0]), SegmentObjects(segs[1..]), ObjectsOf(seg));
    }
  }

  ghost predicate GoodSegments<R>(rc: RecordCodec<R>, segs: seq<Segment<R>>) {
    forall seg :: seg in segs && seg.Data? ==> seg.objects != [] && Encodable(rc, seg.objects)
  }

  lemma FlushBufferKeeps<R>(rc: RecordCodec<R>, st: WriterState<R>)
    requires GoodSegments(rc, st.segments)
    ensures var st1 := FlushBuffer(rc, st).0;
            && GoodSegments(rc, st1.segments)
            && SegmentObjects(st1.segments) + st1.buffer == SegmentObjects(st.segments) + st.buffer
  {
    SegmentObjectsSnoc(st.segments, Data(st.buffer));
  }

  /** In every run, encoding failures included, no record is lost, repeated or reordered: those in
      the file followed by those in the buffer are those submitted; and every block in the file is
      non-empty and encodable. */
  lemma {:induction false} WriterRunConserves<R>(rc: RecordCodec<R>, blockSize: nat, ops: seq<WriterOp<R>>)
    ensures var st := WriterRun(rc, blockSize, ops);
            && SegmentObjects(st.segments) + st.buffer == Submitted(ops)
            && GoodSegments(rc, st.segments)
  {
    if ops != [] {
      var op := ops[|ops| - 1];
      WriterRunConserves(rc, blockSize, ops[..|ops| - 1]);
      var st := WriterRun(rc, blockSize, ops[..|ops| - 1]);
      match op
      case WriteBlock(xs) =>
        var st1 := st.(buffer := st.buffer + xs);
        Assoc(SegmentObjects(st.segments), st.buffer, xs);
        FlushBufferKeeps(rc, st1);
      case Flush =>
        FlushBufferKeeps(rc, st);
      case Close =>
        FlushBufferKeeps(rc, st);
        SegmentObjectsSnoc(FlushBuffer(rc, st).0.segments, End);
    }
  }

  // ------------------------------------------------------- reading it all back

  datatype ObjectScan<R> = ObjectScan(objects: seq<R>, end: OcfError)

  /** The loop that calls ReadBlockObjects until it reports an error. */
  function ScanObjects<R>(f: Layout<R>, maxSize: int, s: bytes, acc: seq<R>): ObjectScan<R>
    decreases |s|
  {
    match TakeObjects(f, maxSize, s)
    case Fail(e) => ObjectScan(acc, e)
    case Took(xs, rest) => ScanObjects(f, maxSize, rest, acc + xs)
  }

  /** The segments a reader can see: those before the first end marker. */
  function BeforeEnd<R>(segs: seq<Segment<R>>): (r: seq<Segment<R>>)
    ensures r <= segs && forall seg :: seg in r ==> seg.Data?
  {
    if segs == [] || segs[0].End? then [] else [segs[0]] + BeforeEnd(segs[1..])
  }

  ghost predicate SoundSegment<R>(f: Layout<R>, seg: Segment<R>) {
    seg.Data? ==> Sound(f, seg.objects)
  }

  /** The reader's size guard on every visible block. */
  ghost predicate PayloadsFit<R>(f: Layout<R>, maxSize: int, segs: seq<Segment<R>>) {
    forall seg :: seg in segs && seg.Data? ==> BlockFits(BlockOf(f, seg.objects), maxSize)
  }

  /** Reading on from one written block. */
  lemma ScanData<R(!new)>(f: Layout<R>, maxSize: int, xs: seq<R>, tail: bytes, acc: seq<R>)
    requires LawfulLayout(f) && xs != [] && Encodable(f.rc, xs) && Sound(f, xs)
    ensures ScanObjects(f, maxSize, SegmentBytes(f, Data(xs)) + tail, acc) ==
            if BlockFits(BlockOf(f, xs), maxSize) then ScanObjects(f, maxSize, tail, acc + xs) else ObjectScan(acc, BadBlockSize)
  {
    TakeObjectsBack(f, maxSize, xs, tail);
  }

  lemma ScanEnd<R>(f: Layout<R>, maxSize: int, tail: bytes, acc: seq<R>)
    requires |f.sync| == SYNC_SIZE
    ensures ScanObjects(f, maxSize, SegmentBytes(f, End) + tail, acc) == ObjectScan(acc, EndOfFile)
  {
    TakeTerminator(f.sync, maxSize, tail);
  }

  lemma PayloadsFitHead<R>(f: Layout<R>, maxSize: int, xs: seq<R>, later: seq<Segment<R>>)
    ensures PayloadsFit(f, maxSize, [Data(xs)] + later) <==> BlockFits(BlockOf(f, xs), maxSize) && PayloadsFit(f, maxSize, later)
    ensures SegmentObjects([Data(xs)] + later) == xs + SegmentObjects(later)
  {
    var all := [Data(xs)] + later;
    assert all[0] == Data(xs) && all[1..] == later;
    assert forall seg :: seg in all <==> seg == Data(xs) || seg in later;
  }

  /** Reading the body of any written file ends cleanly exactly when every visible payload is within
      1..maxSize, and then returns every visible record in order. */
  lemma {:induction false} BodyReadsBack<R(!new)>(f: Layout<R>, maxSize: int, segs: seq<Segment<R>>, acc: seq<R>)
    requires LawfulLayout(f) && GoodSegments(f.rc, segs)
    requires forall seg :: seg in segs ==> SoundSegment(f, seg)
    ensures var r := ScanObjects(f, maxSize, BodyBytes(f, segs), acc);
            && (r.end == EndOfFile <==> PayloadsFit(f, maxSize, BeforeEnd(segs)))
            && (r.end == EndOfFile ==> r.objects == acc + SegmentObjects(BeforeEnd(segs)))
            && (r.end != EndOfFile ==> r.end == BadBlockSize)
    decreases |segs|
  {
    EmptyRight(acc);
    if segs != [] {
      var tail := BodyBytes(f, segs[1..]);
      assert segs[0] in segs;
      match segs[0]
      case End =>
        ScanEnd(f, maxSize, tail, acc);
      case Data(xs) =>
        var later := BeforeEnd(segs[1..]);
        ScanData(f, maxSize, xs, tail, acc);
        PayloadsFitHead(f, maxSize, xs, later);
        if BlockFits(BlockOf(f, xs), maxSize) {
          assert forall seg :: seg in segs[1..] ==> seg in segs;
          BodyReadsBack(f, maxSize, segs[1..], acc + xs);
          Assoc(acc, xs, SegmentObjects(later));
        }
    }
  }

  lemma {:induction false} NoEndBeforeClose<R>(rc: RecordCodec<R>, blockSize: nat, ops: seq<WriterOp<R>>)
    requires Close !in ops
    ensures forall seg :: seg in WriterRun(rc, blockSize, ops).segments ==> seg.Data?
  {
    if ops != [] {
      NoEndBeforeClose(rc, blockSize, ops[..|ops| - 1]);
    }
  }

  lemma {:induction false} BeforeEndOfClosed<R>(segs: seq<Segment<R>>, tail: seq<Segment<R>>)
    requires forall seg :: seg in segs ==> seg.Data?
    ensures BeforeEnd(segs + [End] + tail) == segs
  {
    var all := segs + [End] + tail;
    if segs == [] {
      assert all[0] == End;
    } else {
      assert all[0] == segs[0] && all[1..] == segs[1..] + [End] + tail;
      BeforeEndOfClosed(segs[1..], tail);
      assert segs[0] in segs;
      assert BeforeEnd(all) == [segs[0]] + segs[1..];
    }
  }

  lemma EncodableAppend<R>(rc: RecordCodec<R>, xs: seq<R>, ys: seq<R>)
    ensures Encodable(rc, xs + ys) <==> Encodable(rc, xs) && Encodable(rc, ys)
  {
    if Encodable(rc, xs + ys) {
      forall i | 0 <= i < |xs| ensures rc.encode(xs[i]).Some? { assert (xs + ys)[i] == xs[i]; }
      forall i | 0 <= i < |ys| ensures rc.encode(ys[i]).Some? { assert (xs + ys)[|xs| + i] == ys[i]; }
    }
  }

  lemma {:induction false} WrittenAreEncodable<R>(rc: RecordCodec<R>, segs: seq<Segment<R>>)
    requires GoodSegments(rc, segs)
    ensures Encodable(rc, SegmentObjects(segs))
  {
    if segs != [] {
      assert forall seg :: seg in segs[1..] ==> seg in segs;
      WrittenAreEncodable(rc, segs[1..]);
      assert segs[0] in segs;
      EncodableAppend(rc, ObjectsOf(segs[0]), SegmentObjects(segs[1..]));
    }
  }

  /** Flush and Close succeed exactly when every record ever submitted can be encoded. */
  lemma CloseSucceedsIff<R>(rc: RecordCodec<R>, blockSize: nat, ops: seq<WriterOp<R>>)
    ensures WriterStep(rc, blockSize, WriterRun(rc, blockSize, ops), Close).1 <==> Encodable(rc, Submitted(ops))
    ensures WriterStep(rc, blockSize, WriterRun(rc, blockSize, ops), Flush).1 <==> Encodable(rc, Submitted(ops))
  {
    var st := WriterRun(rc, blockSize, ops);
    WriterRunConserves(rc, blockSize, ops);
    WrittenAreEncodable(rc, st.segments);
    EncodableAppend(rc, SegmentObjects(st.segments), st.buffer);
  }

  // ---------------------------------------------------- when blocks leave

  /** The most records handed over in one call. */
  function Largest<R>(ops: seq<WriterOp<R>>): (n: nat)
    ensures forall op :: op in ops && op.WriteBlock? ==> |op.objects| <= n
  {
    if ops == [] then 0
    else
      var rest, last := Largest(ops[..|ops| - 1]), ops[|ops| - 1];
      assert forall op :: op in ops ==> op in ops[..|ops| - 1] || op == last;
      if last.WriteBlock? && |last.objects| > rest then |last.objects| else rest
  }

  /** Every data block is below the block size plus one submission, and not below the block size unless a
      Flush or Close wrote it. */
  ghost predicate SizedBlocks<R>(blockSize: nat, most: nat, flushed: bool, segs: seq<Segment<R>>) {
    forall seg :: seg in segs && seg.Data? ==> |seg.objects| < blockSize + most && (flushed || |seg.objects| >= blockSize)
  }

  /** A buffer at or over the block size is only ever kept for a record that cannot be encoded. */
  ghost predicate BufferSmall<R>(rc: RecordCodec<R>, blockSize: nat, buffer: seq<R>) {
    |buffer| < blockSize || !Encodable(rc, buffer)
  }

  lemma BufferSmallStep<R>(rc: RecordCodec<R>, blockSize: nat, st: WriterState<R>, op: WriterOp<R>)
    requires blockSize > 0 && BufferSmall(rc, blockSize, st.buffer)
    ensures BufferSmall(rc, blockSize, WriterStep(rc, blockSize, st, op).0.buffer)
  {
  }

  lemma SizedStep<R>(rc: RecordCodec<R>, blockSize: nat, st: WriterState<R>, op: WriterOp<R>, most: nat, flushed: bool)
    requires blockSize > 0 && BufferSmall(rc, blockSize, st.buffer)
    requires SizedBlocks(blockSize, most, flushed, st.segments)
    requires if op.WriteBlock? then |op.objects| <= most else flushed
    ensures SizedBlocks(blockSize, most, flushed, WriterStep(rc, blockSize, st, op).0.segments)
  {
    if op.WriteBlock? { EncodableAppend(rc, st.buffer, op.objects); }
  }

  /** Blocks leave as soon as they are full. After any calls fewer than a block's worth of records are
      buffered, as long as all could be encoded; every block in the file holds at least the block size, unless
      Flush or Close was called, and less than the block size plus the largest submission. */
  lemma {:induction false} BlocksLeaveWhenFull<R>(rc: RecordCodec<R>, blockSize: nat, ops: seq<WriterOp<R>>, most: nat, flushed: bool)
    requires blockSize > 0 && Largest(ops) <= most
    requires flushed || forall op :: op in ops ==> op.WriteBlock?
    ensures var st := WriterRun(rc, blockSize, ops);
            && BufferSmall(rc, blockSize, st.buffer)
            && (Encodable(rc, Submitted(ops)) ==> |st.buffer| < blockSize)
            && SizedBlocks(blockSize, most, flushed, st.segments)
  {
    if ops != [] {
      var before, op := ops[..|ops| - 1], ops[|ops| - 1];
      assert op in ops && forall o :: o in before ==> o in ops;
      BlocksLeaveWhenFull(rc, blockSize, before, most, flushed);
      BufferSmallStep(rc, blockSize, WriterRun(rc, blockSize, before), op);
      SizedStep(rc, blockSize, WriterRun(rc, blockSize, before), op, most, flushed);
    }
    WriterRunConserves(rc, blockSize, ops);
    EncodableAppend(rc, SegmentObjects(WriterRun(rc, blockSize, ops).segments), WriterRun(rc, blockSize, ops).buffer);
  }

  /** What a call reports can be seen in the buffer: WriteBlock fails exactly when it leaves a full buffer
      behind, Flush and Close exactly when they leave anything. A Flush that succeeds has put everything
      submitted so far into the file. */
  lemma CallsReport<R>(rc: RecordCodec<R>, blockSize: nat, ops: seq<WriterOp<R>>, op: WriterOp<R>)
    requires blockSize > 0
    ensures var (st, ok) := WriterStep(rc, blockSize, WriterRun(rc, blockSize, ops), op);
            && (ok <==> if op.WriteBlock? then |st.buffer| < blockSize else st.buffer == [])
            && (ok && !op.WriteBlock? ==> SegmentObjects(st.segments) == Submitted(ops))
  {
    var (st, ok) := WriterStep(rc, blockSize, WriterRun(rc, blockSize, ops), op);
    var all := ops + [op];
    assert all[..|ops|] == ops && WriterRun(rc, blockSize, all) == st;
    WriterRunConserves(rc, blockSize, all);
    if ok && !op.WriteBlock? {
      EmptyRight(SegmentObjects(st.segments));
      EmptyRight(Submitted(ops));
    }
  }

  /** Encodable records and a Close leave data blocks followed by one end marker, and the blocks hold
      exactly what was submitted. */
  lemma ClosedSegments<R>(rc: RecordCodec<R>, blockSize: nat, ops: seq<WriterOp<R>>)
    requires Close !in ops && Encodable(rc, Submitted(ops))
    ensures var segs := WriterRun(rc, blockSize, ops + [Close]).segments;
            && GoodSegments(rc, segs)
            && BeforeEnd(segs) + [End] == segs
            && SegmentObjects(BeforeEnd(segs)) == Submitted(ops)
  {
    CloseSucceedsIff(rc, blockSize, ops);
    var all := ops + [Close];
    var st, st1 := WriterRun(rc, blockSize, ops), WriterRun(rc, blockSize, all);
    assert all[..|all| - 1] == ops;
    var flushed := FlushBuffer(rc, st).0.segments;
    assert st1.segments == flushed + [End] && st1.buffer == [];
    NoEndBeforeClose(rc, blockSize, ops);
    WriterRunConserves(rc, blockSize, all);
    BeforeEndOfClosed(flushed, []);
    assert flushed + [End] + [] == st1.segments;
    SegmentObjectsSnoc(flushed, End);
    calc {
      SegmentObjects(flushed);
      SegmentObjects(flushed) + [];
      SegmentObjects(st1.segments);
      SegmentObjects(st1.segments) + st1.buffer;
      Submitted(all);
      Submitted(ops) + [];
      Submitted(ops);
    }
  }

  lemma EndHasNoPayload<R>(f: Layout<R>, maxSize: int, segs: seq<Segment<R>>)
    requires BeforeEnd(segs) + [End] == segs
    ensures PayloadsFit(f, maxSize, segs) <==> PayloadsFit(f, maxSize, BeforeEnd(segs))
  {
    assert forall seg :: seg in segs <==> seg in BeforeEnd(segs) || seg == End;
  }

  /** The file a closed writer leaves: any calls of WriteBlock and Flush with encodable records, then
      Close, for any block size. The reader's loop over its body ends cleanly exactly when every payload is
      within 1..maxSize, and then returns exactly the submitted records, in order. */
  lemma ClosedFileReadsBack<R(!new)>(f: Layout<R>, blockSize: nat, maxSize: int, ops: seq<WriterOp<R>>)
    requires LawfulLayout(f) && Close !in ops && Encodable(f.rc, Submitted(ops))
    requires forall seg :: seg in WriterRun(f.rc, blockSize, ops + [Close]).segments ==> SoundSegment(f, seg)
    ensures var segs := WriterRun(f.rc, blockSize, ops + [Close]).segments;
            var r := ScanObjects(f, maxSize, BodyBytes(f, segs), []);
            && (r.end == EndOfFile <==> PayloadsFit(f, maxSize, segs))
            && (r.end == EndOfFile ==> r.objects == Submitted(ops))
  {
    var segs := WriterRun(f.rc, blockSize, ops + [Close]).segments;
    ClosedSegments(f.rc, blockSize, ops);
    BodyReadsBack(f, maxSize, segs, []);
    EndHasNoPayload(f, maxSize, segs);
  }

  lemma TakeObjectsExtends<R>(f: Layout<R>, maxSize: int, s: bytes, t: bytes)
    requires TakeObjects(f, maxSize, s).Took?
    ensures TakeObjects(f, maxSize, s + t) == Took(TakeObjects(f, maxSize, s).value, TakeObjects(f, maxSize, s).rest + t)
  {
    TakeBlockExtends(f.sync, maxSize, s, t);
  }

  lemma {:induction false} ScanObjectsGrows<R>(f: Layout<R>, maxSize: int, s: bytes, acc: seq<R>)
    ensures acc <= ScanObjects(f, maxSize, s, acc).objects
    decreases |s|
  {
    var r := TakeObjects(f, maxSize, s);
    if r.Took? { ScanObjectsGrows(f, maxSize, r.rest, acc + r.value); }
  }

  /** Whatever follows a cut, the records read before it do not change. */
  lemma {:induction false} CutNeverInventsObjects<R>(f: Layout<R>, maxSize: int, s: bytes, t: bytes, acc: seq<R>)
    ensures ScanObjects(f, maxSize, s, acc).objects <= ScanObjects(f, maxSize, s + t, acc).objects
    decreases |s|
  {
    var r := TakeObjects(f, maxSize, s);
    if r.Took? {
      TakeObjectsExtends(f, maxSize, s, t);
      CutNeverInventsObjects(f, maxSize, r.rest, t, acc + r.value);
    } else {
      ScanObjectsGrows(f, maxSize, s + t, acc);
    }
  }

  // ------------------------------------------------------- a file cut short

  /** The raw blocks of data segments. */
  function Blocks<R>(f: Layout<R>, segs: seq<Segment<R>>): (r: seq<RawBlock>)
    requires forall seg :: seg in segs ==> seg.Data?
    ensures |r| == |segs| && forall i :: 0 <= i < |r| ==> r[i] == BlockOf(f, segs[i].objects)
  {
    if segs == [] then [] else [BlockOf(f, segs[0].objects)] + Blocks(f, segs[1..])
  }

  /** What the writer leaves after the header is a list of frames. */
  lemma {:induction false} BodyIsFrames<R>(f: Layout<R>, segs: seq<Segment<R>>)
    requires forall seg :: seg in segs ==> seg.Data?
    ensures BodyBytes(f, segs) == FramesBytes(Blocks(f, segs), f.sync)
  {
    if segs != [] {
      BodyIsFrames(f, segs[1..]);
      assert Blocks(f, segs)[1..] == Blocks(f, segs[1..]);
      assert segs[0] in segs;
    }
  }

  lemma ClosedBodyIsFrames<R>(f: Layout<R>, segs: seq<Segment<R>>)
    requires forall seg :: seg in segs ==> seg.Data?
    ensures BodyBytes(f, segs + [End]) == FramesBytes(Blocks(f, segs), f.sync) + TerminatorBytes(f.sync)
  {
    BodyBytesSnoc(f, segs, End);
    BodyIsFrames(f, segs);
  }

  /** Reading objects is reading blocks and decoding each. */
  lemma {:induction false} ScanDecodes<R(!new)>(f: Layout<R>, maxSize: int, s: bytes, segs: seq<Segment<R>>, acc: seq<R>)
    requires LawfulLayout(f) && GoodSegments(f.rc, segs)
    requires forall seg :: seg in segs ==> seg.Data? && SoundSegment(f, seg)
    requires ScanBlocks(f.sync, maxSize, s).blocks == Blocks(f, segs)
    ensures ScanObjects(f, maxSize, s, acc) == ObjectScan(acc + SegmentObjects(segs), ScanBlocks(f.sync, maxSize, s).end)
    decreases |s|
  {
    var r := TakeBlock(f.sync, maxSize, s);
    if segs == [] {
      assert r.Fail?;
      assert acc + [] == acc;
    } else {
      assert segs[0] in segs && r.value == Blocks(f, segs)[0] == BlockOf(f, segs[0].objects);
      assert Blocks(f, segs)[1..] == Blocks(f, segs[1..]);
      BlockObjectsBack(f, segs[0].objects);
      ScanDecodes(f, maxSize, r.rest, segs[1..], acc + segs[0].objects);
      Assoc(acc, segs[0].objects, SegmentObjects(segs[1..]));
    }
  }

  /** The data segments of a closed file, whose bytes are those blocks framed and the end marker. */
  ghost function ClosedData<R>(rc: RecordCodec<R>, blockSize: nat, ops: seq<WriterOp<R>>): (segs: seq<Segment<R>>)
    ensures forall seg :: seg in segs ==> seg.Data?
  {
    BeforeEnd(WriterRun(rc, blockSize, ops + [Close]).segments)
  }

  lemma FramedBlocks<R>(f: Layout<R>, maxSize: int, segs: seq<Segment<R>>)
    requires forall seg :: seg in segs ==> seg.Data? && SoundSegment(f, seg) && seg.objects != []
    requires PayloadsFit(f, maxSize, segs)
    ensures forall b :: b in Blocks(f, segs) ==> Framed(b) && BlockFits(b, maxSize)
  {
    forall b | b in Blocks(f, segs) ensures Framed(b) && BlockFits(b, maxSize) {
      var i :| 0 <= i < |segs| && b == Blocks(f, segs)[i];
      assert segs[i] in segs;
    }
  }

  /** The reading of a body cut after `k` bytes: the records of the whole frames before the cut. */
  ghost predicate CutObjects<R>(f: Layout<R>, maxSize: int, segs: seq<Segment<R>>, k: nat)
    requires forall seg :: seg in segs ==> seg.Data?
    requires k <= |BodyBytes(f, segs + [End])|
  {
    var blocks := Blocks(f, segs);
    ScanObjects(f, maxSize, BodyBytes(f, segs + [End])[..k], []) ==
    ObjectScan(SegmentObjects(segs[..WholeFrames(blocks, f.sync, k)]), if CleanCut(blocks, f.sync, k) then EndOfFile else Truncated)
  }

  lemma CutBodyReads<R(!new)>(f: Layout<R>, maxSize: int, segs: seq<Segment<R>>, k: nat)
    requires LawfulLayout(f) && GoodSegments(f.rc, segs) && PayloadsFit(f, maxSize, segs)
    requires forall seg :: seg in segs ==> seg.Data? && SoundSegment(f, seg)
    requires k <= |BodyBytes(f, segs + [End])|
    ensures CutObjects(f, maxSize, segs, k)
  {
    var blocks := Blocks(f, segs);
    var j := WholeFrames(blocks, f.sync, k);
    ClosedBodyIsFrames(f, segs);
    FramedBlocks(f, maxSize, segs);
    TruncatedFile(blocks, f.sync, maxSize, k);
    FirstSegments(f, segs, j);
    ScanDecodes(f, maxSize, BodyBytes(f, segs + [End])[..k], segs[..j], []);
    assert [] + SegmentObjects(segs[..j]) == SegmentObjects(segs[..j]);
  }

  lemma FirstSegments<R>(f: Layout<R>, segs: seq<Segment<R>>, j: nat)
    requires j <= |segs| && forall seg :: seg in segs ==> seg.Data?
    ensures forall seg :: seg in segs[..j] ==> seg in segs
    ensures Blocks(f, segs[..j]) == Blocks(f, segs)[..j]
  {
  }

  /** A closed file cut at any byte of its body yields exactly the records of the blocks that are whole
      before the cut, and so a prefix of the submitted records; the end looks clean exactly at a block
      boundary and after the whole end marker. */
  lemma TruncatedFileYieldsPrefix<R(!new)>(f: Layout<R>, blockSize: nat, maxSize: int, ops: seq<WriterOp<R>>, k: nat)
    requires LawfulLayout(f) && Close !in ops && Encodable(f.rc, Submitted(ops))
    requires forall seg :: seg in WriterRun(f.rc, blockSize, ops + [Close]).segments ==> SoundSegment(f, seg)
    requires PayloadsFit(f, maxSize, WriterRun(f.rc, blockSize, ops + [Close]).segments)
    requires k <= |BodyBytes(f, WriterRun(f.rc, blockSize, ops + [Close]).segments)|
    ensures var body := BodyBytes(f, WriterRun(f.rc, blockSize, ops + [Close]).segments);
            var segs := ClosedData(f.rc, blockSize, ops);
            && ScanObjects(f, maxSize, body[..k], []).objects <= Submitted(ops)
            && SegmentObjects(segs) == Submitted(ops)
            && body == BodyBytes(f, segs + [End]) && CutObjects(f, maxSize, segs, k)
  {
    var all := WriterRun(f.rc, blockSize, ops + [Close]).segments;
    var body, segs := BodyBytes(f, all), ClosedData(f.rc, blockSize, ops);
    ClosedSegments(f.rc, blockSize, ops);
    EndHasNoPayload(f, maxSize, all);
    assert segs + [End] == all && forall seg :: seg in segs ==> seg in all;
    CutBodyReads(f, maxSize, segs, k);
    ClosedFileReadsBack(f, blockSize, maxSize, ops);
    SplitCut(body, k);
    CutNeverInventsObjects(f, maxSize, body[..k], body[k..], []);
  }

  lemma SplitCut(s: bytes, k: nat)
    requires k <= |s|
    ensures s[..k] + s[k..] == s
  {
  }

  /** Once a record that cannot be encoded is buffered, the file never grows again and no later
      flush or close succeeds. */
  lemma {:induction false} UnencodableRecordSticks<R>(rc: RecordCodec<R>, blockSize: nat, ops: seq<WriterOp<R>>, later: seq<WriterOp<R>>)
    requires !Encodable(rc, WriterRun(rc, blockSize, ops).buffer)
    ensures var st := WriterRun(rc, blockSize, ops);
            var st' := WriterRun(rc, blockSize, ops + later);
            st'.segments == st.segments && st.buffer <= st'.buffer && !Encodable(rc, st'.buffer)
    ensures !WriterStep(rc, blockSize, WriterRun(rc, blockSize, ops + later), Flush).1
    ensures !WriterStep(rc, blockSize, WriterRun(rc, blockSize, ops + later), Close).1
    decreases |later|
  {
    if later == [] {
      assert ops + later == ops;
    } else {
      var all := ops + later;
      assert all[..|all| - 1] == ops + later[..|later| - 1];
      UnencodableRecordSticks(rc, blockSize, ops, later[..|later| - 1]);
      var st := WriterRun(rc, blockSize, all[..|all| - 1]);
      var bad :| 0 <= bad < |st.buffer| && rc.encode(st.buffer[bad]).None?;
      match all[|all| - 1]
      case WriteBlock(xs) =>
        assert (st.buffer + xs)[bad] == st.buffer[bad];
      case _ =>
    }
  }
}
