/** The container reader, proved against the parser on values. */
module OcfReader {
  import opened Wrappers
  import opened Bytes
  import opened OcfFormat
  import opened OcfObjects

  const DEFAULT_MAX_BLOCK_SIZE: int := 1024 * 1024 * 1024

  datatype Header = Header(schema: bytes, compression: Compression, metadata: Metadata, sync: bytes)

  function CodecEntry(metadata: Metadata): bytes {
    if CODEC_KEY in metadata then metadata[CODEC_KEY] else CompressionName(NullCodec)
  }

  /** What remains to check once the metadata is known, and the sync marker that follows it. */
  function TakeHeaderTail<R>(lib: Library<R>, metadata: Metadata, s: bytes): (r: Parsed<Header>) {
    if SCHEMA_KEY !in metadata then Fail(SchemaMissing)
    else
      match ParseCompression(CodecEntry(metadata))
      case None => Fail(UnsupportedCodec)
      case Some(c) =>
        match TakeBytes(SYNC_SIZE, s)
        case Fail(e) => Fail(e)
        case Took(sync, rest) =>
          if lib.newCodec(metadata[SCHEMA_KEY]).None? then Fail(BadSchema)
          else Took(Header(metadata[SCHEMA_KEY], c, metadata, sync), rest)
  }

  function TakeHeader<R>(lib: Library<R>, s: bytes): (r: Parsed<Header>) {
    match TakeMagic(s)
    case Fail(e) => Fail(e)
    case Took(_, s1) =>
      match TakeMetadata(s1)
      case Fail(e) => Fail(e)
      case Took(metadata, s2) => TakeHeaderTail(lib, metadata, s2)
  }

  /** For every metadata map and every order in which WriteHeader ranged over it, the reader recovers
      the very same map, with the schema and codec entries, exactly when the limits are respected. */
  lemma HeaderRoundTrip<R>(lib: Library<R>, order: seq<bytes>, metadata: Metadata, sync: bytes, rest: bytes)
    requires IsIterationOrder(order, metadata.Keys) && GoSizedMap(metadata) && GoLength(|metadata|)
    requires SCHEMA_KEY in metadata && lib.newCodec(metadata[SCHEMA_KEY]).Some?
    requires CODEC_KEY in metadata && ParseCompression(metadata[CODEC_KEY]).Some? && |sync| == SYNC_SIZE
    ensures var r := TakeHeader(lib, HeaderBytes(order, metadata, sync) + rest);
            if MetadataFits(metadata)
            then r == Took(Header(metadata[SCHEMA_KEY], ParseCompression(metadata[CODEC_KEY]).value, metadata, sync), rest)
            else r.Fail?
  {
    HeaderSplit(order, metadata, sync, rest);
    TakeBytesBack(MAGIC, PutInt64(|metadata|) + (EntriesBytes(order, metadata) + (sync + rest)));
    MetadataRoundTrip(order, metadata, sync + rest);
    TakeBytesBack(sync, rest);
  }

  lemma TakeHeaderExtends<R>(lib: Library<R>, s: bytes, t: bytes)
    requires TakeHeader(lib, s).Took?
    ensures TakeHeader(lib, s + t) == Took(TakeHeader(lib, s).value, TakeHeader(lib, s).rest + t)
  {
    TakeBytesExtends(|MAGIC|, s, t);
    var s1 := TakeMagic(s).rest;
    TakeMetadataExtends(s1, t);
    TakeBytesExtends(SYNC_SIZE, TakeMetadata(s1).rest, t);
  }

  /** No bytes are left over when the header is all there is. */
  lemma WholeHeaderTaken<R>(lib: Library<R>, order: seq<bytes>, metadata: Metadata, sync: bytes)
    requires IsIterationOrder(order, metadata.Keys) && GoSizedMap(metadata) && GoLength(|metadata|)
    requires SCHEMA_KEY in metadata && lib.newCodec(metadata[SCHEMA_KEY]).Some?
    requires CODEC_KEY in metadata && ParseCompression(metadata[CODEC_KEY]).Some? && |sync| == SYNC_SIZE
    ensures TakeHeader(lib, HeaderBytes(order, metadata, sync)).Took? ==>
              TakeHeader(lib, HeaderBytes(order, metadata, sync)).rest == []
  {
    HeaderRoundTrip(lib, order, metadata, sync, []);
    EmptyRight(HeaderBytes(order, metadata, sync));
  }

  /** A front part of bytes that hold no more than a header does not parse as a header. */
  lemma FrontRefused<R>(lib: Library<R>, front: bytes, back: bytes)
    requires back != []
    requires TakeHeader(lib, front + back).Took? ==> TakeHeader(lib, front + back).rest == []
    ensures TakeHeader(lib, front).Fail?
  {
    if TakeHeader(lib, front).Took? {
      LongerIsNotEmpty(TakeHeader(lib, front).rest, back);
      TakeHeaderExtends(lib, front, back);
    }
  }

  lemma SplitAt(s: bytes, k: nat)
    requires k < |s|
    ensures s[..k] + s[k..] == s && s[k..] != []
  {
  }

  /** A file cut inside its header is refused: no cut header is ever taken for another header. */
  lemma CutHeaderRefused<R>(lib: Library<R>, order: seq<bytes>, metadata: Metadata, sync: bytes, k: nat)
    requires IsIterationOrder(order, metadata.Keys) && GoSizedMap(metadata) && GoLength(|metadata|)
    requires SCHEMA_KEY in metadata && lib.newCodec(metadata[SCHEMA_KEY]).Some?
    requires CODEC_KEY in metadata && ParseCompression(metadata[CODEC_KEY]).Some? && |sync| == SYNC_SIZE
    requires k < |HeaderBytes(order, metadata, sync)|
    ensures TakeHeader(lib, HeaderBytes(order, metadata, sync)[..k]).Fail?
  {
    WholeHeaderTaken(lib, order, metadata, sync);
    SplitAt(HeaderBytes(order, metadata, sync), k);
    FrontRefused(lib, HeaderBytes(order, metadata, sync)[..k], HeaderBytes(order, metadata, sync)[k..]);
  }

  lemma LongerIsNotEmpty(a: bytes, b: bytes)
    requires b != []
    ensures a + b != []
  {
    assert |a + b| > 0;
  }

  /** How the blocks after a header are laid out. */
  function HeaderLayout<R>(lib: Library<R>, h: Header): Layout<R>
    requires lib.newCodec(h.schema).Some?
  {
    Layout(lib, lib.newCodec(h.schema).value, h.compression, h.sync)
  }

  class OcfReader<R(!new)> {
    const lib: Library<R>
    const src: bytes
    const maxBlockSize: int
    var pos: nat
    var headerRead: bool
    var header: Option<Header>
    var codec: Option<RecordCodec<R>>

    ghost predicate Valid()
      reads this
    {
      && pos <= |src|
      && (headerRead ==> header.Some? && codec.Some? && lib.newCodec(header.value.schema) == codec)
    }

    ghost function Rest(): bytes
      requires Valid()
      reads this
    {
      src[pos..]
    }

    constructor (lib: Library<R>, src: bytes, maxBlockSize: int)
      ensures Valid() && pos == 0 && !headerRead && Rest() == src
      ensures this.lib == lib && this.src == src
      ensures this.maxBlockSize == if maxBlockSize <= 0 then DEFAULT_MAX_BLOCK_SIZE else maxBlockSize
    {
      this.lib, this.src := lib, src;
      this.maxBlockSize := if maxBlockSize <= 0 then DEFAULT_MAX_BLOCK_SIZE else maxBlockSize;
      pos, headerRead, header, codec := 0, false, None, None;
    }

    /** Reads exactly `n` bytes, or consumes what is left and fails. */
    method ReadFull(n: nat) returns (r: Option<bytes>)
      requires Valid()
      modifies this`pos
      ensures Valid()
      ensures match TakeBytes(n, old(Rest()))
              case Took(b, rest) => r == Some(b) && Rest() == rest
              case Fail(_) => r == None && Rest() == []
    {
      if |src| - pos < n {
        pos := |src|;
        return None;
      }
      r := Some(src[pos..pos + n]);
      assert src[pos..][..n] == src[pos..pos + n] && src[pos..][n..] == src[pos + n..];
      pos := pos + n;
    }

    method ReadInt64() returns (r: Option<int>)
      requires Valid()
      modifies this`pos
      ensures Valid()
      ensures match TakeInt64(old(Rest()))
              case Took(n, rest) => r == Some(n) && Rest() == rest
              case Fail(_) => r == None && Rest() == []
    {
      var b := ReadFull(8);
      r := if b.None? then None else Some(GetInt64(b.value));
    }

    method ReadSized(limit: nat, tooLong: OcfError) returns (r: Result<bytes, OcfError>)
      requires Valid()
      modifies this`pos
      ensures Valid()
      ensures match TakeSized(limit, tooLong, old(Rest()))
              case Took(b, rest) => r == Ok(b) && Rest() == rest
              case Fail(e) => r == Err(e)
    {
      var n := ReadInt64();
      if n.None? { return Err(Truncated); }
      if n.value < 0 || n.value > limit { return Err(tooLong); }
      var b := ReadFull(n.value);
      r := if b.None? then Err(Truncated) else Ok(b.value);
    }

    method ReadEntry() returns (r: Result<(bytes, bytes), OcfError>)
      requires Valid()
      modifies this`pos
      ensures Valid()
      ensures match TakeEntry(old(Rest()))
              case Took(e, rest) => r == Ok(e) && Rest() == rest
              case Fail(e) => r == Err(e)
    {
      var key := ReadSized(MAX_KEY_LENGTH, BadKeyLength);
      if key.Err? { return Err(key.error); }
      var value := ReadSized(MAX_VALUE_LENGTH, BadValueLength);
      r := if value.Err? then Err(value.error) else Ok((key.value, value.value));
    }

    method ReadMetadata() returns (r: Result<Metadata, OcfError>)
      requires Valid()
      modifies this`pos
      ensures Valid()
      ensures match TakeMetadata(old(Rest()))
              case Took(m, rest) => r == Ok(m) && Rest() == rest
              case Fail(e) => r == Err(e)
    {
      var count := ReadInt64();
      if count.None? { return Err(Truncated); }
      if count.value < 0 || count.value > MAX_METADATA_COUNT { return Err(BadMetadataCount); }
      r := ReadEntries(count.value);
    }

    method ReadEntries(count: nat) returns (r: Result<Metadata, OcfError>)
      requires Valid()
      modifies this`pos
      ensures Valid()
      ensures match TakeEntries(count, old(Rest()), map[])
              case Took(m, rest) => r == Ok(m) && Rest() == rest
              case Fail(e) => r == Err(e)
    {
      var metadata: Metadata := map[];
      ghost var goal := TakeEntries(count, Rest(), metadata);
      for i := 0 to count
        invariant Valid()
        invariant TakeEntries(count - i, Rest(), metadata) == goal
      {
        var entry := ReadEntry();
        if entry.Err? { return Err(entry.error); }
        metadata := metadata[entry.value.0 := entry.value.1];
      }
      r := Ok(metadata);
    }

    /** Reads the header once; later calls return it again without reading. */
    method ReadHeader() returns (r: Result<Header, OcfError>)
      requires Valid()
      modifies this
      ensures Valid()
      ensures old(headerRead) ==> r == Ok(old(header).value) && unchanged(this)
      ensures !old(headerRead) ==>
                match TakeHeader(lib, old(Rest()))
                case Took(h, rest) => r == Ok(h) && headerRead && header == Some(h) && Rest() == rest
                case Fail(e) => r == Err(e) && !headerRead && header == old(header)
    {
      if headerRead { return Ok(header.value); }
      var magic := ReadFull(|MAGIC|);
      if magic.None? { return Err(Truncated); }
      if magic.value != MAGIC { return Err(BadMagic); }
      var metadata := ReadMetadata();
      if metadata.Err? { return Err(metadata.error); }
      if SCHEMA_KEY !in metadata.value { return Err(SchemaMissing); }
      var compression := ParseCompression(CodecEntry(metadata.value));
      if compression.None? { return Err(UnsupportedCodec); }
      var sync := ReadFull(SYNC_SIZE);
      if sync.None? { return Err(Truncated); }
      var schema := metadata.value[SCHEMA_KEY];
      var newCodec := lib.newCodec(schema);
      if newCodec.None? { return Err(BadSchema); }
      codec := newCodec;
      header := Some(Header(schema, compression.value, metadata.value, sync.value));
      headerRead := true;
      r := Ok(header.value);
    }

    /** The header must have been read: without it the original would take its own lock twice. */
    method ReadBlock() returns (r: Result<RawBlock, OcfError>)
      requires Valid() && headerRead
      modifies this`pos
      ensures Valid()
      ensures match TakeBlock(header.value.sync, maxBlockSize, old(Rest()))
              case Took(b, rest) => r == Ok(b) && Rest() == rest
              case Fail(e) => r == Err(e)
    {
      if pos == |src| { return Err(EndOfFile); }
      var count := ReadInt64();
      if count.None? { return Err(Truncated); }
      if count.value == 0 {
        var final := ReadFull(SYNC_SIZE);
        if final.None? { return Err(Truncated); }
        if final.value != header.value.sync { return Err(BadFinalMarker); }
        return Err(EndOfFile);
      }
      if count.value < 0 { return Err(BadBlockCount); }
      var size := ReadInt64();
      if size.None? { return Err(Truncated); }
      if size.value <= 0 || size.value > maxBlockSize { return Err(BadBlockSize); }
      var data := ReadFull(size.value);
      if data.None? { return Err(Truncated); }
      var marker := ReadFull(SYNC_SIZE);
      if marker.None? { return Err(Truncated); }
      if marker.value != header.value.sync { return Err(BadSyncMarker); }
      r := Ok(RawBlock(count.value, data.value));
    }

    method ReadBlockObjects() returns (r: Result<seq<R>, OcfError>)
      requires Valid() && headerRead
      modifies this`pos
      ensures Valid()
      ensures match TakeObjects(HeaderLayout(lib, header.value), maxBlockSize, old(Rest()))
              case Took(objects, rest) => r == Ok(objects) && Rest() == rest
              case Fail(e) => r == Err(e)
    {
      var block := ReadBlock();
      if block.Err? { return Err(block.error); }
      var raw := Decompress(lib, header.value.compression, block.value.data);
      if raw.None? { return Err(DecompressFailed); }
      var objects := DecodeObjects(codec.value, block.value.count, raw.value);
      r := if objects.None? then Err(DecodeFailed) else Ok(objects.value);
    }

    static method DecodeObjects(rc: RecordCodec<R>, count: nat, raw: bytes) returns (r: Option<seq<R>>)
      ensures r == DecodeRecords(rc, count, raw, [])
    {
      var objects: seq<R>, data := [], raw;
      for i := 0 to count
        invariant DecodeRecords(rc, count - i, data, objects) == DecodeRecords(rc, count, raw, [])
      {
        var next := rc.decode(data);
        if next.None? { return None; }
        objects, data := objects + [next.value.0], next.value.1;
      }
      r := Some(objects);
    }

    /** Back to the beginning, forgetting the header. */
    method Reset()
      requires Valid()
      modifies this
      ensures Valid() && !headerRead && Rest() == src
    {
      pos, headerRead, header := 0, false, None;
    }
  }

  /** The stand-alone schema lookup, which stops at the first schema entry. */
  method ExtractSchemaFromOCF(data: bytes) returns (r: Result<bytes, OcfError>)
    ensures r == ExtractSchema(data)
  {
    var magic := TakeMagic(data);
    if magic.Fail? { return Err(magic.error); }
    var count := TakeInt64(magic.rest);
    if count.Fail? { return Err(count.error); }
    if count.value < 0 || count.value > MAX_METADATA_COUNT { return Err(BadMetadataCount); }
    r := FindSchemaEntry(count.value, count.rest);
  }

  method FindSchemaEntry(count: nat, data: bytes) returns (r: Result<bytes, OcfError>)
    ensures r == FindSchema(count, data)
  {
    var rest := data;
    ghost var goal := FindSchema(count, data);
    for i := 0 to count
      invariant FindSchema(count - i, rest) == goal
    {
      var entry := TakeEntry(rest);
      if entry.Fail? { return Err(entry.error); }
      if entry.value.0 == SCHEMA_KEY { return Ok(entry.value.1); }
      rest := entry.rest;
    }
    r := Err(SchemaMissing);
  }
}
