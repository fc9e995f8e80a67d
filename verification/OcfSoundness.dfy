/** The other direction of the round trips: for any bytes at all, whatever the reader accepts is what the
    layout says. */
module OcfSoundness {
  import opened Wrappers
  import opened Numbers
  import opened Bytes
  import opened OcfFormat
  import opened OcfObjects
  import opened OcfReader

  lemma TakeBytesSound(n: nat, s: bytes)
    requires TakeBytes(n, s).Took?
    ensures s == TakeBytes(n, s).value + TakeBytes(n, s).rest && |TakeBytes(n, s).value| == n
  {
  }

  lemma TakeInt64Sound(s: bytes)
    requires TakeInt64(s).Took?
    ensures s == PutInt64(TakeInt64(s).value) + TakeInt64(s).rest && -TWO_63 <= TakeInt64(s).value < TWO_63
  {
    Int64Onto(s[..8]);
    assert s == s[..8] + s[8..];
  }

  lemma TakeSizedSound(limit: nat, tooLong: OcfError, s: bytes)
    requires TakeSized(limit, tooLong, s).Took?
    ensures var r := TakeSized(limit, tooLong, s);
            s == PutInt64(|r.value|) + r.value + r.rest && |r.value| <= limit
  {
    var n := TakeInt64(s);
    TakeInt64Sound(s);
    TakeBytesSound(n.value, n.rest);
    Assoc(PutInt64(n.value), TakeBytes(n.value, n.rest).value, TakeBytes(n.value, n.rest).rest);
  }

  lemma TakeEntrySound(s: bytes)
    requires TakeEntry(s).Took?
    ensures var r := TakeEntry(s);
            s == EntryBytes(r.value.0, r.value.1) + r.rest && EntryFits(r.value.0, r.value.1)
  {
    var key := TakeSized(MAX_KEY_LENGTH, BadKeyLength, s);
    TakeSizedSound(MAX_KEY_LENGTH, BadKeyLength, s);
    TakeSizedSound(MAX_VALUE_LENGTH, BadValueLength, key.rest);
    var value := TakeSized(MAX_VALUE_LENGTH, BadValueLength, key.rest);
    Assoc(PutInt64(|key.value|) + key.value, PutInt64(|value.value|) + value.value, value.rest);
  }

  lemma TakeMagicSound(s: bytes)
    ensures TakeMagic(s).Took? <==> MAGIC <= s
    ensures TakeMagic(s).Took? ==> s == MAGIC + TakeMagic(s).rest
  {
    if TakeMagic(s).Took? { TakeBytesSound(|MAGIC|, s); }
  }

  // ---------------------------------------------------------------- blocks

  lemma TakeBlockSound(sync: bytes, maxSize: int, s: bytes)
    requires |sync| == SYNC_SIZE && TakeBlock(sync, maxSize, s).Took?
    ensures var r := TakeBlock(sync, maxSize, s);
            s == FrameBytes(r.value, sync) + r.rest && Framed(r.value) && BlockFits(r.value, maxSize)
  {
    var count := TakeInt64(s);
    var size := TakeInt64(count.rest);
    var data := TakeBytes(size.value, size.rest);
    TakeInt64Sound(s);
    TakeInt64Sound(count.rest);
    TakeBytesSound(size.value, size.rest);
    TakeBytesSound(SYNC_SIZE, data.rest);
    FrameSplit(count.value, data.value, sync, TakeBlock(sync, maxSize, s).rest);
  }

  lemma FrameSplit(count: int, data: bytes, sync: bytes, rest: bytes)
    ensures FrameBytes(RawBlock(count, data), sync) + rest ==
            PutInt64(count) + (PutInt64(|data|) + (data + (sync + rest)))
  {
    Assoc(PutInt64(count), PutInt64(|data|) + (data + sync), rest);
    Assoc(PutInt64(|data|), data + sync, rest);
    Assoc(data, sync, rest);
  }

  /** On any bytes the reader returns a block exactly when they begin with that block's frame, sync marker
      included, and its payload fits. */
  lemma TakeBlockIff(sync: bytes, maxSize: int, s: bytes, b: RawBlock, rest: bytes)
    requires |sync| == SYNC_SIZE
    ensures TakeBlock(sync, maxSize, s) == Took(b, rest) <==>
            s == FrameBytes(b, sync) + rest && Framed(b) && BlockFits(b, maxSize)
  {
    if TakeBlock(sync, maxSize, s) == Took(b, rest) { TakeBlockSound(sync, maxSize, s); }
    if s == FrameBytes(b, sync) + rest && Framed(b) && BlockFits(b, maxSize) { TakeBlockBack(b, sync, maxSize, rest); }
  }

  /** It reports the end of the file exactly when nothing is left or the end marker follows. */
  lemma EndOfFileIff(sync: bytes, maxSize: int, s: bytes)
    requires |sync| == SYNC_SIZE
    ensures TakeBlock(sync, maxSize, s) == Fail(EndOfFile) <==> s == [] || TerminatorBytes(sync) <= s
  {
    if s != [] && TakeBlock(sync, maxSize, s) == Fail(EndOfFile) {
      var count := TakeInt64(s);
      TakeInt64Sound(s);
      assert count.rest == sync + count.rest[SYNC_SIZE..];
      Assoc(PutInt64(0), sync, count.rest[SYNC_SIZE..]);
      Seam(TerminatorBytes(sync), count.rest[SYNC_SIZE..]);
    } else if TerminatorBytes(sync) <= s {
      assert s == TerminatorBytes(sync) + s[|TerminatorBytes(sync)|..];
      TakeTerminator(sync, maxSize, s[|TerminatorBytes(sync)|..]);
    }
  }

  /** Whatever a reader obtains from any bytes by reading to the end is a list of frames at their front, and
      the bytes after it are why it stopped. */
  lemma {:induction false} ScanSound(sync: bytes, maxSize: int, s: bytes) returns (tail: bytes)
    requires |sync| == SYNC_SIZE
    ensures var r := ScanBlocks(sync, maxSize, s);
            && s == FramesBytes(r.blocks, sync) + tail
            && TakeBlock(sync, maxSize, tail) == Fail(r.end)
            && forall b :: b in r.blocks ==> Framed(b) && BlockFits(b, maxSize)
    decreases |s|
  {
    var r := TakeBlock(sync, maxSize, s);
    if r.Took? {
      TakeBlockSound(sync, maxSize, s);
      tail := ScanSound(sync, maxSize, r.rest);
      var more := ScanBlocks(sync, maxSize, r.rest);
      assert ScanBlocks(sync, maxSize, s).blocks == [r.value] + more.blocks;
      Assoc(FrameBytes(r.value, sync), FramesBytes(more.blocks, sync), tail);
    } else {
      tail := s;
      EmptyLeft(s);
    }
  }

  // -------------------------------------------------------------- the header

  function PairsBytes(pairs: seq<(bytes, bytes)>): bytes {
    if pairs == [] then [] else EntryBytes(pairs[0].0, pairs[0].1) + PairsBytes(pairs[1..])
  }

  /** The map after storing the pairs in order: the last of several equal keys counts. */
  function Stored(m: Metadata, pairs: seq<(bytes, bytes)>): Metadata
    decreases |pairs|
  {
    if pairs == [] then m else Stored(m[pairs[0].0 := pairs[0].1], pairs[1..])
  }

  /** A pair parser that accepts only what the layout says. */
  ghost predicate PairSound(take: bytes -> Parsed<(bytes, bytes)>) {
    forall a {:trigger take(a)} :: take(a).Took? ==>
      a == EntryBytes(take(a).value.0, take(a).value.1) + take(a).rest && EntryFits(take(a).value.0, take(a).value.1)
  }

  lemma TakeEntryIsSound()
    ensures PairSound(TakeEntry)
  {
    forall a | TakeEntry(a).Took?
      ensures a == EntryBytes(TakeEntry(a).value.0, TakeEntry(a).value.1) + TakeEntry(a).rest
      ensures EntryFits(TakeEntry(a).value.0, TakeEntry(a).value.1)
    {
      TakeEntrySound(a);
    }
  }

  lemma {:induction false} PairsSound(take: bytes -> Parsed<(bytes, bytes)>, n: nat, s: bytes, m: Metadata)
      returns (pairs: seq<(bytes, bytes)>)
    requires PairSound(take) && TakePairs(take, n, s, m).Took?
    ensures |pairs| == n && forall p :: p in pairs ==> EntryFits(p.0, p.1)
    ensures var r := TakePairs(take, n, s, m);
            s == PairsBytes(pairs) + r.rest && r.value == Stored(m, pairs)
    decreases n
  {
    if n == 0 {
      pairs := [];
      EmptyLeft(s);
    } else {
      var e := take(s);
      var later := PairsSound(take, n - 1, e.rest, m[e.value.0 := e.value.1]);
      pairs := [e.value] + later;
      assert pairs[1..] == later;
      Assoc(EntryBytes(e.value.0, e.value.1), PairsBytes(later), TakePairs(take, n, s, m).rest);
    }
  }

  /** Any header the reader accepts begins with the magic, a count of 0..1000, that many pairs within the
      limits and a sync marker; the map is the pairs stored in order, and schema and codec are read off it, a
      missing codec standing for none. */
  lemma HeaderSound<R>(lib: Library<R>, s: bytes) returns (pairs: seq<(bytes, bytes)>)
    requires TakeHeader(lib, s).Took?
    ensures |pairs| <= MAX_METADATA_COUNT && forall p :: p in pairs ==> EntryFits(p.0, p.1)
    ensures var (h, rest) := (TakeHeader(lib, s).value, TakeHeader(lib, s).rest);
            && s == MAGIC + (PutInt64(|pairs|) + (PairsBytes(pairs) + (h.sync + rest)))
            && |h.sync| == SYNC_SIZE && h.metadata == Stored(map[], pairs)
            && SCHEMA_KEY in h.metadata && h.schema == h.metadata[SCHEMA_KEY] && lib.newCodec(h.schema).Some?
            && (if CODEC_KEY in h.metadata then CompressionName(h.compression) == h.metadata[CODEC_KEY]
                else h.compression == NullCodec)
  {
    TakeMagicSound(s);
    var s1 := TakeMagic(s).rest;
    var n := TakeInt64(s1);
    TakeInt64Sound(s1);
    TakeEntryIsSound();
    pairs := PairsSound(TakeEntry, n.value, n.rest, map[]);
    TakeBytesSound(SYNC_SIZE, TakeMetadata(s1).rest);
    CompressionNameInjective(NullCodec);
  }

  lemma HeaderParts(order: seq<bytes>, metadata: Metadata, sync: bytes, rest: bytes)
    requires IsIterationOrder(order, metadata.Keys) && GoSizedMap(metadata) && MetadataFits(metadata)
    ensures var s := HeaderBytes(order, metadata, sync) + rest;
            TakeMagic(s).Took? && TakeMetadata(TakeMagic(s).rest) == Took(metadata, sync + rest)
  {
    HeaderSplit(order, metadata, sync, rest);
    TakeBytesBack(MAGIC, PutInt64(|metadata|) + (EntriesBytes(order, metadata) + (sync + rest)));
    MetadataRoundTrip(order, metadata, sync + rest);
  }

  /** What the reader makes of any map within the limits, laid out as a header: which error it reports, or
      the header it recovers; without a codec entry the blocks are not compressed. */
  lemma HeaderOutcome<R>(lib: Library<R>, order: seq<bytes>, metadata: Metadata, sync: bytes, rest: bytes)
    requires IsIterationOrder(order, metadata.Keys) && GoSizedMap(metadata) && MetadataFits(metadata) && |sync| == SYNC_SIZE
    ensures var r := TakeHeader(lib, HeaderBytes(order, metadata, sync) + rest);
            if SCHEMA_KEY !in metadata then r == Fail(SchemaMissing)
            else if CODEC_KEY in metadata && forall c :: CompressionName(c) != metadata[CODEC_KEY] then r == Fail(UnsupportedCodec)
            else if lib.newCodec(metadata[SCHEMA_KEY]).None? then r == Fail(BadSchema)
            else
              && r.Took? && r.rest == rest && r.value.metadata == metadata && r.value.sync == sync
              && r.value.schema == metadata[SCHEMA_KEY]
              && (if CODEC_KEY in metadata then CompressionName(r.value.compression) == metadata[CODEC_KEY]
                  else r.value.compression == NullCodec)
  {
    HeaderParts(order, metadata, sync, rest);
    TakeBytesBack(sync, rest);
    CompressionNameInjective(NullCodec);
    if CODEC_KEY in metadata { assert ParseCompression(metadata[CODEC_KEY]).Some? <==> exists c :: metadata[CODEC_KEY] == CompressionName(c); }
  }

  // ----------------------------------------------------- the schema lookup

  lemma {:induction false} PairsKeepKeys(take: bytes -> Parsed<(bytes, bytes)>, n: nat, s: bytes, m: Metadata)
    requires TakePairs(take, n, s, m).Took?
    ensures m.Keys <= TakePairs(take, n, s, m).value.Keys
    decreases n
  {
    if n > 0 {
      var e := take(s);
      PairsKeepKeys(take, n - 1, e.rest, m[e.value.0 := e.value.1]);
    }
  }

  lemma {:induction false} FindAgrees(take: bytes -> Parsed<(bytes, bytes)>, n: nat, s: bytes, m: Metadata)
    requires TakePairs(take, n, s, m).Took? && SCHEMA_KEY !in m
    ensures FindIn(take, n, s).Ok? <==> SCHEMA_KEY in TakePairs(take, n, s, m).value
    ensures FindIn(take, n, s).Err? ==> FindIn(take, n, s) == Err(SchemaMissing)
    decreases n
  {
    if n > 0 {
      var e := take(s);
      var m1 := m[e.value.0 := e.value.1];
      if e.value.0 == SCHEMA_KEY { PairsKeepKeys(take, n - 1, e.rest, m1); } else { FindAgrees(take, n - 1, e.rest, m1); }
    }
  }

  /** On any bytes whose metadata the reader can read, the stand-alone lookup finds a schema exactly when the
      reader does. */
  lemma ExtractAgrees(s: bytes)
    requires TakeMagic(s).Took? && TakeMetadata(TakeMagic(s).rest).Took?
    ensures ExtractSchema(s).Ok? <==> SCHEMA_KEY in TakeMetadata(TakeMagic(s).rest).value
    ensures ExtractSchema(s).Err? ==> ExtractSchema(s) == Err(SchemaMissing)
  {
    var n := TakeInt64(TakeMagic(s).rest);
    FindAgrees(TakeEntry, n.value, n.rest, map[]);
  }
}
