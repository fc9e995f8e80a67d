/** The byte layout of the object container file, as a printer and a parser on values. */
module OcfFormat {
  import opened Wrappers
  import opened Numbers
  import opened Bytes

  const MAGIC: bytes := [0x4F, 0x62, 0x6A, 0x01]
  // "avro.schema" and "avro.codec"
  const SCHEMA_KEY: bytes := [0x61, 0x76, 0x72, 0x6F, 0x2E, 0x73, 0x63, 0x68, 0x65, 0x6D, 0x61]
  const CODEC_KEY: bytes := [0x61, 0x76, 0x72, 0x6F, 0x2E, 0x63, 0x6F, 0x64, 0x65, 0x63]
  const SYNC_SIZE: nat := 16
  const MAX_METADATA_COUNT: nat := 1000
  const MAX_KEY_LENGTH: nat := 1024
  const MAX_VALUE_LENGTH: nat := 1024 * 1024

  datatype OcfError =
    | EndOfFile | Truncated
    | BadMagic | BadMetadataCount | BadKeyLength | BadValueLength | SchemaMissing
    | UnsupportedCodec | BadSchema
    | BadFinalMarker | BadBlockCount | BadBlockSize | BadSyncMarker
    | DecompressFailed | DecodeFailed | EncodeFailed
    | HeaderNotWritten | HeaderAlreadyWritten

  datatype Parsed<+T> = Took(value: T, rest: bytes) | Fail(error: OcfError)

  type Metadata = map<bytes, bytes>

  datatype RawBlock = RawBlock(count: int, data: bytes)

  // ---------------------------------------------------------------- printing

  function EntryBytes(key: bytes, value: bytes): bytes {
    PutInt64(|key|) + key + (PutInt64(|value|) + value)
  }

  /** The metadata pairs in the order the map iteration produced its keys. */
  function EntriesBytes(order: seq<bytes>, metadata: Metadata): bytes
    requires forall k :: k in order ==> k in metadata
  {
    if order == [] then [] else EntryBytes(order[0], metadata[order[0]]) + EntriesBytes(order[1..], metadata)
  }

  function HeaderBytes(order: seq<bytes>, metadata: Metadata, sync: bytes): bytes
    requires forall k :: k in order ==> k in metadata
  {
    MAGIC + (PutInt64(|metadata|) + (EntriesBytes(order, metadata) + sync))
  }

  function FrameBytes(block: RawBlock, sync: bytes): bytes {
    PutInt64(block.count) + (PutInt64(|block.data|) + (block.data + sync))
  }

  function FramesBytes(blocks: seq<RawBlock>, sync: bytes): bytes {
    if blocks == [] then [] else FrameBytes(blocks[0], sync) + FramesBytes(blocks[1..], sync)
  }

  function TerminatorBytes(sync: bytes): bytes {
    PutInt64(0) + sync
  }

  /** `order` lists every key once: what ranging over a Go map yields. */
  ghost predicate IsIterationOrder(order: seq<bytes>, keys: set<bytes>) {
    && (forall k :: k in order <==> k in keys)
    && (forall i, j :: 0 <= i < j < |order| ==> order[i] != order[j])
  }

  // ----------------------------------------------------------------- parsing

  function TakeBytes(n: nat, s: bytes): (r: Parsed<bytes>)
  {
    if |s| < n then Fail(Truncated) else Took(s[..n], s[n..])
  }

  function TakeInt64(s: bytes): (r: Parsed<int>)
  {
    if |s| < 8 then Fail(Truncated) else Took(GetInt64(s[..8]), s[8..])
  }

  /** A length prefix within 0..limit, then that many bytes. */
  function TakeSized(limit: nat, tooLong: OcfError, s: bytes): (r: Parsed<bytes>) {
    match TakeInt64(s)
    case Fail(e) => Fail(e)
    case Took(n, rest) => if n < 0 || n > limit then Fail(tooLong) else TakeBytes(n, rest)
  }

  function TakeEntry(s: bytes): (r: Parsed<(bytes, bytes)>) {
    match TakeSized(MAX_KEY_LENGTH, BadKeyLength, s)
    case Fail(e) => Fail(e)
    case Took(key, s1) =>
      match TakeSized(MAX_VALUE_LENGTH, BadValueLength, s1)
      case Fail(e) => Fail(e)
      case Took(value, s2) => Took((key, value), s2)
  }

  /** Reads `n` pairs with `take` into `m`; a repeated key keeps the last value. */
  function TakePairs(take: bytes -> Parsed<(bytes, bytes)>, n: nat, s: bytes, m: Metadata): (r: Parsed<Metadata>)
    decreases n
  {
    if n == 0 then Took(m, s)
    else
      match take(s)
      case Fail(e) => Fail(e)
      case Took(entry, rest) => TakePairs(take, n - 1, rest, m[entry.0 := entry.1])
  }

  function TakeEntries(n: nat, s: bytes, m: Metadata): (r: Parsed<Metadata>) {
    TakePairs(TakeEntry, n, s, m)
  }

  function TakeMetadata(s: bytes): (r: Parsed<Metadata>) {
    match TakeInt64(s)
    case Fail(e) => Fail(e)
    case Took(n, rest) => if n < 0 || n > MAX_METADATA_COUNT then Fail(BadMetadataCount) else TakeEntries(n, rest, map[])
  }

  function TakeMagic(s: bytes): (r: Parsed<()>) {
    match TakeBytes(|MAGIC|, s)
    case Fail(e) => Fail(e)
    case Took(m, rest) => if m != MAGIC then Fail(BadMagic) else Took((), rest)
  }

  /** The first schema entry among the next `n` pairs read with `take`; stops as soon as it is found. */
  function FindIn(take: bytes -> Parsed<(bytes, bytes)>, n: nat, s: bytes): (r: Result<bytes, OcfError>)
    decreases n
  {
    if n == 0 then Err(SchemaMissing)
    else
      match take(s)
      case Fail(e) => Err(e)
      case Took(entry, rest) => if entry.0 == SCHEMA_KEY then Ok(entry.1) else FindIn(take, n - 1, rest)
  }

  function FindSchema(n: nat, s: bytes): (r: Result<bytes, OcfError>) {
    FindIn(TakeEntry, n, s)
  }

  function ExtractSchema(s: bytes): (r: Result<bytes, OcfError>) {
    match TakeMagic(s)
    case Fail(e) => Err(e)
    case Took(_, s1) =>
      match TakeInt64(s1)
      case Fail(e) => Err(e)
      case Took(n, s2) =>
        if n < 0 || n > MAX_METADATA_COUNT then Err(BadMetadataCount) else FindSchema(n, s2)
  }

  function TakeFinalMarker(sync: bytes, s: bytes): (e: OcfError) {
    if |s| < SYNC_SIZE then Truncated
    else if s[..SYNC_SIZE] != sync then BadFinalMarker
    else EndOfFile
  }

  function TakeBlock(sync: bytes, maxSize: int, s: bytes): (r: Parsed<RawBlock>)
    ensures r.Took? ==> |r.rest| < |s| && r.value.count > 0
  {
    if s == [] then Fail(EndOfFile)
    else
      match TakeInt64(s)
      case Fail(e) => Fail(e)
      case Took(count, s1) =>
        if count == 0 then Fail(TakeFinalMarker(sync, s1))
        else if count < 0 then Fail(BadBlockCount)
        else
          match TakeInt64(s1)
          case Fail(e) => Fail(e)
          case Took(size, s2) =>
            if size <= 0 || size > maxSize then Fail(BadBlockSize)
            else
              match TakeBytes(size, s2)
              case Fail(e) => Fail(e)
              case Took(data, s3) =>
                match TakeBytes(SYNC_SIZE, s3)
                case Fail(e) => Fail(e)
                case Took(marker, s4) => if marker != sync then Fail(BadSyncMarker) else Took(RawBlock(count, data), s4)
  }

  datatype BlockScan = BlockScan(blocks: seq<RawBlock>, end: OcfError)

  /** Every block a reader obtains by calling ReadBlock until it reports an error. */
  function ScanBlocks(sync: bytes, maxSize: int, s: bytes): BlockScan
    decreases |s|
  {
    match TakeBlock(sync, maxSize, s)
    case Fail(e) => BlockScan([], e)
    case Took(b, rest) =>
      var more := ScanBlocks(sync, maxSize, rest);
      BlockScan([b] + more.blocks, more.end)
  }

  // ------------------------------------------------- the metadata round trip

  lemma TakeBytesBack(a: bytes, rest: bytes)
    ensures TakeBytes(|a|, a + rest) == Took(a, rest)
  {
    Seam(a, rest);
  }

  lemma TakeInt64Back(n: int, rest: bytes)
    requires -TWO_63 <= n < TWO_63
    ensures TakeInt64(PutInt64(n) + rest) == Took(n, rest)
  {
    Seam(PutInt64(n), rest);
    Int64RoundTrip(n);
  }

  lemma TakeSizedBack(limit: nat, tooLong: OcfError, a: bytes, rest: bytes)
    requires GoLength(|a|)
    ensures TakeSized(limit, tooLong, PutInt64(|a|) + a + rest) ==
            if |a| <= limit then Took(a, rest) else Fail(tooLong)
  {
    assert PutInt64(|a|) + a + rest == PutInt64(|a|) + (a + rest);
    TakeInt64Back(|a|, a + rest);
    TakeBytesBack(a, rest);
  }

  predicate EntryFits(key: bytes, value: bytes) {
    |key| <= MAX_KEY_LENGTH && |value| <= MAX_VALUE_LENGTH
  }

  lemma TakeEntryBack(key: bytes, value: bytes, rest: bytes)
    requires GoLength(|key|) && GoLength(|value|)
    ensures EntryFits(key, value) ==> TakeEntry(EntryBytes(key, value) + rest) == Took((key, value), rest)
    ensures !EntryFits(key, value) ==> TakeEntry(EntryBytes(key, value) + rest).Fail?
  {
    var tail := PutInt64(|value|) + value;
    assert EntryBytes(key, value) + rest == PutInt64(|key|) + key + (tail + rest);
    TakeSizedBack(MAX_KEY_LENGTH, BadKeyLength, key, tail + rest);
    TakeSizedBack(MAX_VALUE_LENGTH, BadValueLength, value, rest);
  }

  ghost predicate GoSizedMap(metadata: Metadata) {
    forall k :: k in metadata ==> GoLength(|k|) && GoLength(|metadata[k]|)
  }

  predicate MetadataFits(metadata: Metadata) {
    && |metadata| <= MAX_METADATA_COUNT
    && forall k :: k in metadata ==> EntryFits(k, metadata[k])
  }

  ghost predicate AllFit(order: seq<bytes>, metadata: Metadata)
    requires forall k :: k in order ==> k in metadata
  {
    forall k :: k in order ==> EntryFits(k, metadata[k])
  }

  ghost predicate Agrees(m: Metadata, metadata: Metadata) {
    forall k :: k in m ==> k in metadata && m[k] == metadata[k]
  }

  lemma {:induction false} TakeEntriesBack(order: seq<bytes>, metadata: Metadata, m: Metadata, rest: bytes)
    requires forall k :: k in order ==> k in metadata
    requires GoSizedMap(metadata) && Agrees(m, metadata)
    ensures var r := TakeEntries(|order|, EntriesBytes(order, metadata) + rest, m);
            if AllFit(order, metadata)
            then r.Took? && r.rest == rest && Agrees(r.value, metadata) && r.value.Keys == m.Keys + (set k | k in order)
            else r.Fail?
    decreases |order|
  {
    if order == [] {
      assert EntriesBytes(order, metadata) + rest == rest;
    } else {
      var k, tail := order[0], EntriesBytes(order[1..], metadata);
      Assoc(EntryBytes(k, metadata[k]), tail, rest);
      TakeEntryBack(k, metadata[k], tail + rest);
      assert forall x :: x in order <==> x == k || x in order[1..];
      if EntryFits(k, metadata[k]) {
        TakeEntriesBack(order[1..], metadata, m[k := metadata[k]], rest);
      }
    }
  }

  lemma {:induction false} IterationOrderLength(order: seq<bytes>, keys: set<bytes>)
    requires IsIterationOrder(order, keys)
    ensures |order| == |keys|
  {
    if order != [] {
      var k := order[0];
      assert forall x :: x in order <==> x == k || x in order[1..];
      assert k !in order[1..];
      IterationOrderLength(order[1..], keys - {k});
    } else {
      assert keys == {};
    }
  }

  lemma AllEntriesBack(order: seq<bytes>, metadata: Metadata, rest: bytes)
    requires IsIterationOrder(order, metadata.Keys) && GoSizedMap(metadata)
    ensures var r := TakeEntries(|order|, EntriesBytes(order, metadata) + rest, map[]);
            if AllFit(order, metadata) then r == Took(metadata, rest) else r.Fail?
  {
    TakeEntriesBack(order, metadata, map[], rest);
    var r := TakeEntries(|order|, EntriesBytes(order, metadata) + rest, map[]);
    if r.Took? {
      assert r.value.Keys == metadata.Keys;
      assert r.value == metadata;
    }
  }

  /** Reading back what WriteHeader emitted, in any iteration order, gives the same map, exactly
      when the reader's three limits are respected. */
  lemma MetadataRoundTrip(order: seq<bytes>, metadata: Metadata, rest: bytes)
    requires IsIterationOrder(order, metadata.Keys) && GoSizedMap(metadata) && GoLength(|metadata|)
    ensures var r := TakeMetadata(PutInt64(|metadata|) + (EntriesBytes(order, metadata) + rest));
            if MetadataFits(metadata) then r == Took(metadata, rest) else r.Fail?
  {
    var entries := EntriesBytes(order, metadata) + rest;
    IterationOrderLength(order, metadata.Keys);
    TakeInt64Back(|metadata|, entries);
    AllEntriesBack(order, metadata, rest);
    assert AllFit(order, metadata) <==> forall k :: k in metadata ==> EntryFits(k, metadata[k]);
  }

  lemma HeaderSplit(order: seq<bytes>, metadata: Metadata, sync: bytes, rest: bytes)
    requires forall k :: k in order ==> k in metadata
    ensures HeaderBytes(order, metadata, sync) + rest ==
            MAGIC + (PutInt64(|metadata|) + (EntriesBytes(order, metadata) + (sync + rest)))
  {
    var entries := EntriesBytes(order, metadata);
    Assoc(MAGIC, PutInt64(|metadata|) + (entries + sync), rest);
    Assoc(PutInt64(|metadata|), entries + sync, rest);
    Assoc(entries, sync, rest);
  }

  lemma {:induction false} FindSchemaBack(order: seq<bytes>, metadata: Metadata, rest: bytes)
    requires SCHEMA_KEY in order && forall k :: k in order ==> k in metadata
    requires GoSizedMap(metadata) && MetadataFits(metadata)
    ensures FindSchema(|order|, EntriesBytes(order, metadata) + rest) == Ok(metadata[SCHEMA_KEY])
    decreases |order|
  {
    var k, tail := order[0], EntriesBytes(order[1..], metadata);
    Assoc(EntryBytes(k, metadata[k]), tail, rest);
    TakeEntryBack(k, metadata[k], tail + rest);
    if k != SCHEMA_KEY {
      assert SCHEMA_KEY in order[1..];
      FindSchemaBack(order[1..], metadata, rest);
    }
  }

  /** ExtractSchemaFromOCF finds the schema of every header WriteHeader can emit within the limits. */
  lemma ExtractSchemaRoundTrip(order: seq<bytes>, metadata: Metadata, sync: bytes, rest: bytes)
    requires IsIterationOrder(order, metadata.Keys) && GoSizedMap(metadata) && MetadataFits(metadata)
    requires SCHEMA_KEY in metadata
    ensures ExtractSchema(HeaderBytes(order, metadata, sync) + rest) == Ok(metadata[SCHEMA_KEY])
  {
    var entries := EntriesBytes(order, metadata);
    HeaderSplit(order, metadata, sync, rest);
    TakeBytesBack(MAGIC, PutInt64(|metadata|) + (entries + (sync + rest)));
    IterationOrderLength(order, metadata.Keys);
    TakeInt64Back(|metadata|, entries + (sync + rest));
    FindSchemaBack(order, metadata, sync + rest);
  }

  // A parse that succeeds does not depend on what follows.

  lemma TakeBytesExtends(n: nat, s: bytes, t: bytes)
    requires TakeBytes(n, s).Took?
    ensures TakeBytes(n, s + t) == Took(TakeBytes(n, s).value, TakeBytes(n, s).rest + t)
  {
    assert (s + t)[..n] == s[..n] && (s + t)[n..] == s[n..] + t;
  }

  lemma TakeInt64Extends(s: bytes, t: bytes)
    requires TakeInt64(s).Took?
    ensures TakeInt64(s + t) == Took(TakeInt64(s).value, TakeInt64(s).rest + t)
  {
    TakeBytesExtends(8, s, t);
  }

  lemma TakeSizedExtends(limit: nat, tooLong: OcfError, s: bytes, t: bytes)
    requires TakeSized(limit, tooLong, s).Took?
    ensures TakeSized(limit, tooLong, s + t) ==
            Took(TakeSized(limit, tooLong, s).value, TakeSized(limit, tooLong, s).rest + t)
  {
    TakeInt64Extends(s, t);
    TakeBytesExtends(TakeInt64(s).value, TakeInt64(s).rest, t);
  }

  lemma TakeEntryExtends(s: bytes, t: bytes)
    requires TakeEntry(s).Took?
    ensures TakeEntry(s + t) == Took(TakeEntry(s).value, TakeEntry(s).rest + t)
  {
    TakeSizedExtends(MAX_KEY_LENGTH, BadKeyLength, s, t);
    TakeSizedExtends(MAX_VALUE_LENGTH, BadValueLength, TakeSized(MAX_KEY_LENGTH, BadKeyLength, s).rest, t);
  }

  lemma {:induction false} TakePairsExtends(take: bytes -> Parsed<(bytes, bytes)>, n: nat, s: bytes, m: Metadata, t: bytes)
    requires forall a {:trigger take(a + t)} :: take(a).Took? ==> take(a + t) == Took(take(a).value, take(a).rest + t)
    requires TakePairs(take, n, s, m).Took?
    ensures TakePairs(take, n, s + t, m) == Took(TakePairs(take, n, s, m).value, TakePairs(take, n, s, m).rest + t)
    decreases n
  {
    if n > 0 {
      var e := take(s);
      assert take(s + t) == Took(e.value, e.rest + t);
      TakePairsExtends(take, n - 1, e.rest, m[e.value.0 := e.value.1], t);
    }
  }

  lemma TakeEntriesExtends(n: nat, s: bytes, m: Metadata, t: bytes)
    requires TakeEntries(n, s, m).Took?
    ensures TakeEntries(n, s + t, m) == Took(TakeEntries(n, s, m).value, TakeEntries(n, s, m).rest + t)
  {
    forall a | TakeEntry(a).Took? ensures TakeEntry(a + t) == Took(TakeEntry(a).value, TakeEntry(a).rest + t) {
      TakeEntryExtends(a, t);
    }
    TakePairsExtends(TakeEntry, n, s, m, t);
  }

  lemma TakeMetadataExtends(s: bytes, t: bytes)
    requires TakeMetadata(s).Took?
    ensures TakeMetadata(s + t) == Took(TakeMetadata(s).value, TakeMetadata(s).rest + t)
  {
    TakeInt64Extends(s, t);
    TakeEntriesExtends(TakeInt64(s).value, TakeInt64(s).rest, map[], t);
  }

  // ------------------------------------------------------ blocks and cutting

  /** What the reader accepts of a block: a positive count and a payload of 1..maxSize bytes. */
  predicate BlockFits(b: RawBlock, maxSize: int) {
    1 <= |b.data| <= maxSize
  }

  predicate Framed(b: RawBlock) {
    0 < b.count < TWO_63 && GoLength(|b.data|)
  }

  lemma TakeBlockBack(b: RawBlock, sync: bytes, maxSize: int, rest: bytes)
    requires Framed(b) && |sync| == SYNC_SIZE
    ensures TakeBlock(sync, maxSize, FrameBytes(b, sync) + rest) ==
            if BlockFits(b, maxSize) then Took(b, rest) else Fail(BadBlockSize)
  {
    var s3 := sync + rest;
    var s2 := b.data + s3;
    var s1 := PutInt64(|b.data|) + s2;
    assert FrameBytes(b, sync) + rest == PutInt64(b.count) + s1;
    TakeInt64Back(b.count, s1);
    TakeInt64Back(|b.data|, s2);
    TakeBytesBack(b.data, s3);
    TakeBytesBack(sync, rest);
  }

  lemma TakeTerminator(sync: bytes, maxSize: int, rest: bytes)
    requires |sync| == SYNC_SIZE
    ensures TakeBlock(sync, maxSize, TerminatorBytes(sync) + rest) == Fail(EndOfFile)
  {
    assert TerminatorBytes(sync) + rest == PutInt64(0) + (sync + rest);
    TakeInt64Back(0, sync + rest);
    Seam(sync, rest);
  }

  lemma CutInside(a: bytes, b: bytes, k: nat)
    requires k <= |a|
    ensures (a + b)[..k] == a[..k]
  {
  }

  lemma CutPast(a: bytes, b: bytes, k: nat)
    requires |a| <= k <= |a| + |b|
    ensures (a + b)[..k] == a + b[..k - |a|]
  {
  }

  /** A block that parses keeps parsing, to the same value, when more bytes follow. */
  lemma TakeBlockExtends(sync: bytes, maxSize: int, s: bytes, t: bytes)
    requires TakeBlock(sync, maxSize, s).Took?
    ensures TakeBlock(sync, maxSize, s + t) ==
            Took(TakeBlock(sync, maxSize, s).value, TakeBlock(sync, maxSize, s).rest + t)
  {
    var size := GetInt64(s[8..][..8]);
    assert (s + t)[..8] == s[..8] && (s + t)[8..] == s[8..] + t;
    assert (s[8..] + t)[..8] == s[8..][..8] && (s[8..] + t)[8..] == s[8..][8..] + t;
    var s2 := s[8..][8..];
    assert (s2 + t)[..size] == s2[..size] && (s2 + t)[size..] == s2[size..] + t;
    var s3 := s2[size..];
    assert (s3 + t)[..SYNC_SIZE] == s3[..SYNC_SIZE] && (s3 + t)[SYNC_SIZE..] == s3[SYNC_SIZE..] + t;
  }

  /** Cutting any byte string, written by anyone, never changes or invents a block: the blocks read
      from the front part are a prefix of the blocks read from the whole. */
  lemma {:induction false} CutNeverInvents(sync: bytes, maxSize: int, s: bytes, t: bytes)
    ensures ScanBlocks(sync, maxSize, s).blocks <= ScanBlocks(sync, maxSize, s + t).blocks
    decreases |s|
  {
    var r := TakeBlock(sync, maxSize, s);
    if r.Took? {
      TakeBlockExtends(sync, maxSize, s, t);
      CutNeverInvents(sync, maxSize, r.rest, t);
    }
  }

  /** How many whole frames lie within the first `k` bytes. */
  function WholeFrames(blocks: seq<RawBlock>, sync: bytes, k: nat): (j: nat)
    ensures j <= |blocks|
  {
    if blocks == [] || k < |FrameBytes(blocks[0], sync)| then 0
    else 1 + WholeFrames(blocks[1..], sync, k - |FrameBytes(blocks[0], sync)|)
  }

  /** `j` whole frames end at or before byte `k`, and the next one does not. */
  lemma {:induction false} WholeFramesMeaning(blocks: seq<RawBlock>, sync: bytes, k: nat)
    ensures var j := WholeFrames(blocks, sync, k);
            && |FramesBytes(blocks[..j], sync)| <= k
            && (j < |blocks| ==> k < |FramesBytes(blocks[..j + 1], sync)|)
  {
    if blocks != [] && |FrameBytes(blocks[0], sync)| <= k {
      var j := WholeFrames(blocks, sync, k);
      WholeFramesMeaning(blocks[1..], sync, k - |FrameBytes(blocks[0], sync)|);
      assert blocks[..j][1..] == blocks[1..][..j - 1];
      if j < |blocks| { assert blocks[..j + 1][1..] == blocks[1..][..j]; }
    } else {
      assert FramesBytes(blocks[..0], sync) == [];
      if blocks != [] {
        assert blocks[..1][1..] == [];
        assert FramesBytes(blocks[..1], sync) == FrameBytes(blocks[0], sync) + [];
      }
    }
  }

  lemma CutFrame(b: RawBlock, sync: bytes, maxSize: int, k: nat)
    requires Framed(b) && BlockFits(b, maxSize) && |sync| == SYNC_SIZE
    requires k < |FrameBytes(b, sync)|
    ensures TakeBlock(sync, maxSize, FrameBytes(b, sync)[..k]) == if k == 0 then Fail(EndOfFile) else Fail(Truncated)
  {
    var s := FrameBytes(b, sync)[..k];
    if k >= 8 {
      assert s[..8] == PutInt64(b.count);
      Int64RoundTrip(b.count);
      if k >= 16 {
        assert s[8..][..8] == PutInt64(|b.data|);
        Int64RoundTrip(|b.data|);
      }
    }
  }

  lemma CutTerminator(sync: bytes, maxSize: int, k: nat)
    requires |sync| == SYNC_SIZE && k < |TerminatorBytes(sync)|
    ensures TakeBlock(sync, maxSize, TerminatorBytes(sync)[..k]) == if k == 0 then Fail(EndOfFile) else Fail(Truncated)
  {
    var s := TerminatorBytes(sync)[..k];
    if k >= 8 {
      assert s[..8] == PutInt64(0);
      Int64RoundTrip(0);
    }
  }

  /** Where a cut looks like a clean end: at a frame boundary, or after the whole terminator. */
  predicate CleanCut(blocks: seq<RawBlock>, sync: bytes, k: nat) {
    || k == |FramesBytes(blocks[..WholeFrames(blocks, sync, k)], sync)|
    || k == |FramesBytes(blocks, sync) + TerminatorBytes(sync)|
  }

  lemma CleanCutStep(blocks: seq<RawBlock>, sync: bytes, k: nat)
    requires blocks != [] && k >= |FrameBytes(blocks[0], sync)|
    ensures CleanCut(blocks, sync, k) == CleanCut(blocks[1..], sync, k - |FrameBytes(blocks[0], sync)|)
  {
    var j := WholeFrames(blocks, sync, k);
    assert blocks[..j][1..] == blocks[1..][..j - 1];
  }

  lemma CutOnlyTerminator(sync: bytes, maxSize: int, k: nat)
    requires |sync| == SYNC_SIZE && k <= |TerminatorBytes(sync)|
    ensures ScanBlocks(sync, maxSize, TerminatorBytes(sync)[..k]) ==
            BlockScan([], if CleanCut([], sync, k) then EndOfFile else Truncated)
  {
    assert FramesBytes([], sync) + TerminatorBytes(sync) == TerminatorBytes(sync);
    if k < |TerminatorBytes(sync)| {
      CutTerminator(sync, maxSize, k);
    } else {
      assert TerminatorBytes(sync)[..k] == TerminatorBytes(sync) + [];
      TakeTerminator(sync, maxSize, []);
    }
  }

  lemma ScanFrame(b: RawBlock, sync: bytes, maxSize: int, rest: bytes)
    requires Framed(b) && BlockFits(b, maxSize) && |sync| == SYNC_SIZE
    ensures var r := ScanBlocks(sync, maxSize, rest);
            ScanBlocks(sync, maxSize, FrameBytes(b, sync) + rest) == BlockScan([b] + r.blocks, r.end)
  {
    TakeBlockBack(b, sync, maxSize, rest);
  }

  lemma ScanCutFrame(b: RawBlock, sync: bytes, maxSize: int, k: nat)
    requires Framed(b) && BlockFits(b, maxSize) && |sync| == SYNC_SIZE && k < |FrameBytes(b, sync)|
    ensures ScanBlocks(sync, maxSize, FrameBytes(b, sync)[..k]) ==
            BlockScan([], if k == 0 then EndOfFile else Truncated)
  {
    CutFrame(b, sync, maxSize, k);
  }

  /** The first `k` bytes of a written body are read as they should be. */
  ghost predicate CutReads(blocks: seq<RawBlock>, sync: bytes, maxSize: int, k: nat)
    requires k <= |FramesBytes(blocks, sync) + TerminatorBytes(sync)|
  {
    ScanBlocks(sync, maxSize, (FramesBytes(blocks, sync) + TerminatorBytes(sync))[..k]) ==
    BlockScan(blocks[..WholeFrames(blocks, sync, k)], if CleanCut(blocks, sync, k) then EndOfFile else Truncated)
  }

  lemma CutInFirstFrame(blocks: seq<RawBlock>, sync: bytes, maxSize: int, k: nat)
    requires blocks != [] && |sync| == SYNC_SIZE && Framed(blocks[0]) && BlockFits(blocks[0], maxSize)
    requires k < |FrameBytes(blocks[0], sync)| && k <= |FramesBytes(blocks, sync) + TerminatorBytes(sync)|
    ensures CutReads(blocks, sync, maxSize, k)
  {
    var frame, tail := FrameBytes(blocks[0], sync), FramesBytes(blocks[1..], sync) + TerminatorBytes(sync);
    Assoc(frame, FramesBytes(blocks[1..], sync), TerminatorBytes(sync));
    CutInside(frame, tail, k);
    ScanCutFrame(blocks[0], sync, maxSize, k);
    assert FramesBytes(blocks[..0], sync) == [];
  }

  lemma WholeFramesStep(blocks: seq<RawBlock>, sync: bytes, k: nat)
    requires blocks != [] && k >= |FrameBytes(blocks[0], sync)|
    ensures var j := WholeFrames(blocks[1..], sync, k - |FrameBytes(blocks[0], sync)|);
            WholeFrames(blocks, sync, k) == j + 1 && blocks[..j + 1] == [blocks[0]] + blocks[1..][..j]
  {
  }

  lemma CutBody(blocks: seq<RawBlock>, sync: bytes, k: nat)
    requires blocks != []
    requires |FrameBytes(blocks[0], sync)| <= k <= |FramesBytes(blocks, sync) + TerminatorBytes(sync)|
    ensures var frame, tail := FrameBytes(blocks[0], sync), FramesBytes(blocks[1..], sync) + TerminatorBytes(sync);
            k - |frame| <= |tail| && (FramesBytes(blocks, sync) + TerminatorBytes(sync))[..k] == frame + tail[..k - |frame|]
  {
    var frame, tail := FrameBytes(blocks[0], sync), FramesBytes(blocks[1..], sync) + TerminatorBytes(sync);
    Assoc(frame, FramesBytes(blocks[1..], sync), TerminatorBytes(sync));
    CutPast(frame, tail, k);
  }

  lemma CutAfterFirstFrame(blocks: seq<RawBlock>, sync: bytes, maxSize: int, k: nat)
    requires blocks != [] && |sync| == SYNC_SIZE && Framed(blocks[0]) && BlockFits(blocks[0], maxSize)
    requires |FrameBytes(blocks[0], sync)| <= k <= |FramesBytes(blocks, sync) + TerminatorBytes(sync)|
    requires CutReads(blocks[1..], sync, maxSize, k - |FrameBytes(blocks[0], sync)|)
    ensures CutReads(blocks, sync, maxSize, k)
  {
    var left := k - |FrameBytes(blocks[0], sync)|;
    CutBody(blocks, sync, k);
    ScanFrame(blocks[0], sync, maxSize, (FramesBytes(blocks[1..], sync) + TerminatorBytes(sync))[..left]);
    CleanCutStep(blocks, sync, k);
    WholeFramesStep(blocks, sync, k);
  }

  /** Every cut of a written body: exactly the whole frames before the cut are read, and the reader
      reports a clean end at the clean cuts and truncation everywhere else. */
  lemma {:induction false} TruncatedFile(blocks: seq<RawBlock>, sync: bytes, maxSize: int, k: nat)
    requires |sync| == SYNC_SIZE
    requires forall b :: b in blocks ==> Framed(b) && BlockFits(b, maxSize)
    requires k <= |FramesBytes(blocks, sync) + TerminatorBytes(sync)|
    ensures CutReads(blocks, sync, maxSize, k)
  {
    if blocks == [] {
      assert FramesBytes(blocks, sync) + TerminatorBytes(sync) == TerminatorBytes(sync);
      CutOnlyTerminator(sync, maxSize, k);
    } else if k < |FrameBytes(blocks[0], sync)| {
      CutInFirstFrame(blocks, sync, maxSize, k);
    } else {
      TruncatedFile(blocks[1..], sync, maxSize, k - |FrameBytes(blocks[0], sync)|);
      CutAfterFirstFrame(blocks, sync, maxSize, k);
    }
  }
}
