# A model of the batching, Avro and write path, with proofs

This project models the parts of the repository that hold state, bytes or concurrent
protocols, and proves what they promise. Each file is one component.

- `Bytes.dfy`, `OcfFormat.dfy`, `OcfObjects.dfy`, `OcfWriter.dfy`, `OcfReader.dfy`,
  `OcfSoundness.dfy`, `Converter.dfy`, `OcfRoundTrip.dfy`: the object container file. The layout is
  given once as a printer and a parser on values; the writer and reader are classes whose fields
  change as in the original, proved against the printer and the parser; the file-level laws (round
  trip, truncation, conversion) are lemmas about those. `OcfSoundness.dfy` is the other direction: what
  parses, of any bytes at all, was laid out so. The last file drives the real objects from
  `WriteHeader` to `ConvertOCFToBinary`.
- `Csv.dfy`: the row printer against an independent reader of the grammar in section 2 of
  RFC 4180 (with a line feed as line end).
- `BinaryIo.dfy`: the buffered record writer and the hand-written buffered reader.
- `Aggregator.dfy`: the batch aggregator, a class proved against a machine on values, and that
  machine's runs.
- `Controller.dfy`: the batch controller as an interleaving of submitters, workers and retry
  goroutines, one step for each channel operation and each locked section.
- `WriteService.dfy`: chunked writes with retries, and the backoff.
- `Strategy.dfy`, `RateWindow.dfy`: the strategy tree and the message rate ring buffer.
- `EngineStats.dfy`, `LatencyWindow.dfy`: the engine's atomic counters, one step for each
  atomic operation, and the sliding window of execution times.

Where the code differs from the Avro specification's "Object Container Files" section, the code is
followed: counts and lengths are fixed eight-byte big-endian integers, and a zero count followed by
the sync marker ends the file.

The Avro, flate, zlib and snappy libraries enter as functions with laws (`OcfObjects.Lawful`): a
record encoding can be decoded with anything after it, and each decompressor undoes its compressor.
`OcfObjects.LawfulLibraryExists` shows that the laws can be met. The deflate-then-zlib fallback at
`internal/adapters/avro/ocf.go:544-572` needs more than those laws: a zlib stream that raw inflate
happens to accept with another result is misread. That is a condition on each block
(`OcfObjects.Unambiguous`), decompression succeeds exactly under it (`OcfObjects.DecompressBack`),
and the file-level theorems ask it of the blocks written and of nothing else.

What the proofs turned up about the code:

- A block whose payload is empty, or larger than the reader's limit, is written without complaint
  and refused on reading; apart from an ambiguous zlib stream this is the only way a closed file of
  encodable records fails to read back (`OcfObjects.ClosedFileReadsBack`, an equivalence).
- A container file cut at a block boundary cannot be told from a complete one: the cuts that look
  clean are exactly the block boundaries, and what is read is exactly the records of the whole blocks
  before the cut (`OcfObjects.TruncatedFileYieldsPrefix`; `Converter.TruncatedFileConverts` for the whole
  file, header included, through the converter).
- One record that cannot be encoded blocks a container writer for good, and nothing buffered with it
  ever reaches the file (`OcfObjects.UnencodableRecordSticks`). The bare binary writer instead writes
  the good records before it again on every retry (`BinaryIo.FailedFlushRepeats`).
- Header metadata over the reader's limits (1000 entries, 1024-byte keys, 1 MiB values) is written
  and then refused, and nothing else is (`OcfReader.HeaderRoundTrip`, an equivalence).
- The configured retry count bounds nothing in the controller: resubmission starts again from zero
  (`Controller.RetriesUnbounded`); only its sign has an effect (`Controller.OnlySignOfRetryCountMatters`).
- Batches skipped or abandoned stay in `CurrentBacklogSize` for ever, and nothing else does
  (`Controller.BacklogLeak`; `Controller.SkippedBatchLeaks` is such a run).
- Messages are lost by the aggregator in exactly two situations (`Aggregator.LosesNothingIff`; the runs
  are `Aggregator.OverwriteLoses` and `Aggregator.ExpiryLoses`), and what is in the current batch at
  `Close` can never be fetched (`Aggregator.CloseStrands` and `Aggregator.CloseLoses`).
- The exponential backoff wraps around: with a one-second base it is negative at the 34th attempt
  (`WriteService.BackoffOverflows`; `WriteService.BackoffExact` says exactly when it is right). The bound
  on the total wait holds all the same (`WriteService.TotalWaitBounded`).
- A write panics on the first payload that can be converted when the retry count is negative or the
  largest int, for which the limit of the retry loop wraps around (`WriteService.NoAttemptIff`;
  `WriteService.CrashesIff` says exactly when for a batch).
- A hybrid strategy that requires all its parts enforces a limit exactly when every part does
  (`Strategy.HybridEnforcesIff`), so requiring a size and a count gives up both advertised limits
  (`Strategy.ConjunctionDoesNotEnforce`). `Strategy.EnforcesIff` reads off any tree's numbers which limits
  it enforces, the one-day cut-off included.

## Model

| member | source | states |
|---|---|---|
| `Bytes.Int64RoundTrip` | internal/adapters/avro/ocf.go:833-841 | an int64 written big-endian reads back as itself, negative values included |
| `Bytes.MostSignificantFirst` | internal/adapters/avro/ocf.go:833-841 | the most significant byte comes first: of a number below 65536 the last two bytes are its quotient and remainder by 256, and the others are zero |
| `Bytes.BufWriter.Write` | internal/adapters/avro/ocf.go:833-851 | bytes given to the buffered writer follow those before, whether they are still pending or not |
| `Bytes.BufWriter.Flush` | internal/adapters/avro/ocf.go:870 | after a flush the sink holds everything ever written |
| `OcfFormat.TakeSizedBack` | internal/adapters/avro/ocf.go:266-279 | a length-prefixed field reads back whole when it is within the limit and is refused otherwise |
| `OcfFormat.TakeEntryBack` | internal/adapters/avro/ocf.go:264-298 | a written metadata pair reads back as itself exactly within the key and value limits, leaving what follows |
| `OcfFormat.TakeEntriesBack` | internal/adapters/avro/ocf.go:262-301 | reading the pairs of any order on top of an agreeing map adds exactly those pairs; fails iff one is over a limit |
| `OcfFormat.MetadataRoundTrip` | internal/adapters/avro/ocf.go:710-744 | for every map and every iteration order in which it was written, the reader recovers exactly that map if it is within the three limits, and fails otherwise |
| `OcfFormat.ExtractSchemaRoundTrip` | internal/adapters/avro/ocf.go:907-979 | the stand-alone lookup returns the schema entry of every header that can be written within the limits |
| `OcfFormat.TakeBlockBack` | internal/adapters/avro/ocf.go:318-390 | a written block is returned with its count and payload, whatever follows, iff its payload is 1..MaxBlockSize bytes; otherwise it is refused for its size |
| `OcfFormat.TakeTerminator` | internal/adapters/avro/ocf.go:327-341 | the end marker reads as end of file, never as a block, whatever follows |
| `OcfFormat.TakeBlockExtends` | internal/adapters/avro/ocf.go:318-390 | a block that parses parses to the same value when more bytes follow |
| `OcfFormat.CutNeverInvents` | internal/adapters/avro/ocf.go:307-391 | for any bytes at all, the blocks read from a front part are a prefix of the blocks read from the whole |
| `OcfFormat.WholeFramesMeaning` | internal/adapters/avro/ocf.go:833-851 | the number of frames counted as whole before a cut is right on both sides |
| `OcfFormat.CutFrame` | internal/adapters/avro/ocf.go:318-390 | a frame cut anywhere inside is reported as truncated, and at its start as end of file |
| `OcfFormat.TruncatedFile` | internal/adapters/avro/ocf.go:318-390 | for every cut of framed blocks and the end marker (what the writer leaves, by `OcfObjects.ClosedBodyIsFrames`): exactly the whole blocks before it are read, with a clean end iff the cut is at a block boundary or after the whole end marker, and a truncation error otherwise |
| `OcfSoundness.TakeEntrySound` | internal/adapters/avro/ocf.go:264-298 | on any bytes: a pair that is accepted is what stands there, length prefixes included, and is within the limits |
| `OcfSoundness.TakeMagicSound` | internal/adapters/avro/ocf.go:175-183 | the first check passes iff the bytes begin with the magic |
| `OcfSoundness.TakeBlockIff` | internal/adapters/avro/ocf.go:318-390 | on any bytes: the reader returns a block iff they begin with that block's frame, sync marker included, and the payload fits |
| `OcfSoundness.EndOfFileIff` | internal/adapters/avro/ocf.go:319-342 | on any bytes: the end of file is reported iff nothing is left or the end marker with the right sync marker follows |
| `OcfSoundness.ScanSound` | internal/adapters/avro/ocf.go:307-391 | on any bytes: what is read to the end is a list of frames at their front, and the bytes after it are why reading stopped |
| `OcfSoundness.HeaderSound` | internal/adapters/avro/ocf.go:167-246 | on any bytes: an accepted header is the magic, a count, that many pairs within the limits and a sync marker; map, schema and codec are those pairs', the last of equal keys counting |
| `OcfSoundness.HeaderOutcome` | internal/adapters/avro/ocf.go:167-246 | for any map within the limits laid out as a header: the error reported for a missing schema, an unknown codec or a bad schema, in that order, or the header recovered, uncompressed without a codec entry |
| `OcfSoundness.ExtractAgrees` | internal/adapters/avro/ocf.go:907-979 | on any bytes with readable metadata the stand-alone lookup finds a schema iff the reader does |
| `OcfObjects.ParseCompression` | internal/adapters/avro/ocf.go:683-689 | a codec name is accepted exactly when it is one of the four, and then stands for that one |
| `OcfObjects.CompressionNameInjective` | internal/adapters/avro/ocf.go:196-209 | each codec's written name is read back as the same codec |
| `OcfObjects.LawfulLibraryExists` | internal/adapters/avro/ocf.go:544-572 | the laws asked of the libraries are consistent, together with all streams being unambiguous |
| `OcfObjects.DecompressBack` | internal/adapters/avro/ocf.go:544-572 | for all four codecs, the shared decompressor undoes the compressor iff the codec is not zlib or raw inflate either refuses the zlib stream or yields the same bytes |
| `OcfObjects.ZlibCanBeMisread` | internal/adapters/avro/ocf.go:551-563 | the library laws alone do not exclude that a zlib stream is read back as something else |
| `OcfObjects.WriteEach` | internal/adapters/avro/converter.go:347-362 | writes the encodings of the records up to the first that cannot be encoded, and reports whether there was one |
| `OcfObjects.DecodeRecordsBack` | internal/adapters/avro/ocf.go:427-437 | decoding as many records as were encoded gives them back in order |
| `OcfObjects.BlockObjectsBack` | internal/adapters/avro/ocf.go:394-453 | decompressing and decoding a written block gives its records |
| `OcfObjects.TakeObjectsBack` | internal/adapters/avro/ocf.go:394-453 | the next written block yields its records iff its compressed payload fits, and a size error otherwise |
| `OcfObjects.WriterRunConserves` | internal/adapters/avro/ocf.go:757-857 | after any calls, failed ones included, records in the file followed by records in the buffer are those submitted, in order; every block written is non-empty and encodable |
| `OcfObjects.BlocksLeaveWhenFull` | internal/adapters/avro/ocf.go:768-774 | after any calls with encodable records fewer than a block's worth are buffered; every block in the file has less than the block size plus the largest submission, and at least the block size unless Flush or Close was called |
| `OcfObjects.CallsReport` | internal/adapters/avro/ocf.go:768-795 | WriteBlock fails iff it leaves a full buffer behind, Flush and Close iff they leave anything; a Flush that succeeds has put all submissions into the file |
| `OcfObjects.CloseSucceedsIff` | internal/adapters/avro/ocf.go:787-795 | Flush and Close succeed iff every record submitted so far can be encoded |
| `OcfObjects.BodyReadsBack` | internal/adapters/avro/ocf.go:307-453 | reading any written body ends cleanly iff every payload before the first end marker fits, and then returns all those records |
| `OcfObjects.ClosedSegments` | internal/adapters/avro/ocf.go:874-904 | with encodable records Close leaves data blocks followed by one end marker, holding exactly the submitted records |
| `OcfObjects.ClosedFileReadsBack` | internal/adapters/avro/ocf.go:757-904 | for any block size, codec and calls of WriteBlock and Flush with encodable records, ended by Close, reading to the end of file succeeds iff every payload is within 1..MaxBlockSize, and returns exactly the submitted records in order |
| `OcfObjects.CutNeverInventsObjects` | internal/adapters/avro/ocf.go:394-453 | for any bytes, the records read from a front part are a prefix of those read from the whole |
| `OcfObjects.ClosedBodyIsFrames` | internal/adapters/avro/ocf.go:833-851 | data blocks and the end marker, as the writer emits them, are the framed blocks of the layout followed by its terminator |
| `OcfObjects.ScanDecodes` | internal/adapters/avro/ocf.go:394-453 | reading objects to the end is reading raw blocks to the end and decoding each, with the same reason to stop |
| `OcfObjects.CutBodyReads` | internal/adapters/avro/ocf.go:318-390 | the records and the end reported for any cut of data blocks and end marker |
| `OcfObjects.TruncatedFileYieldsPrefix` | internal/adapters/avro/ocf.go:318-390 | a closed file cut at any byte of its body yields exactly the records of the blocks whole before the cut, a prefix of the submitted ones, with a clean end iff the cut is at a block boundary or at the end |
| `OcfObjects.UnencodableRecordSticks` | internal/adapters/avro/ocf.go:787-795 | once a record that cannot be encoded is buffered, no later call changes the file and every later Flush and Close fails |
| `OcfWriter.OcfWriter.constructor` | internal/adapters/avro/ocf.go:632-671 | an empty writer with the default block size for non-positive settings |
| `OcfWriter.OcfWriter.WriteHeader` | internal/adapters/avro/ocf.go:674-754 | which error is returned when, that an error writes nothing, and otherwise that exactly the header of the caller's map with schema and codec entries is written, in some iteration order |
| `OcfWriter.OcfWriter.WriteMetadata` | internal/adapters/avro/ocf.go:723-744 | ranging over the map in any order writes each key once with its value |
| `OcfWriter.OcfWriter.WriteBlock` | internal/adapters/avro/ocf.go:757-777 | refuses before the header; otherwise the new file contents, buffer and result are those of the writer machine |
| `OcfWriter.OcfWriter.FlushBufferLocked` | internal/adapters/avro/ocf.go:780-857 | the whole buffer leaves as one block, or an encoding failure leaves file and buffer unchanged |
| `OcfWriter.OcfWriter.EncodeObjects` | internal/adapters/avro/ocf.go:787-797 | the concatenated encodings, or nothing if any record cannot be encoded |
| `OcfWriter.OcfWriter.EmitFrame` | internal/adapters/avro/ocf.go:833-851 | the bytes sent are the frame of the given count and payload |
| `OcfWriter.OcfWriter.Flush` | internal/adapters/avro/ocf.go:860-871 | the writer machine's flush; on success everything has reached the sink |
| `OcfWriter.OcfWriter.Close` | internal/adapters/avro/ocf.go:874-904 | the writer machine's close; on success everything has reached the sink; without a header a bare end marker is left |
| `OcfReader.HeaderRoundTrip` | internal/adapters/avro/ocf.go:167-246 | the reader recovers schema, codec, sync marker and the very same map from any header written, iff the limits are respected |
| `OcfReader.TakeHeaderExtends` | internal/adapters/avro/ocf.go:167-246 | a header that parses parses to the same value when more bytes follow |
| `OcfReader.CutHeaderRefused` | internal/adapters/avro/ocf.go:167-246 | a file cut anywhere inside its header is refused |
| `OcfReader.OcfReader.constructor` | internal/adapters/avro/ocf.go:132-164 | a reader at the start of its source, with the default block limit for non-positive settings |
| `OcfReader.OcfReader.ReadMetadata` | internal/adapters/avro/ocf.go:249-304 | the metadata parser's result and position, errors included |
| `OcfReader.OcfReader.ReadHeader` | internal/adapters/avro/ocf.go:167-246 | the header parser's result and position; a second call reads nothing and returns the same header |
| `OcfReader.OcfReader.ReadBlock` | internal/adapters/avro/ocf.go:307-391 | the block parser's result and position, errors included |
| `OcfReader.OcfReader.ReadBlockObjects` | internal/adapters/avro/ocf.go:394-453 | the records of the next block, or the error of reading, decompressing or decoding it |
| `OcfReader.OcfReader.DecodeObjects` | internal/adapters/avro/ocf.go:427-437 | the loop decodes exactly `count` records off the front |
| `OcfReader.OcfReader.Reset` | internal/adapters/avro/ocf.go:504-528 | back to the start of the source with the header forgotten |
| `OcfReader.ExtractSchemaFromOCF` | internal/adapters/avro/ocf.go:907-979 | the loop finds the first schema entry, or the error of the parser |
| `Converter.ConvertOneBlock` | internal/adapters/avro/converter.go:174-192 | one written block adds the encodings of its records, or ends the conversion if its payload does not fit |
| `Converter.BodyConverts` | internal/adapters/avro/converter.go:171-197 | converting a written body gives the encodings of its records one by one, whatever the block boundaries |
| `Converter.WrittenFileConverts` | internal/adapters/avro/converter.go:151-198 | header, any writes of encodable records, Close, then conversion: the encodings of the submitted records one by one if the payloads fit, and failure otherwise |
| `Converter.ConvertScans` | internal/adapters/avro/converter.go:174-192 | on any bytes, conversion is reading to the end and then encoding up to the first record that cannot be encoded; if there is none, both stop for the same reason |
| `Converter.TruncatedFileConverts` | internal/adapters/avro/converter.go:151-198 | a whole written file cut at any byte: inside the header the conversion fails with nothing converted; after it, exactly the encodings of the records in the blocks whole before the cut, taken for a complete file iff the cut is at a block boundary or at the end |
| `Converter.AvroConverter.GetCodec` | internal/adapters/avro/converter.go:586-608 | the codec cache is transparent |
| `Converter.AvroConverter.ConvertOCFToBinary` | internal/adapters/avro/converter.go:151-198 | a list of encodings, or the first error and no list |
| `Converter.AvroConverter.ConvertStreamOCFToBinary` | internal/adapters/avro/converter.go:315-368 | writes the concatenation of exactly the encodings the list form would return, those before a failure included |
| `Converter.CollectBlocks` | internal/adapters/avro/converter.go:174-192 | the nested loops collect the encodings of all blocks up to the first error |
| `Converter.StreamBlocks` | internal/adapters/avro/converter.go:340-363 | the nested loops write the encodings of all blocks up to the first error |
| `OcfRoundTrip.WriteFile` | internal/adapters/avro/ocf.go:632-904 | driving the writer object through any calls with encodable records and a Close leaves the header followed by the machine's blocks in the sink |
| `OcfRoundTrip.WriteThenConvert` | internal/adapters/avro/converter.go:151-198 | the writer object followed by the converter object: encodable records come out as their encodings, in order, iff every payload fits |
| `Csv.PrintRow` | internal/adapters/avro/converter.go:767-792 | the loop prints the row of the schema fields' texts, absent values as nothing |
| `Csv.RowRoundTrip` | internal/adapters/avro/converter.go:784-792 | an independent reader of the RFC 4180 grammar recovers exactly the fields and what follows, iff no unquoted field holds a carriage return that the reader refuses |
| `Csv.PlainFieldsStay` | internal/adapters/avro/converter.go:784-792 | a field prints as itself iff it holds no comma, quote or line feed; otherwise it begins and ends with a quote |
| `Csv.RowInjective` | internal/adapters/avro/converter.go:784-792 | two rows of one or more fields with the same printed line are the same, even with more text after them |
| `Csv.EmptyRowCollides` | internal/adapters/avro/converter.go:767-792 | the row of no fields prints like the row of one empty field |
| `Csv.TableInjective` | internal/adapters/avro/binary.go:910-935 | rows printed one after another can be told apart |
| `BinaryIo.RunKeeps` | internal/adapters/avro/binary.go:527-619 | after any calls, bytes written plus the encoding of the buffer encode what was submitted; with buffering a record that cannot be encoded is never dropped |
| `BinaryIo.SameBytesForEveryConfig` | internal/adapters/avro/binary.go:527-660 | with encodable records, any mix of calls leaves after Close the same bytes with buffering on or off and any buffer size |
| `BinaryIo.BufferedCloseTells` | internal/adapters/avro/binary.go:638-660 | with buffering, Close succeeds iff every submitted record can be encoded |
| `BinaryIo.BufferBounded` | internal/adapters/avro/binary.go:540-556 | with buffering and encodable records fewer than the configured number wait after any calls |
| `BinaryIo.FlushWritesAll` | internal/adapters/avro/binary.go:622-635 | with encodable records a Flush writes everything submitted and leaves nothing, in every configuration |
| `BinaryIo.CallsReport` | internal/adapters/avro/binary.go:527-635 | with buffering a write fails iff it leaves a full buffer behind, Flush and Close iff they leave anything; without, a call fails iff one of its own records cannot be encoded |
| `BinaryIo.UnbufferedWrites` | internal/adapters/avro/binary.go:577-590 | without buffering exactly the records before the first that cannot be encoded are written |
| `BinaryIo.FailedFlushRepeats` | internal/adapters/avro/binary.go:594-619 | k failed flushes write the records before the bad one k times and keep the buffer |
| `BinaryIo.BinaryWriter.constructor` | internal/adapters/avro/binary.go:467-506 | an empty writer with the defaults for non-positive settings |
| `BinaryIo.BinaryWriter.WriteRecord` | internal/adapters/avro/binary.go:527-563 | the machine's step for one record, in both modes |
| `BinaryIo.BinaryWriter.WriteRecords` | internal/adapters/avro/binary.go:566-591 | the machine's step for several records; unbuffered, the first failure ends the call with the earlier ones written |
| `BinaryIo.BinaryWriter.FlushBufferLocked` | internal/adapters/avro/binary.go:594-619 | on failure the records before the bad one are written and the buffer is kept |
| `BinaryIo.BinaryWriter.Flush` | internal/adapters/avro/binary.go:622-635 | the machine's flush; on success everything has reached the sink |
| `BinaryIo.BinaryWriter.Close` | internal/adapters/avro/binary.go:638-660 | the machine's close; on success everything has reached the sink |
| `BinaryIo.ReadRunConserves` | internal/adapters/avro/binary.go:144-161 | for any read sizes and any errors in between: bytes delivered, then held, then still in the source are the source's bytes |
| `BinaryIo.ReadToErrorConserves` | internal/adapters/avro/binary.go:144-161 | up to the first error nothing delivered is lost or reordered, and the failing read is made with an empty buffer |
| `BinaryIo.StoppingAtErrorLoses` | internal/adapters/avro/binary.go:144-161 | reading with any sizes up to the first error delivers everything taken from the source iff the failing answer carried no bytes; otherwise exactly those bytes are missing |
| `BinaryIo.ReadsMakeProgress` | internal/adapters/avro/binary.go:158-161 | a read without error hands out something, and fills the caller's room while anything stays held |
| `BinaryIo.ErrorsAreTheSources` | internal/adapters/avro/binary.go:145-156 | an error is reported only with an empty buffer and is the source's own, or end of file for an empty answer |
| `BinaryIo.EnoughReadsDeliverAll` | internal/adapters/avro/binary.go:144-161 | from a source that answers without errors, enough reads of any positive sizes deliver every byte, and then report the end of file |
| `BinaryIo.Source.Read` | internal/adapters/avro/binary.go:148 | the contract of an underlying reader that may return bytes together with an error |
| `BinaryIo.BufferedReader.Read` | internal/adapters/avro/binary.go:144-161 | the machine's step on the real buffer; what was delivered followed by `buf[start..end]` is what was taken from the source |
| `BinaryIo.BufferedReader.ReadFromSource` | internal/adapters/avro/binary.go:145-161 | with an empty buffer: one answer of the source, its error passed on first, an empty one as end of file |
| `BinaryIo.BufferedReader.Fill` | internal/adapters/avro/binary.go:145-156 | the buffer holds exactly what the source returned, even together with an error |
| `BinaryIo.BufferedReader.Serve` | internal/adapters/avro/binary.go:158-161 | delivers the front of the held bytes and keeps the rest |
| `BinaryIo.BufferedReader.Reset` | internal/adapters/avro/binary.go:164-168 | a new source, with the bytes held from the old one dropped |
| `Aggregator.RunConserves` | internal/batch/aggregator.go:358-496 | in every run the accepted messages are the concatenation, in creation order, of the delivered, expired and overwritten batches and the current one |
| `Aggregator.RunKeepsInv` | internal/batch/aggregator.go:409-493 | in every reachable state: current batch building or ready, count and size exact, no batch over its limits by more than the message that filled it, TotalBatches equal to the deliveries and at most the sum of the reason counters |
| `Aggregator.SizeIsBytes` | internal/batch/aggregator.go:414-424 | a batch's size is the length of all its keys and values put together |
| `Aggregator.RunKeepsReasons` | internal/batch/aggregator.go:440-482 | in every reachable state each closed batch carries the reason that fits it, count before size and timer or shutdown only when neither limit is reached, and the size and count counters are the numbers of batches closed by those limits |
| `Aggregator.EventsCounted` | internal/batch/aggregator.go:309-355 | in every run the time counter is the number of timer events that closed a batch, and the forced counter the number of forced batches |
| `Aggregator.ClosingEventsClose` | internal/batch/aggregator.go:563-699 | after the timer or Close no non-empty batch is still being built, and a Force leaves the current batch empty |
| `Aggregator.ClosedIff` | internal/batch/aggregator.go:646-656 | the aggregator is closed iff Close was called |
| `Aggregator.TotalMessagesExact` | internal/batch/aggregator.go:427 | TotalMessages is the number of accepted messages |
| `Aggregator.LosesNothingIff` | internal/batch/aggregator.go:409-412 | a run loses messages iff some AddMessage meets an unfetched ready batch or some expiry meets a non-empty building one |
| `Aggregator.PollingLosesNothing` | internal/batch/aggregator.go:499-546 | a client that asks for a batch before each message, without expiry, gets all accepted messages in order except those still in the current batch |
| `Aggregator.GetHandsOut` | internal/batch/aggregator.go:499-546 | GetBatch changes the state iff the aggregator is open with a ready batch, and then delivers it |
| `Aggregator.OverwriteLoses` | internal/batch/aggregator.go:409-412 | for every configuration and any two messages, a timer between them and no fetch loses the first |
| `Aggregator.ExpiryLoses` | internal/batch/aggregator.go:720-751 | a message followed by expiry is lost iff it alone does not already fill the batch |
| `Aggregator.CloseStrands` | internal/batch/aggregator.go:646-699 | nothing called after Close delivers or changes the messages left in the current batch |
| `Aggregator.CloseLoses` | internal/batch/aggregator.go:646-699 | a message added right before Close is accepted and never delivered, whatever is called later |
| `Aggregator.BatchAggregator.constructor` | internal/batch/aggregator.go:248-306 | the empty aggregator with defaults for non-positive limits |
| `Aggregator.BatchAggregator.CreateNewBatch` | internal/batch/aggregator.go:358-397 | a new empty batch object, and the current statistics reset |
| `Aggregator.BatchAggregator.AddMessage` | internal/batch/aggregator.go:400-496 | the machine's step, failing iff closed; a replaced batch object is left untouched |
| `Aggregator.BatchAggregator.GetBatch` | internal/batch/aggregator.go:499-546 | a batch iff open and ready; the object handed out is the old current one and is no longer the aggregator's |
| `Aggregator.BatchAggregator.IsBatchReady` | internal/batch/aggregator.go:549-560 | true iff a GetBatch at this moment would change the state, which is iff it would hand out a batch (`Aggregator.GetHandsOut`) |
| `Aggregator.BatchAggregator.ForceBatch` | internal/batch/aggregator.go:563-630 | a batch iff open and non-empty, whatever its status |
| `Aggregator.BatchAggregator.TimerFires` | internal/batch/aggregator.go:309-355 | the timer's locked body at any moment: marks a non-empty building batch ready |
| `Aggregator.BatchAggregator.CheckExpiredBatch` | internal/batch/aggregator.go:720-751 | drops a non-empty building batch that is past its time |
| `Aggregator.BatchAggregator.CloseAggregator` | internal/batch/aggregator.go:646-699 | marks what is left ready and closes; a second call changes nothing |
| `Controller.EveryStepSound` | internal/batch/controller.go:1171-1433 | every step of every goroutine moves tickets, slots, backlog, successes, failures and dead-letter counts consistently with the shared fields |
| `Controller.RunKeepsInv` | internal/batch/controller.go:999-1433 | all accounts and bounds hold in every state of every interleaving |
| `Controller.ExactlyOnePlace` | internal/batch/controller.go:1019-1055 | each accepted submission is counted exactly once over queue, goroutines and finished ones; nothing else is anywhere |
| `Controller.NeverTwice` | internal/batch/controller.go:1171-1212 | no submission is at two different places at once |
| `Controller.WorkersWithinLimit` | internal/batch/controller.go:1196-1201 | workers inside processBatch equal the held semaphore slots and never exceed MaxConcurrentBatches |
| `Controller.StatisticsAddUp` | internal/batch/controller.go:1245-1261 | processed equals successful plus failed after every step; successes and failures are those of the finished and in-flight submissions; dead-letter messages are exact up to the senders between queue and counter |
| `Controller.OutcomesCounted` | internal/batch/controller.go:1245-1261 | in every interleaving, successful and failed batches are the calls of the processor that returned without and with an error, less those whose worker has not counted yet |
| `Controller.DeadLetterRuleHolds` | internal/batch/controller.go:1381-1392 | at the last step of a batch that failed for good: it is dead-lettered iff that is enabled and the queue has room, and dropped otherwise; no other step does either |
| `Controller.DeadLettersAccounted` | internal/batch/controller.go:1381-1433 | in every run the batches dead-lettered, in order, are those consumed from the dead-letter queue followed by those in it; there are none while the feature is off |
| `Controller.DroppedOnlyWhenFull` | internal/batch/controller.go:1383-1392 | in every run a batch was dropped only if the feature is off or the queue was full at that moment, and dead-lettered only if it is on and had room |
| `Controller.QueueInOrder` | internal/batch/controller.go:1019-1055 | in every run batches leave the queue in the order in which they entered it |
| `Controller.BatchSucceeds` | internal/batch/controller.go:1215-1263 | for every configuration with a worker and a queue, a batch processed without error ends as a success and its worker and slot are free again |
| `Controller.FailedBatchEnds` | internal/batch/controller.go:1321-1392 | with nothing retried, a batch whose processing fails ends in the dead-letter queue if that is enabled, and is dropped if not |
| `Controller.WorkersStarted` | internal/batch/controller.go:1162-1168 | in every interleaving a running controller has exactly the configured number of workers |
| `Controller.CallsNeedRunning` | internal/batch/controller.go:1000-1004 | a submission is taken up iff the controller is running |
| `Controller.BacklogExact` | internal/batch/controller.go:1019-1033 | CurrentBacklogSize equals bytes queued plus bytes taken and not yet subtracted plus bytes skipped or abandoned, less bytes enqueued and not yet added |
| `Controller.BacklogLeak` | internal/batch/controller.go:1178-1205 | at rest, with batches queued or not, the backlog exceeds the queued bytes by exactly the bytes of skipped and abandoned batches, and by nothing iff those are empty |
| `Controller.SkippedBatchLeaks` | internal/batch/controller.go:1178-1190 | for every configuration with a worker and a queue, and every batch, some run ends at rest with an empty queue and the backlog equal to the batch's size |
| `Controller.StoppedLeavesNone` | internal/batch/controller.go:910-949 | once stopped no semaphore slot is held, and the submissions ever accepted are exactly those still queued, with a retry goroutine, or finished |
| `Controller.StopRuleHolds` | internal/batch/controller.go:1178-1212 | a submission is given up only once the context is cancelled, and resubmitted only while the controller runs |
| `Controller.NothingAbandonedBeforeStop` | internal/batch/controller.go:1046-1054 | in every run no submission is abandoned or refused as stopping before StopProcessing was called |
| `Controller.FinishedIsFinal` | internal/batch/controller.go:910-949 | once stopped with every goroutine finished, no later call changes anything but taking batches out of the dead-letter queue |
| `Controller.RetryOnce` | internal/batch/controller.go:1339-1348 | one failed attempt can put the same batch back in the queue with its count reset and no new client call |
| `Controller.RetriesUnbounded` | internal/batch/controller.go:1012 | with any positive retry count and for every n some run retries a single submitted batch n times |
| `Controller.OnlySignOfRetryCountMatters` | internal/batch/controller.go:1321-1377 | with a retry count of zero or less nothing is ever retried; with a positive one no worker ever sends a batch to the dead-letter queue |
| `WriteService.BackoffExact` | internal/application/services/write_service.go:1856-1866 | the delay before jitter is min(BaseDelay * 2^attempt, MaxDelay) iff the product stays below 2^63 or wraps to at least MaxDelay |
| `WriteService.BackoffVanishes` | internal/application/services/write_service.go:1862 | from attempt 64 on the delay before jitter is zero, or MaxDelay if that is negative |
| `WriteService.BackoffOverflows` | internal/application/services/write_service.go:1862 | with a base of one second the delay at attempt 34 is negative |
| `WriteService.BackoffMonotone` | internal/application/services/write_service.go:1861-1865 | without overflow the delay before jitter is positive, at most MaxDelay and never shrinks |
| `WriteService.JitterBound` | internal/application/services/write_service.go:1867-1870 | the jittered delay is above 0.8 of a positive delay less one nanosecond and below 1.2 of it; a delay that is not positive stays so |
| `WriteService.OneWaitBounded` | internal/application/services/write_service.go:1856-1871 | no single wait reaches 1.2 * MaxDelay, whatever the attempt and the base |
| `WriteService.NoAttemptIff` | internal/application/services/write_service.go:1151-1154 | the retry loop is skipped iff RetryCount is negative or the largest int, where adding one wraps |
| `WriteService.AttemptedUnique` | internal/application/services/write_service.go:1333-1385 | the conditions on a payload's attempts determine the calls, the outcome and the waits |
| `WriteService.AttemptsBounded` | internal/application/services/write_service.go:1829-1832 | a payload is sent at least once and at most min(RetryCount, MaxRetries) + 1 times, or not at all iff RetryCount is negative or the largest int |
| `WriteService.NextCallIff` | internal/application/services/write_service.go:1844-1851 | a call is followed by another iff it failed with an error that may be retried, both limits leave room, and the context is neither cancelled nor is during the wait |
| `WriteService.LastCallDecides` | internal/application/services/write_service.go:1333-1385 | the last call decides the outcome: its rows and warnings, the interruption if another attempt was due, or its error |
| `WriteService.WaitsFollowBackoff` | internal/application/services/write_service.go:1856-1871 | without overflow the first wait is within 20% of twice the base delay, and each later one of twice as much, up to the maximum |
| `WriteService.TotalWaitBounded` | internal/application/services/write_service.go:1856-1871 | for every configuration, overflow included: a payload that waits at all waits less than 1.2 * MaxDelay * RetryCount in total, negative delays counting as no wait; with no positive MaxDelay it never waits |
| `WriteService.SendWithRetries` | internal/application/services/write_service.go:1151-1202 | the retry loop: consecutive calls, each failure but the last retried, the stated reason for stopping, and a missing result when RetryCount + 1 is not positive in 64 bits |
| `WriteService.ChunksConcatenate` | internal/application/services/write_service.go:1279-1286 | the chunks concatenate to the data, none is empty, and all but the last have the batch size |
| `WriteService.BatchesOf` | internal/application/services/write_service.go:1273-1286 | for any batch size the pieces concatenate to the data |
| `WriteService.MakeChunks` | internal/application/services/write_service.go:1273-1286 | the slicing loop gives those chunks; a non-positive size means one chunk |
| `WriteService.NextChunk` | internal/application/services/write_service.go:1301-1385 | the next chunk in order is converted and sent, its calls added after those made before |
| `WriteService.ExecuteBatchWrite` | internal/application/services/write_service.go:1254-1470 | chunks are handled in order up to the end or the first that stops the service; the calls made and the response, or the panic, are those of that trace |
| `WriteService.ExecuteSyncWrite` | internal/application/services/write_service.go:1116-1251 | one conversion and one retry loop; rows, errors and warnings are those of its outcome; it panics iff RetryCount is negative or the largest int and the data can be converted |
| `WriteService.StrictStopsAtFirstFailure` | internal/application/services/write_service.go:1387-1424 | without AllowPartialFailure every chunk before the last one handled was written, nothing after the first failure is sent, and RowsAffected sums exactly the earlier chunks |
| `WriteService.PartialCounts` | internal/application/services/write_service.go:1427-1469 | with AllowPartialFailure a run that reaches the end reports no error value and successful chunks plus errors equal the number of chunks |
| `WriteService.ChunkRetriesIff` | internal/application/services/write_service.go:1333-1385 | the retry rule of `WriteService.NextCallIff` for every chunk of a batch, at its place among the calls made |
| `WriteService.ReportIsTheClients` | internal/application/services/write_service.go:1387-1469 | whatever the options: the rows reported are the sum of the client's successful answers, its warnings are all there in order, one error for each chunk not written, and success flags and counts to match |
| `WriteService.InterruptedReport` | internal/application/services/write_service.go:1358-1384 | an interrupted wait reports the context's error last, and success iff some earlier answer was one |
| `WriteService.ErrorMeaning` | internal/application/services/write_service.go:1301-1408 | the error of a chunk not written is the conversion's, the client's answer to its last call, or the cancelled context's |
| `WriteService.WarningsNumbered` | internal/application/services/write_service.go:1325-1418 | warnings carry their chunk's number from one: a failure warning for exactly the chunks not written, and the client's under the chunk they came with |
| `WriteService.CrashesIff` | internal/application/services/write_service.go:1412-1414 | a batch write panics iff RetryCount is negative or the largest int and it reaches a chunk that can be converted: any chunk if failures may be partial, else the first |
| `WriteService.ChunkCallsBounded` | internal/application/services/write_service.go:1333-1385 | each chunk is sent at most min(RetryCount, MaxRetries) + 1 times, and not at all iff it cannot be converted or RetryCount is negative or the largest int |
| `WriteService.SentInOrder` | internal/application/services/write_service.go:1301-1424 | without repetitions, the chunks sent are the convertible ones among those handled, in order; none if RetryCount is negative or the largest int |
| `Strategy.NewHybridStrategy` | internal/batch/strategy.go:507-544 | the running minima are the least limits of the parts |
| `Strategy.CreatedIff` | internal/batch/strategy.go:1085-1192 | the factory succeeds iff every type in the tree is known and every hybrid has parts |
| `Strategy.AllCreatedIff` | internal/batch/strategy.go:1172-1181 | parts are created one for one in order, and the error is that of the first that cannot be |
| `Strategy.HybridAsConfigured` | internal/batch/strategy.go:1163-1192 | a created hybrid has the configured parts in order and the configured way of combining them |
| `Strategy.TimeAsConfigured` | internal/batch/strategy.go:242-266 | a time leaf advertises exactly the configured milliseconds, in nanoseconds, and neither a size nor a count |
| `Strategy.SizeAsConfigured` | internal/batch/strategy.go:330-354 | a size leaf advertises exactly the configured size, no count and the one-day delay |
| `Strategy.CountAsConfigured` | internal/batch/strategy.go:417-441 | a count leaf advertises exactly the configured count, no size and the one-day delay |
| `Strategy.OddNumbers` | internal/batch/strategy.go:1108-1160 | a maximum below the minimum is raised to it, and numbers that are not positive stand for the defaults |
| `Strategy.LeafFires` | internal/batch/strategy.go:269-478 | on a non-empty batch a leaf fires iff its maximum is reached, or its minimum after a quiet second, for a time leaf half its minimum |
| `Strategy.CreatedIsWellBuilt` | internal/batch/strategy.go:1085-1192 | every tree the factory builds has non-empty hybrids that advertise their parts' least limits, and leaves whose maximum is at least their minimum, at every depth |
| `Strategy.TreeFiresIffLeafFires` | internal/batch/strategy.go:547-585 | a tree of OR hybrids fires iff one of its leaves does, however deep |
| `Strategy.TreeAdvertisesLeast` | internal/batch/strategy.go:507-544 | the advertised limits of a tree are the least over its leaves, each below its cut-off attained by a leaf |
| `Strategy.AdvertisedLimitsEnforced` | internal/batch/strategy.go:547-585 | every factory-built tree of leaves and OR hybrids creates a batch when a non-empty one reaches an advertised size, count or delay that is below its "no limit" value |
| `Strategy.CornerDecides` | internal/batch/strategy.go:547-585 | any tree enforces a size, count or delay limit on all batches iff it fires on the single smallest, youngest, busiest batch at that limit |
| `Strategy.HybridEnforcesIff` | internal/batch/strategy.go:547-585 | an AND hybrid enforces a limit iff all its parts do, an OR hybrid iff some part does |
| `Strategy.EnforcesIff` | internal/batch/strategy.go:269-585 | any tree enforces any limit iff its configured numbers guard it, leaf by leaf through AND and OR |
| `Strategy.AdvertisedEnforcedIff` | internal/batch/strategy.go:507-585 | any tree keeps every limit it advertises below "no limit" iff it guards each of them |
| `Strategy.DelayEnforcedIff` | internal/batch/strategy.go:507-585 | a factory-built tree of leaves and OR hybrids enforces its advertised delay below one day, and at any value, the one-day cut-off included, iff some leaf guards it |
| `Strategy.ConjunctionDoesNotEnforce` | internal/batch/strategy.go:553-568 | for all numbers: the factory-built conjunction of a size and a count enforces no count at all, and a size iff one message is all the count asks for and the size is at least the configured maximum |
| `Strategy.FiringIsMonotone` | internal/batch/strategy.go:547-585 | any tree, AND hybrids included, that would create a batch still does when the batch has grown and stayed quiet |
| `Strategy.QuietDecides` | internal/batch/strategy.go:269-478 | a factory-built tree of leaves and OR hybrids fires, once quiet for all leaves, iff some leaf's minimum is reached; while messages keep coming, iff some leaf's maximum is; and never below every minimum |
| `Strategy.DelayNeedsTimeLeaf` | internal/batch/strategy.go:357-478 | an OR tree with only size and count leaves decides independently of the elapsed time |
| `RateWindow.WindowExactIff` | internal/batch/strategy.go:1425-1445 | for any history, the last windowSize timestamps give min(windowSize, all in the window) iff nothing forgotten is in the window or everything kept is |
| `RateWindow.OrderedHistoryExact` | internal/batch/strategy.go:1425-1445 | with nondecreasing, nonzero timestamps the count agrees with the full history |
| `RateWindow.WindowEdge` | internal/batch/strategy.go:1434-1442 | a time exactly one window ago is inside, anything older is not, and an unused slot never is |
| `RateWindow.MessageRateCalculator.constructor` | internal/batch/strategy.go:1410-1418 | an empty ring with an empty history |
| `RateWindow.MessageRateCalculator.AddMessage` | internal/batch/strategy.go:1420-1427 | the ring holds the end of the full history after each addition |
| `RateWindow.MessageRateCalculator.CountInWindow` | internal/batch/strategy.go:1434-1442 | the loop counts the in-window timestamps among the last windowSize, and for an ordered history min(windowSize, all of them) |
| `RateWindow.MessageRateCalculator.GetRate` | internal/batch/strategy.go:1429-1446 | over the window's length in seconds the reported rate gives that count; no finite rate iff the window has no length |
| `EngineStats.MaxNeverDecreases` | internal/core/engine/engine.go:444-454 | no step of any worker lowers maxQueueTime |
| `EngineStats.RunKeepsMax` | internal/core/engine/engine.go:444-454 | in every interleaving maxQueueTime is zero or an observed queue time, at least that of every worker past its loop, and any larger one belongs to a worker still inside |
| `EngineStats.MaxMonotoneOverRuns` | internal/core/engine/engine.go:486-496 | over every run, the maximum at any earlier point is at most the one now |
| `EngineStats.MaxExactAtRest` | internal/core/engine/engine.go:444-454 | with no worker busy the maximum is that of all queue times ever observed |
| `EngineStats.RunKeepsCounts` | internal/core/engine/engine.go:515-658 | every counter is in balance with where the workers stand, in every interleaving |
| `EngineStats.CountersAddUp` | internal/core/engine/engine.go:560-593 | totals equal successes plus failures plus workers between the increments; cache hits and misses equal successful queries less workers yet to record; concurrency counters and semaphores count the workers inside |
| `EngineStats.OutcomesCounted` | internal/core/engine/engine.go:560-593 | in every interleaving each of the six counters is the number of executions that ended so (success or failure of its kind, cache hit or miss), less those whose worker has not got to it |
| `EngineStats.OutcomesExactAtRest` | internal/core/engine/engine.go:560-593 | with no worker busy these six counters are exact |
| `EngineStats.TaskCompletes` | internal/core/engine/engine.go:431-596 | while a slot is free, an idle worker that takes a task alone is idle again after finitely many steps, with its queue time and exactly its own outcome recorded |
| `EngineStats.CountersExactAtRest` | internal/core/engine/engine.go:599-658 | with no worker busy all statistics are exact and all slots are free |
| `LatencyWindow.WindowLength` | internal/core/engine/engine.go:1463-1467 | after n recordings the window holds n samples up to 10000, and from then on between 9001 and 10000 |
| `LatencyWindow.ExecutionTimes.RecordTime` | internal/core/engine/engine.go:1457-1469 | the window stays the end of everything recorded, with that length |
| `LatencyWindow.ExecutionTimes.CalculatePercentiles` | internal/core/engine/engine.go:1574-1597 | nothing before the first recording; then p50 <= p90 <= p95 <= p99, each the sample of its rank in the window |
| `LatencyWindow.SortedRank` | internal/core/engine/engine.go:1584-1594 | the k-th sorted sample has at most k samples below it and more than k at most it |
| `LatencyWindow.SortedReports` | internal/core/engine/engine.go:1590-1594 | reading a sorted copy at the four positions gives the four percentiles of the unsorted window, in order |
| `LatencyWindow.PercentileUnique` | internal/core/engine/engine.go:1590-1594 | the rank condition determines the reported value |

## Left out

- Controller.OnlySignOfRetryCountMatters: for a positive count that retries do happen is shown by `Controller.RetriesUnbounded`, as the existence of runs.
- OcfReader.OcfReader.ReadBlock: called before ReadHeader the original takes its own lock twice and never returns; the model requires the header to have been read.
- WriteService.JitterBound: a jittered delay of 2^63 ns or more, which only a MaxDelay above 243 years allows, has no defined value in the original; the model keeps the number.
- OcfReader.OcfReader.ReadBlockObjects: the original makes room for the whole block count before it decodes, and so panics on a block that claims more records than memory can hold; the model decodes and reports an error. No written file has such a block.
- OcfReader.OcfReader.Reset: the source is assumed to be seekable.
- RateWindow.MessageRateCalculator.GetRate: the rate is a real number; floating-point rounding is not modelled.
- BinaryIo.BinaryWriter.constructor: the schema is set once before writing; changing it between writes is not modelled.
- Csv.PrintRow: values arrive as their printed text, so an absent value and an empty text print alike, as in the original; `%v` formatting is not modelled.
- Csv.RowRoundTrip: unquoted text is widened to all characters but the separators, since the printer does not restrict itself to the grammar's character range.
- Record decoding takes one record off the front of the remaining bytes, which is what the code asks of the Avro library; the library itself is not modelled.
- Failures of the underlying writer or reader while the container format is written or read, and closing it.
- Go's int is taken to have 64 bits; lengths and counts of 2^63 and more, which no slice has; statistics counters, RowsAffected sums and byte sizes are unbounded integers; allocations that are too large, as for a huge configured batch, block or buffer size.
- Timestamps more than 292 years apart, whose difference the original caps.
- Metadata with a repeated key, which no writer produces: the reader keeps the last value and the schema lookup the first.
- Clocks, timers, random sync markers, random jitter and context timeouts are parameters or steps that may happen at any moment; floating-point delays are real numbers.
- In the controller: an unbuffered queue (MaxQueueSize 0), restarting after a stop, resizing the worker pool, CurrentBacklogCount, message, byte and time totals, flow control, events and the compaction monitor.
- In the aggregator: averages, ages, batch identifiers and the waiting for background goroutines in Close; MultiBatchAggregator, whose readiness test removes batches that it does not return.
- AdaptiveStrategy, which changes its own advertised limits while no underlying strategy takes them over.
- Which errors may be retried is decided by substrings of the message and is an abstract predicate; the retry metrics are not modelled.
- Streaming and transactional writes, and the choice of a write strategy.
- The engine's reply channels, plans, histograms, error classes and strategy usage counts; the write-side latency window, which repeats the query side.
- checkSchemaCompatibility and resolveSchema, the JSON conversions, and the Pulsar, StarRocks and schema registry clients.
- Logging and metrics.
