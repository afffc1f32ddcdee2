# Redpanda core, modelled in Dafny

Redpanda is a Kafka-compatible streaming platform. This project models the
parts of it that decide what bytes are stored, how they are named and read
back, and what replies are sent. For each part it proves what the code
promises.

- **Data path (C++).**
  - The fragmented byte buffer `iobuf`.
  - The reflection-based `adl` serializer.
  - The storage layer:
    - a segment and its offset tracker;
    - the segment reader's skip and stop rules;
    - the log manager's file naming, name parsing and recovery;
    - the lazily opened file handle, with its cache of open files (`file_stm`).
  - The write-ahead-log writer node.
- **Cluster (C++).**
  - The partition allocator's per-core weights and capacity.
  - The cluster types: topic configuration, its adl wire forms, and the error-name table.
  - The snapshotting state machine `persisted_stm`.
- **Model vocabulary (C++).** The printers and parsers of `model`.
- **Kafka front end (C++).**
  - Dispatch by API key and version.
  - The metadata API.
  - Topic-request validation.
  - The client's fetch request and its error response.
- **Coprocessors (C++).** Offset tracking, input reading and reply writing.
- **Go tools.**
  - rpk's Grafana dashboard generator.
  - rpk's ballast-file command.
  - rpk's checked tunable.
  - The Kubernetes operator's NodePort service.
- **Java tool.** The compacted-log verifier's property parser.

Each source file is one Dafny module:

- Code that changes state in place is a class with `modifies` clauses. Its
  methods are proved against specification functions.
- Pure code is datatypes, functions and lemmas.
- Futures run as sequential steps.
- I/O, the network, clocks and foreign libraries are outcome parameters.

`Common` holds the shared option, result, byte and decimal-text vocabulary.

## Model

| member | source | states |
|---|---|---|
| IobufModel.NextAllocationSize | src/v/bytes/iobuf.h:202-206 | a new fragment's capacity is at least the first chunk size, at most the largest chunk, and covers any request up to the largest chunk |
| IobufModel.Append | src/v/bytes/iobuf.h:244-246 | a fragment takes min(request, spare room) bytes, appended after its data, capacity unchanged |
| IobufModel.Trim | src/v/bytes/iobuf.h:218-221 | trimming a fragment keeps its bytes and leaves no spare room |
| IobufModel.TrimFront | src/v/bytes/iobuf.h:303-306 | a fragment trimmed by n keeps its bytes from n on |
| IobufModel.Reserve | src/v/bytes/iobuf.h:207-214 | a reservation of n bytes extends a fragment's data by n placeholder bytes within its capacity |
| IobufModel.Full | src/v/bytes/iobuf.h:226-231 | a full fragment holds exactly the buffer and has no spare room |
| IobufModel.ConcatAppend | src/v/bytes/iobuf.h:25-33 | the bytes of two fragment lists joined are the bytes of each, in order |
| IobufModel.ConcatSnoc | src/v/bytes/iobuf.h:25-33 | pushing a fragment at the back appends its bytes |
| IobufModel.ConcatLast | src/v/bytes/iobuf.h:25-33 | a list's bytes are those of all but the last fragment followed by the last one's |
| IobufModel.Shared | src/v/bytes/iobuf.h:232-239 | sharing each fragment gives one full fragment per fragment over the same bytes |
| IobufModel.SharedConcat | src/v/bytes/iobuf.h:232-239 | sharing fragments does not change the bytes |
| IobufModel.SuffixStep | src/v/bytes/iobuf.h:232-239 | the shared suffix from fragment k is fragment k followed by the shared suffix from k+1, for both fragments and bytes |
| IobufModel.ByteAt | src/v/bytes/iobuf.h:177-188 | walking fragments byte by byte yields byte i of the concatenated content |
| IobufModel.TrimFrontSpec | src/v/bytes/iobuf.h:300-310 | trim_front as written keeps every fragment valid |
| IobufModel.TrimFrontRemovesAtLeast | src/v/bytes/iobuf.h:300-310 | trim_front as written keeps a suffix of the content and removes at least min(n, size) bytes |
| IobufModel.TrimFrontOverTrims | src/v/bytes/iobuf.h:300-310 | with fragments [1,2],[3,4,5], trim_front(2) keeps only [5]: four bytes go instead of two |
| IobufModel.Iobuf.constructor | src/v/bytes/iobuf.h:62-65 | a new iobuf has no fragments and size 0 |
| IobufModel.Iobuf.Move | src/v/bytes/iobuf.h:67-72 | the move constructor takes over the fragments and size and leaves the source with no fragments and size 0 |
| IobufModel.Iobuf.Clear | src/v/bytes/iobuf.h:154-163 | clear (and the destructor) leave zero fragments and size 0 |
| IobufModel.Iobuf.SizeBytes | src/v/bytes/iobuf.h:193 | size_bytes equals the number of content bytes across all fragments |
| IobufModel.Iobuf.Empty | src/v/bytes/iobuf.h:192 | empty is true iff there are no fragments, which implies size 0 and no content |
| IobufModel.EmptyIsNotSizeZero | src/v/bytes/iobuf.h:192-193 | a fragment list can hold zero bytes without being empty, so empty() is not size_bytes() == 0 |
| IobufModel.Iobuf.Equals | src/v/bytes/iobuf.h:173-190 | operator== holds iff the byte contents are equal, whatever the fragment layout |
| IobufModel.Iobuf.NotEquals | src/v/bytes/iobuf.h:191 | operator!= holds iff the byte contents differ |
| IobufModel.Iobuf.CreateNewFragment | src/v/bytes/iobuf.h:202-206 | an empty fragment of the next allocation size is pushed at the back; content and size unchanged |
| IobufModel.Iobuf.ReserveMemory | src/v/bytes/iobuf.h:215-224 | content and size unchanged; nothing happens when the spare room suffices; afterwards the spare room covers the reservation |
| IobufModel.Iobuf.Reserve | src/v/bytes/iobuf.h:207-214 | size grows by sz, the content gains sz placeholder bytes at the end, and the placeholder addresses exactly those bytes |
| IobufModel.Iobuf.PrependBuf | src/v/bytes/iobuf.h:226-231 | the buffer becomes one full front fragment: size grows by its length and its bytes come before the old content |
| IobufModel.Iobuf.PrependIobuf | src/v/bytes/iobuf.h:232-239 | b's fragments, shared, go in front in their original order; content is b's then the old content; b is left empty |
| IobufModel.Iobuf.AppendBytes | src/v/bytes/iobuf.h:240-259 | size grows by exactly n and the content becomes the old content followed by the n bytes; n = 0 leaves the fragments unchanged |
| IobufModel.Iobuf.AppendChunk | src/v/bytes/iobuf.h:249-258 | one round of the append loop stores between 1 and all remaining bytes, in order |
| IobufModel.Iobuf.AppendBuf | src/v/bytes/iobuf.h:261-280 | appending a buffer grows size by its length and the content by its bytes, whichever branch is taken |
| IobufModel.Iobuf.AppendIobuf | src/v/bytes/iobuf.h:281-292 | the content becomes old ++ o, size grows by o's size, and o is left empty |
| IobufModel.Iobuf.MoveFront | src/v/bytes/iobuf.h:286-291 | moving o's first fragment keeps the combined bytes of this followed by o |
| IobufModel.Iobuf.PopFront | src/v/bytes/iobuf.h:293-299 | exactly the first fragment goes, and size drops by its size and the content by its bytes |
| IobufModel.Iobuf.TrimFront | src/v/bytes/iobuf.h:300-310 | the fragments become TrimFrontSpec of the old ones (n is not reduced by popped fragments) |
| IobufModel.Iobuf.TrimFrontExact | src/v/bytes/iobuf.h:300-310 | the corrected trim_front removes exactly min(n, size) leading bytes |
| Adl.LE | src/v/reflection/adl.h:147-150 | an integer is written as exactly sizeof(T) little-endian bytes |
| Adl.LERoundTrip | src/v/reflection/adl.h:98-99 | reading w little-endian bytes back gives the unsigned value written |
| Adl.FromLEBound | src/v/reflection/adl.h:98-99 | w little-endian bytes denote a value below 256^w |
| Adl.EncodeInt | src/v/reflection/adl.h:144-150 | an integer (or enum, or bool as int8) in range for its width encodes to exactly that many bytes |
| Adl.IntRoundTrip | src/v/reflection/adl.h:95-101 | decoding an encoded integer gives it back, signed values through two's complement |
| Adl.DecodeIntInRange | src/v/reflection/adl.h:98-99 | any w bytes decode to a value in range for width w and signedness |
| Adl.EncodeLength | src/v/reflection/adl.h:129-143 | a length or count prefix is a 4-byte int32 |
| Adl.LengthRoundTrip | src/v/reflection/adl.h:83-94 | a length below 2^31 reads back as itself |
| Adl.RoundTrip | src/v/reflection/adl.h:71-165 | from(to(x)) == x for every type (named, optional, string, vector, iobuf, enum, integral, bool, struct), and decoding consumes exactly the encoding, leaving the following bytes |
| Adl.BytesRoundTrip | src/v/reflection/adl.h:82-143 | a string or iobuf encodes as int32 length then raw bytes and decodes by reading that many bytes back |
| Adl.RoundTripN | src/v/reflection/adl.h:84-139 | decoding count elements after encoding them in order returns them, leaving the rest |
| Adl.RoundTripFields | src/v/reflection/adl.h:102-163 | a struct's fields decode in the order they encode, each round-tripping |
| Adl.DecodeWellTyped | src/v/reflection/adl.h:71-110 | a successful decode yields a value of the requested type and leaves a suffix of the input |
| Adl.DecodeNWellTyped | src/v/reflection/adl.h:84-92 | decoding n elements yields n well-typed values and leaves a suffix of the input |
| Adl.DecodeFieldsWellTyped | src/v/reflection/adl.h:102-109 | decoding struct fields yields well-typed values and leaves a suffix of the input |
| Adl.OptionalTag | src/v/reflection/adl.h:75-81 | tag byte 0 decodes to nullopt consuming one byte; any nonzero tag decodes as present |
| Adl.NegativeLengths | src/v/reflection/adl.h:82-92 | a negative int32 count reads no elements of a vector is refused, and a negative string length is out of range |
| Adl.EachRoundTrip | src/v/reflection/adl.h:89-138 | elements encoded one after another with an encoder its decoder inverts are decoded back in order |
| Adl.VectorWithRoundTrip | src/v/reflection/adl.h:84-139 | a vector of any element codec that round-trips (such as the cluster types) round-trips with its int32 count |
| Adl.To | src/v/reflection/adl.h:112-165 | to(out, v) appends exactly the encoding of v to the iobuf's content |
| Adl.ToEach | src/v/reflection/adl.h:136-138 | the vector loop appends the elements' encodings in order |
| Adl.Serialize | src/v/reflection/adl.h:168-172 | serialize appends the encodings in argument order |
| Adl.ToIobuf | src/v/reflection/adl.h:183-188 | to_iobuf gives a fresh iobuf holding exactly the encoding |
| Adl.From | src/v/reflection/adl.h:71-110 | the parser-cursor decoder agrees with the decode function on the remaining bytes and advances past exactly what it consumed |
| Adl.FromEach | src/v/reflection/adl.h:84-92 | reading n vector elements through the cursor agrees with decoding n elements in order, failing as the first failing element does |
| Adl.FromBytes | src/v/reflection/adl.h:82-94 | reading a string or iobuf through the cursor agrees with the length-prefixed decoder |
| Adl.FromFields | src/v/reflection/adl.h:102-109 | reading struct fields through the cursor agrees with the field decoder |
| Adl.FromIobuf | src/v/reflection/adl.h:67-193 | from_iobuf succeeds exactly when decoding the content does, with the same value or error |
| Adl.ToFromIobuf | src/v/reflection/adl.h:183-193 | from_iobuf(to_iobuf(v)) == v with no bytes left over |
| Segment.NewTracker | src/v/storage/segment.cc:464-478 | a freshly opened segment's tracker has the parsed term and base offset, with committed and dirty offsets both at the base |
| Segment.FindNearest | src/v/storage/segment.cc:400 | the entry found is an index entry at or below the offset; none is found exactly when every entry lies above it |
| Segment.FindNearestIsNearest | src/v/storage/segment.cc:400-405 | in an offset-ordered index the entry found is the nearest one: no entry at or below the offset has a greater offset |
| Segment.StreamPosition | src/v/storage/segment.cc:397-406 | the stream starts at 0 when every index entry lies above the offset; otherwise at the file position of an entry at or below the offset, which in an ordered index is the greatest such entry |
| Segment.CacheKeepBelow | src/v/storage/segment.cc:287-292 | cache truncation keeps exactly the cached batches below the offset |
| Segment.IndexKeepThrough | src/v/storage/segment.cc:250-251 | index truncation keeps exactly the entries at or below the offset |
| Segment.CacheKeepBelowIdempotent | src/v/storage/segment.cc:287-292 | truncating the cache twice at one offset equals truncating once |
| Segment.IndexKeepThroughIdempotent | src/v/storage/segment.cc:250-251 | truncating the index twice at one offset equals truncating once |
| Segment.TruncationLeavesNothingAbove | src/v/storage/segment.cc:230-251 | after truncate(prev) no cached batch starts above prev and no index entry lies above prev |
| Segment.Segment.constructor | src/v/storage/segment.cc:32-44 | the segment holds the tracker, reader, appender, cache and compaction index it was given, open and not a tombstone |
| Segment.Segment.CheckNotClosed | src/v/storage/segment.cc:46-53 | the guard fails, with the operation's name, exactly when the segment is closed |
| Segment.Segment.DoFlush | src/v/storage/segment.cc:200-210 | without an appender nothing changes and the flush succeeds; a failed appender flush fails with FlushFailed and changes nothing; a successful one sets committed to the dirty offset captured before and the reader's size to the appender's byte offset |
| Segment.Segment.Flush | src/v/storage/segment.cc:194-210 | a closed segment refuses flush() and is unchanged; otherwise it succeeds exactly when there is no appender or the appender's flush succeeds, a failure leaves the segment unchanged, and a success commits as do_flush does |
| Segment.Segment.Append | src/v/storage/segment.cc:315-362 | closed: refused; compressed without a valid codec: refused, nothing written; failed write: error, unchanged; otherwise dirty = last offset, the byte offset advances by exactly the batch size, the index tracks the batch, the cache keeps it, and the result is {base, last, size} |
| Segment.Segment.Truncate | src/v/storage/segment.cc:220-271 | closed: refused; otherwise committed = dirty = prev, file size = physical, cache and index drop everything above prev, and a compacted segment loses its compaction index file and releases its appender and cache |
| Segment.Segment.MaterializeIndex | src/v/storage/segment.cc:273-285 | requires base == dirty; when the index loads, committed = dirty = the index's max offset, otherwise the tracker is unchanged |
| Segment.Segment.Close | src/v/storage/segment.cc:55-99 | a second close() is refused; a first one marks the segment closed and flushes; a failed flush fails close() with FlushFailed and leaves the offsets and reader size alone; a successful close of a tombstone removes the segment, index and (compacted) compaction-index files; the appender, batch cache, index and compaction index stay as they were on every outcome |
| Segment.Segment.OffsetDataStream | src/v/storage/segment.cc:397-406 | refused exactly when closed; otherwise the stream starts at 0 when no index entry is at or below the offset, and else at the position of the nearest (greatest, in an ordered index) entry at or below it |
| Segment.StemLength | src/v/storage/segment.cc:464-500 | the extension of the file name starts after the last '.' of its final path component |
| Segment.OpenSegment | src/v/storage/segment.cc:464-478 | a file whose name does not parse or whose version is not v1 is refused; otherwise a fresh open segment with the parsed term and base offset, no appender and the index file beside it |
| Segment.TruncateTwice | src/v/storage/tests/log_truncate_test.cc:439-441 | after appending a batch and truncating at truncate_offset - 1, the dirty and committed offsets are truncate_offset - 1, and a repeated truncation keeps them there |
| LogReader.KeptMembers | src/v/storage/log_reader.cc:7-11 | the batches the consumer keeps are exactly those whose last offset is not below the start offset |
| LogReader.AllContinueBounds | src/v/storage/log_reader.cc:51-70 | every batch that let parsing continue lies at or below the committed offset, and until then bytes read stayed below max_bytes, the buffer below its limit, and no timeout |
| LogReader.KeptSnoc | src/v/storage/log_reader.cc:7-11 | one more batch is kept iff it is not skipped |
| LogReader.LogSegmentReader.constructor | src/v/storage/log_reader.cc:72-81 | a new reader is uninitialised with an empty buffer, zero counters and neither flag set |
| LogReader.LogSegmentReader.IsBufferFull | src/v/storage/log_reader.cc:94-96 | the buffer is full iff its size reached max_buffer_size |
| LogReader.LogSegmentReader.ConsumeBatchEnd | src/v/storage/log_reader.cc:51-70 | the batch is buffered and its memory usage added to bytes read and buffer size; past the committed offset sets end-of-stream and over-committed and stops; reaching max_bytes or the timeout sets end-of-stream and stops; otherwise it stops iff the buffer is full |
| LogReader.LogSegmentReader.ResetState | src/v/storage/log_reader.cc:98-108 | a held-back batch still beyond the committed offset keeps the reader stopped; otherwise both flags are cleared |
| LogReader.LogSegmentReader.ParseStep | src/v/storage/log_reader.cc:7-70 | one batch of the parse loop: skipped or buffered, and parsing stops exactly when the last buffered batch's verdict is not Continue |
| LogReader.LogSegmentReader.SkipNext | src/v/storage/log_reader.cc:9-11 | a batch ending before the start offset is skipped without touching the buffer |
| LogReader.LogSegmentReader.BufferNext | src/v/storage/log_reader.cc:12-70 | a kept batch is buffered with the verdict ConsumeBatchEnd gives |
| LogReader.LogSegmentReader.DoLoadSlice | src/v/storage/log_reader.cc:110-136 | nothing is returned once end-of-stream or over-committed is set; otherwise the buffer is cleared, batches are parsed until a stop verdict or the end of the segment (which ends the stream), and the span is the buffer without a held-back batch, every batch of it between the start offset and the committed offset |
| LogReader.SpanWithinBounds | src/v/storage/log_reader.cc:129-133 | every batch in the returned span ends at or after the start offset and starts at or before the committed offset |
| LogManager.VersionFromString | src/v/storage/log_manager.cc:102-105 | the version text gives v1 exactly for "v1" |
| LogManager.VersionRoundTrip | src/v/storage/log_manager.cc:36-105 | a version printed by to_string parses back to itself |
| LogManager.LastComponent | src/v/storage/log_manager.cc:30-43 | the last path component holds no '/' and ends the path |
| LogManager.LastComponentAfterSlash | src/v/storage/log_manager.cc:30-43 | the component after the final '/' is what follows it |
| LogManager.MakeFilenameLayout | src/v/storage/log_manager.cc:30-43 | a segment path is base/namespace/topic/partition/<offset>-<term>-<version>.log |
| LogManager.MakeFilenameLastComponent | src/v/storage/log_manager.cc:30-43 | the file name of a segment path is its segment name |
| LogManager.MatchPartsSound | src/v/storage/log_manager.cc:97 | a name the matcher accepts is digits, '-', digits, '-', ASCII version, one ASCII character other than a line end, "log", recomposed exactly |
| LogManager.MatchPartsComplete | src/v/storage/log_manager.cc:97 | every name of that shape is accepted with exactly those parts (the first two groups stop at the first '-', the version group is greedy) |
| LogManager.MatchPartsMeetsPattern | src/v/storage/log_manager.cc:97-100 | the matcher accepts a name iff it matches ^(\d+)-(\d+)-([\x00-\x7F]+).log$ over the bytes of its UTF-8 form, the unescaped '.' standing for one ASCII byte other than a line end |
| LogManager.Int64OfUint64 | src/v/storage/log_manager.cc:103 | the parsed base offset, a uint64, is stored in a signed 64-bit offset, unchanged below 2^63 |
| LogManager.ExtractMeetsPattern | src/v/storage/log_manager.cc:95-101 | a name (up to its first NUL, as c_str() sees it) that does not match the pattern yields no metadata |
| LogManager.ExtractComposed | src/v/storage/log_manager.cc:95-106 | a matching name yields (offset, term, version) from its groups, or a cast failure when the offset overflows uint64 or the term int64 |
| LogManager.ExtractSegmentName | src/v/storage/log_manager.cc:30-106 | extracting the metadata of a name make_filename produced gives back the same offset, term and version |
| LogManager.AnyCharBeforeLog | src/v/storage/log_manager.cc:97 | any ASCII character other than a line end or NUL before "log" parses exactly as a '.' would |
| LogManager.NonAsciiBeforeLogRejected | src/v/storage/log_manager.cc:97-100 | a name of the pattern's shape with a non-ASCII character before "log" (e.g. "0-1-v\u00e9log", where that character is two UTF-8 bytes) is not matched and is not a segment name |
| LogManager.GreedyVersion | src/v/storage/log_manager.cc:97 | in "a-b-v.log.log" the greedy version group takes "v.log" |
| LogManager.SegmentReader.constructor | src/v/storage/log_manager.cc:176-186 | a segment reader holds the file name, term, base offset and size, with no last-written offset |
| LogManager.DescribeAll | src/v/storage/log_manager.cc:176-186 | the readers' descriptions, one per reader in order |
| LogManager.LogSet.constructor | src/v/storage/log_manager.cc:189 | the segment set holds the readers in order |
| LogManager.SetMaxOffsets | src/v/storage/log_manager.cc:139-146 | every segment but the last gets last_written_offset = the next segment's base offset; the last is untouched |
| LogManager.DoRecover | src/v/storage/log_manager.cc:108-137 | an empty set is unchanged; a replayed last segment gets last_written_offset = last valid offset + 1; a failed replay pops it, deleting an empty file (after closing it) and renaming a non-empty one with ".cannotrecover"; other segments are untouched |
| LogManager.RecoverSegments | src/v/storage/log_manager.cc:189-191 | set_max_offsets followed by do_recover: the set loses its last segment exactly when replay failed, and the file action is as above |
| LogManager.AdmitTake | src/v/storage/log_manager.cc:152-175 | a directory entry is taken only when it is a regular file whose name parses with version v1 and whose open and stat succeed, under path + "/" + name with the stat's size |
| LogManager.ScanSegments | src/v/storage/log_manager.cc:151-187 | the walk yields at most one segment per entry |
| LogManager.ScanSegmentsSound | src/v/storage/log_manager.cc:152-186 | every segment the walk yields comes from a regular entry whose name parses with version v1 and that opened, with that entry's size |
| LogManager.ScanOpenFails | src/v/storage/log_manager.cc:168-175 | a segment file that cannot be opened or stat-ed fails the whole walk with its file name |
| LogManager.ScanAcceptsSegmentName | src/v/storage/log_manager.cc:152-186 | an entry named by make_filename's convention with version v1 is appended as a segment |
| LogManager.ScanAcceptsParsed | src/v/storage/log_manager.cc:152-186 | any regular entry whose name parses with version v1 is appended with its offset, term and size |
| LogManager.ScanStep | src/v/storage/log_manager.cc:152-186 | the walk over one more entry skips, takes or fails on that entry |
| LogManager.ScanErrorPersists | src/v/storage/log_manager.cc:187 | a failure part way through fails the whole walk with that error |
| LogManager.Log.constructor | src/v/storage/log_manager.cc:192 | a log holds its ntp and its segment set |
| LogManager.LogManagerNode.constructor | src/v/storage/log_manager.cc:21-22 | a new log manager manages no logs |
| LogManager.LogManagerNode.Size | src/v/storage/log_manager.h:79-80 | size() is the number of managed ntps |
| LogManager.LogManagerNode.Get | src/v/storage/log_manager.h:82-88 | get(ntp) returns the managed log iff ntp is managed, else nullopt |
| LogManager.LogManagerNode.Install | src/v/storage/log_manager.cc:189-194 | the recovered set becomes a fresh log for the ntp, registered unless the ntp is already managed |
| LogManager.LogManagerNode.Emplace | src/v/storage/log_manager.cc:193 | emplace adds the ntp's log when absent and keeps an existing one |
| LogManager.LogManagerNode.OpenSegments | src/v/storage/log_manager.cc:151-187 | the walk opens one fresh reader per scanned segment, or fails with the walk's error |
| LogManager.LogManagerNode.WalkStep | src/v/storage/log_manager.cc:152-186 | one entry of the walk extends the readers as the scan does |
| LogManager.LogManagerNode.OpenReader | src/v/storage/log_manager.cc:176-186 | a fresh reader is pushed at the end with the scanned description |
| LogManager.LogManagerNode.Manage | src/v/storage/log_manager.cc:147-196 | a failed recursive_touch_directory fails manage with the ntp's path and changes nothing; otherwise manage scans base/ntp.path(), fails with the walk's error (a bad name, or a segment that cannot be opened) or registers a fresh log whose segments are the recovered set |
| FileStm.MakeReopenFlags | src/v/storage/file_stm.cc:87-92 | the reopen flags lack the create bit and keep every other bit |
| FileStm.ReopenFlagsIdempotent | src/v/storage/file_stm.cc:87-92 | clearing the create bit twice equals clearing it once |
| FileStm.Transition | src/v/storage/file_stm.h:46-67 | st_close absorbs every event; ev_close always leads to st_close; ev_access takes any other state to st_open; only st_open goes to st_evict, on ev_evict; ev_evict elsewhere changes nothing |
| FileStm.WaitList.constructor | src/v/storage/file_stm.h:83-113 | a new wait list has no waiters |
| FileStm.WaitList.Wait | src/v/storage/file_stm.h:86-90 | wait() queues a new waiter at the back |
| FileStm.WaitList.Trigger | src/v/storage/file_stm.h:92-98 | trigger(v) resolves only the oldest waiter, with v, and removes it; on an empty list it does nothing |
| FileStm.WaitList.Size | src/v/storage/file_stm.h:100-101 | size() is the number of wait() calls minus the waiters already resolved |
| FileStm.WaitList.TriggerAll | src/v/storage/file_stm.h:103-108 | trigger_all(v) resolves every pending waiter with v, in order, leaving none |
| FileStm.Remove | src/v/storage/file_stm.cc:22-58 | unlinking an entry removes it and keeps every other entry |
| FileStm.Entry.constructor | src/v/storage/file_stm.cc:174-186 | a new st_open entry has the open arguments, no file, an idle gate, an empty eviction callback and no open waiters |
| FileStm.Entry.FireOnEvict | src/v/storage/file_stm.cc:44-152 | calling an unset _on_evict fails with bad_function_call; a set one runs the owner's ev_evict |
| FileStm.OpenFileCache.constructor | src/v/storage/file_stm.cc:15-16 | a new cache has its limit, an empty LRU list and no eviction waiters |
| FileStm.OpenFileCache.Empty | src/v/storage/file_stm.h:164-165 | empty() iff the LRU list is empty |
| FileStm.OpenFileCache.IsFull | src/v/storage/file_stm.h:143-168 | is_full() iff limit != 0 and the LRU size reached the limit; limit 0 is unbounded |
| FileStm.OpenFileCache.IsCandidate | src/v/storage/file_stm.cc:65-68 | is_candidate(e) iff e is at the LRU front |
| FileStm.OpenFileCache.EvictionAwaited | src/v/storage/file_stm.cc:70 | eviction_awaited() iff some eviction waiter is pending |
| FileStm.OpenFileCache.Unlink | src/v/storage/file_stm.cc:58 | unlinking removes the entry from the LRU list |
| FileStm.OpenFileCache.Touch | src/v/storage/file_stm.cc:22-31 | touch moves the entry to the MRU end; a full cache with an unused front wakes the oldest eviction waiter with it |
| FileStm.OpenFileCache.Put | src/v/storage/file_stm.cc:33-51 | put as written appends at the MRU end; if the cache is then full, an unused front is evicted at once and a used one makes put wait for an eviction trigger (the front may be the new entry itself) |
| FileStm.OpenFileCache.PutKeepingNewcomer | src/v/storage/file_stm.cc:33-51 | the corrected put: the same, but the new entry is never its own eviction candidate |
| FileStm.OpenFileCache.Evict | src/v/storage/file_stm.cc:53-63 | evict requires an unused entry, unlinks it and wakes the oldest eviction waiter with it |
| FileStm.SelfEvictionOnFirstPut | src/v/storage/file_stm.cc:33-152 | in an empty cache of limit 1, put names the new entry itself for eviction, and its not yet set _on_evict fails with bad_function_call |
| FileStm.NoSelfEvictionOnFirstPut | src/v/storage/file_stm.cc:33-51 | with the corrected put the same entry is simply admitted |
| FileStm.Snapshot | src/v/storage/file_stm.cc:134-167 | a record of the LRU list and the eviction ticket count, for stating what an open did |
| FileStm.FileStmImpl.constructor | src/v/storage/file_stm.cc:76-85 | a new file_stm is st_pre_open with the path and flags |
| FileStm.FileStmImpl.EvEvict | src/v/storage/file_stm.cc:248-275 | from st_open with a file: st_evict whose reopen flags lack create; from any other state: fails with "can't evict file from cache, file not opened" and nothing changes |
| FileStm.FileStmImpl.EvClose | src/v/storage/file_stm.cc:226-246 | always ends in st_close, following the transition table; an open file's entry leaves the cache and the rest keeps its order; as written the candidate test is asked of the moved-to copy, so the eviction list is never touched |
| FileStm.FileStmImpl.EvCloseEvicting | src/v/storage/file_stm.cc:226-246 | the same close testing the entry itself: an open file with a descriptor that is the candidate of a full cache is evicted, serving the oldest eviction waiter with it; otherwise the eviction list is untouched |
| FileStm.FileStmImpl.CompleteOpen | src/v/storage/file_stm.cc:142-166 | after put, the open result sets the file and reopen flags, arms _on_evict, wakes all open waiters and hands out a guard |
| FileStm.FileStmImpl.StateTransitionToOpen | src/v/storage/file_stm.cc:134-141 | the state becomes st_open with a fresh entry holding the given arguments, no descriptor, no guard and no callback; the entry is put in the cache by the corrected put, which evicts the old front exactly when the cache is full and non-empty, and never names the new entry |
| FileStm.FileStmImpl.OpenFresh | src/v/storage/file_stm.cc:134-167 | the whole transition to st_open (with the corrected put): below the limit the entry is appended and the open completes; at the limit with a guarded front the caller waits for an eviction; an unguarded front without a callback fails with bad_function_call; an unguarded front with one is evicted to st_evict with its reopen flags, then the open completes; a completed open holds one guard and the reopen flags, and a successful one gets its descriptor, this file's callback and serves every open waiter |
| FileStm.FileStmImpl.AccessOpened | src/v/storage/file_stm.cc:188-194 | st_open with a file: the state stays, the entry is touched to the MRU end and a guard is handed out |
| FileStm.FileStmImpl.AwaitOpen | src/v/storage/file_stm.cc:195-216 | st_open without a file yet: the caller queues on the entry's open waiters |
| FileStm.FileStmImpl.EvAccess | src/v/storage/file_stm.cc:169-224 | a closed file fails with "file is not opened" and changes nothing; an open file with a descriptor is moved to the LRU tail and a guard taken (serving the oldest eviction waiter when the cache is full and its front unguarded); an open file still opening queues the caller on the open; pre_open and evict take the whole transition to st_open as OpenFresh states, with the pre-open or reopen arguments |
| FileStm.FileStmImpl.ResumeAfterEviction | src/v/storage/file_stm.cc:46-166 | once the eviction is granted the candidate's _on_evict runs; its failure fails the access, otherwise the open completes |
| FileStm.FileStmImpl.ResumeAfterOpen | src/v/storage/file_stm.cc:201-215 | a woken open waiter gets a guard while the state is st_open, "file is not opened" otherwise, and a broken promise if never woken |
| FileStm.ReleaseGuard | src/v/storage/file_stm.cc:107-127 | releasing a guard leaves the gate; a linked, now unused entry that is the candidate while an eviction is awaited is evicted |
| FileStm.AccessOnce | src/v/storage/file_stm.cc:329-332 | one eager access from pre_open (through the corrected put): ready with its guard dropped when granted, failed with the access's error, or pending; the cache and file end as the transition to st_open states, except that dropping a granted guard may also serve a waiting eviction |
| FileStm.OpenFileDma | src/v/storage/file_stm.cc:319-333 | a fresh file on the given cache; lazy stays st_pre_open with the path and flags, makes no access (reported as FileNotOpened) and leaves the cache alone; eager performs one access as AccessOnce states |
| FileStm.ThreeEagerOpens | src/v/storage/tests/file_stm_test.cc:203-235 | three eager opens into a cache of 3 leave file1 evicted and file2, file3 open |
| FileStm.CloseKeepsEvictionWaiter | src/v/storage/file_stm.cc:226-246 | closing the only, unused file of a full cache of limit 1 while a fiber waits for an eviction empties the cache and leaves that fiber waiting |
| FileStm.CloseServesEvictionWaiter | src/v/storage/file_stm.cc:226-246 | with the close that tests the entry itself, the same waiter is served with the closed file's entry |
| WalWriter.RequestSize | src/v/filesystem/wal_writer_node.cc:21-27 | a request's size is never negative |
| WalWriter.RequestSizeIsLength | src/v/filesystem/wal_writer_node.cc:21-27 | a request's size is the number of bytes of its records' data, concatenated |
| WalWriter.RequestSizeAppend | src/v/filesystem/wal_writer_node.cc:21-27 | the size of two requests' records together is the sum of their sizes |
| WalWriter.WalWriterNode.constructor | src/v/filesystem/wal_writer_node.cc:29-44 | a new writer has its options, size 0, no lease and is open |
| WalWriter.WalWriterNode.Open | src/v/filesystem/wal_writer_node.cc:50-62 | open throws while a previous segment is leased; otherwise it leases a new segment named by the epoch and term |
| WalWriter.WalWriterNode.Rotate | src/v/filesystem/wal_writer_node.cc:131-150 | rotation does epoch += current size, resets the size to 0 and opens a fresh segment, keeping the current offset |
| WalWriter.WalWriterNode.DiskWrite | src/v/filesystem/wal_writer_node.cc:63-68 | a record's bytes go to the segment and the current size grows by their length |
| WalWriter.WalWriterNode.DoAppend | src/v/filesystem/wal_writer_node.cc:104-108 | a record that fits the space left is written directly, otherwise after a rotation; either way the offset grows by its size |
| WalWriter.WalWriterNode.Append | src/v/filesystem/wal_writer_node.cc:70-102 | append writes every record in order and replies with [start, start + request size), the accounting check holding |
| WalWriter.WalWriterNode.SetTerm | src/v/filesystem/wal_writer_node.cc:121-130 | set_term(t) throws iff t >= the current term; otherwise it stores t and rotates |
| WalWriter.WalWriterNode.FlushTick | src/v/filesystem/wal_writer_node.cc:31-42 | the periodic flush does nothing when closed or the segment is empty, and otherwise flushes and reports the segment's size |
| WalWriter.WalWriterNode.Close | src/v/filesystem/wal_writer_node.cc:110-119 | close marks the writer closed and changes nothing else |
| PartitionAllocator.Wrap | src/v/cluster/partition_allocator.h:62-75 | uint32 arithmetic: the wrapped value is in range and equals the value when that already was |
| PartitionAllocator.SumUpdate | src/v/cluster/partition_allocator.h:62-75 | changing one weight changes the total weight by the difference |
| PartitionAllocator.SumConstant | src/v/cluster/partition_allocator.h:54-61 | weights all equal to k total cpus * k |
| PartitionAllocator.SumLowerBound | src/v/cluster/partition_allocator.h:54-61 | weights all at least k total at least cpus * k |
| PartitionAllocator.Inc | src/v/cluster/partition_allocator.h:72-75 | incrementing a core's weight keeps the number of cores |
| PartitionAllocator.Dec | src/v/cluster/partition_allocator.h:68-71 | decrementing a core's weight keeps the number of cores |
| PartitionAllocator.AllocateDeallocate | src/v/cluster/partition_allocator.h:68-75 | allocate(core) then deallocate(core) restores the weights and the capacity, wrap-around included |
| PartitionAllocator.MinElement | src/v/cluster/partition_allocator.h:63 | std::min_element finds the first core of minimum weight |
| PartitionAllocator.AllocationNode.constructor | src/v/cluster/partition_allocator.h:18-33 | a new node has cpus weights, core 0 at 2 and the rest at 0, capacity cpus*7000 - 2 in uint32, and the conservation law holds |
| PartitionAllocator.AllocationNode.IsFull | src/v/cluster/partition_allocator.h:54-61 | is_full iff every weight equals 7000, and then (without wrap-around) the capacity is 0 |
| PartitionAllocator.AllocationNode.Allocate | src/v/cluster/partition_allocator.h:62-67 | allocate() increments the first minimum-weight core, returns its index, decrements the capacity and keeps the conservation law |
| PartitionAllocator.AllocationNode.AllocateOn | src/v/cluster/partition_allocator.h:72-75 | allocate(core) increments that core and decrements the capacity, keeping the conservation law |
| PartitionAllocator.AllocationNode.Deallocate | src/v/cluster/partition_allocator.h:68-71 | deallocate(core) decrements that core and increments the capacity, keeping the conservation law |
| PartitionAllocator.AllocationNode.Bump | src/v/cluster/partition_allocator.h:62-75 | moving one unit between a core and the capacity keeps capacity + sum(weights) == cpus * 7000 (mod 2^32, and exactly while nothing wraps) |
| PartitionAllocator.BumpLaw | src/v/cluster/partition_allocator.h:22-75 | the conservation law survives moving one unit between a core and the capacity |
| PartitionAllocator.Allocator.constructor | src/v/cluster/partition_allocator.h:103-106 | a new allocator has no machines and its round-robin cursor at the end |
| PartitionAllocator.Allocator.RegisterNode | src/v/cluster/partition_allocator.h:107-110 | register_node pushes the node on the available list and adds it to the map unless its id is known |
| PartitionAllocator.Allocator.RoundRobinPtr | src/v/cluster/partition_allocator.h:143-148 | at the end the cursor wraps to the first registered node (or stays at the end when there is none); elsewhere it is unchanged |
| ClusterTypesH.NewConfig | src/v/cluster/types.h:49-67 | a new configuration keeps ns, topic, count and rf and defaults to compression none, compaction no, retention_bytes 0 and retention max_duration |
| ClusterTypesH.EntriesRoundTrip | src/v/cluster/types.h:120-136 | compression, compaction, retention_bytes and retention decode in the order they encode |
| ClusterTypesH.ConfigRoundTrip | src/v/cluster/types.h:112-139 | from(to(cfg)) reproduces ns, topic, partition_count, replication_factor, compression, compaction, retention_bytes and retention, leaving the following bytes |
| ClusterTypesH.ConfigWireOrder | src/v/cluster/types.h:114-124 | the wire layout is ns and topic as strings, int32 count, int16 rf, compression, compaction, uint64 retention_bytes, retention |
| ClusterTypesH.WriteConfig | src/v/cluster/types.h:114-124 | to() appends exactly that encoding to the iobuf |
| ClusterTypesH.Code | src/v/cluster/types.h:69-79 | every error code lies between topic_error_code_min and topic_error_code_max |
| ClusterTypesH.FromCode | src/v/cluster/types.h:69-79 | an int16 names an error code iff it lies between min and max, and then that code's value |
| ClusterTypesH.CodeRoundTrip | src/v/cluster/types.h:69-79 | a code's value converts back to the code |
| ClusterTypesH.NamesTable | src/v/cluster/types.h:81-89 | topic_error_code_names has one entry per code, and entry c is the enumerator name of code c |
| ClusterTypesH.NamesDistinct | src/v/cluster/types.h:81-89 | different codes have different names |
| ClusterTypesH.JoinRequestRoundTrip | src/v/cluster/types.h:141-154 | a join_request encodes as exactly its broker and decodes back by wrapping the decoded broker |
| ClusterTypesH.ReadJoinRequest | src/v/cluster/types.h:147-149 | from(iobuf) agrees with decoding the whole content |
| ClusterTypesH.WriteJoinRequest | src/v/cluster/types.h:143-145 | to() appends exactly the broker's encoding |
| ClusterTypesCc.EncodeDuration | src/v/cluster/types.cc:171-176 | a duration is written as an 8-byte uint64 tick count |
| ClusterTypesCc.DecodeDuration | src/v/cluster/types.cc:178-185 | reading a duration needs 8 bytes, consumes exactly them and gives a 64-bit count |
| ClusterTypesCc.DurationRoundTrip | src/v/cluster/types.cc:171-185 | a duration decodes back to the same tick count |
| ClusterTypesCc.EncodeTristate | src/v/cluster/types.cc:104-106 | a tristate takes one tag byte plus the value when present |
| ClusterTypesCc.DecodeTristate | src/v/cluster/types.cc:104-106 | a decoded tristate is in range and leaves a suffix of the input |
| ClusterTypesCc.TristateRoundTrip | src/v/cluster/types.cc:104-106 | unset, disabled and present tristates round-trip |
| ClusterTypesCc.NameRoundTrip | src/v/cluster/types.cc:89-90 | ns and topic strings round-trip |
| ClusterTypesCc.ScalarRoundTrip | src/v/cluster/types.cc:91-92 | partition_count and replication_factor round-trip |
| ClusterTypesCc.OptRoundTrip | src/v/cluster/types.cc:97-103 | each optional field round-trips |
| ClusterTypesCc.IdentityOf | src/v/cluster/types.cc:71-76 | the tp_ns, count and rf of a valid configuration are encodable |
| ClusterTypesCc.IdentityRoundTrip | src/v/cluster/types.cc:75-95 | tp_ns, partition_count and rf decode in the order they encode |
| ClusterTypesCc.OptionalsRoundTrip | src/v/cluster/types.cc:78-103 | compression, cleanup policy, compaction strategy, timestamp type and segment size decode in that order |
| ClusterTypesCc.RetentionRoundTrip | src/v/cluster/types.cc:83-106 | retention bytes and retention duration decode in that order |
| ClusterTypesCc.ConfigRoundTrip | src/v/cluster/types.cc:71-109 | from(to(cfg)) == cfg in the order tp_ns, count, rf, compression, cleanup policy, compaction strategy, timestamp type, segment size, retention bytes, retention duration |
| ClusterTypesCc.WriteConfig | src/v/cluster/types.cc:71-85 | to() appends exactly the configuration's encoding |
| ClusterTypesCc.WriteIdentity | src/v/cluster/types.cc:75-77 | the first three fields are appended in order |
| ClusterTypesCc.WriteOptionals | src/v/cluster/types.cc:78-82 | the optional fields are appended in order |
| ClusterTypesCc.WriteRetention | src/v/cluster/types.cc:83-84 | the retention fields are appended in order |
| ClusterTypesCc.MakeNtpConfig | src/v/cluster/types.cc:19-41 | the ntp is (ns, topic, p_id) under work_dir; overrides are attached iff cleanup policy, compaction strategy or segment size is set or retention bytes or duration is set or disabled, and then copy those five fields verbatim |
| ClusterTypesCc.OverridesIgnoreCodecs | src/v/cluster/types.cc:19-41 | compression and timestamp type never affect the ntp config |
| ClusterTypesCc.ConfigsRoundTrip | src/v/cluster/types.cc:144-169 | a vector of configurations round-trips with its count |
| ClusterTypesCc.ResultValue | src/v/cluster/types.cc:123-131 | a topic_result is an encodable struct value |
| ClusterTypesCc.ResultFieldsTyped | src/v/cluster/types.cc:123-131 | a topic_result's fields are tp_ns strings and an errc |
| ClusterTypesCc.TopicResultRoundTrip | src/v/cluster/types.cc:123-131 | topic_result encodes as tp_ns then ec and decodes in that order |
| ClusterTypesCc.CreateTopicsRequestRoundTrip | src/v/cluster/types.cc:133-150 | create_topics_request is topics then timeout, decoded in that order |
| ClusterTypesCc.CreateTopicsReplyRoundTrip | src/v/cluster/types.cc:152-169 | create_topics_reply is results, metadata, then configs, decoded in that order |
| PersistedStm.EncodeMetadata | src/v/cluster/persisted_stm.h:31-37 | the metadata persist_snapshot writes is 1 + ondisk_size (1 + 4) bytes and starts with snapshot_version 0 |
| PersistedStm.DecodeMetadata | src/v/cluster/persisted_stm.cc:36-50 | metadata parses iff it holds at least 1 + ondisk_size bytes, giving the int8 format version, then the int8 header version and the int32 snapshot size |
| PersistedStm.MetadataRoundTrip | src/v/cluster/persisted_stm.cc:36-101 | the metadata persist_snapshot writes reads back as (snapshot_version, header) |
| PersistedStm.ReadExactly | src/v/cluster/persisted_stm.cc:52 | read_iobuf_exactly gives a prefix of the stream, of exactly n bytes when the stream has them |
| PersistedStm.OnFailure | src/v/cluster/persisted_stm.cc:59-84 | a hydration failure rolls back to an empty snapshot iff the policy is best_effort; under crash it aborts |
| PersistedStm.FormatVersion | src/v/cluster/persisted_stm.cc:41-42 | the format version is the first metadata byte read as an int8, present iff there is at least one byte, and it agrees with the version the full metadata parse gives |
| PersistedStm.Hydrate | src/v/cluster/persisted_stm.cc:36-85 | the format version byte is checked first: hydration aborts with a version mismatch iff that byte is present and differs from snapshot_version, carrying that version; it loads exactly when the metadata parses, carries snapshot_version and loading succeeds, then with the parsed header and snapshot_size bytes of data; rolling back happens only under best_effort |
| PersistedStm.PersistHydrateRoundTrip | src/v/cluster/persisted_stm.cc:36-125 | a snapshot persisted by persist_snapshot hydrates back to the same header and data |
| PersistedStm.VersionGate | src/v/cluster/persisted_stm.cc:41-46 | metadata whose first byte encodes any other format version aborts hydration with that version, whatever bytes follow (even too few for the header), the policy, the data and the load |
| PersistedStm.TruncatedWrongVersionAborts | src/v/cluster/persisted_stm.cc:41-46 | the single metadata byte 1 aborts hydration with version mismatch 1 even under best_effort |
| PersistedStm.PersistedStmNode.constructor | src/v/cluster/persisted_stm.cc:24-34 | a new stm is not hydrated or catching up, has no waiters and unset offsets and terms, and keeps the configured recovery policy |
| PersistedStm.PersistedStmNode.PersistSnapshot | src/v/cluster/persisted_stm.cc:95-125 | the stored snapshot becomes the encoded metadata followed by the data |
| PersistedStm.PersistedStmNode.DoMakeSnapshot | src/v/cluster/persisted_stm.cc:127-133 | the snapshot is stored and last_snapshot_offset becomes max(old, snapshot offset) |
| PersistedStm.PersistedStmNode.MakeSnapshot | src/v/cluster/persisted_stm.h:80-102 | a snapshot is taken only after hydration, and then as do_make_snapshot; otherwise nothing changes |
| PersistedStm.PersistedStmNode.EnsureSnapshotExists | src/v/cluster/persisted_stm.cc:142-163 | before hydration nothing happens; a target at or below last_snapshot_offset needs nothing; a target beyond insync_offset after the wait violates the assertion; otherwise a snapshot is made covering the target |
| PersistedStm.PersistedStmNode.Sync | src/v/cluster/persisted_stm.cc:165-181 | a follower answers false; a leader already in sync for its term answers true; while catching up the caller is queued; otherwise a quorum write for the current term starts and catching up is set |
| PersistedStm.PersistedStmNode.ResolveWaiters | src/v/cluster/persisted_stm.cc:196-199 | every queued waiter receives the result, in order, and the queue empties |
| PersistedStm.PersistedStmNode.SyncCompleted | src/v/cluster/persisted_stm.cc:182-201 | synced iff the write succeeded and the term is unchanged; insync_term moves to the term only then; all waiters are answered; _is_catching_up is left as it was |
| PersistedStm.PersistedStmNode.SyncCompletedClearing | src/v/cluster/persisted_stm.cc:182-201 | the same completion, and catching up ends |
| PersistedStm.PersistedStmNode.Start | src/v/cluster/persisted_stm.cc:219-256 | start aborts iff a stored snapshot has a wrong format version byte or fails hydration under crash; otherwise the stm is hydrated, next is max(insync_offset, start_offset) when a snapshot exists (start_offset otherwise) if non-negative, and a snapshot is requested iff commit_index >= 0 |
| PersistedStm.Answers | src/v/cluster/persisted_stm.cc:196-198 | each waiter is paired with the same value, one answer per waiter |
| PersistedStm.AnswersSnoc | src/v/cluster/persisted_stm.cc:196-198 | answering one more waiter appends one answer |
| PersistedStm.StuckAfterTermChange | src/v/cluster/persisted_stm.cc:172-201 | as written, after a sync whose term changed before completion, the next sync in a new term is queued forever instead of writing |
| PersistedStm.CatchesUpAfterTermChange | src/v/cluster/persisted_stm.cc:172-201 | with catching up cleared on completion, the next sync in a new term starts its own write |
| ModelTypes.NtpPath | src/v/model/model.cc:159-161 | ntp::path starts with the namespace followed by '/' and is longer than namespace and topic with two separators |
| ModelTypes.NtpPathSplits | src/v/model/model.cc:159-161 | for names without '/', splitting the path on '/' gives back namespace, topic and the partition's decimal text |
| ModelTypes.NtpPathInjective | src/v/model/model.cc:159-161 | two ntps whose names hold no '/' have the same path only when they are equal |
| ModelTypes.IntToStringShape | src/v/model/model.cc:160 | a formatted integer is non-empty, begins with '-' exactly when negative and with a digit otherwise |
| ModelTypes.IntToStringInjective | src/v/model/model.cc:160 | different integers format differently |
| ModelTypes.ParseCompression | src/v/model/model.cc:163-173 | a parsed compression is one of the five codecs; a failed parse reports the unmatched string |
| ModelTypes.ParseCompressionAccepts | src/v/model/model.cc:163-173 | exactly none, uncompressed, gzip, snappy, lz4 and zstd parse, and uncompressed means none |
| ModelTypes.PrintParseRoundTrip | src/v/model/model.cc:20-43 | a codec prints as {compression: name} and its name parses back to it; any other value prints ERROR, which does not parse |
| ModelTypes.PrintCompressionInjective | src/v/model/model.cc:20-43 | distinct codecs print differently |
| ModelTypes.PrintTimestampBody | src/v/model/model.cc:45-50 | between the braces a timestamp prints its value, or "missing" for the missing timestamp |
| ModelTypes.PrintTimestampMissing | src/v/model/model.cc:45-50 | "{timestamp: missing}" is printed exactly for timestamp::missing() |
| ModelTypes.PrintTimestampInjective | src/v/model/model.cc:45-50 | different timestamps print differently |
| ModelTypes.PrintTimestampTypeMeaning | src/v/model/model.cc:71-79 | append_time prints {append_time}, create_time prints {create_time}, and different types print differently |
| KafkaRequests.ApiOf | src/v/kafka/requests/requests.cc:79-108 | the switch selects an API only for that API's own key |
| KafkaRequests.ApiOfKey | src/v/kafka/requests/requests.cc:79-108 | every one of the fourteen APIs is reached through its key and through no other key |
| KafkaRequests.Supported | src/v/kafka/requests/create_topics_request.h:24-26 | create_topics supports versions 0 to 3; the other APIs use the ranges their headers declare |
| KafkaRequests.ProcessRequest | src/v/kafka/requests/requests.cc:29-111 | a request reaches a handler iff its key is known and, unless it is api_versions, its version lies in the API's range; an unknown key fails with "Unsupported API", an out-of-range version with "Unsupported version" for that API |
| KafkaRequests.ApiVersionsAnyVersion | src/v/kafka/requests/requests.cc:47-60 | api_versions (key 18) is dispatched whatever the version |
| KafkaRequests.CreateTopicsGate | src/v/kafka/requests/requests.cc:34-107 | create_topics (key 19) is dispatched exactly for versions 0 to 3 |
| MetadataRequest.Map | src/v/redpanda/kafka/requests/metadata_request.cc:30-32 | normalising each element keeps one element per element written |
| MetadataRequest.ManyRoundTrip | src/v/redpanda/kafka/requests/metadata_request.cc:30-59 | n elements written one after another read back as those elements (normalised to what the version carries), leaving the following fields |
| MetadataRequest.ArrayRoundTrip | src/v/redpanda/kafka/requests/metadata_request.cc:30-108 | write_array's count followed by the elements reads back through read_array |
| MetadataRequest.Int32ArrayRoundTrip | src/v/redpanda/kafka/requests/metadata_request.cc:92-100 | the replica arrays of int32 read back unchanged |
| MetadataRequest.MapSame | src/v/redpanda/kafka/requests/metadata_request.cc:92-100 | int32 elements need no normalisation |
| MetadataRequest.RequestRoundTrip | src/v/redpanda/kafka/requests/metadata_request.cc:30-38 | a request reads back as its topic names, with allow_auto_topic_creation kept from version 4 on and false before |
| MetadataRequest.MapSameString | src/v/redpanda/kafka/requests/metadata_request.cc:30-32 | topic names need no normalisation |
| MetadataRequest.GatedI32RoundTrip | src/v/redpanda/kafka/requests/metadata_request.cc:45-69 | a version-gated int32 reads back when written and takes its default otherwise |
| MetadataRequest.GatedNullableStrRoundTrip | src/v/redpanda/kafka/requests/metadata_request.cc:56-64 | a version-gated nullable string reads back when written and is null otherwise |
| MetadataRequest.BrokerRoundTrip | src/v/redpanda/kafka/requests/metadata_request.cc:52-59 | a broker (id, host, port, rack from version 1) reads back, without the rack before version 1 |
| MetadataRequest.PartitionRoundTrip | src/v/redpanda/kafka/requests/metadata_request.cc:88-106 | a partition (error, index, leader 1, replicas, isr, offline replicas from version 5) reads back |
| MetadataRequest.PartitionsReadBack | src/v/redpanda/kafka/requests/metadata_request.cc:87-107 | every partition of a topic reads back |
| MetadataRequest.TopicRoundTrip | src/v/redpanda/kafka/requests/metadata_request.cc:72-107 | a topic written with its partition count before the partitions reads back as the topic |
| MetadataRequest.BrokersReadBack | src/v/redpanda/kafka/requests/metadata_request.cc:51-59 | every broker reads back |
| MetadataRequest.TopicsReadBack | src/v/redpanda/kafka/requests/metadata_request.cc:71-108 | every topic reads back |
| MetadataRequest.ResponseRoundTrip | src/v/redpanda/kafka/requests/metadata_request.cc:43-108 | the corrected response (throttle from v3, brokers, cluster id from v2, controller from v1, topics) reads back as the response restricted to the version |
| MetadataRequest.AsWrittenTopicUnreadable | src/v/redpanda/kafka/requests/metadata_request.cc:87-107 | as written, a topic with partitions is written without the partitions' array count, so it does not read back as a topic |
| MetadataRequest.AsWrittenTopicsUnreadable | src/v/redpanda/kafka/requests/metadata_request.cc:71-108 | as written, a topics array whose first topic has partitions cannot be read |
| MetadataRequest.AsWrittenUnreadable | src/v/redpanda/kafka/requests/metadata_request.cc:43-108 | as written, a response whose first topic has partitions cannot be read back |
| MetadataRequest.PartitionsOf | src/v/redpanda/kafka/requests/metadata_request.cc:87-107 | each partition id gives the partition with error none, leader 1 and replicas and isr [1] |
| MetadataRequest.TopicsOf | src/v/redpanda/kafka/requests/metadata_request.cc:72-82 | each requested name gives its cached topic, or unknown_topic_or_partition with no partitions |
| MetadataRequest.Process | src/v/redpanda/kafka/requests/metadata_request.cc:20-112 | a version out of range fails with "Unsupported version", an unreadable request fails, and otherwise the response has throttle 0, the single broker 1 at localhost:9092, no cluster id, controller 1 and one non-internal topic per requested name (all cached topics when none is requested) |
| TopicUtils.GenerateErrors | src/v/redpanda/kafka/requests/topics/topic_utils.h:32-77 | one failed topic_op_result per item, in order, naming the item's topic with the given code and message |
| TopicUtils.GenerateNotControllerErrors | src/v/redpanda/kafka/requests/topics/topic_utils.h:164-178 | every item gets not_controller (41) with "Current node is not a cluster controller" |
| TopicUtils.FilterPartitioned | src/v/redpanda/kafka/requests/topics/topic_utils.h:70 | of a range partitioned at k, the items satisfying the predicate are exactly the prefix and the others the suffix |
| TopicUtils.PartitionedByFilter | src/v/redpanda/kafka/requests/topics/topic_utils.h:70 | a partitioned permutation's prefix holds exactly the satisfying items of the original and its suffix the rest, as multisets |
| TopicUtils.Partition | src/v/redpanda/kafka/requests/topics/topic_utils.h:70 | std::partition permutes the range in place so that the satisfying items come first, returning the boundary, and leaves everything past the range alone |
| TopicUtils.SwapInPrefix | src/v/redpanda/kafka/requests/topics/topic_utils.h:70 | swapping two positions inside the range permutes the range and changes nothing else |
| TopicUtils.ValidateRequestsRange | src/v/redpanda/kafka/requests/topics/topic_utils.h:50-79 | the range is permuted so the valid items come first; the returned end separates valid from invalid, and one error with the validator's code and message is generated per invalid item, in their order |
| TopicUtils.FirstFailing | src/v/redpanda/kafka/requests/topics/topic_utils.h:81-99 | an item fails the chain iff some validator rejects it, and then the first that does |
| TopicUtils.Rejections | src/v/redpanda/kafka/requests/topics/topic_utils.h:81-99 | each item gets the error of the first validator that rejects it |
| TopicUtils.RejectionsAppend | src/v/redpanda/kafka/requests/topics/topic_utils.h:81-99 | rejections of two ranges concatenate |
| TopicUtils.RejectedAt | src/v/redpanda/kafka/requests/topics/topic_utils.h:81-99 | an item that passes validators before k and fails k is rejected with k's code and message |
| TopicUtils.BlockRejections | src/v/redpanda/kafka/requests/topics/topic_utils.h:90-97 | the errors one step generates for a block that first fails validator k are those items' rejections |
| TopicUtils.ValidatedStep | src/v/redpanda/kafka/requests/topics/topic_utils.h:90-97 | one fold step keeps the invariant that the prefix passes the validators so far and the errors are the rejections of the cut-off items |
| TopicUtils.ValidateWithValidators | src/v/redpanda/kafka/requests/topics/topic_utils.h:81-99 | after all validators the range is a permutation with exactly the items passing every validator before the returned end, and the errors are, as a multiset, each failing item's rejection by its first failing validator |
| TopicUtils.OccurrencesOfMember | src/v/redpanda/kafka/requests/topics/topic_utils.h:150-154 | every item's topic has frequency at least one |
| TopicUtils.CountTopics | src/v/redpanda/kafka/requests/topics/topic_utils.h:150-154 | the frequency map counts each topic name's occurrences in the range |
| TopicUtils.ValidateRangeDuplicates | src/v/redpanda/kafka/requests/topics/topic_utils.h:140-162 | the range is permuted so that the items whose topic occurs once come first, and every other item gets invalid_request (42) "Duplicated topic" |
| TopicUtils.UniqueByFrequency | src/v/redpanda/kafka/requests/topics/topic_utils.h:148-161 | partitioning by frequency == 1 splits the range into the unique-topic items and the duplicated ones |
| TopicUtils.AppendClusterResults | src/v/redpanda/kafka/requests/topics/topic_utils.h:101-113 | the kafka results keep their prefix and get one converted entry per cluster result, in order |
| TopicUtils.ToClusterType | src/v/redpanda/kafka/requests/topics/topic_utils.h:115-138 | one converted item per request item, in order |
| Fetcher.MakeFetchRequest | src/v/kafka/client/fetcher.cc:21-44 | one topic with one partition, replica id -1, min_bytes 0, isolation level 0, max_wait the timeout, log_start_offset -1, leader epoch 0, and max_bytes used both for the request and the partition |
| Fetcher.RequestTargets | src/v/kafka/client/fetcher.cc:21-44 | the request fetches exactly the given topic partition from the given offset with the given byte limit |
| Fetcher.MakeFetchResponse | src/v/kafka/client/fetcher.cc:46-86 | the response names the topic with one partition response; an exception none of the handlers catches propagates instead |
| Fetcher.FetchResponseMapping | src/v/kafka/client/fetcher.cc:48-85 | partition and broker errors keep their code, gate_closed becomes operation_not_attempted (55), other std exceptions and nested exception_ptrs become unknown_server_error (-1); the partition response carries the same error, the partition id and offsets -1 with no records |
| CoprocNtpContext.NtpContext.constructor | src/v/coproc/ntp_context.h:61-62 | a context wraps the partition and tracks no script yet |
| CoprocNtpContext.NtpContext.Ntp | src/v/coproc/ntp_context.h:64 | a context's ntp is its partition's ntp |
| CoprocNtpContext.NtpContext.Track | src/v/coproc/ntp_context.h:54-70 | looking up a script's offsets inserts a fresh pair (both offsets unset) for an untracked script and leaves a tracked script's pair and every other entry unchanged |
| ScriptContextFrontend.NextReadPastAcked | src/v/coproc/script_context_frontend.cc:58-61 | reading resumes strictly after the last acknowledged offset, and at 0 exactly when nothing (or offset -1) was acknowledged |
| ScriptContextFrontend.GetReader | src/v/coproc/script_context_frontend.cc:47-78 | the reader starts after the script's last acknowledged offset, stops at the partition's last stable offset, needs at least 1 byte, is capped at coproc_max_batch_size and keeps only raft_data batches |
| ScriptContextFrontend.Eligible | src/v/coproc/script_context_frontend.cc:69-84 | a batch is eligible exactly when it is in the log, is raft_data, ends at or after the start offset and starts at or before the last stable offset |
| ScriptContextFrontend.Capped | src/v/storage/log_reader.cc:51-69 | reading in order stops after the batch with which the bytes read reach the cap: the result is a prefix of the input, every batch after the first was read below the cap, and the input is cut short only once the cap is reached |
| ScriptContextFrontend.SumSizesCons | src/v/storage/log_reader.cc:54-55 | the bytes read over a run are its first batch's size plus the rest's |
| ScriptContextFrontend.Window | src/v/coproc/script_context_frontend.cc:69-84 | the reader yields a prefix of the eligible batches (so only batches of the log inside the configured window and type), never more than the log holds |
| ScriptContextFrontend.WindowCapped | src/v/storage/log_reader.cc:63-67 | the reader's output ends before the eligible batches do only once max_bytes have been read, and every batch after the first was read below max_bytes |
| ScriptContextFrontend.CappedBelowBudget | src/v/storage/log_reader.cc:63-67 | when reading stops at a batch, the bytes read before every batch taken after the first were still below the cap |
| ScriptContextFrontend.CapStopsRead | src/v/storage/log_reader.cc:63-67 | with three 300 KiB batches and a 512 KiB cap the read takes the first two and stops |
| ScriptContextFrontend.EligibleOrdered | src/v/coproc/script_context_frontend.cc:84 | the eligible batches of an ordered log are in offset order |
| ScriptContextFrontend.WindowOrdered | src/v/coproc/script_context_frontend.cc:84 | a byte-capped reader over an ordered log still yields batches in offset order |
| ScriptContextFrontend.NoBytesIffEmptyBatches | src/v/coproc/script_context_frontend.cc:90-92 | the consumed size is 0 exactly when every batch read has size 0 |
| ScriptContextFrontend.SummaryAppend | src/v/coproc/script_context_frontend.cc:35-41 | the tracker's size adds over consecutive runs and its last offset is the last batch's |
| ScriptContextFrontend.HighOffsetTracker.constructor | src/v/coproc/script_context_frontend.cc:31-44 | the tracker starts with an unset last offset and size 0 |
| ScriptContextFrontend.HighOffsetTracker.Consume | src/v/coproc/script_context_frontend.cc:35-39 | consuming a batch sets last to its last offset and adds its size |
| ScriptContextFrontend.TrackAll | src/v/coproc/script_context_frontend.cc:85-89 | running the tracker over the batches gives their summary: total size and last offset |
| ScriptContextFrontend.ReadOutcome | src/v/coproc/script_context_frontend.cc:80-98 | read_ntp yields nothing exactly when the batches the configured reader yields hold no bytes; otherwise a request naming only this script and the ntp, with a non-zero size |
| ScriptContextFrontend.ReadOutcomeCapped | src/v/coproc/script_context_frontend.cc:47-98 | the batches read are raft_data batches of the partition ending at or after the next read offset and starting at or before the last stable offset; they are a prefix of the eligible batches, each batch after the first read while fewer than coproc_max_batch_size bytes had been read, and eligible batches are left unread only once that many bytes are read |
| ScriptContextFrontend.AfterReadOnlyLastRead | src/v/coproc/script_context_frontend.cc:90-93 | a read changes only this script's last_read, to the last offset read, and only when it yielded data; last_acked and other scripts are untouched |
| ScriptContextFrontend.FreshPairSane | src/v/coproc/script_context_frontend.cc:58-61 | a fresh offset pair satisfies the offset invariant |
| ScriptContextFrontend.AfterReadSane | src/v/coproc/script_context_frontend.cc:90-93 | reading preserves the offset invariant of every tracked script |
| ScriptContextFrontend.ReadNtp | src/v/coproc/script_context_frontend.cc:80-98 | read_ntp returns the read outcome (the eligible batches up to coproc_max_batch_size bytes, or nothing when they hold no bytes) and moves this script's last_read to the last offset read exactly when it returns data |
| ScriptContextFrontend.AckedNotReread | src/v/coproc/script_context_frontend.cc:58-93 | once a read's last offset is acknowledged, none of its batches would be read again; recording last_read alone does not move the next read |
| ScriptContextFrontend.Collected | src/v/coproc/script_context_frontend.cc:104-113 | every collected request names only this script and carries data; at most one request per input |
| ScriptContextFrontend.CollectedStep | src/v/coproc/script_context_frontend.cc:109-113 | each input adds its request, if any, after those of the inputs before it |
| ScriptContextFrontend.CollectedAppend | src/v/coproc/script_context_frontend.cc:109-113 | pushing a read's request, when there is one, onto the requests of the inputs before it gives the requests of the inputs up to and including it |
| ScriptContextFrontend.ReadNext | src/v/coproc/script_context_frontend.cc:104-113 | reading one more input updates only that input's offsets, as reading it does, and extends the requests by its outcome |
| ScriptContextFrontend.ReadFromInputs | src/v/coproc/script_context_frontend.cc:100-117 | the requests are, in input order, the non-empty byte-capped reads of each input, and each input's offsets are updated exactly as reading it does |
| CoprocScriptContext.NewTerm | src/v/coproc/script_context.cc:241-248 | the term written is the larger of the source partition's term and the materialized log's dirty-offset term |
| CoprocScriptContext.WithTermKeeps | src/v/coproc/script_context.cc:207-230 | re-terming a reader changes only each batch's term, keeping the batches, their order and everything else in them |
| CoprocScriptContext.TermIdUpdater.constructor | src/v/coproc/script_context.cc:211-212 | the updater starts with its term and no batches |
| CoprocScriptContext.TermIdUpdater.Consume | src/v/coproc/script_context.cc:214-221 | each consumed batch is appended with its term replaced |
| CoprocScriptContext.Appended | src/v/coproc/script_context.cc:232-267 | write_checked appends nothing and fails iff some batch fails its CRC check, and otherwise appends all the batches re-termed with the new term |
| CoprocScriptContext.AppendedTermsMonotone | src/v/coproc/script_context.cc:236-248 | every appended batch has a term at least the log's previous term and the partition's term, so terms never go backwards |
| CoprocScriptContext.Written | src/v/coproc/script_context.cc:197-286 | writing touches only the input ntp's log, creating it if absent |
| CoprocScriptContext.WrittenGrows | src/v/coproc/script_context.cc:197-267 | writing only adds logs and appends to them |
| CoprocScriptContext.SharedResources.constructor | src/v/coproc/ntp_context.h:106-112 | shared resources start with no per-log mutexes over the given storage |
| CoprocScriptContext.AckStepTransitive | src/v/coproc/script_context.cc:186-193 | successive acknowledgement steps compose into one |
| CoprocScriptContext.Acked | src/v/coproc/script_context.cc:186-193 | acknowledging sets the script's last_acked to its last_read, and is an acknowledgement step |
| CoprocScriptContext.AckStepSane | src/v/coproc/script_context.cc:186-193 | acknowledgement preserves the offset invariant |
| CoprocScriptContext.ScriptContext.constructor | src/v/coproc/script_context.cc:33-44 | a script context is built only with a non-empty subscription list, keeping id, resources and contexts |
| CoprocScriptContext.ScriptContext.GetLog | src/v/coproc/script_context.cc:197-205 | get_log returns the existing log, or manages a new empty one and registers it |
| CoprocScriptContext.ScriptContext.WriteChecked | src/v/coproc/script_context.cc:232-267 | the result is true iff every CRC checks out, and the logs become the written logs |
| CoprocScriptContext.ScriptContext.WriteMaterialized | src/v/coproc/script_context.cc:269-286 | a mutex exists for the input ntp afterwards, and the write is write_checked on that ntp's log |
| CoprocScriptContext.ScriptContext.ProcessOneReply | src/v/coproc/script_context.cc:144-195 | a reply for this script without a reader fails with script_failed_exception and the auto-deregister message; a mismatched id or unknown source changes nothing; otherwise the batches are written under the source partition's term and, if the CRCs pass, last_acked catches up with last_read |
| CoprocScriptContext.ScriptContext.ProcessReply | src/v/coproc/script_context.cc:130-142 | replies are handled in order and the script fails exactly when some entry for it carries no batches; a reply with no entry that reaches a write (in particular an empty reply) leaves logs, mutexes and offsets unchanged; otherwise logs only grow, mutexes accumulate, and offsets only take acknowledgement steps |
| CoprocScriptContext.ScriptContext.ReadInputs | src/v/coproc/script_context.cc:84-89 | the requests sent are those read from the inputs, and the offset invariant is kept |
| CoprocScriptContext.ScriptContext.ProcessReplySane | src/v/coproc/script_context.cc:130-142 | processing replies keeps the offset invariant, tracking and log growth |
| CoprocScriptContext.ScriptContext.ExecuteRound | src/v/coproc/script_context.cc:70-104 | a round stops without change when aborted or not connected; otherwise it sends what the inputs give, and it continues iff something was sent and no script failure was raised |
| CoprocScriptContext.ScriptContext.DoExecute | src/v/coproc/script_context.cc:65-105 | do_execute runs at most one round per engine turn and ends early only when a round stops; a failure or an unreachable engine stops the round it happens in; an abort stops the first round; the offset invariant is kept, logs only grow, and any failure names this script |
| CoprocScriptContext.ScriptContext.Shutdown | src/v/coproc/script_context.cc:107-110 | shutdown clears the ntp contexts |
| GrafanaDashboard.StrLeTotal | src/go/rpk/pkg/cli/cmd/generate/grafana.go:137-160 | the byte-wise order sort.Strings uses is total |
| GrafanaDashboard.StrLeTrans | src/go/rpk/pkg/cli/cmd/generate/grafana.go:137-160 | that order is transitive |
| GrafanaDashboard.StrLeAntisym | src/go/rpk/pkg/cli/cmd/generate/grafana.go:137-160 | that order is antisymmetric |
| GrafanaDashboard.InsertSorted | src/go/rpk/pkg/cli/cmd/generate/grafana.go:137-160 | inserting into a sorted list keeps it sorted |
| GrafanaDashboard.SortStrings | src/go/rpk/pkg/cli/cmd/generate/grafana.go:137-160 | sort.Strings yields a sorted permutation of its input |
| GrafanaDashboard.SortedUnique | src/go/rpk/pkg/cli/cmd/generate/grafana.go:137-160 | two sorted permutations of the same strings are equal, so the sorted order is determined by the set of strings |
| GrafanaDashboard.SortKeepsDistinct | src/go/rpk/pkg/cli/cmd/generate/grafana.go:137 | sorting distinct titles keeps them distinct |
| GrafanaDashboard.AllLabelsAppend | src/go/rpk/pkg/cli/cmd/generate/grafana.go:491-509 | the labels walked over several metrics are those of each metric in turn |
| GrafanaDashboard.FirstGroupMeaning | src/go/rpk/pkg/cli/cmd/generate/grafana.go:351-358 | metricGroup is the first of metricGroups contained in the name, and "others" when none is |
| GrafanaDashboard.MetricGroup | src/go/rpk/pkg/cli/cmd/generate/grafana.go:351-358 | the loop returns that group |
| GrafanaDashboard.TypeOfSkip | src/go/rpk/pkg/cli/cmd/generate/grafana.go:507-516 | labels before the first "type" label do not affect the subtype |
| GrafanaDashboard.TypeOfMeaning | src/go/rpk/pkg/cli/cmd/generate/grafana.go:507-516 | subtype is the value of the first label named "type", and "none" when there is none |
| GrafanaDashboard.Subtype | src/go/rpk/pkg/cli/cmd/generate/grafana.go:507-516 | the nested loop over metrics and labels returns that value |
| GrafanaDashboard.SubtypeFound | src/go/rpk/pkg/cli/cmd/generate/grafana.go:507-516 | a "type" label with no earlier "type" label across the earlier metrics decides the subtype |
| GrafanaDashboard.LegendNamesMeaning | src/go/rpk/pkg/cli/cmd/generate/grafana.go:480-505 | the legend lists each label name other than "type" exactly once, in first-seen order, and only names that occur |
| GrafanaDashboard.LegendStarts | src/go/rpk/pkg/cli/cmd/generate/grafana.go:490 | every legend starts with "node: {{instance}}" |
| GrafanaDashboard.Duplicate | src/go/rpk/pkg/cli/cmd/generate/grafana.go:481-488 | duplicate reports whether the name is already listed |
| GrafanaDashboard.LegendFormat | src/go/rpk/pkg/cli/cmd/generate/grafana.go:480-505 | the loop builds "node: {{instance}}" followed by ", n: {{n}}" for each of those names |
| GrafanaDashboard.CounterUnit | src/go/rpk/pkg/cli/cmd/generate/grafana.go:420-423 | a counter's unit is "Bps" iff its name contains "bytes", else "ops" |
| GrafanaDashboard.GaugeUnit | src/go/rpk/pkg/cli/cmd/generate/grafana.go:441-444 | a gauge's unit is "bytes" iff its subtype contains "bytes", else "short" |
| GrafanaDashboard.PanelOf | src/go/rpk/pkg/cli/cmd/generate/grafana.go:164-170 | counters get a rate panel with the counter unit, histograms a 95th-percentile panel, other families a sum panel with the gauge unit; every panel carries the family's legend |
| GrafanaDashboard.NewCounterPanel | src/go/rpk/pkg/cli/cmd/generate/grafana.go:408-427 | the counter panel queries sum(irate(name{instance, shard selectors}[1m])) by the aggregation criteria, is titled "Rate - " + help, lists the family's labels in its legend, shows Bps exactly when the name mentions bytes and ops otherwise, and is not stepped |
| GrafanaDashboard.NewGaugePanel | src/go/rpk/pkg/cli/cmd/generate/grafana.go:429-449 | the gauge panel queries sum(name{instance, shard selectors}) by the aggregation criteria, is titled with the help text, lists the family's labels in its legend, shows bytes exactly when the subtype mentions bytes and short otherwise, and is stepped |
| GrafanaDashboard.NewPercentilePanel | src/go/rpk/pkg/cli/cmd/generate/grafana.go:382-406 | the percentile panel queries the metric's histogram quantile at the given percentile, is titled help + " (p<percentile>)", lists the family's labels in its legend, shows µs and is stepped |
| GrafanaDashboard.NewPanel | src/go/rpk/pkg/cli/cmd/generate/grafana.go:163-170 | the chosen constructor gives the panel for the family's type |
| GrafanaDashboard.PlacedPanels | src/go/rpk/pkg/cli/cmd/generate/grafana.go:144-147 | placing keeps one panel per panel |
| GrafanaDashboard.Placed | src/go/rpk/pkg/cli/cmd/generate/grafana.go:141-149 | a placed row keeps its title and panel count and gets the given Y |
| GrafanaDashboard.PlacedLayout | src/go/rpk/pkg/cli/cmd/generate/grafana.go:144-147 | panel i gets X = (i*8) mod 24 and the row's Y, and nothing else changes |
| GrafanaDashboard.PlacedFitsGrid | src/go/rpk/pkg/cli/cmd/generate/grafana.go:144-147 | every panel's X is 0, 8 or 16, fits the 24-wide grid, and panels fill each line left to right before wrapping |
| GrafanaDashboard.Entries | src/go/rpk/pkg/cli/cmd/generate/grafana.go:161-176 | one (group, panel) entry per family name |
| GrafanaDashboard.VisitValid | src/go/rpk/pkg/cli/cmd/generate/grafana.go:176-184 | adding panels keeps titles distinct and matching their rows, and only appends titles |
| GrafanaDashboard.VisitKeys | src/go/rpk/pkg/cli/cmd/generate/grafana.go:176-184 | the groups afterwards are the old ones plus the group of every family |
| GrafanaDashboard.VisitPanels | src/go/rpk/pkg/cli/cmd/generate/grafana.go:177-183 | each group's row holds its old panels followed by its new ones in visiting order |
| GrafanaDashboard.PanelsInEmpty | src/go/rpk/pkg/cli/cmd/generate/grafana.go:177-183 | a group no family falls in gets no panel |
| GrafanaDashboard.SortKeepsValid | src/go/rpk/pkg/cli/cmd/generate/grafana.go:137 | sorting the titles keeps them matching their rows |
| GrafanaDashboard.SortedNamesIn | src/go/rpk/pkg/cli/cmd/generate/grafana.go:156-160 | the sorted names are all names of families |
| GrafanaDashboard.PlacedRows | src/go/rpk/pkg/cli/cmd/generate/grafana.go:138-152 | one row per title |
| GrafanaDashboard.PlacedRowsMeaning | src/go/rpk/pkg/cli/cmd/generate/grafana.go:140-150 | the k-th emitted row is the k-th title's row placed at Y = fromY + k |
| GrafanaDashboard.PlacedKeepsValid | src/go/rpk/pkg/cli/cmd/generate/grafana.go:141-148 | placing rows in place keeps the titles matching their rows |
| GrafanaDashboard.RowSet.constructor | src/go/rpk/pkg/cli/cmd/generate/grafana.go:44-49 | a new row set has no titles and no rows |
| GrafanaDashboard.RowSet.ProcessRows | src/go/rpk/pkg/cli/cmd/generate/grafana.go:155-186 | processRows visits the families in sorted name order and adds each family's panel to its group's row, whatever order the names came in |
| GrafanaDashboard.RowSet.PlaceRow | src/go/rpk/pkg/cli/cmd/generate/grafana.go:142-147 | a row is placed at Y with its panels laid out |
| GrafanaDashboard.RowSet.SortTitles | src/go/rpk/pkg/cli/cmd/generate/grafana.go:137 | the titles are sorted and the rows kept |
| GrafanaDashboard.RowSet.Finalize | src/go/rpk/pkg/cli/cmd/generate/grafana.go:134-153 | finalize sorts the titles and returns the rows in that order at Y = fromY, fromY+1, …, writing the same positions into the row set |
| GrafanaDashboard.RowSet.PlaceRows | src/go/rpk/pkg/cli/cmd/generate/grafana.go:140-150 | the rows are placed in title order and stored back |
| GrafanaDashboard.AddAll | src/go/rpk/pkg/cli/cmd/generate/grafana.go:161-185 | the loop over the entries computes the visit |
| GrafanaDashboard.PlaceAll | src/go/rpk/pkg/cli/cmd/generate/grafana.go:140-150 | the loop places every title's row and leaves the keys unchanged |
| GrafanaDashboard.ProcessOrderIrrelevant | src/go/rpk/pkg/cli/cmd/generate/grafana.go:156-160 | sorting makes the visiting order independent of the map's iteration order |
| GrafanaDashboard.NormalizeUrl | src/go/rpk/pkg/cli/cmd/generate/grafana.go:57-60 | a URL without http:// or https:// gets http:// prepended; one with either prefix is kept |
| GrafanaDashboard.NormalizeUrlIdempotent | src/go/rpk/pkg/cli/cmd/generate/grafana.go:57-60 | normalising twice is normalising once |
| NodePortService.Wrap32 | src/go/k8s/pkg/resources/node_port_service.go:107-166 | a Go int32 conversion keeps the value modulo 2^32 and leaves int32-range values unchanged |
| NodePortService.Wrap32Injective | src/go/k8s/pkg/resources/node_port_service.go:166 | broker-1 wraps to the same int32 only for the same broker |
| NodePortService.Key | src/go/k8s/pkg/resources/node_port_service.go:159-163 | the service key is "<cluster>-external" in the cluster's namespace |
| NodePortService.BrokerKey | src/go/k8s/pkg/resources/node_port_service.go:165-168 | a broker's key is "<cluster>-<broker-1>" (int32 arithmetic) in the cluster's namespace |
| NodePortService.IntToStringInjective | src/go/k8s/pkg/resources/node_port_service.go:166 | strconv.Itoa gives different text for different integers |
| NodePortService.IntToStringSign | src/go/k8s/pkg/resources/node_port_service.go:166 | Itoa's text starts with '-' exactly for negatives and otherwise with a digit |
| NodePortService.BrokerKeysDistinct | src/go/k8s/pkg/resources/node_port_service.go:159-168 | different brokers get different keys, and no broker key equals the cluster's external key |
| NodePortService.PortOf | src/go/k8s/pkg/resources/node_port_service.go:103-113 | each service port keeps the name, uses TCP, targets the port, converts the port to int32, and sets NodePort only when the given NodePort is positive |
| NodePortService.ObjPorts | src/go/k8s/pkg/resources/node_port_service.go:102-114 | obj builds one service port per named port, in order |
| NodePortService.ServiceName | src/go/k8s/pkg/resources/node_port_service.go:118-120 | a non-negative broker names the service by its broker key, otherwise by the cluster key |
| NodePortService.SelectorOf | src/go/k8s/pkg/resources/node_port_service.go:116-122 | for a broker the selector gains statefulset.kubernetes.io/pod-name = the broker key's name, keeping every other cluster label; otherwise it is the cluster selector |
| NodePortService.Obj | src/go/k8s/pkg/resources/node_port_service.go:100-157 | obj fails iff setting the controller reference fails; otherwise it is a NodePort service with external traffic policy Local, the cluster labels, that name, selector and ports |
| NodePortService.FirstWithPort | src/go/k8s/pkg/resources/node_port_service.go:91-95 | the inner loop finds the first new port with the given port number, if any |
| NodePortService.CopyPorts | src/go/k8s/pkg/resources/node_port_service.go:89-98 | copyPorts updates the new ports in place to the copied ports |
| NodePortService.CopiedKeepsOtherFields | src/go/k8s/pkg/resources/node_port_service.go:89-98 | copying changes only NodePort fields and keeps the number of ports |
| NodePortService.LastWithPort | src/go/k8s/pkg/resources/node_port_service.go:90 | the last current port with a port number is found, if any |
| NodePortService.CopiedMeaning | src/go/k8s/pkg/resources/node_port_service.go:89-98 | a new port gets the NodePort of the last current port with its number when it is the first new port with that number, and is unchanged otherwise |
| NodePortService.SamePortsSameFirst | src/go/k8s/pkg/resources/node_port_service.go:91-95 | the first matching index depends only on the port numbers |
| NodePortService.Ensure | src/go/k8s/pkg/resources/node_port_service.go:61-87 | with no external listener nothing happens; an obj failure is wrapped as "unable to construct object"; a create error or a fresh create ends there; otherwise the service under its name is fetched (a fetch failure wrapped as "error while fetching Service resource") and updated to obj with the assigned node ports copied over |
| CreateSizedFile.ErrBallastExists | src/go/rpk/pkg/tuners/executors/commands/create_sized_file.go:82-88 | the message starts with the quoted path, "file '<path>'" |
| CreateSizedFile.Execute | src/go/rpk/pkg/tuners/executors/commands/create_sized_file.go:32-63 | an existing path returns errBallastExists, and any other stat error is returned unchanged; in both cases nothing is opened; the file is allocated only after a successful open, and the call succeeds iff open, fallocate and sync all succeed |
| CreateSizedFile.RenderScript | src/go/rpk/pkg/tuners/executors/commands/create_sized_file.go:65-80 | the script tests for the path and echoes errBallastExists when the file exists, and otherwise ends with "fallocate -l <size> <path>" and "fi" |
| CreateSizedFile.ScriptEchoesExecuteError | src/go/rpk/pkg/tuners/executors/commands/create_sized_file.go:35-80 | the script echoes exactly the error Execute returns for an existing file |
| CreateSizedFile.RenderScriptShape | src/go/rpk/pkg/tuners/executors/commands/create_sized_file.go:65-88 | the whole script text, with the path, message and size in place |
| CreateSizedFile.RenderScriptExample | src/go/rpk/pkg/tuners/executors/commands/create_sized_file_test.go:21-40 | for /some/made/up/filepath.txt and size 1 the script is exactly the test's expected text |
| CheckedTunable.TuneError | src/go/pkg/tuners/checked_tunable.go:34-52 | NewTuneError carries the error and reports nothing modified and no reboot |
| CheckedTunable.Tune | src/go/pkg/tuners/checked_tunable.go:30-55 | a check error is returned as a TuneError and the action never runs; a satisfied check returns unmodified without running the action; an action error is returned; a failing re-check becomes "System tuning was not succesfull" quoting the pre-tune value; success is exactly check ok, or action and re-check ok, and only then is the action's result returned |
| CheckedTunable.TuneWhenOkIsNoOp | src/go/pkg/tuners/checked_tunable.go:37-39 | when the first check passes the outcome does not depend on the action, and nothing is modified |
| VerifierConfiguration.DropTrailingEmpty | src/java/compacted-log-verifier/src/main/java/io/vectorized/kafka/configuration/Configuration.java:147 | String.split drops exactly the trailing empty fields: the result is a prefix ending in a non-empty field, and everything dropped is empty |
| VerifierConfiguration.SplitFieldsNoChar | src/java/compacted-log-verifier/src/main/java/io/vectorized/kafka/configuration/Configuration.java:147 | no field of a split holds the separator |
| VerifierConfiguration.ParseEntry | src/java/compacted-log-verifier/src/main/java/io/vectorized/kafka/configuration/Configuration.java:147-150 | an entry that does not split into exactly two pieces fails with "Invalid property: <entry>" |
| VerifierConfiguration.Parsed | src/java/compacted-log-verifier/src/main/java/io/vectorized/kafka/configuration/Configuration.java:146-147 | each entry is parsed, one result per entry |
| VerifierConfiguration.ParseProperties | src/java/compacted-log-verifier/src/main/java/io/vectorized/kafka/configuration/Configuration.java:144-154 | the loop returns the properties of the entries, or the first invalid entry's exception |
| VerifierConfiguration.PrefixErrorSticks | src/java/compacted-log-verifier/src/main/java/io/vectorized/kafka/configuration/Configuration.java:148-149 | once an entry is invalid, later entries do not change the outcome |
| VerifierConfiguration.CollectFirstError | src/java/compacted-log-verifier/src/main/java/io/vectorized/kafka/configuration/Configuration.java:146-151 | collecting fails iff some entry failed, and then with the first failure's error |
| VerifierConfiguration.PutAllLastValue | src/java/compacted-log-verifier/src/main/java/io/vectorized/kafka/configuration/Configuration.java:150 | putting pairs in order leaves every key present, holding the value of its last pair |
| VerifierConfiguration.Values | src/java/compacted-log-verifier/src/main/java/io/vectorized/kafka/configuration/Configuration.java:150 | one pair per parsed entry |
| VerifierConfiguration.CollectPutAll | src/java/compacted-log-verifier/src/main/java/io/vectorized/kafka/configuration/Configuration.java:146-153 | a successful collection has all entries valid and is their pairs put in order |
| VerifierConfiguration.PropertiesFirstError | src/java/compacted-log-verifier/src/main/java/io/vectorized/kafka/configuration/Configuration.java:144-154 | parseProperties throws iff some entry is invalid, and then names the first invalid entry |
| VerifierConfiguration.PropertiesArePairs | src/java/compacted-log-verifier/src/main/java/io/vectorized/kafka/configuration/Configuration.java:144-154 | on success every entry is valid and the properties are the entries' pairs put in order, the last value winning for a repeated key |
| VerifierConfiguration.EntryRoundTrip | src/java/compacted-log-verifier/src/main/java/io/vectorized/kafka/configuration/Configuration.java:147-150 | "k=v" with no '=' in k or v and a non-empty v parses to exactly (k, v) |
| VerifierConfiguration.ParsedEntryShape | src/java/compacted-log-verifier/src/main/java/io/vectorized/kafka/configuration/Configuration.java:147-150 | a valid entry's key and value hold no '=' and the value is non-empty |
| VerifierConfiguration.EntryExamples | src/java/compacted-log-verifier/src/main/java/io/vectorized/kafka/configuration/Configuration.java:147-149 | "a=b=c", "a" and "a=" are invalid, while "=b" gives the empty key with value "b" |
| VerifierConfiguration.GetMode | src/java/compacted-log-verifier/src/main/java/io/vectorized/kafka/configuration/Configuration.java:156-165 | the mode is consumer exactly for "consume", producer otherwise |

## Left out

### Concurrency and time

- Futures, seastar gates, semaphores, rwlocks and mutexes. Each asynchronous operation is a sequential step. A wait is an explicit ticket or an explicit outcome. Interleavings between shards or fibres are not modelled.
- Timers, clocks, deadlines and jitter. A deadline or timeout is a boolean input. The wal writer's flush timer is its tick method. The jittered retry delays and semaphores of the coprocessor's shared script resources are left out.
- `persisted_stm::wait_no_throw`: it only waits on the offset monitor with a timeout. Its timing is not modelled.

### I/O, network and foreign libraries

- File and disk I/O. Where a modelled operation reports a file call's failure, the model takes the call's outcome as a parameter:
  - a segment's appender and index writes and its flush (`Segment.Append`, `DoFlush`, `Flush`, `Close`);
  - the log manager's directory creation and the open and stat of each segment file (`Manage`, `DirEntry`);
  - the open in `file_stm`, the snapshot load in `persisted_stm`, and the stat, open, fallocate and sync of the ballast file.
- The other file calls are taken to succeed. These are the closes of a segment's reader, index and appender, the index flush, the stat of the last segment in recovery, and the wal writer's open, writes and close. A failure of one of them only fails the returned future, and that is not modelled. Nor are the bytes on disk beyond what the modelled code writes.
- Network and RPC: `script_context::send_request`, the wasm transport, the kafka client, and the Kubernetes client calls in `Ensure`. Each reply or error is a parameter.
- The HTTP fetch of the metrics in grafana.go is left out. So are buildSummary, buildTemplating, buildGrafanaDashboard, executeGrafanaDashboard and htmlHeader, which assemble JSON and call library code.
- GrafanaDashboard.NewPercentilePanel: the `%.2f` rendering of the float32 percentile is not modelled. The panel keeps the percentile as a parameter, because floating point is outside the model.
- CRC32C, compression and decompression are foreign library calls. A batch's CRC check is a boolean it carries. Compression codecs appear only as their enumeration and names.
- Raft. Replication and elections are not shown. A replicate or snapshot write in `persisted_stm` is a success-or-failure parameter.

### Contracts that follow the model's own choices

- FileStm.FileStmImpl.StateTransitionToOpen: it admits the new entry with the corrected put (`PutKeepingNewcomer`), not the put as written. So the self-eviction of the first put into an empty cache of limit 1, which throws bad_function_call, is not reproduced on the open path. `SelfEvictionOnFirstPut` exhibits it on the put itself (see Findings).
- FileStm.FileStmImpl.OpenFresh: it goes through `StateTransitionToOpen`, so it uses the corrected put and never reaches the bad_function_call case.
- FileStm.FileStmImpl.EvAccess: same as `OpenFresh`. A lazy handle's first access uses the corrected put.
- FileStm.AccessOnce: same as `OpenFresh`. It uses the corrected put.
- FileStm.OpenFileDma: same as `OpenFresh`. It uses the corrected put.
- ScriptContextFrontend.Window: the byte cap counts each batch's `size_bytes` toward `max_bytes`. The storage reader counts the batch's `memory_usage()`, which is not modelled. The reader's timeout and its stop at a batch past the committed offset are not modelled either; the reader's window already ends at the last stable offset.
- IobufModel.Iobuf.Reserve: it requires `sz` to be at most 128 KiB, the largest chunk. io_fragment.h is not part of this model, so a reservation larger than any one fragment is not modelled. It also differs when `sz` is 0 on an empty iobuf: the source takes `std::prev(end())` of an empty fragment list, which is undefined behaviour, and the model creates an empty fragment for the placeholder instead.
- CoprocScriptContext.ScriptContext.ProcessReply: the contract does not give the resulting logs and offsets as a fold of `ProcessOneReply` over the entries. It states the failure exactly. It states that a reply with no entry reaching a write, an empty one in particular, changes nothing. Otherwise it states that logs only grow, mutexes accumulate and offsets only take acknowledgement steps. `ProcessOneReply` states each entry's exact effect.
- CoprocScriptContext.ScriptContext.DoExecute: the contract states when the loop ends, not what the rounds before the last sent and wrote. `ExecuteRound` states that for each round.
- PartitionAllocator.Allocator.RegisterNode: a second node with an id already in the map is not modelled as the source behaves. There `emplace` destroys the new node's `unique_ptr` while the node is still linked on the intrusive list, which is undefined behaviour. The model instead keeps the new node on the available list and leaves the map's entry for that id unchanged.
- LogManager.LogSet.constructor: log_set.h is not part of this model. Its constructor is taken to keep the readers in the order it is given them, which is the directory walk's order. `SetMaxOffsets` then pairs each segment with the next one in that order.

### Constructors and plumbing

- `CheckIfSupported` only returns the injected action's answer, so it has no contract worth modelling.
- The constructors `NewCheckedTunable`, `NewNodePortService` and `NewWriteSizedFileCmd` only store their arguments. The Dafny datatypes built from those arguments stand in for them.
- The argparse4j setup and the get*Config accessors of Configuration.java are argument plumbing. Only `parseProperties` and `getMode` are modelled.

### Headers that are not part of this model

The following headers are not part of this model. The model fixes each of them as follows.

- io_fragment.h and io_allocation_size.h:
  - a fragment is its bytes plus spare capacity;
  - the next allocation size is the request clamped to 512 bytes .. 128 KiB;
  - reserved placeholder bytes are zeros.
- segment.h: a new offset tracker starts with both offsets at the base offset.
- segment_index.cc: its entries are kept in offset order.
- batch_cache.h: it is not modelled.
- log_reader.h: `max_buffer_size` is a parameter of the reader.
- version.h: the only record version named is v1, spelled "v1".
- utils/named_type.h: a default offset or term is the int64 minimum.
- The tristate wire form, which is not shown, is taken to be an int8 tag:
  - -1 is disabled;
  - 0 is unset;
  - 1 is a value, followed by the value.
- The adl forms of `model::compression`, `model::topic_metadata` and the cluster error code are not shown. Their element types or widths are parameters.
- In types.h the compaction flag is a bool class. The header's maximum duration is the int64 maximum.
- file_stm: `O_CREAT` is 0x40. The open options other than `lazy` are not modelled. A cache entry leaves the LRU list when its open state is replaced.
- `wal_writer_node::current_offset()` and `space_left()`, whose definitions are not shown, are taken to be the epoch plus the bytes in the segment, and the segment limit minus those bytes.

## Findings

| source | as written | input that shows it | evidently intended | confidence | as-written member | corrected member |
|---|---|---|---|---|---|---|
| src/v/bytes/iobuf.h:300-310 | trim_front pops every leading fragment no larger than n but never subtracts the popped sizes from n | fragments [1,2] and [3,4,5], trim_front(2): four bytes go and only [5] is left | exactly min(n, size) leading bytes are removed | not executed | IobufModel.TrimFrontOverTrims | IobufModel.Iobuf.TrimFrontExact |
| src/v/storage/file_stm.cc:33-51, 134-152 | put pushes the new entry and then, when the cache is full, takes the front of the LRU list as the eviction candidate, which may be the new entry itself | an empty cache with limit 1: the first put names the incoming entry, whose `_on_evict` is not set yet, so calling it throws bad_function_call | the incoming entry is admitted and never chosen for its own eviction | not executed | FileStm.SelfEvictionOnFirstPut | FileStm.NoSelfEvictionOnFirstPut |
| src/v/storage/file_stm.cc:226-246 | ev_close moves the st_open state into `open_state` and then asks whether that copy is the eviction candidate; an intrusive hook is not copied, so the copy is never linked and never the candidate | a cache of limit 1 holding one opened, unused file, a fiber waiting on the eviction list, then close(): the cache empties but the fiber is never served | the closed entry, when it is the candidate of a full cache, is evicted and the oldest eviction waiter is served with it | not executed | FileStm.CloseKeepsEvictionWaiter | FileStm.CloseServesEvictionWaiter |
| src/v/cluster/persisted_stm.cc:172-201 | `_is_catching_up` is set when a sync starts writing and is never cleared when the write completes | a sync whose term changes before it completes, then a sync in the new term: it is queued and never starts a write | catching up ends when the write completes, so the next term's sync writes | not executed | PersistedStm.StuckAfterTermChange | PersistedStm.CatchesUpAfterTermChange |
| src/v/redpanda/kafka/requests/metadata_request.cc:87-107 | each topic's partitions are written one after another with no int32 array count before them | a response whose first topic has one partition cannot be parsed back as a Kafka metadata response | the partitions are written as an array, with their count | not executed | MetadataRequest.AsWrittenUnreadable | MetadataRequest.ResponseRoundTrip |
