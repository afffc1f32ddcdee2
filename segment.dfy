/** storage/segment.cc: one on-disk segment and its offset tracker. Appends
  * move the dirty offset, flushes make it the committed offset, truncation
  * rolls both back, and every operation is refused once the segment is
  * closed. The appender, reader, index and batch cache are reduced to what
  * the tracker logic reads from them. */
module Segment {
  import opened Common
  import LogManager

  /** The header fields of a record batch that a segment looks at. The last
    * offset of a batch is its base offset plus its last offset delta. */
  datatype BatchHeader = BatchHeader(
    baseOffset: int,
    lastOffsetDelta: nat,
    sizeBytes: nat,
    compressed: bool,
    validCompression: bool,
    ownerShard: Option<nat>)
  {
    function LastOffset(): int { baseOffset + lastOffsetDelta }

    /** Marked compressed without a compression codec it can name. */
    predicate BadCompression() { compressed && !validCompression }
  }

  /** segment::offset_tracker. segment.h is not part of this model: a new
    * tracker is taken to start with both offsets at the base offset. */
  datatype OffsetTracker = OffsetTracker(term: int, baseOffset: int, committedOffset: int, dirtyOffset: int)

  function NewTracker(term: int, baseOffset: int): (t: OffsetTracker)
    ensures t.term == term && t.baseOffset == baseOffset
    ensures t.committedOffset == t.dirtyOffset == baseOffset
  {
    OffsetTracker(term, baseOffset, baseOffset, baseOffset)
  }

  /** append_result: the offsets a batch occupies and its size. */
  datatype AppendResult = AppendResult(baseOffset: int, lastOffset: int, byteSize: nat)

  /** A sparse index entry: an offset and the file position its batch starts at. */
  datatype IndexEntry = IndexEntry(offset: int, filepos: nat)

  /** Files a segment deletes; their paths are derived from the segment's. */
  datatype FileRef = SegmentFile(name: string) | IndexFile(name: string) | CompactedIndexFile(segment: string)

  datatype SegmentError =
    | ClosedSegment(operation: string) // "Attempted to perform operation: '<op>' on a closed segment"
    | InvalidCompression               // "record batch marked as compressed, but has no valid compression"
    | WriteFailed                      // the appender's write failed
    | IndexFailed                      // the compaction index write failed
    | InvalidVersion                   // "Segment has invalid version"
    | FlushFailed                      // the appender's flush failed

  /** Index entries kept in offset order. segment_index.cc is not part of
    * this model; its entries are taken to be kept in that order. */
  predicate Ordered(index: seq<IndexEntry>)
  {
    forall i, j :: 0 <= i < j < |index| ==> index[i].offset <= index[j].offset
  }

  /** The entry find_nearest(o) picks: the last entry at or below `o`. */
  function FindNearest(index: seq<IndexEntry>, o: int): (r: Option<IndexEntry>)
    ensures r.Some? ==> r.value in index && r.value.offset <= o
    ensures r.None? ==> forall e :: e in index ==> e.offset > o
  {
    if index == [] then None
    else if index[|index| - 1].offset <= o then Some(index[|index| - 1])
    else FindNearest(index[..|index| - 1], o)
  }

  /** In an ordered index the entry find_nearest picks is the nearest one:
    * no entry at or below `o` has a greater offset. */
  lemma {:induction false} FindNearestIsNearest(index: seq<IndexEntry>, o: int)
    ensures Ordered(index) && FindNearest(index, o).Some? ==>
      forall k :: 0 <= k < |index| && index[k].offset <= o ==> index[k].offset <= FindNearest(index, o).value.offset
  {
    if Ordered(index) && index != [] {
      var n := |index| - 1;
      if index[n].offset > o {
        var front := index[..n];
        assert Ordered(front) by {
          forall i, j | 0 <= i < j < |front| ensures front[i].offset <= front[j].offset {
            assert front[i] == index[i] && front[j] == index[j];
          }
        }
        FindNearestIsNearest(front, o);
        assert FindNearest(index, o) == FindNearest(front, o);
        forall k | 0 <= k < |index| && index[k].offset <= o
          ensures index[k].offset <= FindNearest(index, o).value.offset
        {
          if FindNearest(index, o).Some? {
            assert k < n && front[k] == index[k];
          }
        }
      }
    }
  }

  /** Where offset_data_stream starts reading: the nearest entry's file
    * position, or the start of the file. */
  function StreamPosition(index: seq<IndexEntry>, o: int): (pos: nat)
    ensures pos == 0 || exists e :: e in index && e.offset <= o && e.filepos == pos
    ensures (forall e :: e in index ==> e.offset > o) ==> pos == 0
    ensures (exists e :: e in index && e.offset <= o) ==>
      exists e :: (e in index && e.offset <= o && e.filepos == pos &&
        (Ordered(index) ==> forall k :: 0 <= k < |index| && index[k].offset <= o ==> index[k].offset <= e.offset))
  {
    FindNearestIsNearest(index, o);
    match FindNearest(index, o)
    case None => 0
    case Some(e) => e.filepos
  }

  /** What batch_cache_index::truncate(o) keeps: the batches below `o`.
    * batch_cache.h is not part of this model. */
  function CacheKeepBelow(cache: seq<BatchHeader>, o: int): (r: seq<BatchHeader>)
    ensures forall b :: b in r <==> b in cache && b.baseOffset < o
    ensures |r| <= |cache|
  {
    if cache == [] then []
    else
      var init := CacheKeepBelow(cache[..|cache| - 1], o);
      var last := cache[|cache| - 1];
      assert forall b :: b in cache <==> b in cache[..|cache| - 1] || b == last by {
        assert cache == cache[..|cache| - 1] + [last];
      }
      if last.baseOffset < o then init + [last] else init
  }

  /** What segment_index::truncate(o) keeps: the entries at or below `o`. */
  function IndexKeepThrough(index: seq<IndexEntry>, o: int): (r: seq<IndexEntry>)
    ensures forall e :: e in r <==> e in index && e.offset <= o
    ensures |r| <= |index|
  {
    if index == [] then []
    else
      var init := IndexKeepThrough(index[..|index| - 1], o);
      var last := index[|index| - 1];
      assert forall e :: e in index <==> e in index[..|index| - 1] || e == last by {
        assert index == index[..|index| - 1] + [last];
      }
      if last.offset <= o then init + [last] else init
  }

  /** Truncating a cache twice at the same point keeps what one truncation keeps. */
  lemma {:induction false} CacheKeepBelowIdempotent(cache: seq<BatchHeader>, o: int)
    ensures CacheKeepBelow(CacheKeepBelow(cache, o), o) == CacheKeepBelow(cache, o)
    decreases |cache|
  {
    if cache != [] {
      var init := cache[..|cache| - 1];
      var last := cache[|cache| - 1];
      CacheKeepBelowIdempotent(init, o);
      var r := CacheKeepBelow(init, o);
      if last.baseOffset < o {
        assert (r + [last])[..|r + [last]| - 1] == r;
      }
    }
  }

  /** Truncating an index twice at the same offset keeps what one truncation keeps. */
  lemma {:induction false} IndexKeepThroughIdempotent(index: seq<IndexEntry>, o: int)
    ensures IndexKeepThrough(IndexKeepThrough(index, o), o) == IndexKeepThrough(index, o)
    decreases |index|
  {
    if index != [] {
      var init := index[..|index| - 1];
      var last := index[|index| - 1];
      IndexKeepThroughIdempotent(init, o);
      var r := IndexKeepThrough(init, o);
      if last.offset <= o {
        assert (r + [last])[..|r + [last]| - 1] == r;
      }
    }
  }

  /** After a truncation nothing at or after the truncation point remains
    * in the cache or the index, so a second truncation there removes nothing. */
  lemma TruncationLeavesNothingAbove(cache: seq<BatchHeader>, index: seq<IndexEntry>, prev: int)
    ensures forall b :: b in CacheKeepBelow(cache, prev + 1) ==> b.baseOffset <= prev
    ensures forall e :: e in IndexKeepThrough(index, prev) ==> e.offset <= prev
  {
  }

  class Segment {
    /** reader().filename() and index().filename(). */
    const filename: string
    const indexFilename: string
    /** is_compacted_segment(). */
    const compacted: bool
    var tracker: OffsetTracker
    /** The reader's file size. */
    var readerFileSize: nat
    /** The appender, when the segment is being written: its file byte offset. */
    var appender: Option<nat>
    /** The batch cache, when the segment has one: the cached batches. */
    var cache: Option<seq<BatchHeader>>
    /** Whether a compaction index writer is open. */
    var compactionIndex: bool
    var index: seq<IndexEntry>
    var closed: bool
    /** Marked for deletion: close() then removes the segment's files. */
    var tombstone: bool

    constructor(tracker: OffsetTracker, filename: string, indexFilename: string, readerFileSize: nat,
                appender: Option<nat>, cache: Option<seq<BatchHeader>>, compacted: bool, compactionIndex: bool)
      ensures this.tracker == tracker && this.filename == filename && this.indexFilename == indexFilename
      ensures this.readerFileSize == readerFileSize && this.appender == appender && this.cache == cache
      ensures this.compacted == compacted && this.compactionIndex == compactionIndex
      ensures index == [] && !closed && !tombstone
    {
      this.tracker := tracker;
      this.filename := filename;
      this.indexFilename := indexFilename;
      this.readerFileSize := readerFileSize;
      this.appender := appender;
      this.cache := cache;
      this.compacted := compacted;
      this.compactionIndex := compactionIndex;
      index := [];
      closed := false;
      tombstone := false;
    }

    /** check_segment_not_closed(msg). */
    function CheckNotClosed(op: string): (r: Result<(), SegmentError>)
      reads this
      ensures r.Err? <==> closed
      ensures r.Err? ==> r.error == ClosedSegment(op)
    {
      if closed then Err(ClosedSegment(op)) else Ok(())
    }

    /** do_flush(): without an appender nothing happens; otherwise the
      * appender flushes (`flushOk` is its outcome). A failed flush fails and
      * changes nothing; a successful one makes the dirty offset the committed
      * offset and lets the reader see the bytes the appender has written. */
    method DoFlush(flushOk: bool) returns (r: Result<(), SegmentError>)
      modifies this
      ensures r.Err? <==> old(appender).Some? && !flushOk
      ensures r.Err? ==> r.error == FlushFailed
      ensures old(appender).None? || !flushOk ==> unchanged(this)
      ensures old(appender).Some? && flushOk ==>
        && tracker == old(tracker).(committedOffset := old(tracker.dirtyOffset))
        && readerFileSize == old(appender.value)
      ensures appender == old(appender) && cache == old(cache) && index == old(index)
      ensures compactionIndex == old(compactionIndex) && closed == old(closed) && tombstone == old(tombstone)
    {
      if appender.None? {
        return Ok(());
      }
      if !flushOk {
        return Err(FlushFailed);
      }
      var o := tracker.dirtyOffset;
      var fsize := appender.value;
      tracker := tracker.(committedOffset := o);
      readerFileSize := fsize;
      r := Ok(());
    }

    /** flush(): refused on a closed segment, otherwise do_flush, whose
      * failure fails the flush and leaves the offsets as they were. */
    method Flush(flushOk: bool) returns (r: Result<(), SegmentError>)
      modifies this
      ensures old(closed) ==> r == Err(ClosedSegment("flush()")) && unchanged(this)
      ensures !old(closed) ==> (r.Ok? <==> old(appender).None? || flushOk)
      ensures !old(closed) && r.Err? ==> r.error == FlushFailed && unchanged(this)
      ensures !old(closed) && old(appender).Some? && flushOk ==>
        tracker.committedOffset == old(tracker.dirtyOffset) == tracker.dirtyOffset && readerFileSize == old(appender.value)
      ensures !old(closed) && old(appender).None? ==> unchanged(this)
      ensures tracker.dirtyOffset == old(tracker.dirtyOffset) && appender == old(appender) && closed == old(closed)
    {
      r := CheckNotClosed("flush()");
      if r.Err? {
        return;
      }
      r := DoFlush(flushOk);
    }

    /** append(b): refused when closed or when the batch claims a compression
      * it does not have. Otherwise the batch is written (exactly its
      * `sizeBytes`, so the size assertion holds), the dirty offset becomes its
      * last offset, the index may track it at its start position and the
      * cache keeps a copy. `writeOk` and `indexOk` are the outcomes of the
      * appender write and of the compaction index write (which only happens
      * when a compaction index is open); `track` is the sparse index's
      * decision. A failed index write reports an error although the batch
      * was appended. */
    method Append(b: BatchHeader, writeOk: bool, indexOk: bool, track: bool) returns (r: Result<AppendResult, SegmentError>)
      requires !closed ==> b.baseOffset >= tracker.baseOffset && b.ownerShard.Some?
      requires !closed && !b.BadCompression() ==> appender.Some?
      modifies this
      ensures old(closed) ==> r == Err(ClosedSegment("append()")) && unchanged(this)
      ensures !old(closed) && b.BadCompression() ==> r == Err(InvalidCompression) && unchanged(this)
      ensures !old(closed) && !b.BadCompression() && !writeOk ==> r == Err(WriteFailed) && unchanged(this)
      ensures !old(closed) && !b.BadCompression() && writeOk ==>
        && tracker == old(tracker).(dirtyOffset := b.LastOffset())
        && appender == Some(old(appender).value + b.sizeBytes)
        && index == (if track then old(index) + [IndexEntry(b.baseOffset, old(appender).value)] else old(index))
        && cache == (if old(cache).Some? then Some(old(cache).value + [b]) else None)
        && r == (if compactionIndex && !indexOk then Err(IndexFailed)
                 else Ok(AppendResult(b.baseOffset, b.LastOffset(), b.sizeBytes)))
      ensures closed == old(closed) && readerFileSize == old(readerFileSize)
      ensures compactionIndex == old(compactionIndex) && tombstone == old(tombstone)
    {
      var check := CheckNotClosed("append()");
      if check.Err? {
        return Err(check.error);
      }
      if b.BadCompression() {
        return Err(InvalidCompression);
      }
      var startPhysicalOffset := appender.value;
      if !writeOk {
        return Err(WriteFailed);
      }
      appender := Some(startPhysicalOffset + b.sizeBytes);
      tracker := tracker.(dirtyOffset := b.LastOffset());
      var endPhysicalOffset := appender.value;
      assert endPhysicalOffset == startPhysicalOffset + b.sizeBytes;
      if track {
        index := index + [IndexEntry(b.baseOffset, startPhysicalOffset)];
      }
      var ret := AppendResult(b.baseOffset, b.LastOffset(), b.sizeBytes);
      if cache.Some? {
        cache := Some(cache.value + [b]);
      }
      if compactionIndex && !indexOk {
        return Err(IndexFailed);
      }
      r := Ok(ret);
    }

    /** truncate(prev, physical): both offsets go back to `prev`, the file to
      * `physical` bytes; cached batches from `prev + 1` and index entries
      * above `prev` go. A compacted segment loses its compaction index (the
      * file is deleted) and gives up its appender, which forces a roll. The
      * result lists the files deleted. */
    method Truncate(prev: int, physical: nat) returns (r: Result<seq<FileRef>, SegmentError>)
      modifies this
      ensures old(closed) ==> r == Err(ClosedSegment("truncate()")) && unchanged(this)
      ensures !old(closed) ==>
        && tracker == old(tracker).(committedOffset := prev, dirtyOffset := prev)
        && readerFileSize == physical
        && index == IndexKeepThrough(old(index), prev)
        && r == Ok(if compacted then [CompactedIndexFile(filename)] else [])
        && compactionIndex == (if compacted then false else old(compactionIndex))
        && (compacted && old(appender).Some? ==> appender == None && cache == None)
        && (!(compacted && old(appender).Some?) ==>
              && appender == (if old(appender).Some? then Some(physical) else None)
              && cache == (if old(cache).Some? then Some(CacheKeepBelow(old(cache).value, prev + 1)) else None))
      ensures closed == old(closed) && tombstone == old(tombstone)
    {
      var check := CheckNotClosed("truncate()");
      if check.Err? {
        return Err(check.error);
      }
      tracker := tracker.(committedOffset := prev, dirtyOffset := prev);
      readerFileSize := physical;
      if cache.Some? {
        cache := Some(CacheKeepBelow(cache.value, prev + 1));
      }
      var removed: seq<FileRef> := [];
      if compacted {
        compactionIndex := false;
        removed := [CompactedIndexFile(filename)];
      }
      index := IndexKeepThrough(index, prev);
      if appender.Some? {
        appender := Some(physical);
        if compacted {
          appender := None;
          cache := None;
          compactionIndex := false;
        }
      } else {
        readerFileSize := physical;
      }
      r := Ok(removed);
    }

    /** materialize_index(): only on a segment that tracks no data yet.
      * `loaded` is the index's max offset when the index file loads; then
      * both offsets move there. */
    method MaterializeIndex(loaded: Option<int>) returns (yn: bool)
      requires tracker.baseOffset == tracker.dirtyOffset
      modifies this
      ensures yn <==> loaded.Some?
      ensures loaded.Some? ==> tracker == old(tracker).(committedOffset := loaded.value, dirtyOffset := loaded.value)
      ensures loaded.None? ==> tracker == old(tracker)
      ensures appender == old(appender) && cache == old(cache) && index == old(index)
      ensures readerFileSize == old(readerFileSize) && closed == old(closed) && tombstone == old(tombstone)
      ensures compactionIndex == old(compactionIndex)
    {
      yn := loaded.Some?;
      if yn {
        tracker := tracker.(committedOffset := loaded.value, dirtyOffset := loaded.value);
      }
    }

    /** close(): refused when already closed; otherwise marks the segment
      * closed and flushes (`flushOk` is the appender flush's outcome). A
      * failed flush fails close with the segment closed and nothing deleted;
      * otherwise, for a tombstone, its files are deleted (the data file, the
      * index and, when compacted, the compaction index). */
    method Close(flushOk: bool) returns (r: Result<seq<FileRef>, SegmentError>)
      modifies this
      ensures old(closed) ==> r == Err(ClosedSegment("closed()")) && unchanged(this)
      ensures !old(closed) ==> closed
      ensures !old(closed) ==> (r.Ok? <==> old(appender).None? || flushOk)
      ensures !old(closed) && r.Err? ==>
        r.error == FlushFailed && tracker == old(tracker) && readerFileSize == old(readerFileSize)
      ensures !old(closed) && old(appender).Some? && flushOk ==>
        tracker.committedOffset == old(tracker.dirtyOffset) && readerFileSize == old(appender.value)
      ensures !old(closed) && old(appender).None? ==> tracker == old(tracker)
      ensures !old(closed) && r.Ok? && !tombstone ==> r.value == []
      ensures !old(closed) && r.Ok? && tombstone ==>
                r.value == [SegmentFile(filename), IndexFile(indexFilename)] + (if compacted then [CompactedIndexFile(filename)] else [])
      ensures tracker.dirtyOffset == old(tracker.dirtyOffset) && tombstone == old(tombstone)
      ensures appender == old(appender) && cache == old(cache) && index == old(index)
      ensures compactionIndex == old(compactionIndex)
    {
      var check := CheckNotClosed("closed()");
      if check.Err? {
        return Err(check.error);
      }
      closed := true;
      var flushed := DoFlush(flushOk);
      if flushed.Err? {
        return Err(flushed.error);
      }
      if !tombstone {
        return Ok([]);
      }
      var rm := [SegmentFile(filename), IndexFile(indexFilename)];
      if compacted {
        rm := rm + [CompactedIndexFile(filename)];
      }
      r := Ok(rm);
    }

    /** offset_data_stream(o): the file position reading starts at. */
    method OffsetDataStream(o: int) returns (r: Result<nat, SegmentError>)
      ensures closed <==> r.Err?
      ensures r.Err? ==> r.error == ClosedSegment("offset_data_stream()")
      ensures r.Ok? ==> r.value == StreamPosition(index, o)
      ensures r.Ok? && r.value != 0 ==> exists e :: e in index && e.offset <= o && e.filepos == r.value
      ensures r.Ok? && Ordered(index) && (exists e :: e in index && e.offset <= o) ==>
        exists e :: (e in index && e.offset <= o && e.filepos == r.value &&
          forall k :: 0 <= k < |index| && index[k].offset <= o ==> index[k].offset <= e.offset)
    {
      var check := CheckNotClosed("offset_data_stream()");
      if check.Err? {
        return Err(check.error);
      }
      var nearest := FindNearest(index, o);
      var position := 0;
      if nearest.Some? {
        position := nearest.value.filepos;
      }
      r := Ok(position);
    }
  }

  /** The length of `path` up to its extension: the position of the last '.'
    * of the file name, or the whole length when the name has none. */
  function StemLength(path: string): (k: nat)
    ensures k <= |path|
    ensures k < |path| ==> path[k] == '.' && NoChar(path[k + 1..], '/')
  {
    if path == [] || path[|path| - 1] == '/' then |path|
    else if path[|path| - 1] == '.' then |path| - 1
    else
      var k := StemLength(path[..|path| - 1]);
      if k == |path| - 1 then |path|
      else
        assert path[k + 1..] == path[..|path| - 1][k + 1..] + [path[|path| - 1]];
        k
  }

  /** std::filesystem::path::replace_extension(ext): the file name's
    * extension, if any, becomes `.ext`. */
  function ReplaceExtension(path: string, ext: string): string
  {
    path[..StemLength(path)] + "." + ext
  }

  /** open_segment(path): the file name's parsed metadata (offset, term,
    * version; None when it does not parse) must carry version v1; the new
    * segment tracks from the parsed base offset and term, with no appender.
    * The parse itself (segment_path::parse_segment_filename) is not part of
    * this model. */
  method OpenSegment(path: string, meta: Option<(int, int, LogManager.RecordVersion)>, size: nat,
                     cache: Option<seq<BatchHeader>>)
    returns (r: Result<Segment, SegmentError>)
    ensures meta.None? || meta.value.2 != LogManager.V1 <==> r.Err?
    ensures r.Err? ==> r.error == InvalidVersion
    ensures r.Ok? ==>
      && fresh(r.value) && r.value.tracker == NewTracker(meta.value.1, meta.value.0)
      && r.value.appender == None && r.value.cache == cache && r.value.readerFileSize == size
      && r.value.filename == path && r.value.indexFilename == ReplaceExtension(path, "base_index")
      && !r.value.closed && r.value.index == []
  {
    if meta.None? || meta.value.2 != LogManager.V1 {
      return Err(InvalidVersion);
    }
    var s := new Segment(NewTracker(meta.value.1, meta.value.0), path, ReplaceExtension(path, "base_index"), size,
                         None, cache, false, false);
    r := Ok(s);
  }

  /** The truncation scenario of the log truncation tests: after appending a
    * batch and truncating at offset `t` (prev = t - 1), both offsets are
    * `t - 1`; truncating there once more leaves the tracker and the index as
    * they were. */
  method TruncateTwice(s: Segment, b: BatchHeader, t: int)
    requires !s.closed && s.appender.Some? && !s.compacted
    requires b.baseOffset >= s.tracker.baseOffset && b.ownerShard.Some? && !b.BadCompression()
    modifies s
    ensures s.tracker.dirtyOffset == t - 1 && s.tracker.committedOffset == t - 1
  {
    var a := s.Append(b, true, true, true);
    var r1 := s.Truncate(t - 1, 0);
    ghost var tracker, index := s.tracker, s.index;
    assert tracker.dirtyOffset == t - 1 && tracker.committedOffset == t - 1;
    var r2 := s.Truncate(t - 1, 0);
    IndexKeepThroughIdempotent(old(s.index) + [IndexEntry(b.baseOffset, old(s.appender).value)], t - 1);
    assert s.tracker == tracker && s.index == index;
  }
}
