/** filesystem/wal_writer_node.cc: the legacy write-ahead-log writer. It keeps
  * a segment lease, a per-segment byte count and an epoch (the log offset at
  * which the current segment starts), rotates to a new segment when a record
  * does not fit, and answers each append with the offset range it occupies. */
module WalWriter {
  import opened Common

  /** A segment file, named after the epoch and term it was opened with. */
  datatype SegmentId = SegmentId(epoch: int, term: int)

  /** One wal_write_request: its records' payloads and the reply's routing. */
  datatype WriteRequest = WriteRequest(ns: int, topic: int, partition: int, records: seq<seq<byte>>)

  /** The reply's partition tuple: `[startOffset, endOffset)`. */
  datatype WriteReply = WriteReply(ns: int, topic: int, partition: int, startOffset: int, endOffset: int)

  datatype WalError =
    | UnclosedSegment         // "opening new file. Previous file is unclosed"
    | InvalidTerm             // "Invalid log term. Logic error."
    | InvalidOffsetAccounting // "Invalid offset accounting"

  /** What the periodic flush does: nothing, or flush the lease and report
    * its name and size. */
  datatype FlushAction = NoFlush | FlushAndNotify(segment: SegmentId, size: int)

  /** wal_write_request_size: the records' data sizes, added up. */
  function RequestSize(records: seq<seq<byte>>): (n: int)
    ensures n >= 0
  {
    if records == [] then 0 else RequestSize(records[..|records| - 1]) + |records[|records| - 1]|
  }

  function Flatten(records: seq<seq<byte>>): seq<byte>
  {
    if records == [] then [] else Flatten(records[..|records| - 1]) + records[|records| - 1]
  }

  /** The size of a request is the number of bytes its records hold. */
  lemma {:induction false} RequestSizeIsLength(records: seq<seq<byte>>)
    ensures RequestSize(records) == |Flatten(records)|
    decreases |records|
  {
    if records != [] {
      RequestSizeIsLength(records[..|records| - 1]);
    }
  }

  /** The size of two requests' records is the sum of their sizes. */
  lemma {:induction false} RequestSizeAppend(a: seq<seq<byte>>, b: seq<seq<byte>>)
    ensures RequestSize(a + b) == RequestSize(a) + RequestSize(b)
    decreases |b|
  {
    if b == [] {
      assert a + b == a;
    } else {
      var b' := b[..|b| - 1];
      assert (a + b)[..|a + b| - 1] == a + b';
      RequestSizeAppend(a, b');
    }
  }

  class WalWriterNode {
    const directory: string
    const maxSegmentSize: int
    /** opts_.epoch: the log offset at which the current segment starts. */
    var epoch: int
    /** opts_.term. */
    var term: int
    var currentSize: int
    var lease: Option<SegmentId>
    /** The bytes written to the leased segment. */
    var segmentData: seq<byte>
    /** log_segment_create_notify, in order: every segment opened. */
    var created: seq<SegmentId>
    var isClosed: bool
    /** Every byte written since construction, across segments. */
    ghost var written: seq<byte>
    ghost const startEpoch: int

    /** The current offset is the starting epoch plus every byte written;
      * the current segment holds the last `currentSize` of them. */
    ghost predicate Valid()
      reads this
    {
      && currentSize == |segmentData| <= |written|
      && segmentData == written[|written| - currentSize..]
      && epoch + currentSize == startEpoch + |written|
    }

    /** current_offset(), taken to be the epoch plus the bytes in the
      * current segment. */
    function CurrentOffset(): int
      reads this
    {
      epoch + currentSize
    }

    /** space_left(), taken to be the segment size limit minus the bytes in
      * the current segment. */
    function SpaceLeft(): int
      reads this
    {
      maxSegmentSize - currentSize
    }

    constructor(directory: string, epoch: int, term: int, maxSegmentSize: int)
      ensures this.directory == directory && this.epoch == epoch && this.term == term
      ensures this.maxSegmentSize == maxSegmentSize
      ensures currentSize == 0 && lease == None && created == [] && !isClosed
      ensures written == [] && Valid()
    {
      this.directory := directory;
      this.epoch := epoch;
      this.term := term;
      this.maxSegmentSize := maxSegmentSize;
      currentSize := 0;
      lease := None;
      segmentData := [];
      created := [];
      isClosed := false;
      written := [];
      startEpoch := epoch;
    }

    /** open(): refuses while a segment is still leased; otherwise leases a
      * new segment named after the current epoch and term. */
    method Open() returns (r: Result<SegmentId, WalError>)
      requires Valid()
      modifies this
      ensures old(lease).Some? ==> r == Err(UnclosedSegment) && unchanged(this)
      ensures old(lease).None? ==>
        && r == Ok(SegmentId(epoch, term))
        && lease == Some(SegmentId(epoch, term)) && created == old(created) + [SegmentId(epoch, term)]
        && epoch == old(epoch) && term == old(term) && currentSize == old(currentSize)
        && segmentData == old(segmentData) && written == old(written) && isClosed == old(isClosed)
      ensures Valid()
    {
      if lease.Some? {
        return Err(UnclosedSegment);
      }
      var name := SegmentId(epoch, term);
      lease := Some(name);
      created := created + [name];
      r := Ok(name);
    }

    /** rotate_fstream(): closes the lease, moves the epoch past it, opens
      * an empty segment at the new epoch. */
    method Rotate()
      requires Valid() && lease.Some?
      modifies this
      ensures epoch == old(epoch) + old(currentSize) && currentSize == 0
      ensures lease == Some(SegmentId(epoch, term)) && created == old(created) + [SegmentId(epoch, term)]
      ensures segmentData == [] && term == old(term) && written == old(written) && isClosed == old(isClosed)
      ensures CurrentOffset() == old(CurrentOffset())
      ensures Valid()
    {
      lease := None;
      epoch := epoch + currentSize;
      currentSize := 0;
      segmentData := [];
      var reopened := Open();
    }

    /** disk_write(f): the record goes into the leased segment. */
    method DiskWrite(f: seq<byte>)
      requires Valid() && lease.Some?
      modifies this
      ensures currentSize == old(currentSize) + |f| && segmentData == old(segmentData) + f
      ensures written == old(written) + f
      ensures epoch == old(epoch) && term == old(term) && lease == old(lease)
      ensures created == old(created) && isClosed == old(isClosed)
      ensures Valid()
    {
      currentSize := currentSize + |f|;
      segmentData := segmentData + f;
      written := written + f;
    }

    /** do_append(f): written directly when it fits, after a rotation
      * otherwise. Either way the current offset advances by |f|. */
    method DoAppend(f: seq<byte>)
      requires Valid() && lease.Some?
      modifies this
      ensures |f| <= old(SpaceLeft()) ==> epoch == old(epoch) && created == old(created)
      ensures |f| > old(SpaceLeft()) ==>
        epoch == old(epoch) + old(currentSize) && created == old(created) + [SegmentId(epoch, term)]
      ensures CurrentOffset() == old(CurrentOffset()) + |f|
      ensures written == old(written) + f && term == old(term) && lease.Some? && isClosed == old(isClosed)
      ensures Valid()
    {
      if |f| <= SpaceLeft() {
        DiskWrite(f);
      } else {
        Rotate();
        DiskWrite(f);
      }
    }

    /** append(req): writes every record in order and replies with the range
      * `[start, start + size)`. The offset check cannot fail. */
    method Append(req: WriteRequest) returns (r: Result<WriteReply, WalError>)
      requires Valid() && lease.Some?
      modifies this
      ensures r == Ok(WriteReply(req.ns, req.topic, req.partition,
                                 old(CurrentOffset()), old(CurrentOffset()) + RequestSize(req.records)))
      ensures CurrentOffset() == old(CurrentOffset()) + RequestSize(req.records)
      ensures written == old(written) + Flatten(req.records)
      ensures term == old(term) && isClosed == old(isClosed) && lease.Some?
      ensures Valid()
    {
      var start := CurrentOffset();
      var size := RequestSize(req.records);
      var i := 0;
      while i < |req.records|
        invariant 0 <= i <= |req.records|
        invariant Valid() && lease.Some? && term == old(term) && isClosed == old(isClosed)
        invariant CurrentOffset() == start + RequestSize(req.records[..i])
        invariant written == old(written) + Flatten(req.records[..i])
      {
        assert req.records[..i + 1][..i] == req.records[..i];
        DoAppend(req.records[i]);
        i := i + 1;
      }
      assert req.records[..i] == req.records;
      if start + size != CurrentOffset() {
        return Err(InvalidOffsetAccounting);
      }
      r := Ok(WriteReply(req.ns, req.topic, req.partition, start, start + size));
    }

    /** set_term(t): refuses any `t` at or above the current term; otherwise
      * records `t` and rotates, so the term only ever goes down. */
    method SetTerm(t: int) returns (r: Result<(), WalError>)
      requires Valid() && lease.Some?
      modifies this
      ensures t >= old(term) <==> r == Err(InvalidTerm)
      ensures r.Err? ==> unchanged(this)
      ensures r.Ok? ==>
        && term == t < old(term)
        && epoch == old(epoch) + old(currentSize) && currentSize == 0
        && lease == Some(SegmentId(epoch, t)) && created == old(created) + [SegmentId(epoch, t)]
      ensures written == old(written) && Valid()
    {
      if t >= term {
        return Err(InvalidTerm);
      }
      term := t;
      Rotate();
      r := Ok(());
    }

    /** The periodic flush: nothing once closed or while the segment is
      * empty; otherwise the lease is flushed and its size reported. */
    method FlushTick() returns (a: FlushAction)
      requires Valid() && (isClosed || lease.Some?)
      ensures isClosed || currentSize == 0 <==> a == NoFlush
      ensures a.FlushAndNotify? ==> a == FlushAndNotify(lease.value, |segmentData|)
    {
      if isClosed {
        return NoFlush;
      }
      if |segmentData| == 0 {
        return NoFlush;
      }
      a := FlushAndNotify(lease.value, |segmentData|);
    }

    /** close(): marks the writer closed; the lease is flushed and closed. */
    method Close()
      requires Valid()
      modifies this
      ensures isClosed
      ensures epoch == old(epoch) && term == old(term) && currentSize == old(currentSize)
      ensures lease == old(lease) && segmentData == old(segmentData) && created == old(created)
      ensures written == old(written) && Valid()
    {
      isClosed := true;
    }
  }
}
