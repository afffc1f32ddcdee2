/** storage/log_reader.cc: the reader of one segment. A parser walks the
  * segment's batches; the skipping consumer passes over batches that end
  * before the start offset and buffers the rest, and decides after each
  * buffered batch whether the slice stops: at a batch beyond the committed
  * offset, once the byte budget is spent or the deadline passed, or once the
  * buffer is full. */
module LogReader {

  /** What the reader sees of a batch: its offsets and its memory usage. */
  datatype Batch = Batch(baseOffset: int, lastOffset: int, memoryUsage: nat)

  /** consume_batch_start: a batch that ends before the start offset is skipped. */
  predicate Skipped(b: Batch, startOffset: int)
  {
    b.lastOffset < startOffset
  }

  /** The batches a parse over `bs` buffers, in order. */
  function Kept(bs: seq<Batch>, startOffset: int): seq<Batch>
  {
    if bs == [] then []
    else
      var init := Kept(bs[..|bs| - 1], startOffset);
      var last := bs[|bs| - 1];
      if Skipped(last, startOffset) then init else init + [last]
  }

  /** A parse buffers exactly the batches that are not skipped. */
  lemma {:induction false} KeptMembers(bs: seq<Batch>, startOffset: int)
    ensures |Kept(bs, startOffset)| <= |bs|
    ensures forall b :: b in Kept(bs, startOffset) <==> b in bs && !Skipped(b, startOffset)
    decreases |bs|
  {
    if bs != [] {
      var init := bs[..|bs| - 1];
      KeptMembers(init, startOffset);
      assert bs == init + [bs[|bs| - 1]];
    }
  }

  /** The memory usage of a run of batches, added up. */
  function MemSum(bs: seq<Batch>): nat
  {
    if bs == [] then 0 else MemSum(bs[..|bs| - 1]) + bs[|bs| - 1].memoryUsage
  }

  /** What consume_batch_end decides once a batch is buffered, given the
    * byte totals that include it. */
  datatype Verdict = OverCommitted | EndOfStream | BufferFull | Continue

  function BatchEndVerdict(b: Batch, committed: int, bytesRead: nat, bufferSize: nat,
                           maxBytes: nat, maxBufferSize: nat, timedOut: bool): Verdict
  {
    if b.baseOffset > committed then OverCommitted
    else if bytesRead >= maxBytes || timedOut then EndOfStream
    else if bufferSize >= maxBufferSize then BufferFull
    else Continue
  }

  /** The verdict on the last batch of a run buffered by a slice that
    * started with `bytes0` bytes read: the totals are the run's. */
  function LastVerdict(run: seq<Batch>, committed: int, bytes0: nat,
                       maxBytes: nat, maxBufferSize: nat, timedOut: bool): Verdict
    requires run != []
  {
    BatchEndVerdict(run[|run| - 1], committed, bytes0 + MemSum(run), MemSum(run),
                    maxBytes, maxBufferSize, timedOut)
  }

  /** Every batch of the run got Continue when it was buffered. */
  predicate AllContinue(run: seq<Batch>, committed: int, bytes0: nat,
                        maxBytes: nat, maxBufferSize: nat, timedOut: bool)
  {
    run == [] ||
    (AllContinue(run[..|run| - 1], committed, bytes0, maxBytes, maxBufferSize, timedOut) &&
     LastVerdict(run, committed, bytes0, maxBytes, maxBufferSize, timedOut) == Continue)
  }

  /** A run whose every batch got Continue holds no batch beyond the
    * committed offset, and its totals stay under the byte budget and the
    * buffer limit (and the deadline has not passed). */
  lemma {:induction false} AllContinueBounds(run: seq<Batch>, committed: int, bytes0: nat,
                                             maxBytes: nat, maxBufferSize: nat, timedOut: bool)
    requires AllContinue(run, committed, bytes0, maxBytes, maxBufferSize, timedOut)
    ensures forall k :: 0 <= k < |run| ==> run[k].baseOffset <= committed
    ensures run != [] ==> bytes0 + MemSum(run) < maxBytes && MemSum(run) < maxBufferSize && !timedOut
    decreases |run|
  {
    if run != [] {
      var init := run[..|run| - 1];
      AllContinueBounds(init, committed, bytes0, maxBytes, maxBufferSize, timedOut);
      forall k | 0 <= k < |run| ensures run[k].baseOffset <= committed {
        if k < |init| {
          assert run[k] == init[k];
        }
      }
    }
  }

  lemma Snoc(bs: seq<Batch>, b: Batch)
    ensures MemSum(bs + [b]) == MemSum(bs) + b.memoryUsage
    ensures (bs + [b])[..|bs|] == bs
  {
    assert (bs + [b])[..|bs|] == bs;
  }

  lemma KeptSnoc(bs: seq<Batch>, b: Batch, startOffset: int)
    ensures Kept(bs + [b], startOffset) == if Skipped(b, startOffset) then Kept(bs, startOffset) else Kept(bs, startOffset) + [b]
  {
    assert (bs + [b])[..|bs|] == bs;
  }

  /** log_segment_reader with its skipping consumer. The segment's batches are
    * `input`; `pos` is how far the parser has read. */
  class LogSegmentReader {
    const input: seq<Batch>
    /** log_reader_config: start_offset and max_bytes. */
    const startOffset: int
    const maxBytes: nat
    /** log_segment_reader::max_buffer_size (log_reader.h is not part of this model). */
    const maxBufferSize: nat
    var initialized: bool
    var pos: nat
    var buffer: seq<Batch>
    var bytesRead: nat
    var bufferSize: nat
    var endOfStream: bool
    var overCommitted: bool

    /** A reader that stopped at a batch beyond the committed offset still
      * holds that batch. */
    ghost predicate Valid()
      reads this
    {
      pos <= |input| && (overCommitted ==> buffer != []) && (!initialized ==> pos == 0)
    }

    constructor(input: seq<Batch>, startOffset: int, maxBytes: nat, maxBufferSize: nat)
      ensures Valid() && this.input == input && this.startOffset == startOffset
      ensures this.maxBytes == maxBytes && this.maxBufferSize == maxBufferSize
      ensures !initialized && buffer == [] && bytesRead == 0 && bufferSize == 0
      ensures !endOfStream && !overCommitted
    {
      this.input := input;
      this.startOffset := startOffset;
      this.maxBytes := maxBytes;
      this.maxBufferSize := maxBufferSize;
      initialized := false;
      pos := 0;
      buffer := [];
      bytesRead := 0;
      bufferSize := 0;
      endOfStream := false;
      overCommitted := false;
    }

    /** is_buffer_full(). */
    function IsBufferFull(): (r: bool)
      reads this
      ensures r <==> bufferSize >= maxBufferSize
    {
      bufferSize >= maxBufferSize
    }

    /** consume_batch_end: the batch is buffered and its memory usage counted
      * in both totals; then the slice stops at a batch beyond the committed
      * offset (ending the stream and flagging it), at the byte budget or the
      * deadline (ending the stream), or at a full buffer. */
    method ConsumeBatchEnd(b: Batch, committed: int, timedOut: bool) returns (stop: bool)
      modifies this`buffer, this`bytesRead, this`bufferSize, this`endOfStream, this`overCommitted
      ensures buffer == old(buffer) + [b]
      ensures bytesRead == old(bytesRead) + b.memoryUsage && bufferSize == old(bufferSize) + b.memoryUsage
      ensures var v := BatchEndVerdict(b, committed, bytesRead, bufferSize, maxBytes, maxBufferSize, timedOut);
        && stop == (v != Continue)
        && overCommitted == (old(overCommitted) || v == OverCommitted)
        && endOfStream == (old(endOfStream) || v == OverCommitted || v == EndOfStream)
    {
      buffer := buffer + [b];
      var mem := b.memoryUsage;
      bytesRead := bytesRead + mem;
      bufferSize := bufferSize + mem;
      if b.baseOffset > committed {
        endOfStream := true;
        overCommitted := true;
        return true;
      }
      if bytesRead >= maxBytes || timedOut {
        endOfStream := true;
        return true;
      }
      stop := IsBufferFull();
    }

    /** reset_state(), for a cached reader: a reader held back by a batch
      * beyond the committed offset stays stopped while that batch still ends
      * beyond it (its buffer size becomes that batch's); otherwise both flags
      * clear. */
    method ResetState(committed: int)
      requires Valid()
      modifies this`bufferSize, this`endOfStream, this`overCommitted
      ensures Valid()
      ensures old(overCommitted) ==> bufferSize == buffer[|buffer| - 1].memoryUsage
      ensures !old(overCommitted) ==> bufferSize == old(bufferSize)
      ensures old(overCommitted) && buffer[|buffer| - 1].lastOffset > committed ==>
        overCommitted && endOfStream == old(endOfStream)
      ensures !(old(overCommitted) && buffer[|buffer| - 1].lastOffset > committed) ==>
        !overCommitted && !endOfStream
    {
      if overCommitted {
        bufferSize := buffer[|buffer| - 1].memoryUsage;
        if buffer[|buffer| - 1].lastOffset > committed {
          return;
        }
        overCommitted := false;
      }
      endOfStream := false;
    }

    /** The state of a slice that began at parser position `p0` with
      * `bytes0` bytes read: the buffer holds the batches passed that were not
      * skipped and the totals count them; every buffered batch but the last
      * got Continue, and the last one too unless the slice `stopped`, in which
      * case the flags record its verdict. */
    ghost predicate Sliced(p0: nat, bytes0: nat, committed: int, timedOut: bool, stopped: bool)
      reads this
    {
      && p0 <= pos <= |input| && initialized && Valid()
      && buffer == Kept(input[p0..pos], startOffset)
      && bufferSize == MemSum(buffer) && bytesRead == bytes0 + bufferSize
      && (!stopped ==> AllContinue(buffer, committed, bytes0, maxBytes, maxBufferSize, timedOut))
      && (stopped ==> buffer != [])
      && (stopped ==>
            AllContinue(buffer[..|buffer| - 1], committed, bytes0, maxBytes, maxBufferSize, timedOut) &&
            Recorded(LastVerdict(buffer, committed, bytes0, maxBytes, maxBufferSize, timedOut)))
    }

    /** The over-committed flag holds the stopping verdict `v`. */
    ghost predicate Recorded(v: Verdict)
      reads this
    {
      v != Continue && overCommitted == (v == OverCommitted)
    }

    /** One turn of the parser: the next batch is skipped or buffered and
      * judged. */
    method ParseStep(ghost p0: nat, ghost bytes0: nat, committed: int, timedOut: bool) returns (stop: bool)
      requires Sliced(p0, bytes0, committed, timedOut, false) && pos < |input|
      requires !overCommitted && !endOfStream
      modifies this`pos, this`buffer, this`bytesRead, this`bufferSize, this`endOfStream, this`overCommitted
      ensures pos == old(pos) + 1 && Sliced(p0, bytes0, committed, timedOut, stop)
      ensures stop == LastStops(bytes0, committed, timedOut)
      ensures !stop ==> !overCommitted && !endOfStream
      ensures stop ==> endOfStream == (LastVerdict(buffer, committed, bytes0, maxBytes, maxBufferSize, timedOut) in {OverCommitted, EndOfStream})
    {
      var b := input[pos];
      if Skipped(b, startOffset) {
        SkipNext(p0, bytes0, committed, timedOut);
        return false;
      }
      assert input[p0..pos + 1] == input[p0..pos] + [b];
      KeptSnoc(input[p0..pos], b, startOffset);
      stop := BufferNext(p0, bytes0, committed, timedOut);
    }

    /** The next batch is skipped: the parser moves past it and the buffer
      * stays as it was. */
    method SkipNext(ghost p0: nat, ghost bytes0: nat, committed: int, timedOut: bool)
      requires Sliced(p0, bytes0, committed, timedOut, false) && pos < |input|
      requires Skipped(input[pos], startOffset)
      modifies this`pos
      ensures pos == old(pos) + 1 && Sliced(p0, bytes0, committed, timedOut, false)
      ensures !LastStops(bytes0, committed, timedOut)
    {
      assert input[p0..pos + 1] == input[p0..pos] + [input[pos]];
      KeptSnoc(input[p0..pos], input[pos], startOffset);
      pos := pos + 1;
    }

    /** The next batch is not skipped: consume_batch_end buffers and judges it. */
    method BufferNext(ghost p0: nat, ghost bytes0: nat, committed: int, timedOut: bool) returns (stop: bool)
      requires Sliced(p0, bytes0, committed, timedOut, false) && pos < |input|
      requires !overCommitted && !endOfStream && !Skipped(input[pos], startOffset)
      requires Kept(input[p0..pos + 1], startOffset) == buffer + [input[pos]]
      modifies this`pos, this`buffer, this`bytesRead, this`bufferSize, this`endOfStream, this`overCommitted
      ensures pos == old(pos) + 1 && Sliced(p0, bytes0, committed, timedOut, stop)
      ensures stop == LastStops(bytes0, committed, timedOut)
      ensures !stop ==> !overCommitted && !endOfStream
      ensures stop ==> endOfStream == (LastVerdict(buffer, committed, bytes0, maxBytes, maxBufferSize, timedOut) in {OverCommitted, EndOfStream})
    {
      var b := input[pos];
      ghost var prev := buffer;
      Snoc(prev, b);
      pos := pos + 1;
      stop := ConsumeBatchEnd(b, committed, timedOut);
      assert buffer[..|buffer| - 1] == prev;
      assert LastVerdict(buffer, committed, bytes0, maxBytes, maxBufferSize, timedOut)
          == BatchEndVerdict(b, committed, bytesRead, bufferSize, maxBytes, maxBufferSize, timedOut);
    }

    /** The slice's last buffered batch got a verdict other than Continue. */
    ghost predicate LastStops(bytes0: nat, committed: int, timedOut: bool)
      reads this
    {
      buffer != [] && LastVerdict(buffer, committed, bytes0, maxBytes, maxBufferSize, timedOut) != Continue
    }

    /** do_load_slice: nothing once the stream ended or went over the
      * committed offset. Otherwise the buffer is cleared and the parser
      * resumes (from the start of the segment the first time) until a batch
      * gets a verdict other than Continue or the segment ends; reaching the
      * end of the segment ends the stream. The returned span is the buffer
      * without a batch beyond the committed offset. */
    method DoLoadSlice(committed: int, timedOut: bool) returns (span: seq<Batch>)
      requires Valid()
      modifies this
      ensures Valid()
      ensures old(endOfStream || overCommitted) ==> span == [] && unchanged(this)
      ensures !old(endOfStream || overCommitted) ==>
        && initialized
        && Sliced(if old(initialized) then old(pos) else 0, old(bytesRead), committed, timedOut,
                  LastStops(old(bytesRead), committed, timedOut))
        && (pos < |input| ==> LastStops(old(bytesRead), committed, timedOut))
        && endOfStream == (pos == |input| || (LastStops(old(bytesRead), committed, timedOut) &&
              LastVerdict(buffer, committed, old(bytesRead), maxBytes, maxBufferSize, timedOut) in {OverCommitted, EndOfStream}))
        && (overCommitted <==> buffer != [] && buffer[|buffer| - 1].baseOffset > committed)
        && span == (if overCommitted then buffer[..|buffer| - 1] else buffer)
      ensures forall b :: b in span ==> b.lastOffset >= startOffset && b.baseOffset <= committed
    {
      if endOfStream || overCommitted {
        return [];
      }
      if !initialized {
        pos := 0;
        initialized := true;
      }
      bufferSize := 0;
      buffer := [];
      ghost var p0 := pos;
      ghost var bytes0 := bytesRead;
      var stop := false;
      while pos < |input| && !stop
        invariant Sliced(p0, bytes0, committed, timedOut, stop)
        invariant stop == LastStops(bytes0, committed, timedOut)
        invariant !stop ==> !overCommitted && !endOfStream
        invariant stop ==> endOfStream == (LastVerdict(buffer, committed, bytes0, maxBytes, maxBufferSize, timedOut) in {OverCommitted, EndOfStream})
        decreases |input| - pos, if stop then 0 else 1
      {
        stop := ParseStep(p0, bytes0, committed, timedOut);
      }
      if pos == |input| || endOfStream {
        endOfStream := true;
      }
      if buffer == [] {
        return [];
      }
      span := if overCommitted then buffer[..|buffer| - 1] else buffer;
      SpanWithinBounds(buffer, input[p0..pos], startOffset, committed, bytes0, maxBytes, maxBufferSize, timedOut, overCommitted);
    }
  }

  /** Everything a slice returns lies at or after the start offset and at or
    * before the committed offset: skipped batches never reach the buffer,
    * every batch before the last got Continue, and a last batch beyond the
    * committed offset is held back. */
  lemma SpanWithinBounds(buffer: seq<Batch>, bs: seq<Batch>, startOffset: int, committed: int, bytes0: nat,
                         maxBytes: nat, maxBufferSize: nat, timedOut: bool, overCommitted: bool)
    requires buffer == Kept(bs, startOffset)
    requires buffer != [] ==> AllContinue(buffer[..|buffer| - 1], committed, bytes0, maxBytes, maxBufferSize, timedOut)
    requires overCommitted <==> buffer != [] && buffer[|buffer| - 1].baseOffset > committed
    ensures var span := if overCommitted then buffer[..|buffer| - 1] else buffer;
      forall b :: b in span ==> b.lastOffset >= startOffset && b.baseOffset <= committed
  {
    KeptMembers(bs, startOffset);
    if buffer != [] {
      var init := buffer[..|buffer| - 1];
      AllContinueBounds(init, committed, bytes0, maxBytes, maxBufferSize, timedOut);
      var span := if overCommitted then init else buffer;
      forall b | b in span ensures b.lastOffset >= startOffset && b.baseOffset <= committed {
        var i :| 0 <= i < |span| && span[i] == b;
        assert b in buffer;
        if i < |init| {
          assert init[i] == b;
        }
      }
    }
  }
}
