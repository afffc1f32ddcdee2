/** coproc/script_context_frontend.cc: how a script reads its input
  * partitions. Each read starts just after the script's acknowledged offset,
  * stops at the partition's last stable offset or once coproc_max_batch_size
  * bytes are read, keeps only raft_data batches, and, when it yields any
  * bytes, moves the script's `last_read` to the last offset it read. */
module ScriptContextFrontend {
  import opened Common
  import opened ModelTypes
  import opened CoprocNtpContext

  // ---------------------------------------------------------------------------
  // The reader configuration.

  /** The part of `storage::log_reader_config` that get_reader sets: start
    * and upper offsets, minimum and maximum bytes and the batch-type filter. */
  datatype ReaderConfig = ReaderConfig(
    startOffset: int, maxOffset: int, minBytes: int, maxBytes: nat, typeFilter: BatchKind)

  /** The offset the next read starts from: 0 when nothing was acknowledged
    * yet, otherwise the one after the acknowledged offset. */
  function NextRead(pair: OffsetPair): (r: int)
  {
    if pair.lastAcked == Unset then 0 else pair.lastAcked + 1
  }

  /** A read never starts at an offset already acknowledged, and it starts
    * from the beginning of the log exactly when nothing was. */
  lemma NextReadPastAcked(pair: OffsetPair)
    ensures NextRead(pair) > pair.lastAcked
    ensures NextRead(pair) == 0 <==> pair.lastAcked == Unset || pair.lastAcked == -1
  {
  }

  /** get_reader: the script must be tracked by the context (asserted); the
    * limit on bytes is the configured `coproc_max_batch_size`. */
  function GetReader(id: ScriptId, ctx: NtpContext, maxBatchSize: nat): (cfg: ReaderConfig)
    reads ctx
    requires id in ctx.offsets
    ensures cfg.startOffset == NextRead(ctx.offsets[id])
    ensures cfg.maxOffset == ctx.partition.lastStableOffset
    ensures cfg.minBytes == 1 && cfg.maxBytes == maxBatchSize && cfg.typeFilter == RaftData
  {
    ReaderConfig(NextRead(ctx.offsets[id]), ctx.partition.lastStableOffset, 1, maxBatchSize, RaftData)
  }

  /** Whether a reader configured by `cfg` yields batch `b`: its type passes
    * the filter, it ends at or after the start and starts at or before the
    * upper bound. */
  predicate InWindow(b: RecordBatch, cfg: ReaderConfig)
  {
    b.kind == cfg.typeFilter && b.lastOffset >= cfg.startOffset && b.baseOffset <= cfg.maxOffset
  }

  /** The batches of `log` the reader's filter and bounds admit, in log
    * order. */
  function Eligible(log: seq<RecordBatch>, cfg: ReaderConfig): (w: seq<RecordBatch>)
    ensures |w| <= |log|
    ensures forall b :: b in w <==> b in log && InWindow(b, cfg)
  {
    if log == [] then []
    else
      var rest := Eligible(log[1..], cfg);
      assert forall b :: b in log <==> b == log[0] || b in log[1..];
      if InWindow(log[0], cfg) then [log[0]] + rest else rest
  }

  /** The storage reader's byte cap: batches are read in order, and reading
    * stops after the batch with which the bytes read reach `budget`
    * (storage/log_reader.cc, consume_batch_end). So every batch but the
    * first is read while fewer than `budget` bytes were read, and the read
    * ends early only once the budget is reached. */
  function Capped(bs: seq<RecordBatch>, budget: int): (w: seq<RecordBatch>)
    ensures w <= bs
    ensures w == bs || (w != [] && SumSizes(w) >= budget)
  {
    if bs == [] then []
    else
      var x := bs[0];
      SumSizesCons(x, []);
      assert [x] + [] == [x];
      if x.sizeBytes >= budget then [x]
      else
        var rest := Capped(bs[1..], budget - x.sizeBytes);
        SumSizesCons(x, rest);
        [x] + rest
  }

  /** Every batch of a capped read after the first was read while fewer than
    * `budget` bytes had been read. */
  lemma {:induction false} CappedBelowBudget(bs: seq<RecordBatch>, budget: int)
    ensures forall k :: 0 < k < |Capped(bs, budget)| ==> SumSizes(Capped(bs, budget)[..k]) < budget
  {
    if bs != [] && bs[0].sizeBytes < budget {
      var x := bs[0];
      var left := budget - x.sizeBytes;
      var rest := Capped(bs[1..], left);
      CappedBelowBudget(bs[1..], left);
      var w := [x] + rest;
      assert w == Capped(bs, budget);
      forall k | 0 < k < |w| ensures SumSizes(w[..k]) < budget {
        assert w[..k] == [x] + rest[..k - 1];
        SumSizesCons(x, rest[..k - 1]);
        if k > 1 {
          assert SumSizes(rest[..k - 1]) < left;
        } else {
          assert rest[..k - 1] == [];
        }
      }
    }
  }

  /** The size of a run with one batch in front. */
  lemma SumSizesCons(x: RecordBatch, r: seq<RecordBatch>)
    ensures SumSizes([x] + r) == x.sizeBytes + SumSizes(r)
  {
    SummaryAppend([x], r);
    assert [x][..0] == [];
    assert SumSizes([x]) == x.sizeBytes;
  }

  /** The batches a reader configured by `cfg` yields from `log`: the
    * eligible batches, in log order, until the bytes read reach the
    * configured maximum. */
  function Window(log: seq<RecordBatch>, cfg: ReaderConfig): (w: seq<RecordBatch>)
    ensures |w| <= |log|
    ensures forall b :: b in w ==> b in log && InWindow(b, cfg)
    ensures w <= Eligible(log, cfg)
  {
    var e := Eligible(log, cfg);
    var w := Capped(e, cfg.maxBytes);
    assert forall b :: b in w ==> b in e by {
      forall b | b in w ensures b in e {
        var k :| 0 <= k < |w| && w[k] == b;
        assert e[k] == b;
      }
    }
    w
  }

  /** The window ends early only once the configured maximum is reached, and
    * every batch but the first is read below it. */
  lemma WindowCapped(log: seq<RecordBatch>, cfg: ReaderConfig)
    ensures var w := Window(log, cfg);
      && (forall k :: 0 < k < |w| ==> SumSizes(w[..k]) < cfg.maxBytes)
      && (w == Eligible(log, cfg) || (w != [] && SumSizes(w) >= cfg.maxBytes))
  {
    CappedBelowBudget(Eligible(log, cfg), cfg.maxBytes);
  }

  /** With three 300 KiB batches eligible and a 512 KiB cap, the read takes
    * the first two: the second brings the bytes read to 600 KiB. */
  lemma CapStopsRead(a: RecordBatch, b: RecordBatch, c: RecordBatch)
    requires a.sizeBytes == b.sizeBytes == c.sizeBytes == 300 * 1024
    ensures Capped([a, b, c], 512 * 1024) == [a, b]
  {
    assert [a, b, c][1..] == [b, c];
    assert [b, c][1..] == [c];
  }

  // ---------------------------------------------------------------------------
  // high_offset_tracker.

  /** `batch_info`: the last offset seen and the bytes seen. */
  datatype BatchInfo = BatchInfo(last: int, size: nat)

  /** The total size of a run of batches. */
  function SumSizes(bs: seq<RecordBatch>): nat
  {
    if bs == [] then 0 else SumSizes(bs[..|bs| - 1]) + bs[|bs| - 1].sizeBytes
  }

  /** What the tracker reports after a run of batches: the last batch's
    * last offset (unset when there was none) and their total size. */
  function Summary(bs: seq<RecordBatch>): (i: BatchInfo)
  {
    BatchInfo(if bs == [] then Unset else bs[|bs| - 1].lastOffset, SumSizes(bs))
  }

  /** A run carries no bytes exactly when every batch in it is empty. */
  lemma {:induction false} NoBytesIffEmptyBatches(bs: seq<RecordBatch>)
    ensures Summary(bs).size == 0 <==> forall i :: 0 <= i < |bs| ==> bs[i].sizeBytes == 0
  {
    if bs != [] {
      NoBytesIffEmptyBatches(bs[..|bs| - 1]);
      assert forall i :: 0 <= i < |bs| - 1 ==> bs[..|bs| - 1][i] == bs[i];
    }
  }

  /** The tracker is additive over consecutive runs. */
  lemma {:induction false} SummaryAppend(a: seq<RecordBatch>, b: seq<RecordBatch>)
    ensures Summary(a + b).size == Summary(a).size + Summary(b).size
    ensures Summary(a + b).last == if b == [] then Summary(a).last else Summary(b).last
  {
    if b == [] {
      assert a + b == a;
    } else {
      SummaryAppend(a, b[..|b| - 1]);
      assert (a + b)[..|a + b| - 1] == a + b[..|b| - 1];
    }
  }

  /** `high_offset_tracker`, fed one batch at a time. */
  class HighOffsetTracker {
    var last: int
    var size: nat

    constructor()
      ensures last == Unset && size == 0
    {
      last := Unset;
      size := 0;
    }

    /** `operator()`: remembers the batch's last offset and adds its size. */
    method Consume(rb: RecordBatch)
      modifies this
      ensures last == rb.lastOffset && size == old(size) + rb.sizeBytes
    {
      last := rb.lastOffset;
      size := size + rb.sizeBytes;
    }

    function EndOfStream(): BatchInfo
      reads this
    {
      BatchInfo(last, size)
    }
  }

  /** A reader's batches fed through a fresh tracker report their summary. */
  method TrackAll(bs: seq<RecordBatch>) returns (info: BatchInfo)
    ensures info == Summary(bs)
  {
    var tracker := new HighOffsetTracker();
    var i := 0;
    while i < |bs|
      invariant 0 <= i <= |bs|
      invariant tracker.EndOfStream() == Summary(bs[..i])
    {
      tracker.Consume(bs[i]);
      assert bs[..i + 1][..i] == bs[..i];
      i := i + 1;
    }
    assert bs[..i] == bs;
    info := tracker.EndOfStream();
  }

  // ---------------------------------------------------------------------------
  // read_ntp and read_from_inputs.

  /** `process_batch_request::data`: the scripts a request is for, the input
    * ntp and the batches read. */
  datatype RequestData = RequestData(ids: seq<ScriptId>, ntp: Ntp, batches: seq<RecordBatch>)

  /** The reader get_reader configures for offsets `pair` on partition `p`. */
  function ReadConfig(p: Partition, pair: OffsetPair, maxBatchSize: nat): ReaderConfig
  {
    ReaderConfig(NextRead(pair), p.lastStableOffset, 1, maxBatchSize, RaftData)
  }

  /** What read_ntp yields for script `id` reading partition `p` with
    * offsets `pair`: the raft_data batches after the acknowledged offset and
    * up to the last stable offset, in log order, until coproc_max_batch_size
    * bytes are read; nothing when the batches read hold no bytes. */
  function ReadOutcome(id: ScriptId, p: Partition, pair: OffsetPair, maxBatchSize: nat): (r: Option<RequestData>)
    ensures r.None? <==> SumSizes(Window(p.log, ReadConfig(p, pair, maxBatchSize))) == 0
    ensures r.Some? ==> r.value.ids == [id] && r.value.ntp == p.ntp && Summary(r.value.batches).size > 0
  {
    var w := Window(p.log, ReadConfig(p, pair, maxBatchSize));
    if SumSizes(w) == 0 then None else Some(RequestData([id], p.ntp, w))
  }

  /** The batches read_ntp yields are raft_data batches of the partition
    * ending after the acknowledged offset and starting at or before the last
    * stable offset; they are the first eligible batches, taken until
    * coproc_max_batch_size bytes are read: every batch after the first was
    * read while fewer bytes had been read, and an eligible batch is left
    * unread only once the cap is reached. */
  lemma ReadOutcomeCapped(id: ScriptId, p: Partition, pair: OffsetPair, maxBatchSize: nat)
    requires ReadOutcome(id, p, pair, maxBatchSize).Some?
    ensures forall b :: b in ReadOutcome(id, p, pair, maxBatchSize).value.batches ==>
      (b in p.log && b.kind == RaftData && NextRead(pair) <= b.lastOffset && b.baseOffset <= p.lastStableOffset)
    ensures var bs := ReadOutcome(id, p, pair, maxBatchSize).value.batches;
      && bs <= Eligible(p.log, ReadConfig(p, pair, maxBatchSize))
      && (forall k :: 0 < k < |bs| ==> SumSizes(bs[..k]) < maxBatchSize)
      && (bs == Eligible(p.log, ReadConfig(p, pair, maxBatchSize)) || SumSizes(bs) >= maxBatchSize)
  {
    WindowCapped(p.log, ReadConfig(p, pair, maxBatchSize));
  }

  /** The offsets after read_ntp: `last_read` moves to the last offset read
    * when the read yielded a request; nothing changes otherwise. */
  function AfterRead(id: ScriptId, p: Partition, offsets: map<ScriptId, OffsetPair>, maxBatchSize: nat): (o: map<ScriptId, OffsetPair>)
    requires id in offsets
  {
    match ReadOutcome(id, p, offsets[id], maxBatchSize)
    case None => offsets
    case Some(req) => offsets[id := offsets[id].(lastRead := Summary(req.batches).last)]
  }

  /** A read changes only the reading script's `last_read`, and only when it
    * yields a request: the last offset it read. */
  lemma AfterReadOnlyLastRead(id: ScriptId, p: Partition, offsets: map<ScriptId, OffsetPair>, maxBatchSize: nat)
    requires id in offsets
    ensures var o := AfterRead(id, p, offsets, maxBatchSize);
      o.Keys == offsets.Keys &&
      (forall s :: s in o && s != id ==> o[s] == offsets[s]) &&
      o[id].lastAcked == offsets[id].lastAcked &&
      (ReadOutcome(id, p, offsets[id], maxBatchSize).None? ==> o == offsets) &&
      (ReadOutcome(id, p, offsets[id], maxBatchSize).Some? ==>
        o[id].lastRead == Summary(ReadOutcome(id, p, offsets[id], maxBatchSize).value.batches).last)
  {
  }

  /** A script's acknowledged offset never passes its read offset. */
  predicate Sane(pair: OffsetPair)
  {
    pair.lastAcked <= pair.lastRead
  }

  predicate AllSane(offsets: map<ScriptId, OffsetPair>)
  {
    forall s :: s in offsets ==> Sane(offsets[s])
  }

  lemma FreshPairSane()
    ensures Sane(FreshPair)
  {
  }

  /** A read keeps acknowledged behind read: what it reads ends after the
    * acknowledged offset. */
  lemma AfterReadSane(id: ScriptId, p: Partition, offsets: map<ScriptId, OffsetPair>, maxBatchSize: nat)
    requires id in offsets && AllSane(offsets)
    ensures AllSane(AfterRead(id, p, offsets, maxBatchSize))
  {
    var out := ReadOutcome(id, p, offsets[id], maxBatchSize);
    if out.Some? {
      var bs := out.value.batches;
      assert bs != [];
      var last := bs[|bs| - 1];
      assert last in bs;
      ReadOutcomeCapped(id, p, offsets[id], maxBatchSize);
      NextReadPastAcked(offsets[id]);
    }
  }

  /** read_ntp: reads the script's window of the context's partition. */
  method ReadNtp(id: ScriptId, ctx: NtpContext, maxBatchSize: nat) returns (r: Option<RequestData>)
    requires id in ctx.offsets
    modifies ctx
    ensures r == ReadOutcome(id, ctx.partition, old(ctx.offsets[id]), maxBatchSize)
    ensures ctx.offsets == AfterRead(id, ctx.partition, old(ctx.offsets), maxBatchSize)
  {
    var cfg := GetReader(id, ctx, maxBatchSize);
    var batches := Window(ctx.partition.log, cfg);
    var info := TrackAll(batches);
    if info.size == 0 {
      return None;
    }
    ctx.offsets := ctx.offsets[id := ctx.offsets[id].(lastRead := info.last)];
    r := Some(RequestData([id], ctx.partition.ntp, batches));
  }

  /** The requests read from a run of partitions whose offsets for the
    * script are `pairs`, in order, skipping the reads that yield nothing. */
  function Collected(id: ScriptId, ps: seq<Partition>, pairs: seq<OffsetPair>, maxBatchSize: nat): (r: seq<RequestData>)
    requires |ps| == |pairs|
    ensures |r| <= |ps|
    ensures forall q :: q in r ==> q.ids == [id] && Summary(q.batches).size > 0
  {
    if ps == [] then []
    else
      var n := |ps| - 1;
      var front := Collected(id, ps[..n], pairs[..n], maxBatchSize);
      match ReadOutcome(id, ps[n], pairs[n], maxBatchSize)
      case None => front
      case Some(q) => front + [q]
  }

  lemma CollectedStep(id: ScriptId, ps: seq<Partition>, pairs: seq<OffsetPair>, i: nat, maxBatchSize: nat)
    requires |ps| == |pairs| && i < |ps|
    ensures Collected(id, ps[..i + 1], pairs[..i + 1], maxBatchSize) ==
      Collected(id, ps[..i], pairs[..i], maxBatchSize) +
      (match ReadOutcome(id, ps[i], pairs[i], maxBatchSize) case None => [] case Some(q) => [q])
  {
    assert ps[..i + 1][..i] == ps[..i] && pairs[..i + 1][..i] == pairs[..i];
  }

  /** The requests collected so far, extended by one more read's outcome. */
  lemma CollectedAppend(id: ScriptId, ps: seq<Partition>, pairs: seq<OffsetPair>, i: nat, maxBatchSize: nat,
                        requests: seq<RequestData>, r: Option<RequestData>)
    requires |ps| == |pairs| && i < |ps|
    requires requests == Collected(id, ps[..i], pairs[..i], maxBatchSize)
    requires r == ReadOutcome(id, ps[i], pairs[i], maxBatchSize)
    ensures (if r.Some? then requests + [r.value] else requests) == Collected(id, ps[..i + 1], pairs[..i + 1], maxBatchSize)
  {
    CollectedStep(id, ps, pairs, i, maxBatchSize);
  }

  /** The script's offsets in each context, in order. */
  function PairsOf(id: ScriptId, inputs: seq<NtpContext>): (r: seq<OffsetPair>)
    reads set c | c in inputs
    requires forall c :: c in inputs ==> id in c.offsets
    ensures |r| == |inputs| && forall i :: 0 <= i < |inputs| ==> r[i] == inputs[i].offsets[id]
  {
    if inputs == [] then []
    else PairsOf(id, inputs[..|inputs| - 1]) + [inputs[|inputs| - 1].offsets[id]]
  }

  /** Each context's offsets, in order. */
  function OffsetsOf(inputs: seq<NtpContext>): (r: seq<map<ScriptId, OffsetPair>>)
    reads set c | c in inputs
    ensures |r| == |inputs| && forall i :: 0 <= i < |inputs| ==> r[i] == inputs[i].offsets
  {
    if inputs == [] then []
    else OffsetsOf(inputs[..|inputs| - 1]) + [inputs[|inputs| - 1].offsets]
  }

  function PartitionsOf(inputs: seq<NtpContext>): (r: seq<Partition>)
    ensures |r| == |inputs| && forall i :: 0 <= i < |inputs| ==> r[i] == inputs[i].partition
  {
    seq(|inputs|, i requires 0 <= i < |inputs| => inputs[i].partition)
  }

  /** One step of read_from_inputs: the read of the `i`-th input, given
    * that the inputs before it have been read and those after it not. */
  method ReadNext(id: ScriptId, inputs: seq<NtpContext>, i: nat, maxBatchSize: nat,
                  ghost ps: seq<Partition>, ghost pairs: seq<OffsetPair>,
                  ghost before: seq<map<ScriptId, OffsetPair>>, requests: seq<RequestData>)
    returns (next: seq<RequestData>)
    requires i < |inputs| == |ps| == |pairs| == |before|
    requires forall j :: 0 <= j < |inputs| && j != i ==> inputs[j] != inputs[i]
    requires forall j :: 0 <= j < |inputs| ==>
      ps[j] == inputs[j].partition && id in before[j] && before[j][id] == pairs[j]
    requires forall j :: 0 <= j < i ==>
      inputs[j].offsets == AfterRead(id, ps[j], before[j], maxBatchSize)
    requires forall j :: i <= j < |inputs| ==> inputs[j].offsets == before[j]
    requires requests == Collected(id, ps[..i], pairs[..i], maxBatchSize)
    modifies inputs[i]
    ensures forall j :: 0 <= j < i + 1 ==>
      inputs[j].offsets == AfterRead(id, ps[j], before[j], maxBatchSize)
    ensures forall j :: i + 1 <= j < |inputs| ==> inputs[j].offsets == before[j]
    ensures next == Collected(id, ps[..i + 1], pairs[..i + 1], maxBatchSize)
  {
    var r := ReadNtp(id, inputs[i], maxBatchSize);
    CollectedAppend(id, ps, pairs, i, maxBatchSize, requests, r);
    next := if r.Some? then requests + [r.value] else requests;
  }

  /** read_from_inputs: one read per input context, keeping the non-empty
    * requests. The reads run concurrently in the source; here they run in
    * the order of `inputs`. */
  method ReadFromInputs(id: ScriptId, inputs: seq<NtpContext>, maxBatchSize: nat) returns (requests: seq<RequestData>)
    requires forall i, j :: 0 <= i < j < |inputs| ==> inputs[i] != inputs[j]
    requires forall c :: c in inputs ==> id in c.offsets
    modifies set c | c in inputs
    ensures requests == Collected(id, PartitionsOf(inputs), old(PairsOf(id, inputs)), maxBatchSize)
    ensures forall i :: 0 <= i < |inputs| ==>
      inputs[i].offsets == AfterRead(id, inputs[i].partition, old(inputs[i].offsets), maxBatchSize)
  {
    ghost var ps := PartitionsOf(inputs);
    ghost var pairs := PairsOf(id, inputs);
    ghost var before := OffsetsOf(inputs);
    requests := [];
    var i := 0;
    while i < |inputs|
      invariant 0 <= i <= |inputs| == |ps| == |pairs| == |before|
      invariant forall j :: 0 <= j < |inputs| ==>
        ps[j] == inputs[j].partition && id in before[j] && before[j][id] == pairs[j]
      invariant forall j :: 0 <= j < i ==>
        inputs[j].offsets == AfterRead(id, ps[j], before[j], maxBatchSize)
      invariant forall j :: i <= j < |inputs| ==> inputs[j].offsets == before[j]
      invariant requests == Collected(id, ps[..i], pairs[..i], maxBatchSize)
    {
      requests := ReadNext(id, inputs, i, maxBatchSize, ps, pairs, before, requests);
      i := i + 1;
    }
    assert ps[..i] == ps && pairs[..i] == pairs;
  }

  // ---------------------------------------------------------------------------
  // The read/acknowledge protocol.

  /** Log order: offsets increase from batch to batch and no batch ends
    * before it starts. */
  predicate Ordered(log: seq<RecordBatch>)
  {
    (forall i :: 0 <= i < |log| ==> 0 <= log[i].baseOffset <= log[i].lastOffset) &&
    (forall i, j :: 0 <= i < j < |log| ==> log[i].lastOffset < log[j].baseOffset)
  }

  /** Once a read is acknowledged (`last_acked := last_read`), the next read
    * yields none of the batches just read: a script never processes an
    * acknowledged batch twice. Until then (a failed write leaves
    * `last_acked` alone) the next read starts at the same offset, so the
    * batches are read again. */
  lemma {:induction false} AckedNotReread(id: ScriptId, p: Partition, pair: OffsetPair, maxBatchSize: nat)
    requires Ordered(p.log)
    requires ReadOutcome(id, p, pair, maxBatchSize).Some?
    ensures var read := ReadOutcome(id, p, pair, maxBatchSize).value.batches;
      var acked := OffsetPair(Summary(read).last, Summary(read).last);
      forall b :: b in read ==> b.lastOffset < NextRead(acked)
    ensures var read := ReadOutcome(id, p, pair, maxBatchSize).value.batches;
      NextRead(pair.(lastRead := Summary(read).last)) == NextRead(pair)
  {
    var cfg := ReadConfig(p, pair, maxBatchSize);
    var read := ReadOutcome(id, p, pair, maxBatchSize).value.batches;
    assert read == Window(p.log, cfg);
    assert read != [];
    WindowOrdered(p.log, cfg);
    var n := |read| - 1;
    forall b | b in read
      ensures b.lastOffset <= read[n].lastOffset
    {
      var k :| 0 <= k < |read| && read[k] == b;
      if k < n {
        assert read[k].lastOffset < read[n].baseOffset;
      }
    }
    assert 0 <= read[n].lastOffset;
  }

  /** The eligible batches of an ordered log are ordered. */
  lemma {:induction false} EligibleOrdered(log: seq<RecordBatch>, cfg: ReaderConfig)
    requires Ordered(log)
    ensures Ordered(Eligible(log, cfg))
  {
    if log != [] {
      assert Ordered(log[1..]);
      EligibleOrdered(log[1..], cfg);
      var rest := Eligible(log[1..], cfg);
      if InWindow(log[0], cfg) {
        var w := [log[0]] + rest;
        assert w == Eligible(log, cfg);
        forall i, j | 0 <= i < j < |w| ensures w[i].lastOffset < w[j].baseOffset {
          assert w[j] == rest[j - 1];
          if i == 0 {
            assert rest[j - 1] in log[1..];
            var k :| 0 <= k < |log[1..]| && log[1..][k] == rest[j - 1];
            assert log[k + 1] == w[j];
          } else {
            assert w[i] == rest[i - 1];
          }
        }
        forall i | 0 <= i < |w| ensures 0 <= w[i].baseOffset <= w[i].lastOffset {
          if i > 0 {
            assert w[i] == rest[i - 1];
          }
        }
      }
    }
  }

  /** A window of an ordered log is ordered. */
  lemma WindowOrdered(log: seq<RecordBatch>, cfg: ReaderConfig)
    requires Ordered(log)
    ensures Ordered(Window(log, cfg))
  {
    EligibleOrdered(log, cfg);
    var e := Eligible(log, cfg);
    var w := Window(log, cfg);
    assert forall i :: 0 <= i < |w| ==> w[i] == e[i];
  }
}
