/** coproc/ntp_context.h: the per-input-partition state the coprocessor
  * scripts share. Each subscribed script keeps a pair of offsets in the
  * partition's context: how far it has read and how far the wasm engine's
  * results have been written back (acknowledged). */
module CoprocNtpContext {
  import opened Common
  import opened ModelTypes

  type ScriptId = int

  /** script_failed_exception: the failing script's id and the message that
    * `what()` returns. */
  datatype ScriptFailed = ScriptFailed(id: ScriptId, msg: string)

  /** `offset_pair`: the last offset read for a script and the last offset
    * whose results were acknowledged; both start as `model::offset{}`. */
  datatype OffsetPair = OffsetPair(lastRead: int, lastAcked: int)

  const FreshPair := OffsetPair(Unset, Unset)

  /** The record-batch type a reader filters on; raft_data carries user data. */
  datatype BatchKind = RaftData | OtherKind(code: int)

  /** A record batch as coproc handles it: its offsets, term and type, its
    * size and payload, and whether its CRC checks out (the CRC32C is
    * computed by a library outside this model, so the outcome is a field). */
  datatype RecordBatch = RecordBatch(
    baseOffset: int, lastOffset: int, term: int, kind: BatchKind,
    sizeBytes: nat, data: seq<byte>, crcValid: bool)

  /** What coproc reads of a `cluster::partition`: its ntp, last stable
    * offset, current term and its batches in log order. */
  datatype Partition = Partition(ntp: Ntp, lastStableOffset: int, term: int, log: seq<RecordBatch>)

  /** `ntp_context`: a partition and the offsets of every script subscribed
    * to it (`offset_tracker`, keyed by script id). Scripts share a context
    * through a shared_ptr, so it is an object. */
  class NtpContext {
    const partition: Partition
    var offsets: map<ScriptId, OffsetPair>

    constructor(p: Partition)
      ensures partition == p && offsets == map[]
    {
      partition := p;
      offsets := map[];
    }

    /** `ntp()`: the wrapped partition's ntp. */
    function Ntp(): (n: Ntp)
      ensures n == partition.ntp
    {
      partition.ntp
    }

    /** `offsets[id]`: a script not yet tracked gets a fresh pair, one
      * already tracked keeps its own. */
    method Track(id: ScriptId) returns (pair: OffsetPair)
      modifies this
      ensures id in offsets && pair == offsets[id]
      ensures id in old(offsets) ==> offsets == old(offsets)
      ensures id !in old(offsets) ==> offsets == old(offsets)[id := FreshPair]
    {
      if id !in offsets {
        offsets := offsets[id := FreshPair];
      }
      pair := offsets[id];
    }
  }
}
