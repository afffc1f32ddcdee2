/** coproc/script_context.cc: one coprocessor script's loop. It reads its
  * input partitions, sends the batches to the wasm engine, and writes each
  * reply's batches into the materialized log. A write happens under the
  * materialized log's mutex, with every batch's term raised to at least the
  * log's own, and only when every batch passes its CRC check. Only a
  * successful write acknowledges what was read. */
module CoprocScriptContext {
  import opened Common
  import opened ModelTypes
  import opened CoprocNtpContext
  import opened ScriptContextFrontend

  /** `model::materialized_ntp` (model/ is not part of this model beyond
    * model.cc): the materialized ntp a reply names, as `input`, together
    * with the source ntp it derives from. */
  datatype MaterializedNtp = MaterializedNtp(input: Ntp, source: Ntp)

  /** `process_batch_reply::data`: the script id, the materialized ntp and
    * the batches the script produced, or none when the script failed. */
  datatype ReplyData = ReplyData(id: ScriptId, ntp: MaterializedNtp, reader: Option<seq<RecordBatch>>)

  /** A log as the writer sees it: the term of its dirty offset and its
    * batches. A new log has no batches and an unset term. */
  datatype MaterializedLog = MaterializedLog(dirtyOffsetTerm: int, batches: seq<RecordBatch>)

  const EmptyLog := MaterializedLog(Unset, [])

  // ---------------------------------------------------------------------------
  // The term of materialized batches.

  /** The term written batches get: the source partition's term, unless the
    * materialized log has already seen a later one. */
  function NewTerm(highestTerm: int, materializedTerm: int): (t: int)
    ensures t >= highestTerm && t >= materializedTerm
    ensures t == highestTerm || t == materializedTerm
  {
    if highestTerm < materializedTerm then materializedTerm else highestTerm
  }

  /** `batches` with every header's term set to `t`: the order, offsets,
    * type, size, payload and CRC outcome of each batch are kept. */
  function WithTerm(batches: seq<RecordBatch>, t: int): (r: seq<RecordBatch>)
  {
    if batches == [] then []
    else WithTerm(batches[..|batches| - 1], t) + [batches[|batches| - 1].(term := t)]
  }

  /** term_id_updater rewrites the term and nothing else. */
  lemma {:induction false} WithTermKeeps(batches: seq<RecordBatch>, t: int)
    ensures |WithTerm(batches, t)| == |batches|
    ensures forall i :: 0 <= i < |batches| ==>
      var b, r := batches[i], WithTerm(batches, t)[i];
      r.term == t && r.baseOffset == b.baseOffset && r.lastOffset == b.lastOffset &&
      r.kind == b.kind && r.sizeBytes == b.sizeBytes && r.data == b.data && r.crcValid == b.crcValid
  {
    if batches != [] {
      WithTermKeeps(batches[..|batches| - 1], t);
    }
  }

  /** `term_id_updater`: collects the batches it is fed, each with the new
    * term in its header. */
  class TermIdUpdater {
    const tid: int
    var batches: seq<RecordBatch>

    constructor(tid: int)
      ensures this.tid == tid && batches == []
    {
      this.tid := tid;
      batches := [];
    }

    method Consume(rb: RecordBatch)
      modifies this
      ensures batches == old(batches) + [rb.(term := tid)]
    {
      batches := batches + [rb.(term := tid)];
    }
  }

  /** Whether every batch passes `record_batch_crc_checker`. */
  predicate AllCrcValid(batches: seq<RecordBatch>)
  {
    forall i :: 0 <= i < |batches| ==> batches[i].crcValid
  }

  /** What write_checked makes of `log` given the source's term and the
    * reply's batches: nothing when a CRC check fails, otherwise the log
    * with the re-termed batches appended. */
  function Appended(log: MaterializedLog, highestTerm: int, reader: seq<RecordBatch>): (r: Option<MaterializedLog>)
    ensures r.None? <==> !AllCrcValid(reader)
    ensures r.Some? ==> r.value.batches == log.batches + WithTerm(reader, NewTerm(highestTerm, log.dirtyOffsetTerm))
  {
    if !AllCrcValid(reader) then None
    else
      var t := NewTerm(highestTerm, log.dirtyOffsetTerm);
      Some(MaterializedLog(if reader == [] then log.dirtyOffsetTerm else t, log.batches + WithTerm(reader, t)))
  }

  /** Terms never go backwards in a materialized log: every batch a write
    * appends has a term at least the log's and the source's, and the log's
    * term does not decrease. */
  lemma AppendedTermsMonotone(log: MaterializedLog, highestTerm: int, reader: seq<RecordBatch>)
    requires Appended(log, highestTerm, reader).Some?
    ensures var after := Appended(log, highestTerm, reader).value;
      after.dirtyOffsetTerm >= log.dirtyOffsetTerm &&
      forall i :: |log.batches| <= i < |after.batches| ==>
        after.batches[i].term >= log.dirtyOffsetTerm && after.batches[i].term >= highestTerm
  {
    var t := NewTerm(highestTerm, log.dirtyOffsetTerm);
    WithTermKeeps(reader, t);
    var after := Appended(log, highestTerm, reader).value;
    forall i | |log.batches| <= i < |after.batches|
      ensures after.batches[i].term == t
    {
      assert after.batches[i] == WithTerm(reader, t)[i - |log.batches|];
    }
  }

  /** The log of `n` as get_log finds it: an existing one, or a new one. */
  function LogOf(logs: map<Ntp, MaterializedLog>, n: Ntp): MaterializedLog
  {
    if n in logs then logs[n] else EmptyLog
  }

  /** The logs after write_materialized: the target log exists (it is
    * created if need be) and holds the batches written, if any. */
  function Written(logs: map<Ntp, MaterializedLog>, n: Ntp, highestTerm: int, reader: seq<RecordBatch>): (r: map<Ntp, MaterializedLog>)
    ensures r.Keys == logs.Keys + {n}
    ensures forall m :: m in logs && m != n ==> r[m] == logs[m]
  {
    var log := LogOf(logs, n);
    match Appended(log, highestTerm, reader)
    case None => logs[n := log]
    case Some(after) => logs[n := after]
  }

  /** The resources the scripts of a shard share: the set of materialized
    * ntps that have a mutex (`log_mtx`; the mutexes themselves only order
    * concurrent writers) and the storage layer's logs. */
  class SharedResources {
    var logMtx: set<Ntp>
    var logs: map<Ntp, MaterializedLog>

    constructor(logs: map<Ntp, MaterializedLog>)
      ensures logMtx == {} && this.logs == logs
    {
      logMtx := {};
      this.logs := logs;
    }
  }

  /** How process_reply may change a context's offsets: the same scripts,
    * the same `last_read`s, and each `last_acked` kept or caught up with
    * `last_read`. */
  predicate AckStep(before: map<ScriptId, OffsetPair>, after: map<ScriptId, OffsetPair>)
  {
    after.Keys == before.Keys &&
    forall s :: s in after ==>
      after[s].lastRead == before[s].lastRead &&
      (after[s].lastAcked == before[s].lastAcked || after[s].lastAcked == after[s].lastRead)
  }

  lemma AckStepTransitive(a: map<ScriptId, OffsetPair>, b: map<ScriptId, OffsetPair>, c: map<ScriptId, OffsetPair>)
    requires AckStep(a, b) && AckStep(b, c)
    ensures AckStep(a, c)
  {
  }

  /** The offsets once script `id`'s write succeeded. */
  function Acked(offsets: map<ScriptId, OffsetPair>, id: ScriptId): (r: map<ScriptId, OffsetPair>)
    requires id in offsets
    ensures AckStep(offsets, r)
    ensures r[id].lastAcked == offsets[id].lastRead
  {
    offsets[id := offsets[id].(lastAcked := offsets[id].lastRead)]
  }

  /** Logs only grow: every log stays, with its batches as a prefix. */
  predicate Grows(before: map<Ntp, MaterializedLog>, after: map<Ntp, MaterializedLog>)
  {
    forall n :: n in before ==> n in after && before[n].batches <= after[n].batches
  }

  lemma GrowsTransitive(a: map<Ntp, MaterializedLog>, b: map<Ntp, MaterializedLog>, c: map<Ntp, MaterializedLog>)
    requires Grows(a, b) && Grows(b, c)
    ensures Grows(a, c)
  {
  }

  lemma WrittenGrows(logs: map<Ntp, MaterializedLog>, n: Ntp, highestTerm: int, reader: seq<RecordBatch>)
    ensures Grows(logs, Written(logs, n, highestTerm, reader))
  {
  }

  /** Acknowledging keeps acknowledged behind read. */
  lemma AckStepSane(before: map<ScriptId, OffsetPair>, after: map<ScriptId, OffsetPair>)
    requires AckStep(before, after) && AllSane(before)
    ensures AllSane(after)
  {
  }

  /** One turn of the wasm engine: whether the transport connects, and the
    * reply to the request sent, or none when the RPC fails. */
  datatype EngineTurn = EngineTurn(connected: bool, reply: Option<seq<ReplyData>>)

  /** The message of the exception a reply without batches raises. */
  function FailureMessage(id: ScriptId): string
  {
    "script id " + IntToString(id) + " will auto deregister due to an internal syntax error"
  }

  /** `script_context`: a script id, the shared resources and the contexts
    * of the input partitions it subscribes to. */
  class ScriptContext {
    const id: ScriptId
    const resources: SharedResources
    var ntpCtxs: map<Ntp, NtpContext>

    /** The subscription map must not be empty (asserted). */
    constructor(id: ScriptId, resources: SharedResources, contexts: map<Ntp, NtpContext>)
      requires contexts != map[]
      ensures this.id == id && this.resources == resources && ntpCtxs == contexts
    {
      this.id := id;
      this.resources := resources;
      ntpCtxs := contexts;
    }

    /** Every context tracks this script (process_one_reply asserts it for
      * the context it acknowledges). */
    predicate Tracked()
      reads this, ntpCtxs.Values
    {
      forall n :: n in ntpCtxs ==> id in ntpCtxs[n].offsets
    }

    /** get_log: the log of `n`, created empty when the storage layer does
      * not manage one yet. */
    method GetLog(n: Ntp) returns (log: MaterializedLog)
      modifies resources
      ensures resources.logs == old(resources.logs)[n := LogOf(old(resources.logs), n)]
      ensures log == LogOf(old(resources.logs), n)
      ensures resources.logMtx == old(resources.logMtx)
    {
      if n !in resources.logs {
        resources.logs := resources.logs[n := EmptyLog];
      }
      log := resources.logs[n];
    }

    /** write_checked: one pass over the reply checks every CRC and re-terms
      * every batch; the batches are appended only if all checks passed. */
    method WriteChecked(n: Ntp, highestTerm: int, reader: seq<RecordBatch>) returns (ok: bool)
      requires n in resources.logs
      modifies resources
      ensures ok <==> AllCrcValid(reader)
      ensures resources.logs == Written(old(resources.logs), n, highestTerm, reader)
      ensures resources.logMtx == old(resources.logMtx)
    {
      var log := resources.logs[n];
      var newTerm := NewTerm(highestTerm, log.dirtyOffsetTerm);
      var updater := new TermIdUpdater(newTerm);
      var crcSuccess := true;
      var i := 0;
      while i < |reader|
        invariant 0 <= i <= |reader|
        invariant crcSuccess <==> AllCrcValid(reader[..i])
        invariant updater.batches == WithTerm(reader[..i], newTerm)
        invariant resources.logs == old(resources.logs) && resources.logMtx == old(resources.logMtx)
      {
        crcSuccess := crcSuccess && reader[i].crcValid;
        updater.Consume(reader[i]);
        assert reader[..i + 1][..i] == reader[..i];
        i := i + 1;
      }
      assert reader[..i] == reader;
      if !crcSuccess {
        return false;
      }
      var term := if reader == [] then log.dirtyOffsetTerm else newTerm;
      resources.logs := resources.logs[n := MaterializedLog(term, log.batches + updater.batches)];
      ok := true;
    }

    /** write_materialized: makes sure the materialized ntp has a mutex, then
      * finds or creates its log and writes to it. */
    method WriteMaterialized(m: MaterializedNtp, highestTerm: int, reader: seq<RecordBatch>) returns (ok: bool)
      modifies resources
      ensures ok <==> AllCrcValid(reader)
      ensures resources.logMtx == old(resources.logMtx) + {m.input}
      ensures resources.logs == Written(old(resources.logs), m.input, highestTerm, reader)
    {
      if m.input !in resources.logMtx {
        resources.logMtx := resources.logMtx + {m.input};
      }
      var _ := GetLog(m.input);
      ok := WriteChecked(m.input, highestTerm, reader);
    }

    /** Whether a reply entry reaches a write: it is for this script, carries
      * batches and names a source this script reads. */
    predicate Handled(e: ReplyData)
      reads this
    {
      e.id == id && e.reader.Some? && e.ntp.source in ntpCtxs
    }

    /** process_one_reply. An entry for another script, or for a source this
      * script does not read, is ignored; one without batches fails the
      * script; otherwise the batches are written and, when the write
      * succeeds, the script's `last_acked` catches up with `last_read`. */
    method ProcessOneReply(e: ReplyData) returns (failure: Option<ScriptFailed>)
      requires Tracked()
      modifies resources, ntpCtxs.Values
      ensures failure.Some? <==> e.id == id && e.reader.None?
      ensures failure.Some? ==> failure.value == ScriptFailed(id, FailureMessage(id))
      ensures !Handled(e) ==>
        resources.logs == old(resources.logs) && resources.logMtx == old(resources.logMtx) &&
        forall c :: c in ntpCtxs.Values ==> c.offsets == old(c.offsets)
      ensures Handled(e) ==>
        var ctx := ntpCtxs[e.ntp.source];
        resources.logMtx == old(resources.logMtx) + {e.ntp.input} &&
        resources.logs == Written(old(resources.logs), e.ntp.input, ctx.partition.term, e.reader.value) &&
        ctx.offsets == (if AllCrcValid(e.reader.value) then Acked(old(ctx.offsets), id) else old(ctx.offsets)) &&
        forall c :: c in ntpCtxs.Values && c != ctx ==> c.offsets == old(c.offsets)
      ensures Tracked()
    {
      if e.id != id {
        return None;
      }
      if e.reader.None? {
        return Some(ScriptFailed(e.id, FailureMessage(e.id)));
      }
      if e.ntp.source !in ntpCtxs {
        return None;
      }
      var ctx := ntpCtxs[e.ntp.source];
      var highestTerm := ctx.partition.term;
      var success := WriteMaterialized(e.ntp, highestTerm, e.reader.value);
      if success {
        ctx.offsets := Acked(ctx.offsets, id);
      }
      failure := None;
    }

    /** One entry of process_reply, as the loop over the reply sees it:
      * the failure exactly, and the invariants the loop keeps. */
    method ReplyStep(e: ReplyData) returns (failure: Option<ScriptFailed>)
      requires Tracked()
      modifies resources, ntpCtxs.Values
      ensures failure.Some? <==> e.id == id && e.reader.None?
      ensures failure.Some? ==> failure.value == ScriptFailed(id, FailureMessage(id))
      ensures !Handled(e) ==>
        resources.logs == old(resources.logs) && resources.logMtx == old(resources.logMtx) &&
        forall c :: c in ntpCtxs.Values ==> c.offsets == old(c.offsets)
      ensures Grows(old(resources.logs), resources.logs)
      ensures old(resources.logMtx) <= resources.logMtx
      ensures forall c :: c in ntpCtxs.Values ==> AckStep(old(c.offsets), c.offsets)
      ensures Tracked()
    {
      ghost var logsBefore := resources.logs;
      failure := ProcessOneReply(e);
      if Handled(e) {
        WrittenGrows(logsBefore, e.ntp.input, ntpCtxs[e.ntp.source].partition.term, e.reader.value);
      }
    }

    /** process_reply: an empty reply is ignored; otherwise the entries are
      * processed in order until one fails the script. Throughout, offsets
      * move only by acknowledgement and logs only grow. */
    method ProcessReply(reply: seq<ReplyData>) returns (failure: Option<ScriptFailed>)
      requires Tracked()
      modifies resources, ntpCtxs.Values
      ensures failure.Some? <==> exists k :: 0 <= k < |reply| && reply[k].id == id && reply[k].reader.None?
      ensures failure.Some? ==> failure.value == ScriptFailed(id, FailureMessage(id))
      ensures (forall k :: 0 <= k < |reply| ==> !Handled(reply[k])) ==>
        resources.logs == old(resources.logs) && resources.logMtx == old(resources.logMtx) &&
        forall c :: c in ntpCtxs.Values ==> c.offsets == old(c.offsets)
      ensures Grows(old(resources.logs), resources.logs)
      ensures old(resources.logMtx) <= resources.logMtx
      ensures forall c :: c in ntpCtxs.Values ==> AckStep(old(c.offsets), c.offsets)
      ensures Tracked()
    {
      if reply == [] {
        return None;
      }
      var i := 0;
      ghost var untouched := true;
      while i < |reply|
        invariant 0 <= i <= |reply|
        invariant Tracked()
        invariant forall k :: 0 <= k < i ==> !(reply[k].id == id && reply[k].reader.None?)
        invariant Grows(old(resources.logs), resources.logs)
        invariant old(resources.logMtx) <= resources.logMtx
        invariant forall c :: c in ntpCtxs.Values ==> AckStep(old(c.offsets), c.offsets)
        invariant untouched <==> forall k :: 0 <= k < i ==> !Handled(reply[k])
        invariant untouched ==>
          resources.logs == old(resources.logs) && resources.logMtx == old(resources.logMtx) &&
          forall c :: c in ntpCtxs.Values ==> c.offsets == old(c.offsets)
      {
        ghost var logsBefore := resources.logs;
        label before:
        var f := ReplyStep(reply[i]);
        if f.Some? {
          return f;
        }
        assert !(reply[i].id == id && reply[i].reader.None?);
        untouched := untouched && !Handled(reply[i]);
        GrowsTransitive(old(resources.logs), logsBefore, resources.logs);
        forall c | c in ntpCtxs.Values
          ensures AckStep(old(c.offsets), c.offsets)
        {
          AckStepTransitive(old(c.offsets), old@before(c.offsets), c.offsets);
        }
        i := i + 1;
      }
      failure := None;
    }

    /** `inputs` holds every subscription context once, in the iteration
      * order of the subscription map (which the source leaves unspecified). */
    predicate Lists(inputs: seq<NtpContext>)
      reads this
    {
      (forall c :: c in inputs ==> c in ntpCtxs.Values) &&
      (forall c :: c in ntpCtxs.Values ==> c in inputs) &&
      (forall k, l :: 0 <= k < l < |inputs| ==> inputs[k] != inputs[l])
    }

    predicate AllTrackedSane()
      reads this, ntpCtxs.Values
    {
      forall c :: c in ntpCtxs.Values ==> AllSane(c.offsets)
    }

    /** The reading half of a round: read_from_inputs over every input, in
      * the order of `inputs`. */
    method ReadInputs(inputs: seq<NtpContext>, maxBatchSize: nat) returns (sent: seq<RequestData>)
      requires Tracked() && Lists(inputs)
      modifies ntpCtxs.Values
      ensures sent == Collected(id, PartitionsOf(inputs), old(PairsOf(id, inputs)), maxBatchSize)
      ensures Tracked()
      ensures old(AllTrackedSane()) ==> AllTrackedSane()
    {
      sent := ReadFromInputs(id, inputs, maxBatchSize);
      ghost var saneBefore := old(AllTrackedSane());
      forall c | c in ntpCtxs.Values
        ensures id in c.offsets && (saneBefore ==> AllSane(c.offsets))
      {
        var k :| 0 <= k < |inputs| && inputs[k] == c;
        AfterReadOnlyLastRead(id, c.partition, old(c.offsets), maxBatchSize);
        if saneBefore {
          AfterReadSane(id, c.partition, old(c.offsets), maxBatchSize);
        }
      }
    }

    /** The reply half of a round: process_reply, keeping acknowledged
      * offsets behind read offsets. */
    method ProcessReplySane(reply: seq<ReplyData>) returns (failure: Option<ScriptFailed>)
      requires Tracked()
      modifies resources, ntpCtxs.Values
      ensures failure.Some? ==> failure.value.id == id
      ensures Tracked()
      ensures old(AllTrackedSane()) ==> AllTrackedSane()
      ensures Grows(old(resources.logs), resources.logs)
    {
      failure := ProcessReply(reply);
      forall c | c in ntpCtxs.Values && old(AllTrackedSane())
        ensures AllSane(c.offsets)
      {
        AckStepSane(old(c.offsets), c.offsets);
      }
    }

    /** One pass of do_execute's loop: stop when aborted, when the engine is
      * unreachable or when no input has data; otherwise send what was read
      * and process the engine's reply (an RPC error is only logged). A
      * failure ends the loop too. Acknowledged offsets stay behind read
      * offsets and materialized logs only grow. */
    method ExecuteRound(inputs: seq<NtpContext>, aborted: bool, turn: EngineTurn, maxBatchSize: nat)
      returns (stop: bool, failure: Option<ScriptFailed>, sent: seq<RequestData>)
      requires Tracked() && Lists(inputs)
      modifies resources, ntpCtxs.Values
      ensures aborted || !turn.connected ==>
        stop && failure.None? && sent == [] &&
        resources.logs == old(resources.logs) && resources.logMtx == old(resources.logMtx) &&
        forall c :: c in ntpCtxs.Values ==> c.offsets == old(c.offsets)
      ensures !aborted && turn.connected ==>
        sent == Collected(id, PartitionsOf(inputs), old(PairsOf(id, inputs)), maxBatchSize)
      ensures !stop <==> !aborted && turn.connected && sent != [] && failure.None?
      ensures failure.Some? ==> failure.value.id == id && turn.reply.Some?
      ensures Tracked()
      ensures old(AllTrackedSane()) ==> AllTrackedSane()
      ensures Grows(old(resources.logs), resources.logs)
    {
      if aborted || !turn.connected {
        return true, None, [];
      }
      sent := ReadInputs(inputs, maxBatchSize);
      if sent == [] {
        return true, None, sent;
      }
      failure := None;
      if turn.reply.Some? {
        failure := ProcessReplySane(turn.reply.value);
      }
      stop := failure.Some?;
    }

    /** A round as do_execute's loop sees it: whether it stops, its failure,
      * and the invariants the loop keeps. */
    method LoopRound(inputs: seq<NtpContext>, aborted: bool, turn: EngineTurn, maxBatchSize: nat)
      returns (stop: bool, failure: Option<ScriptFailed>)
      requires Tracked() && Lists(inputs)
      modifies resources, ntpCtxs.Values
      ensures aborted || !turn.connected ==> stop && failure.None?
      ensures failure.Some? ==> stop && failure.value.id == id
      ensures Tracked()
      ensures old(AllTrackedSane()) ==> AllTrackedSane()
      ensures Grows(old(resources.logs), resources.logs)
    {
      var sent;
      stop, failure, sent := ExecuteRound(inputs, aborted, turn, maxBatchSize);
    }

    /** do_execute: rounds repeat until one stops. The model is given the
      * engine's turns in advance and also stops when they run out; `stopped`
      * tells whether the last round ran asked to stop. */
    method DoExecute(inputs: seq<NtpContext>, aborted: bool, turns: seq<EngineTurn>, maxBatchSize: nat)
      returns (failure: Option<ScriptFailed>, rounds: nat, stopped: bool)
      requires Tracked() && Lists(inputs)
      modifies resources, ntpCtxs.Values
      ensures rounds <= |turns|
      ensures rounds < |turns| ==> stopped
      ensures stopped ==> rounds >= 1
      ensures failure.Some? ==> stopped
      ensures aborted ==> rounds == (if turns == [] then 0 else 1) && failure.None?
      ensures rounds >= 1 && !turns[rounds - 1].connected ==> stopped
      ensures failure.Some? ==> failure.value.id == id
      ensures Tracked()
      ensures old(AllTrackedSane()) ==> AllTrackedSane()
      ensures Grows(old(resources.logs), resources.logs)
    {
      rounds := 0;
      failure := None;
      stopped := false;
      ghost var saneBefore := AllTrackedSane();
      while rounds < |turns|
        invariant rounds <= |turns|
        invariant Tracked()
        invariant failure.None? && !stopped
        invariant aborted ==> rounds == 0
        invariant rounds >= 1 ==> turns[rounds - 1].connected
        invariant saneBefore ==> AllTrackedSane()
        invariant Grows(old(resources.logs), resources.logs)
      {
        ghost var logsBefore := resources.logs;
        var t := turns[rounds];
        var stop, f := LoopRound(inputs, aborted, t, maxBatchSize);
        GrowsTransitive(old(resources.logs), logsBefore, resources.logs);
        assert !stop ==> t.connected;
        rounds := rounds + 1;
        if stop {
          failure, stopped := f, true;
          break;
        }
      }
    }

    /** shutdown: once the loop has stopped, the subscriptions are dropped. */
    method Shutdown()
      modifies this
      ensures ntpCtxs == map[]
    {
      ntpCtxs := map[];
    }
  }
}