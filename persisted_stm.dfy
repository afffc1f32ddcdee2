/** cluster/persisted_stm: a state machine that snapshots its state. A
  * snapshot is a metadata block (the snapshot format version, the header's
  * version and the data size, adl-encoded) followed by the data. Hydration
  * reads the snapshot back at start; `sync` makes a new leader catch up with
  * the tip of the log by writing an empty batch in its term. */
module PersistedStm {
  import opened Common
  import Adl
  import ModelTypes

  /** stm_snapshot_header: an int8 version and an int32 data size. */
  datatype SnapshotHeader = SnapshotHeader(version: int, snapshotSize: int)

  /** A default header: version 0, size 0. */
  const DefaultHeader := SnapshotHeader(0, 0)

  /** stm_snapshot_header::ondisk_size: sizeof(int8) + sizeof(int32). */
  const OndiskSize: nat := 1 + 4

  /** persisted_stm::snapshot_version. */
  const SnapshotVersion: int := 0

  const I8 := Adl.TInt(1, true)
  const I32 := Adl.TInt(4, true)

  /** The header's fields fit their C++ types. */
  predicate HeaderFits(h: SnapshotHeader)
  {
    Adl.InRange(h.version, 1, true) && Adl.InRange(h.snapshotSize, 4, true)
  }

  /** stm_snapshot: a header, the offset the snapshot was taken at, the data. */
  datatype StmSnapshot = StmSnapshot(header: SnapshotHeader, offset: int, data: seq<byte>)

  /** The metadata persist_snapshot writes: serialize(snapshot_version,
    * header.version, header.snapshot_size). */
  function EncodeMetadata(h: SnapshotHeader): (bs: seq<byte>)
    requires HeaderFits(h)
    ensures |bs| == 1 + OndiskSize
    ensures bs[0] == 0
  {
    Adl.Encode(I8, Adl.VInt(SnapshotVersion)) + Adl.Encode(I8, Adl.VInt(h.version))
      + Adl.Encode(I32, Adl.VInt(h.snapshotSize))
  }

  function IntOf(v: Adl.Value): int
  {
    if v.VInt? then v.i else 0
  }

  /** hydrate_snapshot's reads: adl<int8_t> for the snapshot format version,
    * then adl<int8_t> and adl<int32_t> for the header. */
  function DecodeMetadata(meta: seq<byte>): (r: Result<(int, SnapshotHeader), Adl.DecodeError>)
    ensures r.Ok? <==> |meta| >= 1 + OndiskSize
    ensures r.Ok? ==> r.value == (Adl.DecodeInt(meta[..1], true),
      SnapshotHeader(Adl.DecodeInt(meta[1..2], true), Adl.DecodeInt(meta[2..6], true)))
  {
    match Adl.Decode(I8, meta)
    case Err(e) => Err(e)
    case Ok((v, r1)) =>
      assert meta[..1] == meta[..1] && r1 == meta[1..];
      match Adl.Decode(I8, r1)
      case Err(e) => Err(e)
      case Ok((hv, r2)) =>
        assert r1[..1] == meta[1..2] && r2 == meta[2..];
        match Adl.Decode(I32, r2)
        case Err(e) => Err(e)
        case Ok((sz, _)) =>
          assert r2[..4] == meta[2..6];
          Ok((IntOf(v), SnapshotHeader(IntOf(hv), IntOf(sz))))
  }

  /** The metadata persist_snapshot writes decodes back to the snapshot format
    * version and the header, whatever follows it. */
  lemma MetadataRoundTrip(h: SnapshotHeader, rest: seq<byte>)
    requires HeaderFits(h)
    ensures DecodeMetadata(EncodeMetadata(h) + rest) == Ok((SnapshotVersion, h))
  {
    var e3 := Adl.Encode(I32, Adl.VInt(h.snapshotSize)) + rest;
    var e2 := Adl.Encode(I8, Adl.VInt(h.version)) + e3;
    var e1 := Adl.Encode(I8, Adl.VInt(SnapshotVersion)) + e2;
    assert EncodeMetadata(h) + rest == e1;
    Adl.RoundTrip(I8, Adl.VInt(SnapshotVersion), e2);
    Adl.RoundTrip(I8, Adl.VInt(h.version), e3);
    Adl.RoundTrip(I32, Adl.VInt(h.snapshotSize), rest);
  }

  /** read_iobuf_exactly(in, n): up to `n` bytes, fewer at the end of the
    * stream. A negative int32 size becomes a huge size_t, so the whole stream
    * is read. */
  function ReadExactly(stream: seq<byte>, n: int): (r: seq<byte>)
    ensures |r| <= |stream| && r == stream[..|r|]
    ensures 0 <= n <= |stream| ==> |r| == n
  {
    if n < 0 || n > |stream| then stream else stream[..n]
  }

  /** model::violation_recovery_policy, as far as hydration tells them apart. */
  datatype RecoveryPolicy = Crash | BestEffort | OtherPolicy(code: int)

  /** Why the process stops (a vassert). */
  datatype AbortReason = VersionMismatch(got: int) | CannotHydrate | UnknownPolicy(code: int)

  datatype HydrateOutcome =
    | Loaded(header: SnapshotHeader, data: seq<byte>)  // load_snapshot(hdr, data) ran
    | RolledBack                                       // best effort: empty state
    | Aborted(reason: AbortReason)

  /** handle_exception: crash asserts, best_effort goes on with an empty
    * state, any other policy asserts. */
  function OnFailure(policy: RecoveryPolicy): (r: HydrateOutcome)
    ensures r.RolledBack? <==> policy == BestEffort
    ensures policy == Crash ==> r == Aborted(CannotHydrate)
  {
    match policy
    case Crash => Aborted(CannotHydrate)
    case BestEffort => RolledBack
    case OtherPolicy(c) => Aborted(UnknownPolicy(c))
  }

  /** The snapshot format version: the first metadata byte as an int8, when
    * there is one. */
  function FormatVersion(meta: seq<byte>): (v: Option<int>)
    ensures v.Some? <==> |meta| >= 1
    ensures v.Some? ==> Adl.InRange(v.value, 1, true)
    ensures DecodeMetadata(meta).Ok? ==> v == Some(DecodeMetadata(meta).value.0)
  {
    if |meta| == 0 then None
    else
      Adl.DecodeIntInRange(meta[..1], true);
      Some(Adl.DecodeInt(meta[..1], true))
  }

  /** hydrate_snapshot(reader): the snapshot format version is read first and
    * must be snapshot_version (a vassert, whatever the policy, before any
    * header read can fail); the header's size says how many data bytes to
    * read; metadata too short for the version or the header, or a failing
    * load_snapshot (`loadOk` false), goes to the recovery policy. */
  function Hydrate(meta: seq<byte>, stream: seq<byte>, loadOk: bool, policy: RecoveryPolicy): (r: HydrateOutcome)
    ensures r.Loaded? <==>
      DecodeMetadata(meta).Ok? && DecodeMetadata(meta).value.0 == SnapshotVersion && loadOk
    ensures r.Loaded? ==> r.header == DecodeMetadata(meta).value.1
    ensures r.Loaded? ==> r.data == ReadExactly(stream, r.header.snapshotSize)
    ensures DecodeMetadata(meta).Ok? && DecodeMetadata(meta).value.0 != SnapshotVersion ==>
      r == Aborted(VersionMismatch(DecodeMetadata(meta).value.0))
    ensures (r.Aborted? && r.reason.VersionMismatch?) <==>
      FormatVersion(meta).Some? && FormatVersion(meta).value != SnapshotVersion
    ensures r.Aborted? && r.reason.VersionMismatch? ==> r.reason.got == FormatVersion(meta).value
    ensures r.RolledBack? ==> policy == BestEffort
  {
    var v := FormatVersion(meta);
    if v.Some? && v.value != SnapshotVersion then Aborted(VersionMismatch(v.value))
    else
      var m := DecodeMetadata(meta);
      if m.Ok? && loadOk then Loaded(m.value.1, ReadExactly(stream, m.value.1.snapshotSize))
      else OnFailure(policy)
  }

  /** A snapshot persist_snapshot wrote hydrates back to its header and data
    * when its header's size is the data's length. */
  lemma PersistHydrateRoundTrip(s: StmSnapshot, policy: RecoveryPolicy)
    requires HeaderFits(s.header) && s.header.snapshotSize == |s.data|
    ensures Hydrate(EncodeMetadata(s.header), s.data, true, policy) == Loaded(s.header, s.data)
  {
    MetadataRoundTrip(s.header, []);
    assert EncodeMetadata(s.header) + [] == EncodeMetadata(s.header);
  }

  /** A metadata block whose first byte is any other format version stops
    * the process, whatever follows it (even nothing, or too little for the
    * header), the policy and the data. */
  lemma VersionGate(version: int, rest: seq<byte>, stream: seq<byte>, loadOk: bool, policy: RecoveryPolicy)
    requires Adl.InRange(version, 1, true) && version != SnapshotVersion
    ensures Hydrate(Adl.Encode(I8, Adl.VInt(version)) + rest, stream, loadOk, policy) ==
      Aborted(VersionMismatch(version))
  {
    var meta := Adl.Encode(I8, Adl.VInt(version)) + rest;
    Adl.IntRoundTrip(version, 1, true);
    assert meta[..1] == Adl.EncodeInt(version, 1, true);
  }

  /** A lone wrong version byte, under best_effort, still stops the process:
    * the version check comes before the header reads that would fail. */
  lemma TruncatedWrongVersionAborts()
    ensures Hydrate([1], [], true, BestEffort) == Aborted(VersionMismatch(1))
  {
    VersionGate(1, [], [], true, BestEffort);
    assert Adl.Encode(I8, Adl.VInt(1)) + [] == [1];
  }

  /** How `sync` answers at once, or that it started a checkpoint write. */
  datatype SyncStart =
    | Answered(ok: bool)  // not the leader, or already in sync in this term
    | Queued              // a catch-up is under way: wait for its result
    | Writing(term: int)  // this call writes the checkpoint batch in `term`

  /** What start() did. */
  datatype StartOutcome = Started(snapshotRequested: bool) | StartAborted(reason: AbortReason)

  /** What ensure_snapshot_exists did. */
  datatype EnsureOutcome = Deferred | AlreadyCovered | Snapshotted | EnsureAborted

  class PersistedStmNode {
    const policy: RecoveryPolicy
    /** _resolved_when_snapshot_hydrated has been set. */
    var hydrated: bool
    var lastSnapshotOffset: int
    var isCatchingUp: bool
    var insyncTerm: int
    /** _insync_offset: advanced by the derived machine as it applies
      * batches, which is not part of this model. */
    var insyncOffset: int
    /** The waiters queued behind a catch-up, in order. */
    var syncWaiters: seq<nat>
    /** Every waiter answered so far, with its answer. */
    var delivered: seq<(nat, bool)>
    /** The snapshot on disk: metadata and data. */
    var stored: Option<(seq<byte>, seq<byte>)>
    ghost var storedHeader: SnapshotHeader
    /** What load_snapshot was given at hydration. */
    var loaded: Option<(SnapshotHeader, seq<byte>)>
    /** The offset passed to set_next, if any. */
    var next: Option<int>

    /** The stored metadata is what persist_snapshot writes for a header. */
    ghost predicate Valid()
      reads this
    {
      stored.Some? ==> HeaderFits(storedHeader) && stored.value.0 == EncodeMetadata(storedHeader)
    }

    constructor(policy: RecoveryPolicy, stored: Option<(seq<byte>, seq<byte>)>)
      ensures this.policy == policy && this.stored == stored
      ensures !hydrated && !isCatchingUp && syncWaiters == [] && delivered == []
      ensures lastSnapshotOffset == ModelTypes.Unset && insyncTerm == ModelTypes.Unset
      ensures insyncOffset == ModelTypes.Unset && loaded == None && next == None
    {
      this.policy := policy;
      this.stored := stored;
      hydrated := false;
      lastSnapshotOffset := ModelTypes.Unset;
      isCatchingUp := false;
      insyncTerm := ModelTypes.Unset;
      insyncOffset := ModelTypes.Unset;
      syncWaiters := [];
      delivered := [];
      loaded := None;
      next := None;
    }

    /** persist_snapshot: the metadata block, then the data. */
    method PersistSnapshot(s: StmSnapshot)
      requires HeaderFits(s.header)
      modifies this`stored, this`storedHeader
      ensures stored == Some((EncodeMetadata(s.header), s.data)) && storedHeader == s.header
      ensures Valid()
    {
      var meta := EncodeMetadata(s.header);
      stored := Some((meta, s.data));
      storedHeader := s.header;
    }

    /** do_make_snapshot: the snapshot taken is persisted, and the last
      * snapshot offset becomes the larger of itself and the snapshot's. */
    method DoMakeSnapshot(s: StmSnapshot)
      requires HeaderFits(s.header)
      modifies this`stored, this`storedHeader, this`lastSnapshotOffset
      ensures stored == Some((EncodeMetadata(s.header), s.data)) && storedHeader == s.header
      ensures lastSnapshotOffset >= old(lastSnapshotOffset) && lastSnapshotOffset >= s.offset
      ensures lastSnapshotOffset == old(lastSnapshotOffset) || lastSnapshotOffset == s.offset
      ensures Valid()
    {
      PersistSnapshot(s);
      if s.offset > lastSnapshotOffset {
        lastSnapshotOffset := s.offset;
      }
    }

    /** make_snapshot: waits for hydration; `acted` is false while it waits. */
    method MakeSnapshot(s: StmSnapshot) returns (acted: bool)
      requires HeaderFits(s.header)
      modifies this`stored, this`storedHeader, this`lastSnapshotOffset
      ensures acted == old(hydrated)
      ensures !acted ==> stored == old(stored) && lastSnapshotOffset == old(lastSnapshotOffset)
      ensures acted ==> stored == Some((EncodeMetadata(s.header), s.data))
      ensures acted ==>
        lastSnapshotOffset == (if s.offset > old(lastSnapshotOffset) then s.offset else old(lastSnapshotOffset))
      ensures old(Valid()) ==> Valid()
    {
      if !hydrated {
        return false;
      }
      DoMakeSnapshot(s);
      acted := true;
    }

    /** ensure_snapshot_exists(target): waits for hydration; nothing to do
      * when the last snapshot covers `target`; otherwise, once the machine
      * has applied up to `target` (`insyncOffset` is its offset after the
      * wait), it must have reached it (a vassert) and a snapshot is made. */
    method EnsureSnapshotExists(target: int, s: StmSnapshot) returns (r: EnsureOutcome)
      requires HeaderFits(s.header)
      modifies this`stored, this`storedHeader, this`lastSnapshotOffset
      ensures !old(hydrated) <==> r == Deferred
      ensures old(hydrated) && target <= old(lastSnapshotOffset) <==> r == AlreadyCovered
      ensures r == EnsureAborted <==> old(hydrated) && old(lastSnapshotOffset) < target && target > insyncOffset
      ensures r != Snapshotted ==> stored == old(stored) && lastSnapshotOffset == old(lastSnapshotOffset)
      ensures r == Snapshotted ==> stored == Some((EncodeMetadata(s.header), s.data))
      ensures r == Snapshotted ==> lastSnapshotOffset >= s.offset && lastSnapshotOffset >= old(lastSnapshotOffset)
      ensures old(Valid()) ==> Valid()
    {
      if !hydrated {
        return Deferred;
      }
      if target <= lastSnapshotOffset {
        return AlreadyCovered;
      }
      if !(target <= insyncOffset) {
        return EnsureAborted;
      }
      DoMakeSnapshot(s);
      r := Snapshotted;
    }

    /** sync(): false on a follower; true at once when already in sync in the
      * current term; queued behind a catch-up under way; otherwise this call
      * starts the catch-up, writing an empty batch in the current term. */
    method Sync(isLeader: bool, term: int, waiter: nat) returns (r: SyncStart)
      modifies this`isCatchingUp, this`syncWaiters
      ensures !isLeader ==> r == Answered(false)
      ensures isLeader && old(insyncTerm) == term ==> r == Answered(true)
      ensures r == Queued <==> isLeader && old(insyncTerm) != term && old(isCatchingUp)
      ensures r == Queued ==> syncWaiters == old(syncWaiters) + [waiter]
      ensures r != Queued ==> syncWaiters == old(syncWaiters)
      ensures r.Writing? <==> isLeader && old(insyncTerm) != term && !old(isCatchingUp)
      ensures r.Writing? ==> r.term == term
      ensures isCatchingUp == (old(isCatchingUp) || r.Writing?)
    {
      if !isLeader {
        return Answered(false);
      }
      if insyncTerm == term {
        return Answered(true);
      }
      if isCatchingUp {
        syncWaiters := syncWaiters + [waiter];
        return Queued;
      }
      isCatchingUp := true;
      r := Writing(term);
    }

    /** Every queued waiter gets `v`, in order, and the queue empties. */
    method ResolveWaiters(v: bool)
      modifies this`syncWaiters, this`delivered
      ensures delivered == old(delivered) + Answers(old(syncWaiters), v)
      ensures syncWaiters == []
    {
      var i := 0;
      while i < |syncWaiters|
        invariant 0 <= i <= |syncWaiters| && syncWaiters == old(syncWaiters)
        invariant delivered == old(delivered) + Answers(syncWaiters[..i], v)
      {
        assert syncWaiters[..i + 1] == syncWaiters[..i] + [syncWaiters[i]];
        AnswersSnoc(syncWaiters[..i], syncWaiters[i], v);
        delivered := delivered + [(syncWaiters[i], v)];
        i := i + 1;
      }
      assert syncWaiters[..i] == syncWaiters;
      syncWaiters := [];
    }

    /** The continuation of sync() once the checkpoint write in `term`
      * finished: in sync iff the write succeeded and the term is still
      * `currentTerm`; then the term is recorded and every waiter gets the
      * same answer. As written, the catch-up flag is never cleared. */
    method SyncCompleted(term: int, writeOk: bool, currentTerm: int) returns (synced: bool)
      modifies this`insyncTerm, this`syncWaiters, this`delivered
      ensures synced == (writeOk && term == currentTerm)
      ensures insyncTerm == if synced then term else old(insyncTerm)
      ensures delivered == old(delivered) + Answers(old(syncWaiters), synced) && syncWaiters == []
    {
      synced := writeOk;
      synced := synced && term == currentTerm;
      if synced {
        insyncTerm := term;
      }
      ResolveWaiters(synced);
    }

    /** SyncCompleted with the catch-up flag cleared, so that a later term
      * can catch up again. */
    method SyncCompletedClearing(term: int, writeOk: bool, currentTerm: int) returns (synced: bool)
      modifies this`insyncTerm, this`syncWaiters, this`delivered, this`isCatchingUp
      ensures synced == (writeOk && term == currentTerm)
      ensures insyncTerm == if synced then term else old(insyncTerm)
      ensures delivered == old(delivered) + Answers(old(syncWaiters), synced) && syncWaiters == []
      ensures !isCatchingUp
    {
      synced := SyncCompleted(term, writeOk, currentTerm);
      isCatchingUp := false;
    }

    /** start(): hydrates the snapshot on disk if there is one; the next
      * offset is then max(_insync_offset, the log's start offset), or the
      * log's start offset when there is no snapshot, and is set only when it
      * is not negative. Hydration is then complete, and a snapshot of the
      * committed prefix is requested when the commit index is not negative. */
    method Start(loadOk: bool, startOffset: int, commitIndex: int) returns (r: StartOutcome)
      modifies this`hydrated, this`loaded, this`next
      ensures r.StartAborted? <==>
        stored.Some? && Hydrate(stored.value.0, stored.value.1, loadOk, policy).Aborted?
      ensures r.StartAborted? ==> r.reason == Hydrate(stored.value.0, stored.value.1, loadOk, policy).reason
      ensures r.StartAborted? ==> hydrated == old(hydrated) && next == old(next) && loaded == old(loaded)
      ensures r.Started? ==> hydrated && r.snapshotRequested == (commitIndex >= 0)
      ensures r.Started? ==>
        var offset := if stored.Some? && insyncOffset > startOffset then insyncOffset else startOffset;
        next == (if offset >= 0 then Some(offset) else old(next))
      ensures r.Started? && stored.Some? ==>
        var h := Hydrate(stored.value.0, stored.value.1, loadOk, policy);
        loaded == (if h.Loaded? then Some((h.header, h.data)) else old(loaded))
      ensures r.Started? && stored.None? ==> loaded == old(loaded)
    {
      var offset := startOffset;
      if stored.Some? {
        var h := Hydrate(stored.value.0, stored.value.1, loadOk, policy);
        if h.Aborted? {
          return StartAborted(h.reason);
        }
        if h.Loaded? {
          loaded := Some((h.header, h.data));
        }
        if insyncOffset > offset {
          offset := insyncOffset;
        }
      }
      if offset >= 0 {
        next := Some(offset);
      }
      hydrated := true;
      r := Started(commitIndex >= 0);
    }
  }

  /** The answers a list of waiters receives: each its own id, all the same
    * value. */
  function Answers(ws: seq<nat>, v: bool): (r: seq<(nat, bool)>)
    ensures |r| == |ws|
    ensures forall i :: 0 <= i < |r| ==> r[i] == (ws[i], v)
  {
    if ws == [] then [] else Answers(ws[..|ws| - 1], v) + [(ws[|ws| - 1], v)]
  }

  lemma AnswersSnoc(ws: seq<nat>, w: nat, v: bool)
    ensures Answers(ws + [w], v) == Answers(ws, v) + [(w, v)]
  {
    assert (ws + [w])[..|ws|] == ws;
  }

  /** As written, a leader that caught up once never catches up again: in a
    * later term its sync is queued behind a catch-up that is not under way,
    * so it can only time out. */
  method StuckAfterTermChange() returns (first: SyncStart, second: SyncStart)
    ensures first == Writing(1) && second == Queued
  {
    var stm := new PersistedStmNode(BestEffort, None);
    first := stm.Sync(true, 1, 0);
    var ok := stm.SyncCompleted(1, true, 1);
    second := stm.Sync(true, 2, 1);
  }

  /** With the flag cleared, the leader of a later term writes its own
    * checkpoint. */
  method CatchesUpAfterTermChange() returns (first: SyncStart, second: SyncStart)
    ensures first == Writing(1) && second == Writing(2)
  {
    var stm := new PersistedStmNode(BestEffort, None);
    first := stm.Sync(true, 1, 0);
    var ok := stm.SyncCompletedClearing(1, true, 1);
    second := stm.Sync(true, 2, 1);
  }
}
