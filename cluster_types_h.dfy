/** cluster/types.h: the earlier topic configuration (compression,
  * compaction flag, retention bytes and retention duration, with defaults),
  * the topic error codes and their name table, and the adl forms of the
  * configuration and of join_request. */
module ClusterTypesH {
  import opened Common
  import opened Adl
  import opened IobufModel
  import C = ClusterTypesCc

  // ---------------------------------------------------------------------------
  // The configuration of this revision.

  /** `duration::max()` of the timeout clock's signed 64-bit tick count. */
  const MaxDuration: int := 0x7FFF_FFFF_FFFF_FFFF

  /** model::compression::none. */
  const CompressionNone: int := 0

  datatype TopicConfiguration = TopicConfiguration(
    ns: seq<byte>,
    topic: seq<byte>,
    partitionCount: int,      // int32
    replicationFactor: int,   // int16
    compression: int,         // model::compression, a uint8 enum
    compaction: bool,         // topic_partition::compaction, a bool_class
    retentionBytes: int,      // uint64
    retention: int)           // timeout_clock::duration, int64 ticks

  predicate ValidConfig(c: TopicConfiguration)
  {
    && C.ValidIdentity(IdentityOf(c))
    && InRange(c.compression, 1, false)
    && InRange(c.retentionBytes, 8, false)
    && InRange(c.retention, 8, true)
  }

  function IdentityOf(c: TopicConfiguration): C.Identity
  {
    C.Identity(c.ns, c.topic, c.partitionCount, c.replicationFactor)
  }

  /** The four-argument constructor: the named fields as given, every
    * configuration entry at its default. */
  function NewConfig(ns: seq<byte>, topic: seq<byte>, count: int, rf: int): (c: TopicConfiguration)
    ensures c.ns == ns && c.topic == topic && c.partitionCount == count && c.replicationFactor == rf
    ensures c.compression == CompressionNone && !c.compaction
    ensures c.retentionBytes == 0 && c.retention == MaxDuration
    ensures C.ValidIdentity(IdentityOf(c)) ==> ValidConfig(c)
  {
    TopicConfiguration(ns, topic, count, rf, 0, false, 0, MaxDuration)
  }

  // ---------------------------------------------------------------------------
  // adl<topic_configuration> of this revision: tp_ns, partition_count,
  // replication_factor as in the later revision, then compression,
  // compaction, retention_bytes and retention.

  function EncodeEntries(c: TopicConfiguration): seq<byte>
    requires ValidConfig(c)
  {
    Encode(TEnum(1, false), VInt(c.compression)) + (Encode(TBool, VBool(c.compaction))
      + (EncodeInt(c.retentionBytes, 8, false) + C.EncodeDuration(c.retention)))
  }

  datatype Entries = Entries(compression: int, compaction: bool, retentionBytes: int, retention: int)

  function DecodeFlag(s: seq<byte>): Result<(bool, seq<byte>), DecodeError>
  {
    match Decode(TBool, s)
    case Err(e) => Err(e)
    case Ok((v, r)) => Ok((v.VBool? && v.b, r))
  }

  function DecodeEntries(s: seq<byte>): Result<(Entries, seq<byte>), DecodeError>
  {
    match C.DecodeScalar(1, false, s)
    case Err(e) => Err(e)
    case Ok((k, r1)) =>
      match DecodeFlag(r1)
      case Err(e) => Err(e)
      case Ok((f, r2)) =>
        match C.DecodeScalar(8, false, r2)
        case Err(e) => Err(e)
        case Ok((b, r3)) =>
          match C.DecodeDuration(r3)
          case Err(e) => Err(e)
          case Ok((d, r4)) => Ok((Entries(k, f, b, d), r4))
  }

  lemma EntriesRoundTrip(c: TopicConfiguration, rest: seq<byte>)
    requires ValidConfig(c)
    ensures DecodeEntries(EncodeEntries(c) + rest)
         == Ok((Entries(c.compression, c.compaction, c.retentionBytes, c.retention), rest))
  {
    var e1, e2 := Encode(TEnum(1, false), VInt(c.compression)), Encode(TBool, VBool(c.compaction));
    var e3, e4 := EncodeInt(c.retentionBytes, 8, false), C.EncodeDuration(c.retention);
    ConcatAssoc(e1, e2 + (e3 + e4), rest);
    ConcatAssoc(e2, e3 + e4, rest);
    ConcatAssoc(e3, e4, rest);
    RoundTrip(TEnum(1, false), VInt(c.compression), e2 + (e3 + (e4 + rest)));
    RoundTrip(TBool, VBool(c.compaction), e3 + (e4 + rest));
    C.ScalarRoundTrip(c.retentionBytes, 8, false, e4 + rest);
    C.DurationRoundTrip(c.retention, rest);
  }

  /** `adl<topic_configuration>::to`: the eight fields in serialize order. */
  function EncodeConfig(c: TopicConfiguration): seq<byte>
    requires ValidConfig(c)
  {
    C.EncodeIdentity(IdentityOf(c)) + EncodeEntries(c)
  }

  /** `adl<topic_configuration>::from`: the same fields in the same order. */
  function DecodeConfig(s: seq<byte>): Result<(TopicConfiguration, seq<byte>), DecodeError>
  {
    match C.DecodeIdentity(s)
    case Err(e) => Err(e)
    case Ok((id, r1)) =>
      match DecodeEntries(r1)
      case Err(e) => Err(e)
      case Ok((en, r2)) =>
        Ok((TopicConfiguration(id.ns, id.topic, id.partitionCount, id.replicationFactor,
          en.compression, en.compaction, en.retentionBytes, en.retention), r2))
  }

  /** Every field survives the round trip, and the bytes after the
    * configuration are left for the next reader. */
  lemma ConfigRoundTrip(c: TopicConfiguration, rest: seq<byte>)
    requires ValidConfig(c)
    ensures DecodeConfig(EncodeConfig(c) + rest) == Ok((c, rest))
  {
    var e1, e2 := C.EncodeIdentity(IdentityOf(c)), EncodeEntries(c);
    ConcatAssoc(e1, e2, rest);
    C.IdentityRoundTrip(IdentityOf(c), e2 + rest);
    EntriesRoundTrip(c, rest);
  }

  /** The wire order and widths: two length-prefixed strings, int32 count,
    * int16 replication factor, one compression byte, one compaction byte,
    * uint64 retention bytes and the retention tick count as a uint64. */
  lemma ConfigWireOrder(c: TopicConfiguration)
    requires ValidConfig(c)
    ensures EncodeConfig(c) ==
      C.EncodeName(c.ns) + (C.EncodeName(c.topic)
      + (EncodeInt(c.partitionCount, 4, true) + (EncodeInt(c.replicationFactor, 2, true)
      + (EncodeInt(c.compression, 1, false) + ([if c.compaction then 1 else 0]
      + (EncodeInt(c.retentionBytes, 8, false) + EncodeInt(ToUnsigned(c.retention, 8), 8, false)))))))
    ensures |EncodeConfig(c)| == 4 + |c.ns| + 4 + |c.topic| + 4 + 2 + 1 + 1 + 8 + 8
  {
    var id := C.EncodeIdentity(IdentityOf(c));
    var n1, n2 := C.EncodeName(c.ns), C.EncodeName(c.topic);
    var i3, i4 := EncodeInt(c.partitionCount, 4, true), EncodeInt(c.replicationFactor, 2, true);
    ConcatAssoc(n1, n2 + (i3 + i4), EncodeEntries(c));
    ConcatAssoc(n2, i3 + i4, EncodeEntries(c));
    ConcatAssoc(i3, i4, EncodeEntries(c));
  }

  /** `adl<topic_configuration>::to(out, cfg)`. */
  method WriteConfig(out: Iobuf, c: TopicConfiguration)
    requires out.Valid() && ValidConfig(c)
    modifies out
    ensures out.Valid() && out.Contents() == old(out.Contents()) + EncodeConfig(c)
  {
    ghost var s0 := out.Contents();
    C.WriteIdentity(out, IdentityOf(c));
    ghost var s1 := out.Contents();
    ghost var e1, e2 := Encode(TEnum(1, false), VInt(c.compression)), Encode(TBool, VBool(c.compaction));
    ghost var e3, e4 := EncodeInt(c.retentionBytes, 8, false), C.EncodeDuration(c.retention);
    To(out, TEnum(1, false), VInt(c.compression));
    To(out, TBool, VBool(c.compaction));
    To(out, TInt(8, false), VInt(c.retentionBytes));
    To(out, TInt(8, false), VInt(ToUnsigned(c.retention, 8)));
    assert out.Contents() == (((s1 + e1) + e2) + e3) + e4;
    ConcatAssoc(s1 + e1 + e2, e3, e4);
    ConcatAssoc(s1 + e1, e2, e3 + e4);
    ConcatAssoc(s1, e1, e2 + (e3 + e4));
    ConcatAssoc(s0, C.EncodeIdentity(IdentityOf(c)), EncodeEntries(c));
  }

  // ---------------------------------------------------------------------------
  // Topic error codes (an int16 enumeration) and their names.

  datatype TopicErrorCode =
    | NoError
    | UnknownError
    | TimeOut
    | InvalidPartitions
    | InvalidReplicationFactor
    | InvalidConfig
    | NotLeaderController

  /** The enumerator's underlying value: declaration order from zero. */
  function Code(e: TopicErrorCode): (c: int)
    ensures CodeMin <= c <= CodeMax
  {
    match e
    case NoError => 0
    case UnknownError => 1
    case TimeOut => 2
    case InvalidPartitions => 3
    case InvalidReplicationFactor => 4
    case InvalidConfig => 5
    case NotLeaderController => 6
  }

  /** topic_error_code_min and topic_error_code_max. */
  const CodeMin: int := 0
  const CodeMax: int := 6

  /** The enumerator with underlying value `c`, if any. */
  function FromCode(c: int): (r: Option<TopicErrorCode>)
    ensures r.Some? <==> CodeMin <= c <= CodeMax
    ensures r.Some? ==> Code(r.value) == c
  {
    if c == 0 then Some(NoError)
    else if c == 1 then Some(UnknownError)
    else if c == 2 then Some(TimeOut)
    else if c == 3 then Some(InvalidPartitions)
    else if c == 4 then Some(InvalidReplicationFactor)
    else if c == 5 then Some(InvalidConfig)
    else if c == 6 then Some(NotLeaderController)
    else None
  }

  lemma CodeRoundTrip(e: TopicErrorCode)
    ensures FromCode(Code(e)) == Some(e)
  {
  }

  /** The declared spelling of each enumerator. */
  function EnumeratorName(e: TopicErrorCode): string
  {
    match e
    case NoError => "no_error"
    case UnknownError => "unknown_error"
    case TimeOut => "time_out"
    case InvalidPartitions => "invalid_partitions"
    case InvalidReplicationFactor => "invalid_replication_factor"
    case InvalidConfig => "invalid_config"
    case NotLeaderController => "not_leader_controller"
  }

  /** topic_error_code_names, indexed by the code's int16 value. */
  const TopicErrorCodeNames: seq<string> := [
    "no_error", "unknown_error", "time_out", "invalid_partitions",
    "invalid_replication_factor", "invalid_config", "not_leader_controller"]

  /** The table has exactly one entry per code from topic_error_code_min to
    * topic_error_code_max, and each entry is that enumerator's name. */
  lemma NamesTable(e: TopicErrorCode)
    ensures |TopicErrorCodeNames| == CodeMax - CodeMin + 1
    ensures 0 <= Code(e) < |TopicErrorCodeNames|
    ensures TopicErrorCodeNames[Code(e)] == EnumeratorName(e)
  {
  }

  /** No two codes share a name. */
  lemma NamesDistinct(e1: TopicErrorCode, e2: TopicErrorCode)
    requires TopicErrorCodeNames[Code(e1)] == TopicErrorCodeNames[Code(e2)]
    ensures e1 == e2
  {
    var n1, n2 := TopicErrorCodeNames[Code(e1)], TopicErrorCodeNames[Code(e2)];
    assert |n1| == |n2| && n1[|n1| - 1] == n2[|n2| - 1] && n1[0] == n2[0];
  }

  // ---------------------------------------------------------------------------
  // join_request: a model::broker and nothing else. The adl form of the
  // broker is any adl type `brokerTy`.

  datatype JoinRequest = JoinRequest(node: Value)

  predicate ValidJoin(brokerTy: Ty, r: JoinRequest)
  {
    WellTyped(brokerTy, r.node) && Fits(brokerTy, r.node)
  }

  /** `adl<join_request>::to`: the broker's own encoding. */
  function EncodeJoinRequest(brokerTy: Ty, r: JoinRequest): seq<byte>
    requires ValidJoin(brokerTy, r)
  {
    Encode(brokerTy, r.node)
  }

  /** `adl<join_request>::from(parser)`: a join_request around the decoded
    * broker. */
  function DecodeJoinRequest(brokerTy: Ty, s: seq<byte>): Result<(JoinRequest, seq<byte>), DecodeError>
  {
    match Decode(brokerTy, s)
    case Err(e) => Err(e)
    case Ok((b, r)) => Ok((JoinRequest(b), r))
  }

  lemma JoinRequestRoundTrip(brokerTy: Ty, r: JoinRequest, rest: seq<byte>)
    requires ValidJoin(brokerTy, r)
    ensures DecodeJoinRequest(brokerTy, EncodeJoinRequest(brokerTy, r) + rest) == Ok((r, rest))
  {
    RoundTrip(brokerTy, r.node, rest);
  }

  /** `adl<join_request>::from(iobuf)`: from_iobuf over the whole buffer. */
  method ReadJoinRequest(brokerTy: Ty, io: Iobuf) returns (r: Result<JoinRequest, DecodeError>)
    requires io.Valid()
    ensures r.Ok? <==> DecodeJoinRequest(brokerTy, io.Contents()).Ok?
    ensures r.Ok? ==> r.value == DecodeJoinRequest(brokerTy, io.Contents()).value.0
  {
    var b := FromIobuf(brokerTy, io);
    if b.Ok? {
      r := Ok(JoinRequest(b.value));
    } else {
      r := Err(b.error);
    }
  }

  /** `adl<join_request>::to(out, r)`. */
  method WriteJoinRequest(out: Iobuf, brokerTy: Ty, r: JoinRequest)
    requires out.Valid() && ValidJoin(brokerTy, r)
    modifies out
    ensures out.Valid() && out.Contents() == old(out.Contents()) + EncodeJoinRequest(brokerTy, r)
  {
    To(out, brokerTy, r.node);
  }
}
