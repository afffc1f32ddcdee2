/** cluster/types.cc: the topic configuration with optional and tristate
  * overrides, the ntp_config it produces, and the adl wire forms of the
  * topic configuration, topic results, create-topics requests and replies,
  * and of a timeout duration. */
module ClusterTypesCc {
  import opened Common
  import opened Adl
  import opened IobufModel
  import M = ModelTypes

  // ---------------------------------------------------------------------------
  // Timeout durations: the tick count (an int64) travels as a uint64.

  /** `adl<duration>::to`: the count's bit pattern as a uint64. */
  function EncodeDuration(d: int): (bs: seq<byte>)
    requires InRange(d, 8, true)
    ensures |bs| == 8
  {
    EncodeInt(ToUnsigned(d, 8), 8, false)
  }

  /** `adl<duration>::from`: a uint64 converted back to the signed count. */
  function DecodeDuration(s: seq<byte>): (r: Result<(int, seq<byte>), DecodeError>)
    ensures r.Ok? <==> |s| >= 8
    ensures r.Ok? ==> r.value.1 == s[8..] && InRange(r.value.0, 8, true)
  {
    if |s| < 8 then Err(OutOfRange)
    else
      DecodeIntInRange(s[..8], false);
      Ok((FromUnsigned(DecodeInt(s[..8], false), 8, true), s[8..]))
  }

  /** The wire holds the count's two's-complement pattern, and reading it back
    * gives the same count and leaves the following bytes alone. */
  lemma DurationRoundTrip(d: int, rest: seq<byte>)
    requires InRange(d, 8, true)
    ensures FromLE(EncodeDuration(d)) == ToUnsigned(d, 8)
    ensures DecodeDuration(EncodeDuration(d) + rest) == Ok((d, rest))
  {
    var u := ToUnsigned(d, 8);
    IntRoundTrip(u, 8, false);
    IntRoundTrip(d, 8, true);
    var s := EncodeDuration(d) + rest;
    assert s[..8] == EncodeDuration(d) && s[8..] == rest;
  }

  // ---------------------------------------------------------------------------
  // Tristates: disabled, unset, or holding a value.

  datatype Tristate<T> = Disabled | Unset | Present(value: T) {
    predicate HasValue() { Present? }
    predicate IsDisabled() { Disabled? }
  }

  predicate TriInRange(x: Tristate<int>, w: Width, signed: bool)
  {
    x.Present? ==> InRange(x.value, w, signed)
  }

  /** An int8 state tag (-1 disabled, 0 unset, 1 set) followed by the value
    * when set. */
  function EncodeTristate(x: Tristate<int>, w: Width, signed: bool): (bs: seq<byte>)
    requires TriInRange(x, w, signed)
    ensures |bs| == if x.Present? then 1 + w else 1
  {
    match x
    case Disabled => EncodeInt(-1, 1, true)
    case Unset => EncodeInt(0, 1, true)
    case Present(v) => EncodeInt(1, 1, true) + EncodeInt(v, w, signed)
  }

  function DecodeTristate(s: seq<byte>, w: Width, signed: bool): (r: Result<(Tristate<int>, seq<byte>), DecodeError>)
    ensures r.Ok? ==> TriInRange(r.value.0, w, signed) && |r.value.1| <= |s| && r.value.1 == s[|s| - |r.value.1|..]
  {
    if |s| < 1 then Err(OutOfRange)
    else
      var tag := DecodeInt(s[..1], true);
      if tag == -1 then Ok((Disabled, s[1..]))
      else if tag == 0 then Ok((Unset, s[1..]))
      else if |s| - 1 < w then Err(OutOfRange)
      else
        DecodeIntInRange(s[1..1 + w], signed);
        Ok((Present(DecodeInt(s[1..1 + w], signed)), s[1 + w..]))
  }

  lemma TristateRoundTrip(x: Tristate<int>, w: Width, signed: bool, rest: seq<byte>)
    requires TriInRange(x, w, signed)
    ensures DecodeTristate(EncodeTristate(x, w, signed) + rest, w, signed) == Ok((x, rest))
  {
    var s := EncodeTristate(x, w, signed) + rest;
    var tag: int := match x case Disabled => -1 case Unset => 0 case Present(_) => 1;
    IntRoundTrip(tag, 1, true);
    assert s[..1] == EncodeInt(tag, 1, true);
    if x.Present? {
      IntRoundTrip(x.value, w, signed);
      assert s[1..1 + w] == EncodeInt(x.value, w, signed) && s[1 + w..] == rest;
    } else {
      assert s[1..] == rest;
    }
  }

  // ---------------------------------------------------------------------------
  // The topic configuration.

  /** Topic configuration of this revision. Enum fields hold the enumeration's
    * underlying integer. */
  datatype TopicConfiguration = TopicConfiguration(
    ns: seq<byte>,
    topic: seq<byte>,
    partitionCount: int,                  // int32
    replicationFactor: int,               // int16
    compression: Option<int>,             // optional<model::compression>
    cleanupPolicy: Option<int>,           // optional<cleanup_policy_bitflags>
    compactionStrategy: Option<int>,      // optional<compaction_strategy>
    timestampType: Option<int>,           // optional<timestamp_type>
    segmentSize: Option<int>,             // optional<size_t>
    retentionBytes: Tristate<int>,        // tristate<size_t>
    retentionDuration: Tristate<int>)     // tristate<milliseconds>

  predicate OptInRange(o: Option<int>, w: Width, signed: bool)
  {
    o.Some? ==> InRange(o.value, w, signed)
  }

  /** Every field holds a value of its C++ type, and the names fit the int32
    * length prefix. */
  predicate ValidConfig(c: TopicConfiguration)
  {
    && |c.ns| < Int32Limit && |c.topic| < Int32Limit
    && InRange(c.partitionCount, 4, true) && InRange(c.replicationFactor, 2, true)
    && OptInRange(c.compression, 1, false)
    && OptInRange(c.cleanupPolicy, 1, false)
    && OptInRange(c.compactionStrategy, 1, true)
    && OptInRange(c.timestampType, 1, false)
    && OptInRange(c.segmentSize, 8, false)
    && TriInRange(c.retentionBytes, 8, false)
    && TriInRange(c.retentionDuration, 8, true)
  }

  // ---------------------------------------------------------------------------
  // One field at a time: each field is adl<T> of the field's own type.

  /** An sstring field (the two halves of tp_ns). */
  function EncodeName(b: seq<byte>): seq<byte>
  {
    Encode(TString, VBytes(b))
  }

  function DecodeName(s: seq<byte>): Result<(seq<byte>, seq<byte>), DecodeError>
  {
    match Decode(TString, s)
    case Err(e) => Err(e)
    case Ok((v, r)) => Ok((if v.VBytes? then v.bytes else [], r))
  }

  lemma NameRoundTrip(b: seq<byte>, rest: seq<byte>)
    requires |b| < Int32Limit
    ensures DecodeName(EncodeName(b) + rest) == Ok((b, rest))
  {
    RoundTrip(TString, VBytes(b), rest);
  }

  /** An integral field of `w` bytes (int32 partition_count, int16
    * replication_factor). */
  function DecodeScalar(w: Width, signed: bool, s: seq<byte>): Result<(int, seq<byte>), DecodeError>
  {
    match Decode(TInt(w, signed), s)
    case Err(e) => Err(e)
    case Ok((v, r)) => Ok((if v.VInt? then v.i else 0, r))
  }

  lemma ScalarRoundTrip(i: int, w: Width, signed: bool, rest: seq<byte>)
    requires InRange(i, w, signed)
    ensures DecodeScalar(w, signed, EncodeInt(i, w, signed) + rest) == Ok((i, rest))
  {
    RoundTrip(TInt(w, signed), VInt(i), rest);
  }

  predicate Scalar(t: Ty) { t.TInt? || t.TEnum? }

  function OptValue(o: Option<int>): Value
  {
    if o.Some? then VSome(VInt(o.value)) else VNone
  }

  /** An optional field over an integral or enum type `t`. */
  function EncodeOpt(t: Ty, o: Option<int>): seq<byte>
    requires Scalar(t) && OptInRange(o, t.width, t.signed)
  {
    Encode(TOptional(t), OptValue(o))
  }

  function DecodeOpt(t: Ty, s: seq<byte>): Result<(Option<int>, seq<byte>), DecodeError>
  {
    match Decode(TOptional(t), s)
    case Err(e) => Err(e)
    case Ok((v, r)) => Ok((if v.VSome? && v.v.VInt? then Some(v.v.i) else None, r))
  }

  lemma OptRoundTrip(t: Ty, o: Option<int>, rest: seq<byte>)
    requires Scalar(t) && OptInRange(o, t.width, t.signed)
    ensures DecodeOpt(t, EncodeOpt(t, o) + rest) == Ok((o, rest))
  {
    RoundTrip(TOptional(t), OptValue(o), rest);
  }

  // ---------------------------------------------------------------------------
  // The configuration in three runs of fields: identity (tp_ns,
  // partition_count, replication_factor), the five optionals (compression,
  // cleanup policy, compaction strategy, timestamp type, segment size) and the
  // two retention tristates (bytes, duration).

  /** tp_ns, partition_count and replication_factor: read the same way by
    * both revisions of the configuration. */
  datatype Identity = Identity(ns: seq<byte>, topic: seq<byte>, partitionCount: int, replicationFactor: int)

  predicate ValidIdentity(id: Identity)
  {
    && |id.ns| < Int32Limit && |id.topic| < Int32Limit
    && InRange(id.partitionCount, 4, true) && InRange(id.replicationFactor, 2, true)
  }

  function IdentityOf(c: TopicConfiguration): (id: Identity)
    ensures ValidConfig(c) ==> ValidIdentity(id)
  {
    Identity(c.ns, c.topic, c.partitionCount, c.replicationFactor)
  }

  function EncodeIdentity(id: Identity): seq<byte>
    requires ValidIdentity(id)
  {
    EncodeName(id.ns) + (EncodeName(id.topic)
      + (EncodeInt(id.partitionCount, 4, true) + EncodeInt(id.replicationFactor, 2, true)))
  }

  function DecodeIdentity(s: seq<byte>): Result<(Identity, seq<byte>), DecodeError>
  {
    match DecodeName(s)
    case Err(e) => Err(e)
    case Ok((ns, r1)) =>
      match DecodeName(r1)
      case Err(e) => Err(e)
      case Ok((topic, r2)) =>
        match DecodeScalar(4, true, r2)
        case Err(e) => Err(e)
        case Ok((count, r3)) =>
          match DecodeScalar(2, true, r3)
          case Err(e) => Err(e)
          case Ok((rf, r4)) => Ok((Identity(ns, topic, count, rf), r4))
  }

  lemma IdentityRoundTrip(id: Identity, rest: seq<byte>)
    requires ValidIdentity(id)
    ensures DecodeIdentity(EncodeIdentity(id) + rest) == Ok((id, rest))
  {
    var e1, e2 := EncodeName(id.ns), EncodeName(id.topic);
    var e3, e4 := EncodeInt(id.partitionCount, 4, true), EncodeInt(id.replicationFactor, 2, true);
    ConcatAssoc(e1, e2 + (e3 + e4), rest);
    ConcatAssoc(e2, e3 + e4, rest);
    ConcatAssoc(e3, e4, rest);
    NameRoundTrip(id.ns, e2 + (e3 + (e4 + rest)));
    NameRoundTrip(id.topic, e3 + (e4 + rest));
    ScalarRoundTrip(id.partitionCount, 4, true, e4 + rest);
    ScalarRoundTrip(id.replicationFactor, 2, true, rest);
  }

  function EncodeOptionals(c: TopicConfiguration): seq<byte>
    requires ValidConfig(c)
  {
    EncodeOpt(TEnum(1, false), c.compression) + (EncodeOpt(TEnum(1, false), c.cleanupPolicy)
      + (EncodeOpt(TEnum(1, true), c.compactionStrategy) + (EncodeOpt(TEnum(1, false), c.timestampType)
      + EncodeOpt(TInt(8, false), c.segmentSize))))
  }

  datatype Optionals = Optionals(
    compression: Option<int>, cleanupPolicy: Option<int>, compactionStrategy: Option<int>,
    timestampType: Option<int>, segmentSize: Option<int>)

  function DecodeOptionals(s: seq<byte>): Result<(Optionals, seq<byte>), DecodeError>
  {
    match DecodeOpt(TEnum(1, false), s)
    case Err(e) => Err(e)
    case Ok((o1, r1)) =>
      match DecodeOpt(TEnum(1, false), r1)
      case Err(e) => Err(e)
      case Ok((o2, r2)) =>
        match DecodeOpt(TEnum(1, true), r2)
        case Err(e) => Err(e)
        case Ok((o3, r3)) =>
          match DecodeOpt(TEnum(1, false), r3)
          case Err(e) => Err(e)
          case Ok((o4, r4)) =>
            match DecodeOpt(TInt(8, false), r4)
            case Err(e) => Err(e)
            case Ok((o5, r5)) => Ok((Optionals(o1, o2, o3, o4, o5), r5))
  }

  lemma OptionalsRoundTrip(c: TopicConfiguration, rest: seq<byte>)
    requires ValidConfig(c)
    ensures DecodeOptionals(EncodeOptionals(c) + rest)
         == Ok((Optionals(c.compression, c.cleanupPolicy, c.compactionStrategy, c.timestampType, c.segmentSize), rest))
  {
    var e1, e2 := EncodeOpt(TEnum(1, false), c.compression), EncodeOpt(TEnum(1, false), c.cleanupPolicy);
    var e3, e4 := EncodeOpt(TEnum(1, true), c.compactionStrategy), EncodeOpt(TEnum(1, false), c.timestampType);
    var e5 := EncodeOpt(TInt(8, false), c.segmentSize);
    ConcatAssoc(e1, e2 + (e3 + (e4 + e5)), rest);
    ConcatAssoc(e2, e3 + (e4 + e5), rest);
    ConcatAssoc(e3, e4 + e5, rest);
    ConcatAssoc(e4, e5, rest);
    OptRoundTrip(TEnum(1, false), c.compression, e2 + (e3 + (e4 + (e5 + rest))));
    OptRoundTrip(TEnum(1, false), c.cleanupPolicy, e3 + (e4 + (e5 + rest)));
    OptRoundTrip(TEnum(1, true), c.compactionStrategy, e4 + (e5 + rest));
    OptRoundTrip(TEnum(1, false), c.timestampType, e5 + rest);
    OptRoundTrip(TInt(8, false), c.segmentSize, rest);
  }

  function EncodeRetention(c: TopicConfiguration): seq<byte>
    requires ValidConfig(c)
  {
    EncodeTristate(c.retentionBytes, 8, false) + EncodeTristate(c.retentionDuration, 8, true)
  }

  function DecodeRetention(s: seq<byte>): Result<((Tristate<int>, Tristate<int>), seq<byte>), DecodeError>
  {
    match DecodeTristate(s, 8, false)
    case Err(e) => Err(e)
    case Ok((rb, r1)) =>
      match DecodeTristate(r1, 8, true)
      case Err(e) => Err(e)
      case Ok((rd, r2)) => Ok(((rb, rd), r2))
  }

  lemma RetentionRoundTrip(c: TopicConfiguration, rest: seq<byte>)
    requires ValidConfig(c)
    ensures DecodeRetention(EncodeRetention(c) + rest) == Ok(((c.retentionBytes, c.retentionDuration), rest))
  {
    var t1, t2 := EncodeTristate(c.retentionBytes, 8, false), EncodeTristate(c.retentionDuration, 8, true);
    ConcatAssoc(t1, t2, rest);
    TristateRoundTrip(c.retentionBytes, 8, false, t2 + rest);
    TristateRoundTrip(c.retentionDuration, 8, true, rest);
  }

  /** `adl<topic_configuration>::to`: the ten fields in declaration order. */
  function EncodeConfig(c: TopicConfiguration): seq<byte>
    requires ValidConfig(c)
  {
    EncodeIdentity(IdentityOf(c)) + (EncodeOptionals(c) + EncodeRetention(c))
  }

  /** `adl<topic_configuration>::from`: reads the same fields in the same
    * order. */
  function DecodeConfig(s: seq<byte>): Result<(TopicConfiguration, seq<byte>), DecodeError>
  {
    match DecodeIdentity(s)
    case Err(e) => Err(e)
    case Ok((id, r1)) =>
      match DecodeOptionals(r1)
      case Err(e) => Err(e)
      case Ok((o, r2)) =>
        match DecodeRetention(r2)
        case Err(e) => Err(e)
        case Ok((rt, r3)) =>
          Ok((TopicConfiguration(id.ns, id.topic, id.partitionCount, id.replicationFactor,
            o.compression, o.cleanupPolicy, o.compactionStrategy, o.timestampType, o.segmentSize,
            rt.0, rt.1), r3))
  }

  /** Reading a written configuration gives it back, leaving what follows. */
  lemma ConfigRoundTrip(c: TopicConfiguration, rest: seq<byte>)
    requires ValidConfig(c)
    ensures DecodeConfig(EncodeConfig(c) + rest) == Ok((c, rest))
  {
    var e1, e2, e3 := EncodeIdentity(IdentityOf(c)), EncodeOptionals(c), EncodeRetention(c);
    ConcatAssoc(e1, e2 + e3, rest);
    ConcatAssoc(e2, e3, rest);
    IdentityRoundTrip(IdentityOf(c), e2 + (e3 + rest));
    OptionalsRoundTrip(c, e3 + rest);
    RetentionRoundTrip(c, rest);
  }

  /** `adl<topic_configuration>::to(out, cfg)`: serializes the fields into
    * `out` one after another. */
  method WriteConfig(out: Iobuf, c: TopicConfiguration)
    requires out.Valid() && ValidConfig(c)
    modifies out
    ensures out.Valid() && out.Contents() == old(out.Contents()) + EncodeConfig(c)
  {
    ghost var start := out.Contents();
    WriteIdentity(out, IdentityOf(c));
    WriteOptionals(out, c);
    WriteRetention(out, c);
    ConcatAssoc(start + EncodeIdentity(IdentityOf(c)), EncodeOptionals(c), EncodeRetention(c));
    ConcatAssoc(start, EncodeIdentity(IdentityOf(c)), EncodeOptionals(c) + EncodeRetention(c));
  }

  method WriteIdentity(out: Iobuf, id: Identity)
    requires out.Valid() && ValidIdentity(id)
    modifies out
    ensures out.Valid() && out.Contents() == old(out.Contents()) + EncodeIdentity(id)
  {
    ghost var s0 := out.Contents();
    ghost var e1, e2 := EncodeName(id.ns), EncodeName(id.topic);
    ghost var e3, e4 := EncodeInt(id.partitionCount, 4, true), EncodeInt(id.replicationFactor, 2, true);
    To(out, TString, VBytes(id.ns));
    To(out, TString, VBytes(id.topic));
    To(out, TInt(4, true), VInt(id.partitionCount));
    To(out, TInt(2, true), VInt(id.replicationFactor));
    assert out.Contents() == (((s0 + e1) + e2) + e3) + e4;
    ConcatAssoc(s0 + e1 + e2, e3, e4);
    ConcatAssoc(s0 + e1, e2, e3 + e4);
    ConcatAssoc(s0, e1, e2 + (e3 + e4));
  }

  method WriteOptionals(out: Iobuf, c: TopicConfiguration)
    requires out.Valid() && ValidConfig(c)
    modifies out
    ensures out.Valid() && out.Contents() == old(out.Contents()) + EncodeOptionals(c)
  {
    ghost var s0 := out.Contents();
    ghost var e1, e2 := EncodeOpt(TEnum(1, false), c.compression), EncodeOpt(TEnum(1, false), c.cleanupPolicy);
    ghost var e3, e4 := EncodeOpt(TEnum(1, true), c.compactionStrategy), EncodeOpt(TEnum(1, false), c.timestampType);
    ghost var e5 := EncodeOpt(TInt(8, false), c.segmentSize);
    To(out, TOptional(TEnum(1, false)), OptValue(c.compression));
    To(out, TOptional(TEnum(1, false)), OptValue(c.cleanupPolicy));
    To(out, TOptional(TEnum(1, true)), OptValue(c.compactionStrategy));
    To(out, TOptional(TEnum(1, false)), OptValue(c.timestampType));
    To(out, TOptional(TInt(8, false)), OptValue(c.segmentSize));
    assert out.Contents() == ((((s0 + e1) + e2) + e3) + e4) + e5;
    ConcatAssoc(s0 + e1 + e2 + e3, e4, e5);
    ConcatAssoc(s0 + e1 + e2, e3, e4 + e5);
    ConcatAssoc(s0 + e1, e2, e3 + (e4 + e5));
    ConcatAssoc(s0, e1, e2 + (e3 + (e4 + e5)));
  }

  method WriteRetention(out: Iobuf, c: TopicConfiguration)
    requires out.Valid() && ValidConfig(c)
    modifies out
    ensures out.Valid() && out.Contents() == old(out.Contents()) + EncodeRetention(c)
  {
    ghost var s0 := out.Contents();
    var t1 := EncodeTristate(c.retentionBytes, 8, false);
    var t2 := EncodeTristate(c.retentionDuration, 8, true);
    out.AppendBytes(t1);
    out.AppendBytes(t2);
    ConcatAssoc(s0, t1, t2);
  }

  // ---------------------------------------------------------------------------
  // make_ntp_config.

  /** Per-partition overrides of the storage defaults. */
  datatype Overrides = Overrides(
    cleanupPolicy: Option<int>,
    compactionStrategy: Option<int>,
    segmentSize: Option<int>,
    retentionBytes: Tristate<int>,
    retentionTime: Tristate<int>)

  /** storage::ntp_config: the partition, its base directory and optional
    * overrides. */
  datatype NtpConfig = NtpConfig(ntp: M.Ntp, baseDir: string, overrides: Option<Overrides>)

  /** A configuration overrides the defaults when any of the five override
    * fields is set, or when a tristate one is explicitly disabled. */
  predicate HasOverrides(c: TopicConfiguration)
  {
    c.cleanupPolicy.Some? || c.compactionStrategy.Some? || c.segmentSize.Some?
    || c.retentionBytes.HasValue() || c.retentionBytes.IsDisabled()
    || c.retentionDuration.HasValue() || c.retentionDuration.IsDisabled()
  }

  function MakeNtpConfig(c: TopicConfiguration, workDir: string, partition: int): (r: NtpConfig)
    ensures r.ntp == M.Ntp(BytesToString(c.ns), BytesToString(c.topic), partition)
    ensures r.baseDir == workDir
    ensures r.overrides.Some? <==>
      c.cleanupPolicy.Some? || c.compactionStrategy.Some? || c.segmentSize.Some?
      || !c.retentionBytes.Unset? || !c.retentionDuration.Unset?
    ensures r.overrides.Some? ==>
      r.overrides.value == Overrides(c.cleanupPolicy, c.compactionStrategy, c.segmentSize,
                                     c.retentionBytes, c.retentionDuration)
  {
    var ret := NtpConfig(M.Ntp(BytesToString(c.ns), BytesToString(c.topic), partition), workDir, None);
    if HasOverrides(c) then
      ret.(overrides := Some(Overrides(c.cleanupPolicy, c.compactionStrategy, c.segmentSize,
                                       c.retentionBytes, c.retentionDuration)))
    else ret
  }

  /** Compression and timestamp type are not storage overrides: changing them
    * alone never attaches overrides. */
  lemma OverridesIgnoreCodecs(c: TopicConfiguration, comp: Option<int>, ts: Option<int>, dir: string, p: int)
    ensures MakeNtpConfig(c.(compression := comp, timestampType := ts), dir, p)
         == MakeNtpConfig(c, dir, p)
  {
  }

  // ---------------------------------------------------------------------------
  // Vectors of configurations: the generic adl vector over the configuration's
  // own adl specialization.

  predicate AllValidConfigs(cs: seq<TopicConfiguration>)
  {
    forall i | 0 <= i < |cs| :: ValidConfig(cs[i])
  }

  function EncodeConfigs(cs: seq<TopicConfiguration>): seq<byte>
    requires AllValidConfigs(cs)
  {
    EncodeVectorWith(EncodeConfig, cs)
  }

  function DecodeConfigs(s: seq<byte>): Result<(seq<TopicConfiguration>, seq<byte>), DecodeError>
  {
    DecodeVectorWith(DecodeConfig, s)
  }

  lemma ConfigsRoundTrip(cs: seq<TopicConfiguration>, rest: seq<byte>)
    requires AllValidConfigs(cs) && |cs| < Int32Limit
    ensures DecodeConfigs(EncodeConfigs(cs) + rest) == Ok((cs, rest))
  {
    forall i, r | 0 <= i < |cs| ensures DecodeConfig(EncodeConfig(cs[i]) + r) == Ok((cs[i], r)) {
      ConfigRoundTrip(cs[i], r);
    }
    VectorWithRoundTrip(EncodeConfig, DecodeConfig, cs, rest);
  }

  // ---------------------------------------------------------------------------
  // topic_result: tp_ns then the cluster error code.

  datatype TopicResult = TopicResult(ns: seq<byte>, topic: seq<byte>, ec: int)

  /** cluster::errc, through its int16 underlying type. */
  const ErrcTy: Ty := TEnum(2, true)
  const TopicResultTy: Ty := TStruct([TString, TString, ErrcTy])

  predicate ValidResult(r: TopicResult)
  {
    |r.ns| < Int32Limit && |r.topic| < Int32Limit && InRange(r.ec, 2, true)
  }

  function ResultValue(r: TopicResult): (v: Value)
    requires ValidResult(r)
    ensures WellTyped(TopicResultTy, v) && Fits(TopicResultTy, v)
  {
    var v := VStruct([VBytes(r.ns), VBytes(r.topic), VInt(r.ec)]);
    ResultFieldsTyped(r);
    v
  }

  lemma ResultFieldsTyped(r: TopicResult)
    requires ValidResult(r)
    ensures FieldsWellTyped([TString, TString, ErrcTy], [VBytes(r.ns), VBytes(r.topic), VInt(r.ec)])
    ensures FieldsFit([TString, TString, ErrcTy], [VBytes(r.ns), VBytes(r.topic), VInt(r.ec)])
  {
    var ts: seq<Ty> := [TString, TString, ErrcTy];
    var vs: seq<Value> := [VBytes(r.ns), VBytes(r.topic), VInt(r.ec)];
    FieldsWellTypedIff(ts, vs);
    FieldsFitIff(ts, vs);
  }

  function ResultOf(v: Value): (r: TopicResult)
    requires WellTyped(TopicResultTy, v)
  {
    FieldsWellTypedIff([TString, TString, ErrcTy], v.fields);
    assert WellTyped(TString, v.fields[0]) && WellTyped(TString, v.fields[1]);
    assert WellTyped(ErrcTy, v.fields[2]);
    TopicResult(v.fields[0].bytes, v.fields[1].bytes, v.fields[2].i)
  }

  function EncodeTopicResult(r: TopicResult): seq<byte>
    requires ValidResult(r)
  {
    Encode(TopicResultTy, ResultValue(r))
  }

  function DecodeTopicResult(s: seq<byte>): Result<(TopicResult, seq<byte>), DecodeError>
  {
    match Decode(TopicResultTy, s)
    case Err(e) => Err(e)
    case Ok((v, rest)) =>
      DecodeWellTyped(TopicResultTy, s);
      Ok((ResultOf(v), rest))
  }

  /** A topic result is written as its namespace and topic strings, then the
    * int16 error code, and is read back in that order. */
  lemma TopicResultRoundTrip(r: TopicResult, rest: seq<byte>)
    requires ValidResult(r)
    ensures EncodeTopicResult(r) ==
      EncodeLength(|r.ns|) + r.ns + (EncodeLength(|r.topic|) + r.topic + EncodeInt(r.ec, 2, true))
    ensures DecodeTopicResult(EncodeTopicResult(r) + rest) == Ok((r, rest))
  {
    ResultFieldsTyped(r);
    var ts: seq<Ty> := [TString, TString, ErrcTy];
    var vs: seq<Value> := [VBytes(r.ns), VBytes(r.topic), VInt(r.ec)];
    FieldsSuffix(ts, vs, 0);
    FieldsSuffix(ts, vs, 1);
    FieldsSuffix(ts, vs, 2);
    assert ts[0..] == ts && vs[0..] == vs;
    assert EncodeFields(ts[3..], vs[3..]) == [];
    assert EncodeFields(ts[2..], vs[2..]) == EncodeInt(r.ec, 2, true);
    RoundTrip(TopicResultTy, ResultValue(r), rest);
  }

  // ---------------------------------------------------------------------------
  // create_topics_request: topics then timeout.

  datatype CreateTopicsRequest = CreateTopicsRequest(topics: seq<TopicConfiguration>, timeout: int)

  predicate ValidRequest(r: CreateTopicsRequest)
  {
    AllValidConfigs(r.topics) && |r.topics| < Int32Limit && InRange(r.timeout, 8, true)
  }

  function EncodeCreateTopicsRequest(r: CreateTopicsRequest): seq<byte>
    requires ValidRequest(r)
  {
    EncodeConfigs(r.topics) + EncodeDuration(r.timeout)
  }

  function DecodeCreateTopicsRequest(s: seq<byte>): Result<(CreateTopicsRequest, seq<byte>), DecodeError>
  {
    match DecodeConfigs(s)
    case Err(e) => Err(e)
    case Ok((cs, r1)) =>
      match DecodeDuration(r1)
      case Err(e) => Err(e)
      case Ok((d, r2)) => Ok((CreateTopicsRequest(cs, d), r2))
  }

  lemma CreateTopicsRequestRoundTrip(r: CreateTopicsRequest, rest: seq<byte>)
    requires ValidRequest(r)
    ensures DecodeCreateTopicsRequest(EncodeCreateTopicsRequest(r) + rest) == Ok((r, rest))
  {
    var d := EncodeDuration(r.timeout);
    ConcatAssoc(EncodeConfigs(r.topics), d, rest);
    ConfigsRoundTrip(r.topics, d + rest);
    DurationRoundTrip(r.timeout, rest);
  }

  // ---------------------------------------------------------------------------
  // create_topics_reply: results, metadata, then configs. The adl form of
  // model::topic_metadata is not part of this model; it is any adl type
  // `mdTy`.

  datatype CreateTopicsReply = CreateTopicsReply(
    results: seq<TopicResult>, metadata: seq<Value>, configs: seq<TopicConfiguration>)

  predicate ValidReply(mdTy: Ty, r: CreateTopicsReply)
  {
    && (forall i | 0 <= i < |r.results| :: ValidResult(r.results[i]))
    && |r.results| < Int32Limit
    && AllWellTyped(mdTy, r.metadata) && AllFit(mdTy, r.metadata) && |r.metadata| < Int32Limit
    && AllValidConfigs(r.configs) && |r.configs| < Int32Limit
  }

  function EncodeCreateTopicsReply(mdTy: Ty, r: CreateTopicsReply): seq<byte>
    requires ValidReply(mdTy, r)
  {
    EncodeVectorWith(EncodeTopicResult, r.results)
      + (Encode(TVector(mdTy), VVector(r.metadata)) + EncodeConfigs(r.configs))
  }

  function DecodeCreateTopicsReply(mdTy: Ty, s: seq<byte>): Result<(CreateTopicsReply, seq<byte>), DecodeError>
  {
    match DecodeVectorWith(DecodeTopicResult, s)
    case Err(e) => Err(e)
    case Ok((rs, r1)) =>
      (match Decode(TVector(mdTy), r1)
      case Err(e) => Err(e)
      case Ok((mv, r2)) =>
        DecodeWellTyped(TVector(mdTy), r1);
        match DecodeConfigs(r2)
        case Err(e) => Err(e)
        case Ok((cs, r3)) => Ok((CreateTopicsReply(rs, mv.elems, cs), r3)))
  }

  lemma CreateTopicsReplyRoundTrip(mdTy: Ty, r: CreateTopicsReply, rest: seq<byte>)
    requires ValidReply(mdTy, r)
    ensures DecodeCreateTopicsReply(mdTy, EncodeCreateTopicsReply(mdTy, r) + rest) == Ok((r, rest))
  {
    var mv := VVector(r.metadata);
    var e1, e2, e3 := EncodeVectorWith(EncodeTopicResult, r.results), Encode(TVector(mdTy), mv), EncodeConfigs(r.configs);
    ConcatAssoc(e1, e2 + e3, rest);
    ConcatAssoc(e2, e3, rest);
    forall i, x | 0 <= i < |r.results|
      ensures DecodeTopicResult(EncodeTopicResult(r.results[i]) + x) == Ok((r.results[i], x))
    {
      TopicResultRoundTrip(r.results[i], x);
    }
    VectorWithRoundTrip(EncodeTopicResult, DecodeTopicResult, r.results, e2 + (e3 + rest));
    RoundTrip(TVector(mdTy), mv, e3 + rest);
    ConfigsRoundTrip(r.configs, rest);
  }
}
