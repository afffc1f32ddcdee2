/** The `model` vocabulary: partition names and their on-disk path, the
  * compression codec enumeration with its textual parser and printer, and the
  * printers of timestamps and timestamp types. */
module ModelTypes {
  import opened Common

  /** The value of a default-constructed `model::offset` or `model::term_id`
    * (utils/named_type.h is not part of this model: its default is taken to
    * be the int64 minimum). */
  const Unset: int := -0x8000_0000_0000_0000

  // ---------------------------------------------------------------------------
  // Namespaced topic partitions.

  /** A namespaced topic partition: namespace, topic and partition id. */
  datatype Ntp = Ntp(ns: string, topic: string, partition: int)

  /** `ntp::path`: namespace, topic and partition joined with '/'. */
  function NtpPath(n: Ntp): (p: string)
    ensures |p| > |n.ns| + |n.topic| + 2
    ensures n.ns == p[..|n.ns|] && p[|n.ns|] == '/'
  {
    NatToStringDigits(if n.partition < 0 then -n.partition else n.partition);
    n.ns + "/" + n.topic + "/" + IntToString(n.partition)
  }

  lemma IntToStringNoSlash(i: int)
    ensures NoChar(IntToString(i), '/')
  {
    if i < 0 {
      NatToStringDigits(-i);
      var s := IntToString(i);
      assert s == "-" + NatToString(-i);
      forall k | 0 <= k < |s| ensures s[k] != '/' {
        if k > 0 { assert s[k] == NatToString(-i)[k - 1]; }
      }
    } else {
      NatToStringDigits(i);
    }
  }

  /** When neither the namespace nor the topic contains '/', the path splits
    * back into exactly its three components. */
  lemma NtpPathSplits(n: Ntp)
    requires NoChar(n.ns, '/') && NoChar(n.topic, '/')
    ensures Split(NtpPath(n), '/') == [n.ns, n.topic, IntToString(n.partition)]
  {
    var part := IntToString(n.partition);
    IntToStringNoSlash(n.partition);
    assert NtpPath(n) == n.ns + ['/'] + (n.topic + ['/'] + part);
    SplitCons(n.ns, '/', n.topic + ['/'] + part);
    SplitCons(n.topic, '/', part);
    SplitNoChar(part, '/');
  }

  /** Distinct partitions of a topic, or partitions of different topics whose
    * names contain no '/', have distinct paths. */
  lemma NtpPathInjective(a: Ntp, b: Ntp)
    requires NoChar(a.ns, '/') && NoChar(a.topic, '/')
    requires NoChar(b.ns, '/') && NoChar(b.topic, '/')
    requires NtpPath(a) == NtpPath(b)
    ensures a == b
  {
    NtpPathSplits(a);
    NtpPathSplits(b);
    IntToStringInjective(a.partition, b.partition);
  }

  /** A rendered integer is non-empty and starts with '-' exactly when the
    * integer is negative, and with a digit otherwise. */
  lemma IntToStringShape(i: int)
    ensures |IntToString(i)| >= 1
    ensures IntToString(i)[0] == '-' <==> i < 0
    ensures i >= 0 ==> IsDigit(IntToString(i)[0])
    ensures i < 0 ==> IntToString(i)[1..] == NatToString(-i)
  {
    NatToStringDigits(if i < 0 then -i else i);
  }

  lemma IntToStringInjective(a: int, b: int)
    requires IntToString(a) == IntToString(b)
    ensures a == b
  {
    IntToStringShape(a);
    IntToStringShape(b);
    if a < 0 && b < 0 {
      NatToStringInjective(-a, -b);
    } else if a >= 0 && b >= 0 {
      NatToStringInjective(a, b);
    }
  }

  // ---------------------------------------------------------------------------
  // Compression codecs.

  /** A compression value: the enumeration's one-byte underlying integer. Only
    * the five codes below are named enumerators. */
  type Compression = c: int | 0 <= c < 256

  const CompressionNone: Compression := 0
  const CompressionGzip: Compression := 1
  const CompressionSnappy: Compression := 2
  const CompressionLz4: Compression := 3
  const CompressionZstd: Compression := 4

  predicate IsCodec(c: Compression) { c <= CompressionZstd }

  /** The enumerator name of a codec as the printer spells it. */
  function CodecName(c: Compression): (s: string)
    requires IsCodec(c)
  {
    ["none", "gzip", "snappy", "lz4", "zstd"][c]
  }

  /** `operator<<(compression)`: the codec's name in braces, or "ERROR" for a
    * value that is not one of the enumerators. */
  function PrintCompression(c: Compression): (s: string)
  {
    "{compression: " + (if IsCodec(c) then CodecName(c) else "ERROR") + "}"
  }

  datatype ParseError = NoMatch(token: string)

  /** `operator>>(compression)`: a word read from the stream, matched against
    * the accepted names; a word that matches none of them fails. */
  function ParseCompression(s: string): (r: Result<Compression, ParseError>)
    ensures r.Ok? ==> IsCodec(r.value)
    ensures r.Err? ==> r.error == NoMatch(s)
  {
    if s == "none" || s == "uncompressed" then Ok(CompressionNone)
    else if s == "gzip" then Ok(CompressionGzip)
    else if s == "snappy" then Ok(CompressionSnappy)
    else if s == "lz4" then Ok(CompressionLz4)
    else if s == "zstd" then Ok(CompressionZstd)
    else Err(NoMatch(s))
  }

  /** The words the parser accepts are exactly the five names and the alias
    * "uncompressed". */
  lemma ParseCompressionAccepts(s: string)
    ensures ParseCompression(s).Ok? <==>
      s in ["none", "uncompressed", "gzip", "snappy", "lz4", "zstd"]
    ensures s == "uncompressed" ==> ParseCompression(s) == Ok(CompressionNone)
  {
  }

  /** A codec prints as its name in braces and that name parses back to the
    * same codec; any other value prints "ERROR", which does not parse. */
  lemma PrintParseRoundTrip(c: Compression)
    ensures IsCodec(c) ==>
      PrintCompression(c) == "{compression: " + CodecName(c) + "}" &&
      ParseCompression(CodecName(c)) == Ok(c)
    ensures !IsCodec(c) ==>
      PrintCompression(c) == "{compression: ERROR}" &&
      ParseCompression("ERROR").Err?
  {
  }

  /** Distinct codecs print differently. */
  lemma PrintCompressionInjective(a: Compression, b: Compression)
    requires IsCodec(a) && IsCodec(b) && PrintCompression(a) == PrintCompression(b)
    ensures a == b
  {
    var pre := "{compression: ";
    assert PrintCompression(a)[|pre|..|PrintCompression(a)| - 1] == CodecName(a);
    assert PrintCompression(b)[|pre|..|PrintCompression(b)| - 1] == CodecName(b);
  }

  // ---------------------------------------------------------------------------
  // Timestamps.

  /** `timestamp::missing()`, the sentinel of an absent timestamp. */
  const TimestampMissing: int := -1

  /** `operator<<(timestamp)`. */
  function PrintTimestamp(ts: int): (s: string)
  {
    if ts != TimestampMissing then "{timestamp: " + IntToString(ts) + "}"
    else "{timestamp: missing}"
  }

  lemma PrintTimestampBody(a: int)
    ensures a != TimestampMissing ==>
      PrintTimestamp(a)[12..|PrintTimestamp(a)| - 1] == IntToString(a)
    ensures a == TimestampMissing ==>
      PrintTimestamp(a)[12..|PrintTimestamp(a)| - 1] == "missing"
    ensures IntToString(a) != "missing"
  {
    IntToStringShape(a);
  }

  /** A timestamp prints "missing" exactly when it is the sentinel. */
  lemma PrintTimestampMissing(a: int)
    ensures PrintTimestamp(a) == "{timestamp: missing}" <==> a == TimestampMissing
  {
    if a != TimestampMissing {
      // Position 12 holds the first character of the number, never an `m`.
      IntToStringShape(a);
      var t := PrintTimestamp(a);
      assert t == "{timestamp: " + IntToString(a) + "}";
      assert t[12] == IntToString(a)[0];
      assert "{timestamp: missing}"[12] == 'm';
    }
  }

  /** Two timestamps print alike only when they are equal. */
  lemma PrintTimestampInjective(a: int, b: int)
    requires PrintTimestamp(a) == PrintTimestamp(b)
    ensures a == b
  {
    PrintTimestampBody(a);
    PrintTimestampBody(b);
    if a != TimestampMissing && b != TimestampMissing {
      IntToStringInjective(a, b);
    }
  }

  /** A timestamp type: the enumeration's one-byte underlying integer. */
  type TimestampType = t: int | 0 <= t < 256

  const CreateTime: TimestampType := 0
  const AppendTime: TimestampType := 1

  /** `operator<<(timestamp_type)`. */
  function PrintTimestampType(t: TimestampType): (s: string)
  {
    if t == AppendTime then "{append_time}"
    else if t == CreateTime then "{create_time}"
    else "{unknown timestamp:" + IntToString(t) + "}"
  }

  /** The two enumerators print their names; any other value prints as unknown,
    * with its integer, so distinct values print differently. */
  lemma PrintTimestampTypeMeaning(a: TimestampType, b: TimestampType)
    ensures a == AppendTime <==> PrintTimestampType(a) == "{append_time}"
    ensures a == CreateTime <==> PrintTimestampType(a) == "{create_time}"
    ensures PrintTimestampType(a) == PrintTimestampType(b) ==> a == b
  {
    var sa, sb := PrintTimestampType(a), PrintTimestampType(b);
    assert a > AppendTime <==> sa[1] == 'u';
    assert b > AppendTime <==> sb[1] == 'u';
    if sa == sb && a > AppendTime && b > AppendTime {
      assert sa[19..|sa| - 1] == IntToString(a);
      assert sb[19..|sb| - 1] == IntToString(b);
      IntToStringInjective(a, b);
    }
  }
}
