/** redpanda/kafka/requests/metadata_request.cc: the metadata API. The
  * request is read (the requested topics, then the auto-creation flag from
  * version 4 on) and the response is written field by field, each optional
  * field gated by the request's version. The wire is modelled as a sequence of
  * typed protocol fields; an array is its int32 count followed by its
  * elements. */
module MetadataRequest {
  import opened Common

  /** Kafka protocol error codes. */
  const ErrorNone := 0
  const UnknownTopicOrPartition := 3

  /** One protocol field as the request reader and response writer see it. */
  datatype Field =
    | I16(i16: int)
    | I32(i32: int)
    | Str(s: string)
    | NullableStr(ns: Option<string>)
    | Bool(b: bool)

  /** A reader of one element: the element and the fields after it. */
  type Reader<T> = (int, seq<Field>) -> Option<(T, seq<Field>)>

  // ---------------------------------------------------------------------------
  // Arrays, generically.

  /** The elements' fields, one element after the other. */
  function WriteMany<T>(v: int, xs: seq<T>, write: (int, T) -> seq<Field>): seq<Field>
  {
    if xs == [] then [] else write(v, xs[0]) + WriteMany(v, xs[1..], write)
  }

  /** `write_array`: the count, then the elements. */
  function WriteArray<T>(v: int, xs: seq<T>, write: (int, T) -> seq<Field>): seq<Field>
  {
    [I32(|xs|)] + WriteMany(v, xs, write)
  }

  /** `n` elements, read one after the other. */
  function ReadMany<T>(v: int, n: nat, ts: seq<Field>, read: Reader<T>): Option<(seq<T>, seq<Field>)>
  {
    if n == 0 then Some(([], ts))
    else match read(v, ts)
      case None => None
      case Some((x, ts1)) =>
        match ReadMany(v, n - 1, ts1, read)
        case None => None
        case Some((xs, ts2)) => Some(([x] + xs, ts2))
  }

  /** `read_array`: a non-negative count, then that many elements. */
  function ReadArray<T>(v: int, ts: seq<Field>, read: Reader<T>): Option<(seq<T>, seq<Field>)>
  {
    if ts != [] && ts[0].I32? && ts[0].i32 >= 0 then ReadMany(v, ts[0].i32, ts[1..], read)
    else None
  }

  /** `xs` with each element replaced by what a reader recovers of it. */
  function Map<T>(v: int, xs: seq<T>, f: (int, T) -> T): (r: seq<T>)
    ensures |r| == |xs|
  {
    if xs == [] then [] else [f(v, xs[0])] + Map(v, xs[1..], f)
  }

  /** An element reader that recovers `norm` of each element of `xs`
    * written by `write`, whatever follows it. */
  ghost predicate ReadsBack<T>(v: int, xs: seq<T>, write: (int, T) -> seq<Field>, read: Reader<T>, norm: (int, T) -> T)
  {
    forall x, r :: x in xs ==> read(v, write(v, x) + r) == Some((norm(v, x), r))
  }

  /** When each element reads back as `norm` of itself, the elements read
    * back as the normalised elements, leaving the fields after them. */
  lemma {:induction false} ManyRoundTrip<T>(v: int, xs: seq<T>, rest: seq<Field>,
                                           write: (int, T) -> seq<Field>, read: Reader<T>, norm: (int, T) -> T)
    requires ReadsBack(v, xs, write, read, norm)
    ensures ReadMany(v, |xs|, WriteMany(v, xs, write) + rest, read) == Some((Map(v, xs, norm), rest))
  {
    if xs == [] {
      assert WriteMany(v, xs, write) + rest == rest;
    } else {
      var tail := WriteMany(v, xs[1..], write) + rest;
      assert WriteMany(v, xs, write) + rest == write(v, xs[0]) + tail;
      assert read(v, write(v, xs[0]) + tail) == Some((norm(v, xs[0]), tail));
      assert ReadsBack(v, xs[1..], write, read, norm) by {
        forall x, r | x in xs[1..] ensures read(v, write(v, x) + r) == Some((norm(v, x), r)) {
          assert x in xs;
        }
      }
      ManyRoundTrip(v, xs[1..], rest, write, read, norm);
      assert |xs[1..]| == |xs| - 1;
      assert ReadMany(v, |xs| - 1, tail, read) == Some((Map(v, xs[1..], norm), rest));
      assert Map(v, xs, norm) == [norm(v, xs[0])] + Map(v, xs[1..], norm);
    }
  }

  /** The same for an array, with its count. */
  lemma ArrayRoundTrip<T>(v: int, xs: seq<T>, rest: seq<Field>,
                          write: (int, T) -> seq<Field>, read: Reader<T>, norm: (int, T) -> T)
    requires ReadsBack(v, xs, write, read, norm)
    ensures ReadArray(v, WriteArray(v, xs, write) + rest, read) == Some((Map(v, xs, norm), rest))
  {
    ManyRoundTrip(v, xs, rest, write, read, norm);
    var ts := WriteArray(v, xs, write) + rest;
    assert ts == [I32(|xs|)] + (WriteMany(v, xs, write) + rest);
    assert ts[1..] == WriteMany(v, xs, write) + rest;
  }

  // ---------------------------------------------------------------------------
  // Scalars.

  function ReadI32(v: int, ts: seq<Field>): Option<(int, seq<Field>)>
  {
    if ts != [] && ts[0].I32? then Some((ts[0].i32, ts[1..])) else None
  }

  function WriteI32(v: int, x: int): seq<Field> { [I32(x)] }

  function SameInt(v: int, x: int): int { x }

  /** An int32 array, such as the replica lists. */
  lemma Int32ArrayRoundTrip(v: int, xs: seq<int>, rest: seq<Field>)
    ensures ReadArray(v, WriteArray(v, xs, WriteI32) + rest, ReadI32) == Some((xs, rest))
  {
    forall x, r | x in xs ensures ReadI32(v, WriteI32(v, x) + r) == Some((SameInt(v, x), r)) {
      assert (WriteI32(v, x) + r)[1..] == r;
    }
    ArrayRoundTrip(v, xs, rest, WriteI32, ReadI32, SameInt);
    MapSame(v, xs);
  }

  lemma {:induction false} MapSame(v: int, xs: seq<int>)
    ensures Map(v, xs, SameInt) == xs
  {
    if xs != [] { MapSame(v, xs[1..]); }
  }

  // ---------------------------------------------------------------------------
  // The request.

  /** The request: the requested topics and the auto-creation flag. */
  datatype Request = Request(topics: seq<string>, allowAutoTopicCreation: bool)

  function ReadString(v: int, ts: seq<Field>): Option<(string, seq<Field>)>
  {
    if ts != [] && ts[0].Str? then Some((ts[0].s, ts[1..])) else None
  }

  function WriteString(v: int, s: string): seq<Field> { [Str(s)] }

  function SameString(v: int, s: string): string { s }

  /** The request fields a version-`v` client sends. */
  function RequestFields(v: int, req: Request): seq<Field>
  {
    WriteArray(v, req.topics, WriteString) + (if v >= 4 then [Bool(req.allowAutoTopicCreation)] else [])
  }

  /** The reads of `process`: the topic array, then the flag only from
    * version 4 on (false before). */
  function ReadRequest(v: int, ts: seq<Field>): Option<(Request, seq<Field>)>
  {
    match ReadArray(v, ts, ReadString)
    case None => None
    case Some((topics, ts1)) =>
      if v < 4 then Some((Request(topics, false), ts1))
      else if ts1 != [] && ts1[0].Bool? then Some((Request(topics, ts1[0].b), ts1[1..]))
      else None
  }

  /** A request reads back whole, except that before version 4 the flag is
    * not on the wire and reads as false. */
  lemma RequestRoundTrip(v: int, req: Request, rest: seq<Field>)
    ensures ReadRequest(v, RequestFields(v, req) + rest) ==
      Some((Request(req.topics, v >= 4 && req.allowAutoTopicCreation), rest))
  {
    forall x, r | x in req.topics ensures ReadString(v, WriteString(v, x) + r) == Some((SameString(v, x), r)) {
      assert (WriteString(v, x) + r)[1..] == r;
    }
    var tail := (if v >= 4 then [Bool(req.allowAutoTopicCreation)] else []) + rest;
    ArrayRoundTrip(v, req.topics, tail, WriteString, ReadString, SameString);
    MapSameString(v, req.topics);
    assert RequestFields(v, req) + rest == WriteArray(v, req.topics, WriteString) + tail;
    assert ReadArray(v, RequestFields(v, req) + rest, ReadString) == Some((req.topics, tail));
    if v >= 4 {
      assert tail[0] == Bool(req.allowAutoTopicCreation) && tail[1..] == rest;
    } else {
      assert tail == rest;
    }
  }

  lemma {:induction false} MapSameString(v: int, xs: seq<string>)
    ensures Map(v, xs, SameString) == xs
  {
    if xs != [] { MapSameString(v, xs[1..]); }
  }

  // ---------------------------------------------------------------------------
  // The response.

  datatype Broker = Broker(nodeId: int, host: string, port: int, rack: Option<string>)

  datatype PartitionMetadata = PartitionMetadata(
    error: int, partition: int, leader: int, replicas: seq<int>, isr: seq<int>, offline: seq<int>)

  datatype TopicMetadata = TopicMetadata(
    error: int, name: string, isInternal: bool, partitions: seq<PartitionMetadata>)

  datatype Response = Response(
    throttleMs: int, brokers: seq<Broker>, clusterId: Option<string>, controllerId: int,
    topics: seq<TopicMetadata>)

  /** A field the version carries, or nothing. */
  function Gated(present: bool, f: Field): seq<Field>
  {
    if present then [f] else []
  }

  /** A broker: id, host, port, and the rack from version 1 on. */
  function BrokerFields(v: int, b: Broker): seq<Field>
  {
    [I32(b.nodeId), Str(b.host), I32(b.port)] + (if v > 0 then [NullableStr(b.rack)] else [])
  }

  /** A partition: error, id, leader, replicas, in-sync replicas, and the
    * offline replicas from version 5 on. */
  function PartitionFields(v: int, p: PartitionMetadata): seq<Field>
  {
    [I16(p.error), I32(p.partition), I32(p.leader)] +
    WriteArray(v, p.replicas, WriteI32) + WriteArray(v, p.isr, WriteI32) +
    (if v >= 5 then WriteArray(v, p.offline, WriteI32) else [])
  }

  /** A topic: error, name, the internal flag from version 1 on, and its
    * partition array. */
  function TopicFields(v: int, t: TopicMetadata): seq<Field>
  {
    ([I16(t.error), Str(t.name)] + Gated(v >= 1, Bool(t.isInternal))) +
    WriteArray(v, t.partitions, PartitionFields)
  }

  /** The topic as `process` writes it: the partitions follow the topic's
    * header without their count. */
  function TopicFieldsAsWritten(v: int, t: TopicMetadata): seq<Field>
  {
    ([I16(t.error), Str(t.name)] + Gated(v >= 1, Bool(t.isInternal))) +
    WriteMany(v, t.partitions, PartitionFields)
  }

  /** The response: the throttle time from version 3 on, the broker array,
    * the cluster id from version 2 on, the controller id from version 1 on,
    * and the topic array. */
  function ResponseFields(v: int, r: Response): seq<Field>
  {
    Gated(v >= 3, I32(r.throttleMs)) +
    (WriteArray(v, r.brokers, BrokerFields) +
     (Gated(v >= 2, NullableStr(r.clusterId)) +
      (Gated(v >= 1, I32(r.controllerId)) +
       WriteArray(v, r.topics, TopicFields))))
  }

  /** The response as `process` writes it (see TopicFieldsAsWritten). */
  function ResponseFieldsAsWritten(v: int, r: Response): seq<Field>
  {
    Gated(v >= 3, I32(r.throttleMs)) +
    (WriteArray(v, r.brokers, BrokerFields) +
     (Gated(v >= 2, NullableStr(r.clusterId)) +
      (Gated(v >= 1, I32(r.controllerId)) +
       WriteArray(v, r.topics, TopicFieldsAsWritten))))
  }

  // The client's side: readers of the same layout, with the defaults a
  // field that the version leaves off the wire takes.

  /** The default of the controller id on versions that do not carry it. */
  const NoController := -1

  function ReadBroker(v: int, ts: seq<Field>): Option<(Broker, seq<Field>)>
  {
    if |ts| >= 3 && ts[0].I32? && ts[1].Str? && ts[2].I32? then
      var b := Broker(ts[0].i32, ts[1].s, ts[2].i32, None);
      if v <= 0 then Some((b, ts[3..]))
      else if |ts| >= 4 && ts[3].NullableStr? then Some((b.(rack := ts[3].ns), ts[4..]))
      else None
    else None
  }

  function ReadPartition(v: int, ts: seq<Field>): Option<(PartitionMetadata, seq<Field>)>
  {
    if |ts| >= 3 && ts[0].I16? && ts[1].I32? && ts[2].I32? then
      match ReadArray(v, ts[3..], ReadI32)
      case None => None
      case Some((replicas, ts1)) =>
        match ReadArray(v, ts1, ReadI32)
        case None => None
        case Some((isr, ts2)) =>
          var p := PartitionMetadata(ts[0].i16, ts[1].i32, ts[2].i32, replicas, isr, []);
          if v < 5 then Some((p, ts2))
          else match ReadArray(v, ts2, ReadI32)
            case None => None
            case Some((offline, ts3)) => Some((p.(offline := offline), ts3))
    else None
  }

  function ReadTopic(v: int, ts: seq<Field>): Option<(TopicMetadata, seq<Field>)>
  {
    if |ts| >= 2 && ts[0].I16? && ts[1].Str? then
      var internal: Option<(bool, seq<Field>)> :=
        if v < 1 then Some((false, ts[2..]))
        else if |ts| >= 3 && ts[2].Bool? then Some((ts[2].b, ts[3..]))
        else None;
      match internal
      case None => None
      case Some((isInternal, ts1)) =>
        match ReadArray(v, ts1, ReadPartition)
        case None => None
        case Some((partitions, ts2)) => Some((TopicMetadata(ts[0].i16, ts[1].s, isInternal, partitions), ts2))
    else None
  }

  /** An int32 the version may carry, or its default. */
  function ReadGatedI32(present: bool, default: int, ts: seq<Field>): Option<(int, seq<Field>)>
  {
    if !present then Some((default, ts))
    else if ts != [] && ts[0].I32? then Some((ts[0].i32, ts[1..]))
    else None
  }

  /** A nullable string the version may carry, or null. */
  function ReadGatedNullableStr(present: bool, ts: seq<Field>): Option<(Option<string>, seq<Field>)>
  {
    if !present then Some((None, ts))
    else if ts != [] && ts[0].NullableStr? then Some((ts[0].ns, ts[1..]))
    else None
  }

  lemma GatedI32RoundTrip(present: bool, default: int, x: int, rest: seq<Field>)
    ensures ReadGatedI32(present, default, Gated(present, I32(x)) + rest) ==
      Some((if present then x else default, rest))
  {
    if present {
      assert (Gated(present, I32(x)) + rest)[1..] == rest;
    } else {
      assert Gated(present, I32(x)) + rest == rest;
    }
  }

  lemma GatedNullableStrRoundTrip(present: bool, x: Option<string>, rest: seq<Field>)
    ensures ReadGatedNullableStr(present, Gated(present, NullableStr(x)) + rest) ==
      Some((if present then x else None, rest))
  {
    if present {
      assert (Gated(present, NullableStr(x)) + rest)[1..] == rest;
    } else {
      assert Gated(present, NullableStr(x)) + rest == rest;
    }
  }

  function ReadResponse(v: int, ts: seq<Field>): Option<(Response, seq<Field>)>
  {
    match ReadGatedI32(v >= 3, 0, ts)
    case None => None
    case Some((throttleMs, ts1)) =>
      match ReadArray(v, ts1, ReadBroker)
      case None => None
      case Some((brokers, ts2)) =>
        match ReadGatedNullableStr(v >= 2, ts2)
        case None => None
        case Some((clusterId, ts3)) =>
          match ReadGatedI32(v >= 1, NoController, ts3)
          case None => None
          case Some((controllerId, ts4)) =>
            match ReadArray(v, ts4, ReadTopic)
            case None => None
            case Some((topics, ts5)) => Some((Response(throttleMs, brokers, clusterId, controllerId, topics), ts5))
  }

  /** What a version-`v` reader recovers of a value: every field the version
    * does not carry takes its default. */
  function RestrictBroker(v: int, b: Broker): Broker
  {
    if v > 0 then b else b.(rack := None)
  }

  function RestrictPartition(v: int, p: PartitionMetadata): PartitionMetadata
  {
    if v >= 5 then p else p.(offline := [])
  }

  function RestrictTopic(v: int, t: TopicMetadata): TopicMetadata
  {
    TopicMetadata(t.error, t.name, v >= 1 && t.isInternal, Map(v, t.partitions, RestrictPartition))
  }

  function Restrict(v: int, r: Response): Response
  {
    Response(if v >= 3 then r.throttleMs else 0,
             Map(v, r.brokers, RestrictBroker),
             if v >= 2 then r.clusterId else None,
             if v >= 1 then r.controllerId else NoController,
             Map(v, r.topics, RestrictTopic))
  }

  lemma BrokerRoundTrip(v: int, b: Broker, rest: seq<Field>)
    ensures ReadBroker(v, BrokerFields(v, b) + rest) == Some((RestrictBroker(v, b), rest))
  {
    var ts := BrokerFields(v, b) + rest;
    if v > 0 {
      assert ts[..4] == [I32(b.nodeId), Str(b.host), I32(b.port), NullableStr(b.rack)] && ts[4..] == rest;
    } else {
      assert ts[..3] == [I32(b.nodeId), Str(b.host), I32(b.port)] && ts[3..] == rest;
    }
  }

  lemma PartitionRoundTrip(v: int, p: PartitionMetadata, rest: seq<Field>)
    ensures ReadPartition(v, PartitionFields(v, p) + rest) == Some((RestrictPartition(v, p), rest))
  {
    var offline := if v >= 5 then WriteArray(v, p.offline, WriteI32) else [];
    var tail2 := offline + rest;
    var tail1 := WriteArray(v, p.isr, WriteI32) + tail2;
    var ts := PartitionFields(v, p) + rest;
    assert ts == [I16(p.error), I32(p.partition), I32(p.leader)] + (WriteArray(v, p.replicas, WriteI32) + tail1);
    assert ts[3..] == WriteArray(v, p.replicas, WriteI32) + tail1;
    Int32ArrayRoundTrip(v, p.replicas, tail1);
    Int32ArrayRoundTrip(v, p.isr, tail2);
    if v >= 5 {
      Int32ArrayRoundTrip(v, p.offline, rest);
    } else {
      assert tail2 == rest;
    }
  }

  lemma PartitionsReadBack(v: int, ps: seq<PartitionMetadata>)
    ensures ReadsBack(v, ps, PartitionFields, ReadPartition, RestrictPartition)
  {
    forall x, r | x in ps
      ensures ReadPartition(v, PartitionFields(v, x) + r) == Some((RestrictPartition(v, x), r))
    {
      PartitionRoundTrip(v, x, r);
    }
  }

  /** `head + tail`, seen from the reader: the head's fields, then the tail. */
  lemma Prefixed(ts: seq<Field>, head: seq<Field>, tail: seq<Field>)
    requires ts == head + tail
    ensures ts[|head|..] == tail
    ensures forall i :: 0 <= i < |head| ==> ts[i] == head[i]
  {
  }

  lemma TopicRoundTrip(v: int, t: TopicMetadata, rest: seq<Field>)
    ensures ReadTopic(v, TopicFields(v, t) + rest) == Some((RestrictTopic(v, t), rest))
  {
    PartitionsReadBack(v, t.partitions);
    var tail := WriteArray(v, t.partitions, PartitionFields) + rest;
    ArrayRoundTrip(v, t.partitions, rest, PartitionFields, ReadPartition, RestrictPartition);
    var head := [I16(t.error), Str(t.name)] + Gated(v >= 1, Bool(t.isInternal));
    var ts := TopicFields(v, t) + rest;
    assert ts == head + tail;
    Prefixed(ts, head, tail);
  }

  lemma BrokersReadBack(v: int, bs: seq<Broker>)
    ensures ReadsBack(v, bs, BrokerFields, ReadBroker, RestrictBroker)
  {
    forall x, r | x in bs ensures ReadBroker(v, BrokerFields(v, x) + r) == Some((RestrictBroker(v, x), r)) {
      BrokerRoundTrip(v, x, r);
    }
  }

  lemma TopicsReadBack(v: int, ts: seq<TopicMetadata>)
    ensures ReadsBack(v, ts, TopicFields, ReadTopic, RestrictTopic)
  {
    forall x, r | x in ts ensures ReadTopic(v, TopicFields(v, x) + r) == Some((RestrictTopic(v, x), r)) {
      TopicRoundTrip(v, x, r);
    }
  }

  /** A response reads back as what its version carries of it: the
    * protocol's own round trip, which fixes both the order of the fields
    * and the versions that carry each. */
  lemma ResponseRoundTrip(v: int, r: Response, rest: seq<Field>)
    ensures ReadResponse(v, ResponseFields(v, r) + rest) == Some((Restrict(v, r), rest))
  {
    BrokersReadBack(v, r.brokers);
    TopicsReadBack(v, r.topics);
    var tw := WriteArray(v, r.topics, TopicFields);
    var c3 := Gated(v >= 1, I32(r.controllerId));
    var c2 := Gated(v >= 2, NullableStr(r.clusterId));
    var bw := WriteArray(v, r.brokers, BrokerFields);
    var c0 := Gated(v >= 3, I32(r.throttleMs));
    var t4 := tw + rest;
    var t3 := c3 + t4;
    var t2 := c2 + t3;
    var t1 := bw + t2;
    ConcatAssoc(c3, tw, rest);
    ConcatAssoc(c2, c3 + tw, rest);
    ConcatAssoc(bw, c2 + (c3 + tw), rest);
    ConcatAssoc(c0, bw + (c2 + (c3 + tw)), rest);
    assert ResponseFields(v, r) + rest == c0 + t1;
    GatedI32RoundTrip(v >= 3, 0, r.throttleMs, t1);
    ArrayRoundTrip(v, r.brokers, t2, BrokerFields, ReadBroker, RestrictBroker);
    GatedNullableStrRoundTrip(v >= 2, r.clusterId, t3);
    GatedI32RoundTrip(v >= 1, NoController, r.controllerId, t4);
    ArrayRoundTrip(v, r.topics, rest, TopicFields, ReadTopic, RestrictTopic);
  }

  /** A topic as written, with at least one partition, does not read back:
    * the reader expects the partition count where the first partition's
    * error code is. */
  lemma AsWrittenTopicUnreadable(v: int, t: TopicMetadata, rest: seq<Field>)
    requires t.partitions != []
    ensures ReadTopic(v, TopicFieldsAsWritten(v, t) + rest) == None
  {
    var head := [I16(t.error), Str(t.name)] + Gated(v >= 1, Bool(t.isInternal));
    var first := PartitionFields(v, t.partitions[0]);
    var others := WriteMany(v, t.partitions[1..], PartitionFields);
    var tail := first + (others + rest);
    assert WriteMany(v, t.partitions, PartitionFields) == first + others;
    assert TopicFieldsAsWritten(v, t) + rest == head + tail;
    Prefixed(TopicFieldsAsWritten(v, t) + rest, head, tail);
    assert tail[0] == I16(t.partitions[0].error);
  }

  /** The topic array as written fails at its first topic. */
  lemma AsWrittenTopicsUnreadable(v: int, topics: seq<TopicMetadata>, rest: seq<Field>)
    requires topics != [] && topics[0].partitions != []
    ensures ReadArray(v, WriteArray(v, topics, TopicFieldsAsWritten) + rest, ReadTopic) == None
  {
    var tm := WriteMany(v, topics[1..], TopicFieldsAsWritten);
    var afterCount := TopicFieldsAsWritten(v, topics[0]) + (tm + rest);
    var ts := WriteArray(v, topics, TopicFieldsAsWritten) + rest;
    assert ts[0] == I32(|topics|) && ts[1..] == afterCount by {
      assert WriteMany(v, topics, TopicFieldsAsWritten) ==
        TopicFieldsAsWritten(v, topics[0]) + tm;
      ConcatAssoc(TopicFieldsAsWritten(v, topics[0]), tm, rest);
      ConcatAssoc([I32(|topics|)], WriteMany(v, topics, TopicFieldsAsWritten), rest);
    }
    AsWrittenTopicUnreadable(v, topics[0], tm + rest);
    assert ReadMany(v, |topics|, afterCount, ReadTopic) == None;
  }

  /** So a response as written, whose first topic has a partition, does not
    * read back at all, whereas the same response with the partition count
    * in place does (ResponseRoundTrip). */
  lemma AsWrittenUnreadable(v: int, r: Response, rest: seq<Field>)
    requires r.topics != [] && r.topics[0].partitions != []
    ensures ReadResponse(v, ResponseFieldsAsWritten(v, r) + rest) == None
  {
    BrokersReadBack(v, r.brokers);
    var tw := WriteArray(v, r.topics, TopicFieldsAsWritten);
    var c3 := Gated(v >= 1, I32(r.controllerId));
    var c2 := Gated(v >= 2, NullableStr(r.clusterId));
    var bw := WriteArray(v, r.brokers, BrokerFields);
    var c0 := Gated(v >= 3, I32(r.throttleMs));
    var t4 := tw + rest;
    var t3 := c3 + t4;
    var t2 := c2 + t3;
    var t1 := bw + t2;
    ConcatAssoc(c3, tw, rest);
    ConcatAssoc(c2, c3 + tw, rest);
    ConcatAssoc(bw, c2 + (c3 + tw), rest);
    ConcatAssoc(c0, bw + (c2 + (c3 + tw)), rest);
    assert ResponseFieldsAsWritten(v, r) + rest == c0 + t1;
    GatedI32RoundTrip(v >= 3, 0, r.throttleMs, t1);
    ArrayRoundTrip(v, r.brokers, t2, BrokerFields, ReadBroker, RestrictBroker);
    GatedNullableStrRoundTrip(v >= 2, r.clusterId, t3);
    GatedI32RoundTrip(v >= 1, NoController, r.controllerId, t4);
    AsWrittenTopicsUnreadable(v, r.topics, rest);
  }

  // ---------------------------------------------------------------------------
  // process.

  datatype MetadataError = UnsupportedVersion(version: int) | MalformedRequest

  function ErrorMessage(e: MetadataError): string
  {
    match e
    case UnsupportedVersion(v) => "Unsupported version " + IntToString(v) + " for metadata API"
    case MalformedRequest => "malformed request"
  }

  /** The single broker every response lists. */
  const LocalBroker := Broker(1, "localhost", 9092, None)

  /** A cached partition: no error, leader 1, replicas and in-sync replicas
    * [1], no offline replica. */
  function PartitionOf(id: int): PartitionMetadata
  {
    PartitionMetadata(ErrorNone, id, 1, [1], [1], [])
  }

  /** A requested topic: from the metadata cache (`cache` maps a topic to
    * its partition ids) with error `none`, or, when the cache does not know
    * it, placeholder metadata with no partition and
    * `unknown_topic_or_partition`. Topics are never internal. */
  function TopicOf(cache: map<string, seq<int>>, t: string): TopicMetadata
  {
    if t in cache then TopicMetadata(ErrorNone, t, false, PartitionsOf(cache[t]))
    else TopicMetadata(UnknownTopicOrPartition, t, false, [])
  }

  function PartitionsOf(ids: seq<int>): (r: seq<PartitionMetadata>)
    ensures |r| == |ids|
    ensures forall i :: 0 <= i < |ids| ==> r[i] == PartitionOf(ids[i])
  {
    if ids == [] then [] else [PartitionOf(ids[0])] + PartitionsOf(ids[1..])
  }

  function TopicsOf(cache: map<string, seq<int>>, names: seq<string>): (r: seq<TopicMetadata>)
    ensures |r| == |names|
    ensures forall i :: 0 <= i < |names| ==> r[i] == TopicOf(cache, names[i])
  {
    if names == [] then [] else [TopicOf(cache, names[0])] + TopicsOf(cache, names[1..])
  }

  /** metadata_request::process: the version gate (`minSupported` and
    * `maxSupported` are the API's range), the request's reads, and the
    * response. An empty topic list stands for every topic of the cache
    * (`allTopics`). */
  function Process(v: int, minSupported: int, maxSupported: int, request: seq<Field>,
                   allTopics: seq<string>, cache: map<string, seq<int>>): (r: Result<Response, MetadataError>)
    ensures r == Err(UnsupportedVersion(v)) <==> v < minSupported || v > maxSupported
    ensures r == Err(MalformedRequest) <==>
      minSupported <= v <= maxSupported && ReadRequest(v, request).None?
    ensures r.Ok? ==>
      var requested := ReadRequest(v, request).value.0.topics;
      var names := if requested == [] then allTopics else requested;
      r.value.throttleMs == 0 && r.value.brokers == [Broker(1, "localhost", 9092, None)] &&
      r.value.clusterId == None && r.value.controllerId == 1 &&
      |r.value.topics| == |names| &&
      forall i :: 0 <= i < |names| ==> r.value.topics[i].name == names[i] && !r.value.topics[i].isInternal
    ensures r.Ok? ==> forall t :: t in r.value.topics ==>
      (t.error == ErrorNone <==> t.name in cache) &&
      (t.error != ErrorNone ==> t.error == UnknownTopicOrPartition && t.partitions == []) &&
      (t.name in cache ==>
         |t.partitions| == |cache[t.name]| &&
         forall j :: 0 <= j < |t.partitions| ==>
           t.partitions[j] == PartitionMetadata(ErrorNone, cache[t.name][j], 1, [1], [1], []))
  {
    if v < minSupported || v > maxSupported then Err(UnsupportedVersion(v))
    else match ReadRequest(v, request)
      case None => Err(MalformedRequest)
      case Some((req, _)) =>
        var topics := if req.topics == [] then allTopics else req.topics;
        Ok(Response(0, [LocalBroker], None, 1, TopicsOf(cache, topics)))
  }
}
