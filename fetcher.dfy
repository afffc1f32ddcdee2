/** kafka/client/fetcher.cc: the fetch request the client sends for one topic
  * partition, and the fetch response it fabricates when a fetch fails. */
module Fetcher {
  import opened Common

  datatype TopicPartition = TopicPartition(topic: string, partition: int)

  datatype PartitionRequest = PartitionRequest(
    id: int, currentLeaderEpoch: int, fetchOffset: int, logStartOffset: int,
    partitionMaxBytes: int)

  datatype TopicRequest = TopicRequest(name: string, partitions: seq<PartitionRequest>)

  /** A fetch request; `maxWaitMs` is the timeout in milliseconds. */
  datatype FetchRequest = FetchRequest(
    replicaId: int, maxWaitMs: int, minBytes: int, maxBytes: int,
    isolationLevel: int, topics: seq<TopicRequest>)

  /** `int32_t`. */
  predicate IsInt32(x: int) { -0x8000_0000 <= x < 0x8000_0000 }

  /** make_fetch_request. */
  function MakeFetchRequest(tp: TopicPartition, offset: int, maxBytes: int, timeoutMs: int): (r: FetchRequest)
    requires IsInt32(maxBytes)
    ensures |r.topics| == 1 && |r.topics[0].partitions| == 1
    ensures r.replicaId == -1 && r.minBytes == 0 && r.isolationLevel == 0
    ensures r.maxWaitMs == timeoutMs
    ensures r.topics[0].partitions[0].logStartOffset == -1
    ensures r.topics[0].partitions[0].currentLeaderEpoch == 0
    ensures r.maxBytes == r.topics[0].partitions[0].partitionMaxBytes == maxBytes
  {
    var p := PartitionRequest(tp.partition, 0, offset, -1, maxBytes);
    FetchRequest(-1, timeoutMs, 0, maxBytes, 0, [TopicRequest(tp.topic, [p])])
  }

  /** The single partition a one-partition request targets, with its offset
    * and byte limit. */
  function Target(r: FetchRequest): (t: (TopicPartition, int, int))
    requires |r.topics| == 1 && |r.topics[0].partitions| == 1
  {
    var p := r.topics[0].partitions[0];
    (TopicPartition(r.topics[0].name, p.id), p.fetchOffset, p.partitionMaxBytes)
  }

  /** The request names exactly the partition, offset and limit it was built
    * from, so distinct arguments give distinct requests. */
  lemma RequestTargets(tp: TopicPartition, offset: int, maxBytes: int, timeoutMs: int)
    requires IsInt32(maxBytes)
    ensures Target(MakeFetchRequest(tp, offset, maxBytes, timeoutMs)) == (tp, offset, maxBytes)
  {
  }

  // ---------------------------------------------------------------------------
  // The exception-to-error mapping.

  /** The Kafka protocol's error codes the mapping produces. */
  const UnknownServerError := -1
  const OperationNotAttempted := 55

  /** What the rethrown `exception_ptr` holds, in the order of the catch
    * clauses: a client partition_error or broker_error (with its code), a
    * gate_closed_exception, any other std::exception, a nested
    * `std::exception_ptr` object, or anything else (which no clause catches). */
  datatype Thrown =
    | PartitionError(code: int)
    | BrokerError(code: int)
    | GateClosed
    | OtherStdException
    | NestedExceptionPtr
    | Uncaught

  datatype PartitionResponse = PartitionResponse(
    id: int, error: int, highWatermark: int, lastStableOffset: int,
    logStartOffset: int, abortedTransactions: seq<int>, recordSet: seq<byte>)

  datatype PartitionResponses = PartitionResponses(name: string, responses: seq<PartitionResponse>)

  datatype FetchResponse = FetchResponse(error: int, partitions: seq<PartitionResponses>)

  /** The catch chain: the error code a caught exception becomes, or None
    * when the exception escapes. */
  function ErrorFor(ex: Thrown): (r: Option<int>)
  {
    match ex
    case PartitionError(c) => Some(c)
    case BrokerError(c) => Some(c)
    case GateClosed => Some(OperationNotAttempted)
    case OtherStdException => Some(UnknownServerError)
    case NestedExceptionPtr => Some(UnknownServerError)
    case Uncaught => None
  }

  /** make_fetch_response: Err(ex) when the exception is not caught. */
  function MakeFetchResponse(tp: TopicPartition, ex: Thrown): (r: Result<FetchResponse, Thrown>)
    ensures r.Err? <==> ex.Uncaught?
    ensures r.Err? ==> r.error == ex
    ensures r.Ok? ==>
      |r.value.partitions| == 1 && r.value.partitions[0].name == tp.topic &&
      |r.value.partitions[0].responses| == 1
  {
    match ErrorFor(ex)
    case None => Err(ex)
    case Some(e) =>
      var pr := PartitionResponse(tp.partition, e, -1, -1, -1, [], []);
      Ok(FetchResponse(e, [PartitionResponses(tp.topic, [pr])]))
  }

  /** The mapping: a client error keeps its own code, a closed gate means
    * the operation was not attempted, any other caught exception is an
    * unknown server error. The lone partition reports the same error as the
    * response, for the requested partition, with every offset at -1 and no
    * records. */
  lemma FetchResponseMapping(tp: TopicPartition, ex: Thrown)
    requires !ex.Uncaught?
    ensures MakeFetchResponse(tp, ex).Ok?
    ensures var r := MakeFetchResponse(tp, ex).value;
      var pr := r.partitions[0].responses[0];
      pr.error == r.error && pr.id == tp.partition &&
      pr.highWatermark == -1 && pr.lastStableOffset == -1 && pr.logStartOffset == -1 &&
      pr.abortedTransactions == [] && pr.recordSet == []
    ensures var e := MakeFetchResponse(tp, ex).value.error;
      (ex.PartitionError? || ex.BrokerError? ==> e == ex.code) &&
      (ex.GateClosed? ==> e == 55) &&
      (ex.OtherStdException? || ex.NestedExceptionPtr? ==> e == -1)
  {
  }
}
