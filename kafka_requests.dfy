/** kafka/requests/requests.cc: a request is routed by its API key to the
  * API's handler; every handler but api_versions is guarded by the API's
  * supported version range. */
module KafkaRequests {
  import opened Common

  /** The fourteen APIs the server dispatches. */
  datatype ApiKind =
    | ApiVersions | Metadata | ListGroups | FindCoordinator | OffsetFetch
    | Produce | ListOffsets | OffsetCommit | Fetch | JoinGroup | Heartbeat
    | LeaveGroup | SyncGroup | CreateTopics

  /** Each API's key, as the Kafka protocol numbers them (the per-API request
    * headers other than create_topics_request.h are not part of this model). */
  function Key(api: ApiKind): (k: int)
    ensures 0 <= k <= 19
  {
    match api
    case Produce => 0
    case Fetch => 1
    case ListOffsets => 2
    case Metadata => 3
    case OffsetCommit => 8
    case OffsetFetch => 9
    case FindCoordinator => 10
    case JoinGroup => 11
    case Heartbeat => 12
    case LeaveGroup => 13
    case SyncGroup => 14
    case ListGroups => 16
    case ApiVersions => 18
    case CreateTopics => 19
  }

  /** The switch of process_request: the API whose key matches. */
  function ApiOf(key: int): (r: Option<ApiKind>)
    ensures r.Some? ==> Key(r.value) == key
  {
    if key == 18 then Some(ApiVersions)
    else if key == 3 then Some(Metadata)
    else if key == 16 then Some(ListGroups)
    else if key == 10 then Some(FindCoordinator)
    else if key == 9 then Some(OffsetFetch)
    else if key == 0 then Some(Produce)
    else if key == 2 then Some(ListOffsets)
    else if key == 8 then Some(OffsetCommit)
    else if key == 1 then Some(Fetch)
    else if key == 11 then Some(JoinGroup)
    else if key == 12 then Some(Heartbeat)
    else if key == 13 then Some(LeaveGroup)
    else if key == 14 then Some(SyncGroup)
    else if key == 19 then Some(CreateTopics)
    else None
  }

  /** Every API is reached through its own key and no other. */
  lemma ApiOfKey(api: ApiKind, key: int)
    ensures ApiOf(Key(api)) == Some(api)
    ensures ApiOf(key) == Some(api) <==> key == Key(api)
  {
  }

  /** [min_supported, max_supported]. */
  datatype VersionRange = VersionRange(min: int, max: int)

  /** create_topics_api: versions 0 through 3. */
  const CreateTopicsVersions := VersionRange(0, 3)

  /** An API's supported versions: create_topics' are known; the others'
    * come from their request headers, given as `declared`. */
  function Supported(api: ApiKind, declared: ApiKind -> VersionRange): (r: VersionRange)
    ensures api == CreateTopics ==> r == VersionRange(0, 3)
    ensures api != CreateTopics ==> r == declared(api)
  {
    if api == CreateTopics then CreateTopicsVersions else declared(api)
  }

  datatype DispatchError =
    | UnsupportedVersion(version: int, api: ApiKind)  // "Unsupported version {} for {} API"
    | UnsupportedApi(key: int)                        // "Unsupported API {}"

  /** The message of the exception a failed dispatch returns; `name` is an
    * API's name (create_topics': "create topics"). */
  function Message(e: DispatchError, name: ApiKind -> string): string
  {
    match e
    case UnsupportedVersion(v, api) => "Unsupported version " + IntToString(v) + " for " + name(api) + " API"
    case UnsupportedApi(k) => "Unsupported API " + IntToString(k)
  }

  /** process_dispatch<Request>::process: the version gate, except for
    * api_versions, whose clients do not yet know the supported versions. */
  function ProcessDispatch(api: ApiKind, version: int, declared: ApiKind -> VersionRange): (r: Result<ApiKind, DispatchError>)
  {
    var range := Supported(api, declared);
    if api != ApiVersions && (version < range.min || version > range.max) then
      Err(UnsupportedVersion(version, api))
    else Ok(api)
  }

  /** process_request: the handler a request reaches (Ok) or the exception
    * it fails with. A request reaches a handler exactly when its key is one
    * of the fourteen and, unless it is api_versions, its version is within
    * the API's range; an unknown key fails with "Unsupported API", a version
    * out of range with "Unsupported version" before the handler runs. */
  function ProcessRequest(key: int, version: int, declared: ApiKind -> VersionRange): (r: Result<ApiKind, DispatchError>)
    ensures r.Ok? <==>
      (ApiOf(key).Some? &&
       (ApiOf(key).value == ApiVersions ||
        Supported(ApiOf(key).value, declared).min <= version <= Supported(ApiOf(key).value, declared).max))
    ensures r.Ok? ==> Key(r.value) == key
    ensures ApiOf(key).None? <==> r == Err(UnsupportedApi(key))
    ensures r.Err? && r.error.UnsupportedVersion? ==> r.error == UnsupportedVersion(version, ApiOf(key).value)
  {
    match ApiOf(key)
    case None => Err(UnsupportedApi(key))
    case Some(api) => ProcessDispatch(api, version, declared)
  }

  /** api_versions reaches its handler whatever the version. */
  lemma ApiVersionsAnyVersion(version: int, declared: ApiKind -> VersionRange)
    ensures ProcessRequest(18, version, declared) == Ok(ApiVersions)
  {
  }

  /** create_topics (key 19) accepts exactly the versions 0 to 3. */
  lemma CreateTopicsGate(version: int, declared: ApiKind -> VersionRange)
    ensures ProcessRequest(19, version, declared).Ok? <==> 0 <= version <= 3
  {
  }
}
