/**
 * The record shapes of the service registry: the common service header,
 * the agent and tool extensions, the opaque JSON values they carry, and
 * the HTTP-shaped error the handlers raise.
 */
module Services {

  /** Age in seconds beyond which a record is evicted by a list request. */
  const SERVICE_EXPIRATION: int := 120

  /** Status code of the handlers' "not found" error. */
  const HTTP_NOT_FOUND: int := 404

  datatype Option<T> = None | Some(value: T)

  /**
   * The values a free-form dictionary may hold (metadata, endpoint
   * descriptors, schemas). The registry stores them and hands them back
   * unchanged; numbers are kept as integers.
   */
  datatype Json =
    | JNull
    | JBool(b: bool)
    | JNumber(n: int)
    | JString(s: string)
    | JArray(items: seq<Json>)
    | JObject(fields: map<string, Json>)

  /** The fields every registered service carries. */
  datatype ServiceBase = ServiceBase(
    id: string,
    name: string,
    description: string,
    version: string,
    host: string,
    port: int,
    healthEndpoint: string,
    lastSeen: int,
    metadata: map<string, Json>)

  /** A service record: the common header plus the kind-specific fields. */
  datatype Service<X> = Service(base: ServiceBase, ext: X)

  datatype AgentFields = AgentFields(capabilities: seq<string>, requiredTools: seq<string>)

  datatype ToolFields = ToolFields(
    toolType: string,
    endpoints: map<string, map<string, Json>>,
    schema: map<string, Json>)

  type Agent = Service<AgentFields>
  type Tool = Service<ToolFields>

  /** An error a handler raises: its status code and detail message. */
  datatype HttpError = HttpError(statusCode: int, detail: string)

  datatype Result<T> = Success(value: T) | Failure(error: HttpError)

  /** A record is expired at `now` when more than SERVICE_EXPIRATION seconds have passed since it was last seen. */
  predicate Expired<X>(s: Service<X>, now: int) {
    now - s.base.lastSeen > SERVICE_EXPIRATION
  }

  /** The record with its last-seen time set to `now` and every other field kept. */
  function Stamp<X>(s: Service<X>, now: int): (r: Service<X>)
    ensures r.base.lastSeen == now && !Expired(r, now)
    ensures r.ext == s.ext && r.base.id == s.base.id
    ensures r.base.(lastSeen := s.base.lastSeen) == s.base
  {
    s.(base := s.base.(lastSeen := now))
  }
}
