/**
 * The part of the Home Assistant REST API the bridge talks to, as data.
 * The HTTP client itself (URL building from the configured base URL, the
 * bearer header, JSON encoding and decoding, the 10-second timeout) is an
 * oracle: the session is handed the hub's answer to each request it makes.
 */
module Hub {
  import opened Optional

  datatype Method = Get | Post

  /** The JSON object a POST carries: `{"entity_id": ...}`, optionally with `"brightness"`. */
  datatype Body =
    | NoBody
    | Target(entityId: string)
    | TargetBrightness(entityId: string, brightness: int)

  /** One call to `<base>/api/<endpoint>`. */
  datatype Request = Request(verb: Method, endpoint: string, body: Body)

  /** One element of the `states` list, with the three keys the bridge reads (each may be absent). */
  datatype EntityState = EntityState(entityId: Option<string>, state: Option<string>, friendlyName: Option<string>)

  /**
   * What the bridge reads of a decoded response body: its `message` key,
   * its printed form (`f"{resp}"`), and, for the `states` endpoint, the
   * list of entity states.
   */
  datatype Payload = Payload(message: Option<string>, rendered: string, entities: seq<EntityState>)

  datatype Response = Response(status: int, payload: Payload)

  /** The hub's answer to the n-th request (counted from 0) a session makes. */
  type Oracle = (nat, Request) -> Response

  const StatusOk := 200

  /** A request that failed in transport (refused, unresolvable, timed out): status 500 with an `error` key only. */
  function TransportFailure(rendered: string): (r: Response)
    ensures r.status != StatusOk && r.payload.message.None?
  {
    Response(500, Payload(None, rendered, []))
  }
}
