/** The rows of the durable store (endpoint, request and IP-registry tables),
    the JavaScript values that travel through the handlers, and the writes
    sent to the key-value cache. Timestamps are integer milliseconds. */
module Schema {

  datatype Option<+T> = None | Some(value: T)

  /** Row identifiers minted by the store. */
  type Id = nat

  /** The public path segment that names an endpoint. */
  type Slug = string

  /** A JavaScript value as the HTTP layer hands it over: a parsed body, a
      parsed query, a field of a JSON request. */
  datatype Value =
    | Undefined
    | Null
    | Bool(b: bool)
    | Number(n: int)
    | Text(s: string)
    | Array(items: seq<Value>)
    | Object(fields: seq<(string, Value)>)

  /** JavaScript falsiness (`NaN` and `-0` are outside this integer model). */
  predicate Falsy(v: Value)
  {
    v.Undefined? || v.Null? || v == Bool(false) || v == Number(0) || v == Text("")
  }

  /** One entry of Node's incoming header object: missing, a string, or an array of strings. */
  datatype HeaderValue = Missing | Single(text: string) | Many(values: seq<string>)

  /** Incoming headers, keyed by lower-case name. */
  type Headers = map<string, HeaderValue>

  function HeaderOf(headers: Headers, name: string): HeaderValue
  {
    if name in headers then headers[name] else Missing
  }

  /** `req.get(name)` for a header Node keeps as one string: the first value, or nothing. */
  function HeaderText(headers: Headers, name: string): Option<string>
  {
    match HeaderOf(headers, name)
    case Missing => None
    case Single(t) => Some(t)
    case Many(vs) => if vs == [] then None else Some(vs[0])
  }

  /** The body column of a captured request: the parsed body itself, its
      `JSON.stringify` rendering, or `null`. */
  datatype Body = AsSent(value: Value) | Serialized(of: Value) | NullBody

  datatype Endpoint = Endpoint(
    id: Id,
    slug: Slug,
    name: string,
    description: Option<string>,
    createdAt: int,
    expiresAt: int,
    isPersistent: bool,
    creatorIp: Option<string>)

  /** A row of the IP registry, keyed by address. */
  datatype IpRecord = IpRecord(firstSeen: int, lastSeen: int, endpointUsage: int, requestUsage: int)

  datatype Request = Request(
    id: Id,
    endpointId: Id,
    verb: string,
    headers: Headers,
    body: Body,
    queryParams: Value,
    ip: Option<string>,
    userAgent: string,
    createdAt: int)

  /** A write to the key-value cache, kept as a record: the model never reads the cache back. */
  datatype CacheOp =
    | CacheSet(key: string, endpointId: Id)
    | CacheExpire(key: string, seconds: int)
    | CacheDelete(key: string)
    | CacheIncrement(key: string)

  const MillisPerHour: int := 3600000
}
