/** The capture handler `allRoutes`: every HTTP call to `/hooks/:slug` is
    checked against the endpoint, admitted in one transaction that charges
    the creator's request allowance, stored, relayed to watchers, and
    acknowledged with the stored request's id. */
module Hooks {
  import opened Schema
  import opened Text
  import opened Store
  import opened Sockets

  /** An inbound call as the HTTP layer presents it. */
  datatype Call = Call(
    verb: string,
    headers: Headers,
    query: Value,
    body: Value,
    remoteAddress: Option<string>)

  /** `req.ip || 'unknown'`. */
  function AddressOrUnknown(remote: Option<string>): (a: string)
    ensures a != ""
    ensures remote.Some? && remote.value != "" ==> a == remote.value
    ensures remote.None? || remote.value == "" ==> a == "unknown"
  {
    if remote.Some? && remote.value != "" then remote.value else "unknown"
  }

  /** The caller's address: the first entry of an `x-forwarded-for` array; else
      the trimmed text before its first comma; else the connection's address;
      else `"unknown"`. Only an empty array yields no address at all. */
  function ClientIp(forwarded: HeaderValue, remote: Option<string>): (ip: Option<string>)
    ensures !forwarded.Many? ==> ip.Some? && ip.value != ""
    ensures forwarded.Many? ==> (ip.Some? <==> forwarded.values != [])
    ensures forwarded.Many? && ip.Some? ==> ip.value == forwarded.values[0]
    ensures forwarded.Missing? ==> ip == Some(AddressOrUnknown(remote))
  {
    match forwarded
    case Many(vs) => if vs == [] then None else Some(vs[0])
    case Single(text) =>
      var first := Trim(BeforeFirst(text, ','));
      if first != "" then Some(first) else Some(AddressOrUnknown(remote))
    case Missing => Some(AddressOrUnknown(remote))
  }

  /** From a forwarded string with something before its first comma, the address
      is that first segment with its surrounding white space removed: a piece of
      the header holding no comma and no outer white space. When the first
      segment is blank, the connection's address is used instead. */
  lemma ClientIpFromForwardedText(text: string, remote: Option<string>)
    ensures IsBlank(BeforeFirst(text, ',')) ==> ClientIp(Single(text), remote) == Some(AddressOrUnknown(remote))
    ensures !IsBlank(BeforeFirst(text, ',')) ==>
      var ip := Trim(BeforeFirst(text, ','));
      && ClientIp(Single(text), remote) == Some(ip)
      && ',' !in ip
      && !IsSpace(ip[0]) && !IsSpace(ip[|ip| - 1])
      && (exists i :: OccursAt(text, ip, i))
  {
    FirstSegment(text, ',');
  }

  /** The `content-type` test: a JSON body is kept as parsed; any other body is
      stored as its serialisation, or as `null` when it is falsy. */
  function NormalizeBody(contentType: string, body: Value): (b: Body)
    ensures Contains(contentType, "application/json") ==> b == AsSent(body)
    ensures !Contains(contentType, "application/json") ==>
      (b == NullBody <==> Falsy(body)) && (!Falsy(body) ==> b == Serialized(body))
  {
    if Contains(contentType, "application/json") then AsSent(body)
    else if Falsy(body) then NullBody
    else Serialized(body)
  }

  /** A body is kept as parsed exactly when `application/json` occurs somewhere in the content type. */
  lemma NormalizeBodyKeepsJson(contentType: string, body: Value)
    ensures NormalizeBody(contentType, body).AsSent? <==> exists i :: OccursAt(contentType, "application/json", i)
  {
    ContainsAt(contentType, "application/json");
  }

  /** The fields of the request row that come from the call itself. */
  datatype Draft = Draft(verb: string, headers: Headers, body: Body, query: Value, ip: Option<string>, userAgent: string)

  /** The draft copies the verb, headers and query as received; the user agent
      defaults to `""`; the body follows the content-type rule, where a missing
      content type counts as a non-JSON one; the address follows `ClientIp`. */
  function DraftOf(call: Call): (d: Draft)
    ensures d.verb == call.verb && d.headers == call.headers && d.query == call.query
    ensures HeaderText(call.headers, "user-agent").None? ==> d.userAgent == ""
    ensures HeaderText(call.headers, "user-agent").Some? ==> d.userAgent == HeaderText(call.headers, "user-agent").value
    ensures HeaderText(call.headers, "content-type").None? ==> (d.body == NullBody <==> Falsy(call.body))
    ensures d.body == NormalizeBody(match HeaderText(call.headers, "content-type") case Some(t) => t case None => "", call.body)
    ensures d.ip == ClientIp(HeaderOf(call.headers, "x-forwarded-for"), call.remoteAddress)
  {
    var contentType := match HeaderText(call.headers, "content-type") case Some(t) => t case None => "";
    var userAgent := match HeaderText(call.headers, "user-agent") case Some(t) => t case None => "";
    Draft(call.verb, call.headers, NormalizeBody(contentType, call.body), call.query,
          ClientIp(HeaderOf(call.headers, "x-forwarded-for"), call.remoteAddress), userAgent)
  }

  /** A call sent with `content-type: application/json; charset=utf-8` has its
      body stored as parsed; one sent as `text/plain` has it serialised, or
      stored as `null` when it is falsy. */
  lemma DraftOfContentTypes(call: Call)
    ensures HeaderText(call.headers, "content-type") == Some("application/json; charset=utf-8") ==>
      DraftOf(call).body == AsSent(call.body)
    ensures HeaderText(call.headers, "content-type") == Some("text/plain") ==>
      DraftOf(call).body == (if Falsy(call.body) then NullBody else Serialized(call.body))
  {
    var json := "application/json; charset=utf-8";
    assert OccursAt(json, "application/json", 0);
    ContainsAt(json, "application/json");
    ContainsAt("text/plain", "application/json");
  }

  /** What aborts the transaction: the creator's allowance is used up (with
      status 429), or the endpoint vanished after the pre-check (a plain error,
      which carries no status). */
  datatype TxError = LimitReached | EndpointVanished

  datatype Admission = Admitted(request: Request, endpoint: Endpoint) | Aborted(error: TxError)

  /** The `if (endpoint.creatorIp)` test: an address is recorded and it is not
      the empty (falsy) string. */
  predicate HasCreator(creator: Option<string>)
  {
    creator.Some? && creator.value != ""
  }

  /** The creator of `e` has a registry row whose request allowance is spent. */
  predicate LimitHit(registry: map<string, IpRecord>, e: Endpoint)
    ensures LimitHit(registry, e) ==> e.creatorIp.Some? && e.creatorIp.value != ""
  {
    HasCreator(e.creatorIp) && e.creatorIp.value in registry && registry[e.creatorIp.value].requestUsage <= 0
  }

  /** The registry after an admitted request: the creator's row, if there is
      one, loses one unit of `requestUsage` and gets `lastSeen = now`; its
      other fields and every other row stay as they were. Without a truthy
      creator address, or without a row for it, nothing changes. */
  function Charged(registry: map<string, IpRecord>, creator: Option<string>, now: int): (after: map<string, IpRecord>)
    ensures after.Keys == registry.Keys
    ensures forall ip :: ip in registry && Some(ip) != creator ==> after[ip] == registry[ip]
    ensures !HasCreator(creator) ==> after == registry
    ensures HasCreator(creator) && creator.value in registry ==>
      var c := creator.value;
      && after[c].requestUsage == registry[c].requestUsage - 1
      && after[c].lastSeen == now
      && after[c].firstSeen == registry[c].firstSeen
      && after[c].endpointUsage == registry[c].endpointUsage
  {
    if HasCreator(creator) && creator.value in registry then
      registry[creator.value := registry[creator.value].(lastSeen := now, requestUsage := registry[creator.value].requestUsage - 1)]
    else registry
  }

  /** An admission never drives a counter below zero: when the limit is not
      hit, every row keeps a non-negative `requestUsage` if it had one, the
      charged row drops by exactly one, and no other row changes. */
  lemma ChargeKeepsCountersNonNegative(registry: map<string, IpRecord>, e: Endpoint, now: int)
    requires !LimitHit(registry, e)
    requires forall ip :: ip in registry ==> registry[ip].requestUsage >= 0
    ensures var after := Charged(registry, e.creatorIp, now);
      && after.Keys == registry.Keys
      && (forall ip :: ip in after ==> after[ip].requestUsage >= 0)
      && (forall ip :: ip in registry && Some(ip) != e.creatorIp ==> after[ip] == registry[ip])
      && (HasCreator(e.creatorIp) && e.creatorIp.value in registry ==>
            var c := e.creatorIp.value;
            && after[c].requestUsage == registry[c].requestUsage - 1
            && after[c].lastSeen == now
            && after[c].firstSeen == registry[c].firstSeen
            && after[c].endpointUsage == registry[c].endpointUsage)
  {
  }

  /** An endpoint whose recorded creator address is the empty string is never
      refused for its allowance and never charged, whatever the registry holds
      under `""`. */
  lemma EmptyCreatorIsExempt(registry: map<string, IpRecord>, e: Endpoint, now: int)
    requires e.creatorIp == Some("")
    ensures !LimitHit(registry, e)
    ensures Charged(registry, e.creatorIp, now) == registry
  {
  }

  /** The body of `db.$transaction`: re-read the endpoint, check and charge the
      creator's allowance, insert the request. All or nothing: an abort leaves
      the store exactly as it was. */
  method Transaction(db: Db, slug: Slug, d: Draft, now: int) returns (a: Admission)
    requires db.Valid()
    modifies db
    ensures db.Valid()
    ensures old(db.Find(slug)).None? ==> a == Aborted(EndpointVanished) && unchanged(db)
    ensures old(db.Find(slug)).Some? && LimitHit(old(db.registry), old(db.Find(slug)).value) ==>
      a == Aborted(LimitReached) && unchanged(db)
    ensures old(db.Find(slug)).Some? && !LimitHit(old(db.registry), old(db.Find(slug)).value) ==>
      var e := old(db.Find(slug)).value;
      && a == Admitted(Request(old(db.nextId), e.id, d.verb, d.headers, d.body, d.query, d.ip, d.userAgent, now), e)
      && db.requests == old(db.requests) + [a.request]
      && db.endpoints == old(db.endpoints)
      && db.registry == Charged(old(db.registry), e.creatorIp, now)
  {
    var found := db.Find(slug);
    if found.None? {
      return Aborted(EndpointVanished);
    }
    var e := found.value;
    if HasCreator(e.creatorIp) && e.creatorIp.value in db.registry {
      var record := db.registry[e.creatorIp.value];
      if record.requestUsage <= 0 {
        return Aborted(LimitReached);
      }
      db.UpdateRequestUsage(e.creatorIp.value, now, record.requestUsage - 1);
    }
    assert HasId(db.endpoints, e.id);
    var request := db.CreateRequest(e.id, d.verb, d.headers, d.body, d.query, d.ip, d.userAgent, now);
    a := Admitted(request, e);
  }

  /** The captured request as it is relayed to watchers. */
  datatype RequestData = RequestData(
    id: Id, verb: string, headers: Headers, body: Body, queryParams: Value,
    ip: Option<string>, userAgent: string, createdAt: int)

  function DataOf(r: Request): (d: RequestData)
    ensures d.id == r.id && d.createdAt == r.createdAt
    ensures d.verb == r.verb && d.headers == r.headers && d.body == r.body
    ensures d.queryParams == r.queryParams && d.ip == r.ip && d.userAgent == r.userAgent
  {
    RequestData(r.id, r.verb, r.headers, r.body, r.queryParams, r.ip, r.userAgent, r.createdAt)
  }

  /** The relayed data leaves out only the endpoint id: two requests of the
      same endpoint with the same relayed data are the same row. */
  lemma DataOfKeepsAllButEndpoint(r1: Request, r2: Request)
    requires r1.endpointId == r2.endpointId
    ensures DataOf(r1) == DataOf(r2) <==> r1 == r2
  {
  }

  /** The two emissions of an admitted request: `new-request` to the endpoint's
      room, and `webhook:<slug>` to every connected socket. */
  function Fanout(slug: Slug, data: RequestData): (es: seq<Emission<RequestData>>)
    ensures |es| == 2
    ensures es[0].ToRoom? && es[0].room == slug && es[0].event == "new-request"
    ensures es[1].ToAll? && es[1].event == "webhook:" + slug
    ensures forall i :: 0 <= i < |es| ==> es[i].payload == data
  {
    [ToRoom(slug, "new-request", data), ToAll("webhook:" + slug, data)]
  }

  /** A watcher in the endpoint's room gets exactly one `new-request` event and
      one `webhook:<slug>` event, both carrying the stored request; a connected
      socket outside the room gets only the second. */
  lemma FanoutDelivery(m: Registry, connected: set<SocketId>, slug: Slug, data: RequestData, s: SocketId)
    requires s in connected
    ensures slug in RoomsOf(m, s) ==>
      Deliveries(m, connected, Fanout(slug, data), s) == [("new-request", data), ("webhook:" + slug, data)]
    ensures slug !in RoomsOf(m, s) ==>
      Deliveries(m, connected, Fanout(slug, data), s) == [("webhook:" + slug, data)]
  {
    var es := Fanout(slug, data);
    assert es[1..][1..] == [];
  }

  /** The response of `allRoutes`. */
  datatype HookResponse = Received(message: string, requestId: Id) | Refused(status: int, error: string)
  {
    function Status(): int
    {
      if Received? then 200 else status
    }
  }

  /** The `catch` block: `error.statusCode || 500` with the error's message. */
  function FailureResponse(e: TxError): (r: HookResponse)
    ensures r.Refused?
    ensures e == LimitReached <==> r.Status() == 429
    ensures e == EndpointVanished <==> r.Status() == 500
    ensures e == LimitReached ==> r.error == "Request limit reached for this endpoint, you have to upgrade to premium tier"
    ensures e == EndpointVanished ==> r.error == "Endpoint not found"
  {
    match e
    case LimitReached => Refused(429, "Request limit reached for this endpoint, you have to upgrade to premium tier")
    case EndpointVanished => Refused(500, "Endpoint not found")
  }

  /** The cache key counting activity on an endpoint. */
  function ActivityKey(slug: Slug): string
  {
    "endpoint:" + slug + ":requests"
  }

  /** `allRoutes`: pre-checks the endpoint (404 unknown, 410 expired, whether
      persistent or not), runs the transaction, and on success relays the
      request, bumps the activity counter with a 24-hour expiry and answers
      200 with the new request's id. Every refusal leaves the store, the
      emissions and the cache untouched. */
  method AllRoutes(db: Db, slug: Slug, call: Call, now: int)
      returns (resp: HookResponse, emitted: seq<Emission<RequestData>>, cache: seq<CacheOp>)
    requires db.Valid()
    modifies db
    ensures db.Valid()
    ensures old(db.Find(slug)).None? ==>
      resp == Refused(404, "Endpoint not found") && emitted == [] && cache == [] && unchanged(db)
    ensures old(db.Find(slug)).Some? && old(db.Find(slug)).value.expiresAt < now ==>
      resp == Refused(410, "Endpoint has expired") && emitted == [] && cache == [] && unchanged(db)
    ensures old(db.Find(slug)).Some? && old(db.Find(slug)).value.expiresAt >= now
              && LimitHit(old(db.registry), old(db.Find(slug)).value) ==>
      resp == FailureResponse(LimitReached) && emitted == [] && cache == [] && unchanged(db)
    ensures old(db.Find(slug)).Some? && old(db.Find(slug)).value.expiresAt >= now
              && !LimitHit(old(db.registry), old(db.Find(slug)).value) ==>
      var e := old(db.Find(slug)).value;
      var d := DraftOf(call);
      var r := Request(old(db.nextId), e.id, d.verb, d.headers, d.body, d.query, d.ip, d.userAgent, now);
      && resp == Received("Webhook received successfully", r.id)
      && db.requests == old(db.requests) + [r]
      && db.endpoints == old(db.endpoints)
      && db.registry == Charged(old(db.registry), e.creatorIp, now)
      && emitted == Fanout(slug, DataOf(r))
      && cache == [CacheIncrement(ActivityKey(slug)), CacheExpire(ActivityKey(slug), 86400)]
  {
    var d := DraftOf(call);
    emitted, cache := [], [];
    var check := db.Find(slug);
    if check.None? {
      return Refused(404, "Endpoint not found"), emitted, cache;
    }
    if check.value.expiresAt < now {
      return Refused(410, "Endpoint has expired"), emitted, cache;
    }
    var a := Transaction(db, slug, d, now);
    if a.Aborted? {
      return FailureResponse(a.error), emitted, cache;
    }
    var data := DataOf(a.request);
    emitted := Fanout(slug, data);
    cache := [CacheIncrement(ActivityKey(a.endpoint.slug)), CacheExpire(ActivityKey(a.endpoint.slug), 86400)];
    resp := Received("Webhook received successfully", a.request.id);
  }
}
