# webhook-sandbox core, modelled in Dafny

webhook-sandbox hands out short-lived capture endpoints. An HTTP call to
`/api/hooks/<slug>` is stored as a request row when the endpoint is live
and its creator's allowance is not spent. The caller's address and the
body are normalised first. The endpoint creator's request allowance is charged
inside one transaction. The server then relays the stored request to
browsers watching the endpoint over a socket connection. A sweeper deletes
expired, non-persistent endpoints together with their requests. The web client
has a request builder for sending test calls.

This project models that core and proves properties of it:

- `store.dfy` (`Store`): the durable store as a class `Db`. It holds the
  endpoint and request tables as sequences in insertion order, the IP
  registry as a map, and the id counter. Each method is one atomic store
  statement, and `Db.Valid()` states the table constraints: unique ids and
  slugs, and every request pointing at an existing endpoint.
- `hooks.dfy` (`Hooks`): the capture handler `allRoutes`. It covers address
  derivation, body normalisation, the 404/410 pre-check, the transaction with
  the allowance check, the two emissions, the activity-counter cache writes
  and the response.
- `endpoints.dfy` (`Endpoints`): `generateSlug`, `createEndpoint`,
  `getEndpoint`, `getRequests` (defaults, pagination, newest first),
  `deleteRequest` and `deleteEndpoint`.
- `sockets.dfy` (`Sockets`): the `clientRooms` registry as a class changed by
  the `join`, `leave` and `disconnect` handlers, and `emitWebhookEvent`. Each
  emission is recorded as a value, together with the sockets it reaches.
- `cleanup.dfy` (`Cleanup`) and `manual_cleanup.dfy` (`ManualCleanup`): the
  expiry sweeper and the stand-alone script that runs the same procedure.
- `request_builder.dfy` (`RequestBuilder`): the header and query-parameter
  list helpers, the fallback query-string builder, the header record, the
  body rule and `sendRequest`, with the component state as a class `Builder`.
- `seqs.dfy`, `text.dfy`, `schema.dfy`: generic filtering and uniqueness
  facts, the JavaScript string operations the handlers use (`trim`,
  `includes`, `split(...)[0]`, `join`, number rendering), and the entities.

Modelling choices:

- Time is an integer number of milliseconds passed in as `now`.
- Cache (Redis) writes are returned as a list of `CacheOp` values.
- Socket emissions are returned as `Emission` values.
- The random slug generator is a sequence of candidate slugs.
- JSON validity and URI encoding are function parameters.
- `Date.now()` in the request builder is a parameter.
- Persistence is not consistent across handlers. The capture handler and
  `getEndpoint` answer 410 for any endpoint past `expiresAt`, persistent or not
  (apps/api/src/controller/hooks.ts:37-39,
  apps/api/src/controller/endpointRequest.ts:80-82). `getRequests` answers 410
  only for a non-persistent one (endpointRequest.ts:116-118). The sweeper never
  removes a persistent endpoint. The model keeps each behaviour as written:
  compare `Hooks.AllRoutes`, `Endpoints.GetEndpoint` and
  `Endpoints.GetRequests`.
- `parseInt` accepts negative `limit` and `page` values, and the code passes
  `skip = (page-1)*limit` and `take = limit` to the store unchecked. The
  model takes the store (Prisma) to treat the two cases as follows. A negative
  `skip` (a page past the first with a negative limit, or a negative page with
  a positive limit) is refused by the store, which the handler reports as 500.
  A negative `take` with a `skip` of zero or more reads the ordering from its
  end: the result is the run of `-limit` rows ending `skip` rows before the
  end, in the original order. The handler then answers 200 with
  `pages = Math.ceil(total / limit)`, which is zero or negative.
- `if (endpoint.creatorIp)` is a truthiness test: an endpoint whose creator
  address is the empty string is neither checked nor charged
  (`Hooks.HasCreator`).

## Model

| member | source | states |
|---|---|---|
| Hooks.AddressOrUnknown | apps/api/src/controller/hooks.ts:16 | the fallback address is never empty: a non-empty connection address is kept, and a missing or empty one gives `unknown` |
| Hooks.ClientIp | apps/api/src/controller/hooks.ts:13-16 | an array header gives its first element, and only an empty array gives no address; a string or missing header always gives a non-empty address; a missing header gives the connection address or `unknown` |
| Hooks.ClientIpFromForwardedText | apps/api/src/controller/hooks.ts:14-16 | from a header string, the address is the trimmed text before the first comma, holds no comma, has no outer whitespace and occurs in the header; a blank first segment falls back to the connection address |
| Hooks.NormalizeBody | apps/api/src/controller/hooks.ts:20-26 | a content type containing `application/json` keeps the body as parsed; otherwise the body is stored serialised, or null exactly when it is falsy |
| Hooks.NormalizeBodyKeepsJson | apps/api/src/controller/hooks.ts:23-24 | the body is kept as parsed if and only if `application/json` occurs at some position of the content type |
| Hooks.DraftOf | apps/api/src/controller/hooks.ts:11-26 | the verb, headers and query are copied; a missing user agent becomes `""`; the body is `NormalizeBody` of the content type (`""` when missing) and the body, so with no content type it is null exactly when it is falsy; the address is `ClientIp`'s |
| Hooks.DraftOfContentTypes | apps/api/src/controller/hooks.ts:19-26 | a call sent as `application/json; charset=utf-8` keeps its body as parsed; one sent as `text/plain` stores it serialised, or null when it is falsy |
| Hooks.LimitHit | apps/api/src/controller/hooks.ts:51-57 | a refusal needs a truthy (non-empty) creator address whose registry row has `requestUsage <= 0` |
| Hooks.Charged | apps/api/src/controller/hooks.ts:51-69 | for a truthy creator address with a registry row, that row loses one unit of `requestUsage` and gets `lastSeen = now`, keeping `firstSeen` and `endpointUsage`; every other row and the key set are unchanged; without a truthy creator the registry is unchanged |
| Hooks.ChargeKeepsCountersNonNegative | apps/api/src/controller/hooks.ts:50-69 | when the limit is not hit, charging lowers only the creator's `requestUsage`, by exactly one, sets its `lastSeen` to `now`, keeps its other fields and every counter non-negative, and adds or drops no registry row |
| Hooks.EmptyCreatorIsExempt | apps/api/src/controller/hooks.ts:51 | an endpoint whose creator address is `""` is never refused and never charged, whatever the registry holds under `""` |
| Hooks.Transaction | apps/api/src/controller/hooks.ts:41-91 | a vanished endpoint or a spent allowance of a truthy creator address (`requestUsage <= 0`) aborts with the store unchanged; otherwise exactly one request row is appended with the next id, the creator's row (if any) is charged, and no endpoint changes |
| Hooks.Fanout | apps/api/src/controller/hooks.ts:119-123 | two emissions: `new-request` to the slug's room, then `webhook:<slug>` to every socket, both carrying the request data |
| Hooks.DataOf | apps/api/src/controller/hooks.ts:106-115 | the relayed data carries the stored request's id, verb, headers, body, query, address, user agent and creation time |
| Hooks.DataOfKeepsAllButEndpoint | apps/api/src/controller/hooks.ts:106-115 | for requests of the same endpoint the relayed data are equal exactly when the rows are: only the endpoint id is left out |
| Hooks.FanoutDelivery | apps/api/src/controller/hooks.ts:106-123 | a socket in the slug's room receives `new-request` then `webhook:<slug>`, both carrying the stored request; a socket outside it receives only the second |
| Hooks.FailureResponse | apps/api/src/controller/hooks.ts:135-141 | the limit error answers 429 with the message "Request limit reached for this endpoint, you have to upgrade to premium tier", and the vanished-endpoint error (no status code) answers 500 with "Endpoint not found" |
| Hooks.AllRoutes | apps/api/src/controller/hooks.ts:6-143 | unknown slug gives 404; past `expiresAt`, even when persistent, gives 410; a spent allowance of a truthy creator address gives 429; none of these writes, emits or caches anything. On success one request is stored, both events carry it, the counter key is incremented with a 24-hour expiry, and the response carries the stored id |
| Store.FindSlug | apps/api/src/controller/endpointRequest.ts:71-73 | the result is a row with that slug, and there is none exactly when no row carries the slug |
| Store.FindSlugUnique | apps/api/src/controller/endpointRequest.ts:71-73 | with unique slugs, the row found is the one row carrying the slug |
| Store.Db.CreateEndpoint | apps/api/src/controller/endpointRequest.ts:35-43 | a taken slug is refused with no change; otherwise one row with a fresh id is appended and the table constraints still hold |
| Store.Db.CreateRequest | apps/api/src/controller/hooks.ts:73-88 | appends exactly one request with a fresh id for an existing endpoint and changes nothing else |
| Store.Db.UpdateRequestUsage | apps/api/src/controller/hooks.ts:62-68 | only that registry row's `lastSeen` and `requestUsage` change |
| Store.Db.DeleteEndpoint | apps/api/src/controller/endpointRequest.ts:179-181 | the endpoint row and, by cascade, every request pointing at it are removed, other rows kept in order, and the constraints still hold |
| Store.Db.DeleteRequest | apps/api/src/controller/endpointRequest.ts:152-154 | reports whether a request had that id; if so only that row goes, otherwise nothing changes |
| Store.Db.DeleteMany | apps/api/src/cron/cleanup.ts:40-44 | removes the endpoints whose id is listed and their requests by cascade; the count is the number of endpoint rows removed |
| Endpoints.GenerateSlug | apps/api/src/controller/endpointRequest.ts:6-15 | returns the first candidate no endpoint uses, after every earlier candidate collided; none when all collide |
| Endpoints.HoursToExpire | apps/api/src/controller/endpointRequest.ts:28-30 | 720 when persistent, else the duration clamped to 1..168, so always in 1..720 |
| Endpoints.Duration | apps/api/src/controller/endpointRequest.ts:22 | a missing `duration` defaults to 24, a supplied one is kept |
| Endpoints.Persistent | apps/api/src/controller/endpointRequest.ts:22 | a missing `persistent` defaults to false; the flag holds exactly when `true` was supplied |
| Endpoints.NameFor | apps/api/src/controller/endpointRequest.ts:38 | a supplied non-empty name is kept, otherwise `Webhook <slug>` |
| Endpoints.NewRow | apps/api/src/controller/endpointRequest.ts:35-43 | the inserted row has the given id and slug, the description as sent, a non-empty defaulted name, `createdAt = now` and no creator address |
| Endpoints.NewRowLifetime | apps/api/src/controller/endpointRequest.ts:28-43 | a new endpoint expires `hoursToExpire` hours after creation (1 to 720 hours, at most 168 unless persistent), stores the `persistent` flag and has no creator address |
| Endpoints.CreateEndpoint | apps/api/src/controller/endpointRequest.ts:17-65 | on success the slug was unused and came from the generator, one row is appended, the cache entry is set with a TTL of `hoursToExpire*3600` seconds, and the endpoint is immediately readable by `getEndpoint`; a failure answers 500 with no change; success is guaranteed when some candidate is free |
| Endpoints.ViewOf | apps/api/src/controller/endpointRequest.ts:51-60 | the answered endpoint has the row's id, slug, name, description, creation and expiry times and persistence, and the URL `<apiUrl>/api/hooks/<slug>` |
| Endpoints.ViewOfKeepsAllButCreator | apps/api/src/controller/endpointRequest.ts:83-92 | for endpoints with the same creator address the views are equal exactly when the rows are: only the creator address is hidden |
| Endpoints.GetEndpoint | apps/api/src/controller/endpointRequest.ts:67-98 | 404 exactly for an unknown slug, 410 exactly when `expiresAt < now` regardless of persistence, else the view of that endpoint |
| Endpoints.LimitOf | apps/api/src/controller/endpointRequest.ts:102 | the limit is never 0: a missing, unparsable or zero value gives 50, any other value is kept |
| Endpoints.PageOf | apps/api/src/controller/endpointRequest.ts:103 | the page is never 0: a missing, unparsable or zero value gives 1, any other value is kept |
| Endpoints.SkipSign | apps/api/src/controller/endpointRequest.ts:104 | `skip = (page-1)*limit` is negative exactly for a page past the first with a negative limit, or a negative page with a positive limit |
| Endpoints.Pages | apps/api/src/controller/endpointRequest.ts:137 | `Math.ceil(total/limit)`: for a positive limit the least `p` with `total <= p*limit`, zero exactly when there are no requests; for a negative limit the least `p` with `p*limit <= total`, never positive |
| Endpoints.Window | apps/api/src/controller/endpointRequest.ts:121-126 | at most `take` rows, each the row `skip` places later in the ordered result, and exactly as many as remain |
| Endpoints.WindowFromEnd | apps/api/src/controller/endpointRequest.ts:121-126 | for a negative `take`: at most `-take` rows, exactly as many as remain, forming the run that ends `skip` rows before the end of the ordered result |
| Endpoints.NewestFirst | apps/api/src/controller/endpointRequest.ts:121-123 | the listing holds every request of that endpoint and no other row, as many as the endpoint has |
| Endpoints.NewestFirstAppend | apps/api/src/controller/endpointRequest.ts:121-123 | the request captured last heads its endpoint's listing, followed by the earlier ones in their previous order; other endpoints' listings are unchanged |
| Endpoints.ListPage | apps/api/src/controller/endpointRequest.ts:121-141 | the page holds the window of that endpoint's requests newest first (from the end for a negative limit), at most the absolute value of `limit` of them, with the total and `pages = Math.ceil(total/limit)` |
| Endpoints.GetRequests | apps/api/src/controller/endpointRequest.ts:100-146 | 404 exactly for an unknown slug, 410 exactly when expired and not persistent, 500 exactly when the endpoint is readable and `skip` is negative, a page exactly when the endpoint is readable and `skip` is not negative |
| Endpoints.PageHolds | apps/api/src/controller/endpointRequest.ts:104-126 | the request at newest-first position k is item `k % limit` of page `k / limit + 1`, and that page is within the page count |
| Endpoints.PageTwoOfFifteen | apps/api/src/controller/endpointRequest.ts:100-141 | for a live endpoint with 15 requests, `?limit=10&page=2` answers the 5 oldest, with total 15 over 2 pages |
| Endpoints.NegativeLimitOfFifteen | apps/api/src/controller/endpointRequest.ts:100-141 | for the same endpoint, `?limit=-5` answers the last 5 of the newest-first listing and reports -3 pages |
| Endpoints.DeleteRequest | apps/api/src/controller/endpointRequest.ts:148-161 | removes exactly the request with that id and leaves endpoints and other requests alone; no such request gives 500 and no change |
| Endpoints.DeleteEndpoint | apps/api/src/controller/endpointRequest.ts:163-191 | an unknown slug gives 404 and no change; otherwise the endpoint, all its requests and its cache key go, nothing else changes, and the slug is no longer found |
| Sockets.RoomRegistry.Join | apps/api/src/socket.ts:22-39 | a falsy room is ignored with no change and no acknowledgement; otherwise the room is added to the socket's set, created when absent, and `room_joined` is sent with the room name |
| Sockets.RoomRegistry.Leave | apps/api/src/socket.ts:42-49 | the registry becomes the one with that room removed from a tracked socket's set |
| Sockets.RoomRegistry.Disconnect | apps/api/src/socket.ts:52-55 | the registry becomes the one without the socket's entry |
| Sockets.JoinedEffect | apps/api/src/socket.ts:32-35 | joining adds exactly that room for that socket, leaves other sockets alone, and joining again changes nothing |
| Sockets.LeftEffect | apps/api/src/socket.ts:42-49 | leaving removes only that room, touches no other socket and creates no entry for an untracked socket |
| Sockets.DisconnectedEffect | apps/api/src/socket.ts:52-55 | disconnecting removes that socket's entry and no other |
| Sockets.EmitWebhookEvent | apps/api/src/socket.ts:59-69 | the emission goes to the named room with that event name and payload |
| Sockets.EmitOnlyToRoom | apps/api/src/socket.ts:59-69 | `emitWebhookEvent` reaches a socket exactly when it is connected and tracked in the named room |
| Sockets.MembershipLifecycle | apps/api/src/socket.ts:22-55 | a connected socket receives room events after joining, and not after leaving that room or disconnecting |
| Cleanup.Selected | apps/api/src/cron/cleanup.ts:17-24 | the selection holds every endpoint with `expiresAt < now` that is not persistent, and only such endpoints |
| Cleanup.Survivors | apps/api/src/cron/cleanup.ts:17-24 | the rows left alone are every endpoint that is persistent or not yet expired, and only those |
| Cleanup.Infos | apps/api/src/cron/cleanup.ts:17-30 | one result row per selected endpoint, carrying its id and the number of its requests |
| Cleanup.TotalRequests | apps/api/src/cron/cleanup.ts:37 | the sum is at least each endpoint's count, and zero exactly when every count is zero |
| Cleanup.IdsOf | apps/api/src/cron/cleanup.ts:38 | the id list has one id per result row, in order |
| Cleanup.SweptIdsAreSelected | apps/api/src/cron/cleanup.ts:17-38 | an id is passed to `deleteMany` exactly when it belongs to an endpoint with `expiresAt < now` that is not persistent |
| Cleanup.SweepRemovesExactlyTheExpired | apps/api/src/cron/cleanup.ts:17-45 | deleting the swept ids leaves exactly the persistent and unexpired endpoints, in order, and the deleted count equals the number selected |
| Cleanup.TotalCountsRequests | apps/api/src/cron/cleanup.ts:37 | for endpoints with distinct ids, the sum of their request counts is the number of requests belonging to any of them |
| Cleanup.SweepReportsRemovedRequests | apps/api/src/cron/cleanup.ts:37-46 | the reported request total equals the number of requests the cascade removes |
| Cleanup.Run | apps/api/src/cron/cleanup.ts:11-50 | nothing selected means no change; otherwise exactly the selected endpoints and their requests go, everything else stays, and the outcome reports the selected count and the removed request total |
| ManualCleanup.Run | apps/api/scripts/manualCleanup.ts:16-55 | the same guarantees as the scheduled sweep: nothing selected means no change, else only the expired non-persistent endpoints and their requests go, with the same report |
| RequestBuilder.Builder.constructor | apps/web/components/requestBuilder.tsx:56-71 | the method starts as POST, the URL as the endpoint's, the header list as the single `Content-Type: application/json` row, and the query list empty |
| RequestBuilder.Appended | apps/web/components/requestBuilder.tsx:112-117 | exactly one row with empty key and value and the given id is added at the end, the existing rows unchanged and in order |
| RequestBuilder.SetField | apps/web/components/requestBuilder.tsx:123 | only the chosen field takes the new value; the other field and the id are kept |
| RequestBuilder.Updated | apps/web/components/requestBuilder.tsx:120-126 | the length is kept, rows with the id have the chosen field set, and every other row is unchanged |
| RequestBuilder.UpdateKeepsIds | apps/web/components/requestBuilder.tsx:120-126 | an update never changes a row's id |
| RequestBuilder.UpdateIdempotent | apps/web/components/requestBuilder.tsx:142-152 | repeating an update with the same arguments changes nothing more |
| RequestBuilder.UpdateThenRemove | apps/web/components/requestBuilder.tsx:120-131 | removing rows by an id after updating them by that id gives the same list as removing them directly |
| RequestBuilder.Removed | apps/web/components/requestBuilder.tsx:129-131 | no row with the id remains, every row with another id is kept, and nothing is added |
| RequestBuilder.RemovedEffect | apps/web/components/requestBuilder.tsx:129-131 | no row with the id remains, every row with another id is kept, and an absent id leaves the list as it was |
| RequestBuilder.RemoveUndoesAdd | apps/web/components/requestBuilder.tsx:134-157 | removing the id of a freshly added row (one whose id was not in use) restores the previous list |
| RequestBuilder.Pairs | apps/web/components/requestBuilder.tsx:193-196 | one `key=value` pair per parameter, with the key trimmed and both sides encoded |
| RequestBuilder.KeptIsFilter | apps/web/components/requestBuilder.tsx:191-192 | the kept parameters are exactly those whose trimmed key is non-blank, in their order |
| RequestBuilder.KeptEmpty | apps/web/components/requestBuilder.tsx:191-192 | the filter keeps nothing exactly when every parameter's key is blank |
| RequestBuilder.FallbackUrl | apps/web/components/requestBuilder.tsx:180-200 | the URL starts with the text before the first `?`, is exactly that text when no key is non-blank, and continues with `?` when it is longer |
| RequestBuilder.FinalUrlChoice | apps/web/components/requestBuilder.tsx:165-201 | a target the URL class parses gives that class's URL; otherwise the URL starts with the text before the first `?`, and is that text alone when no key is non-blank |
| RequestBuilder.FallbackUrlShape | apps/web/components/requestBuilder.tsx:182-199 | the URL is the text before the first `?` alone when no parameter has a non-blank key, and that text plus `?` plus the `&`-joined pairs of exactly the non-blank-key parameters, in order, otherwise; it contains `?` exactly when some key is non-blank |
| RequestBuilder.RecordKeys | apps/web/components/requestBuilder.tsx:219-229 | a record's keys are exactly the keys its rows set |
| RequestBuilder.RecordLastWins | apps/web/components/requestBuilder.tsx:219-229 | the last row setting a key decides its value |
| RequestBuilder.HeaderRecord | apps/web/components/requestBuilder.tsx:219-229 | the record has at most one key per header row |
| RequestBuilder.HeaderRecordKeys | apps/web/components/requestBuilder.tsx:219-229 | the header record's keys are exactly the trimmed keys of rows whose key is not blank |
| RequestBuilder.HeaderRecordKeysTrimmed | apps/web/components/requestBuilder.tsx:221-222 | every key of the header record is non-empty with no surrounding whitespace |
| RequestBuilder.HeaderRecordLastWins | apps/web/components/requestBuilder.tsx:219-229 | when several rows have the same trimmed key, the last of them gives the value |
| RequestBuilder.BuildHeaderRecord | apps/web/components/requestBuilder.tsx:219-229 | the loop builds the header record that the properties above describe |
| RequestBuilder.PrepareBody | apps/web/components/requestBuilder.tsx:232-248 | a body is attached exactly when the method is neither GET nor DELETE, the editor text is non-empty and parses; such text that does not parse aborts |
| RequestBuilder.ReplyStatus | apps/web/components/requestBuilder.tsx:252-268 | the status reports success exactly for a response with a 2xx status |
| RequestBuilder.Builder.AddHeader | apps/web/components/requestBuilder.tsx:112-117 | the header list gains one empty row with id `header-<now>`; everything else is unchanged |
| RequestBuilder.Builder.UpdateHeader | apps/web/components/requestBuilder.tsx:120-126 | the header list becomes the updated list; everything else is unchanged |
| RequestBuilder.Builder.RemoveHeader | apps/web/components/requestBuilder.tsx:129-131 | the header list loses the rows with that id; everything else is unchanged |
| RequestBuilder.Builder.AddQueryParam | apps/web/components/requestBuilder.tsx:134-139 | the query list gains one empty row with id `query-<now>`; everything else is unchanged |
| RequestBuilder.Builder.UpdateQueryParam | apps/web/components/requestBuilder.tsx:142-152 | the query list becomes the updated list; everything else is unchanged |
| RequestBuilder.Builder.RemoveQueryParam | apps/web/components/requestBuilder.tsx:155-157 | the query list loses the rows with that id; everything else is unchanged |
| RequestBuilder.Builder.SendRequest | apps/web/components/requestBuilder.tsx:204-272 | invalid JSON sets the error status and sends nothing; otherwise exactly one request is sent, to the URL-class result or the fallback URL, with the header record and the body rule's body; the status then follows the reply and the sending flag is cleared |
| Text.TrimFacts | apps/api/src/controller/hooks.ts:16 | the trimmed text occurs in the original, has no outer whitespace, and is empty exactly when the original is all whitespace |
| Text.FirstSegment | apps/api/src/controller/hooks.ts:16 | `split(',')[0].trim()` is empty exactly when the first segment is blank, never holds a comma, and otherwise is a piece of the header with no outer whitespace |
| Text.ContainsAt | apps/api/src/controller/hooks.ts:24 | `includes` holds exactly when the pattern occurs at some position |
| Text.BeforeFirst | apps/web/components/requestBuilder.tsx:184-188 | the result is a prefix without the separator, followed in the original by the separator when shorter |

## Left out

- Redis is not modelled as a store. The `set`, `expire`, `del` and `incr`
  calls are returned as `CacheOp` values with their keys and TTLs. Nothing in
  the handlers reads the cache back.
- socket.io is not modelled. Actual room membership, transport, ping and CORS
  settings and the room-size logging are library behaviour. The model tracks
  the `clientRooms` registry, the emitted values, and the sockets those values
  reach according to the registry.
- Concurrency and Prisma transaction isolation are not modelled. Each handler
  and each transaction is one atomic step. The endpoint vanishing between the
  pre-check and the transaction is stated on `Hooks.Transaction`. Inside one
  sequential `Hooks.AllRoutes` call it cannot happen.
- Hooks.AllRoutes: the 500 answer for a store failure outside the
  transaction is not modelled, since the store's own failures are not part
  of the model.
- Store failures in the endpoint handlers are not modelled, for the same
  reason: the 500 answers `Failed to fetch endpoint` and `Failed to delete
  endpoint` never occur in the model. `Endpoints.CreateEndpoint` answers 500
  only when every generated candidate collides.
- Endpoints.GenerateSlug: the generator is a finite sequence of
  candidates instead of an endless retry, and the slug length of 8 is not
  modelled.
- Dates and timers are not modelled. Time is integer milliseconds.
  `setHours` is taken as adding whole hours, with no daylight-saving or
  calendar effects. `node-cron` scheduling and the 5-second status
  dismissal are left out.
- Endpoints.NewestFirst: `orderBy createdAt desc` is modelled as
  reverse insertion order. Requests inserted in the same millisecond may be
  ordered differently by the store.
- Endpoints.GetRequests: a negative `skip` is taken to be refused by the
  store (500), and a negative `take` to read from the end of the ordering,
  as Prisma's backward pagination does; the store itself is not modelled.
  NaN, fractional and `-0` values of the query parameters are outside the
  model, and `Math.ceil` of `0 / -limit` (`-0` in JavaScript) is 0.
- Hooks.ClientIp: an empty `x-forwarded-for` array gives no address, as `[][0]`
  is `undefined` in the source. Header values are strings only.
- Hooks.NormalizeBody: `JSON.stringify` is not computed. A serialised body is
  recorded as `Serialized(body)`. JSON values exclude NaN and `-0`.
- Endpoints.CreateEndpoint: durations are whole hours (`Option<int>`). For a
  fractional `duration` the source disagrees with itself: `setHours` truncates
  the added hours (1.5 gives an expiry 1 hour on), while the cache TTL is
  `hoursToExpire * 3600` seconds (5400 for 1.5); a TTL that is not a whole
  number of seconds (1.0001 hours) is refused by the cache after the row was
  stored, so the call answers 500 with the endpoint left in the store. None of
  this is modelled, and `NewRowLifetime`'s agreement of expiry and TTL holds
  for whole hours only.
- Endpoints.CreateEndpoint: `duration` and `persistent` are taken as a number and a
  boolean. JavaScript truthiness of other JSON values is not modelled.
  `process.env.API_URL` is the parameter `apiUrl`.
- Cleanup.Run: a store failure that the `catch` logs is not modelled.
  A run issues no retry, and it makes exactly one `deleteMany` call. Logging is
  left out.
- ManualCleanup.Run: the database connection, disconnection, `main` and
  `process.exit` are left out. They are process wiring around the same sweep.
- RequestBuilder.FinalUrl: the `URL` class branch is the parameter
  `parsed`, which is `None` when `customUrl` does not parse. Only the fallback
  branch is computed. `encodeURIComponent` is the parameter `enc`, and
  `JSON.parse` validity is the parameter `validJson`.
- RequestBuilder.Builder.SendRequest: `fetch` is the `reply` parameter, and the
  result is the outgoing request as a value. The duplicate accumulation into
  `requestOptions.headers` builds the same record, so it is modelled once.
  An error thrown before `fetch`, such as in building the URL, is not
  modelled.
- `formatRequestBuilderJson`, the editor, the tabs, the method selector and the
  `customUrl` reset on endpoint change are presentation in
  apps/web/components/requestBuilder.tsx, and are left out. The other UI files,
  the route wiring, the server bootstrap and the interface file
  apps/api/src/utils/types.ts are not part of this model.
