/** The durable store: the endpoint and request tables in insertion order, the
    IP registry keyed by address, and the operations the handlers issue
    against them (find by slug, create, update, delete with cascade,
    delete many). Each method is one statement of the store, carried out
    atomically. */
module Store {
  import opened Schema
  import opened Seqs

  function EndpointKey(e: Endpoint): Id { e.id }
  function SlugKey(e: Endpoint): Slug { e.slug }
  function RequestKey(r: Request): Id { r.id }

  /** Some endpoint row carries this id. */
  predicate HasId(rows: seq<Endpoint>, id: Id)
  {
    exists e :: e in rows && e.id == id
  }

  /** `findUnique({ where: { slug } })`: the row with that slug, if any. */
  function FindSlug(rows: seq<Endpoint>, slug: Slug): (r: Option<Endpoint>)
    ensures r.Some? ==> r.value in rows && r.value.slug == slug
    ensures r.None? <==> forall i :: 0 <= i < |rows| ==> rows[i].slug != slug
  {
    if rows == [] then None
    else if rows[0].slug == slug then Some(rows[0])
    else FindSlug(rows[1..], slug)
  }

  /** With unique slugs, the row found for a slug is the only row with it. */
  lemma {:induction false} FindSlugUnique(rows: seq<Endpoint>, slug: Slug, k: nat)
    requires Distinct(rows, SlugKey)
    requires k < |rows| && rows[k].slug == slug
    ensures FindSlug(rows, slug) == Some(rows[k])
  {
    if k > 0 {
      assert SlugKey(rows[0]) != SlugKey(rows[k]);
      DistinctTail(rows, SlugKey);
      FindSlugUnique(rows[1..], slug, k - 1);
    }
  }

  /** The requests captured for endpoint `id`, oldest first. */
  function RequestsOf(log: seq<Request>, id: Id): seq<Request>
  {
    Filter(log, (r: Request) => r.endpointId == id)
  }

  /** The endpoint table after deleting the row with that id. */
  function WithoutEndpoint(rows: seq<Endpoint>, id: Id): seq<Endpoint>
  {
    Filter(rows, (e: Endpoint) => e.id != id)
  }

  /** The request table after the cascade from deleting endpoint `id`. */
  function WithoutRequestsOf(log: seq<Request>, id: Id): seq<Request>
  {
    Filter(log, (r: Request) => r.endpointId != id)
  }

  /** The request table after deleting the request with that id. */
  function WithoutRequest(log: seq<Request>, id: Id): seq<Request>
  {
    Filter(log, (r: Request) => r.id != id)
  }

  /** The endpoint table after `deleteMany({ where: { id: { in: ids } } })`. */
  function WithoutEndpoints(rows: seq<Endpoint>, ids: seq<Id>): seq<Endpoint>
  {
    Filter(rows, (e: Endpoint) => e.id !in ids)
  }

  /** The request table after the cascade from deleting every endpoint in `ids`. */
  function WithoutRequestsOfAll(log: seq<Request>, ids: seq<Id>): seq<Request>
  {
    Filter(log, (r: Request) => r.endpointId !in ids)
  }

  class Db {
    var endpoints: seq<Endpoint>
    var requests: seq<Request>
    var registry: map<string, IpRecord>
    /** The next row id the store hands out; every id in use is below it. */
    var nextId: nat

    /** The table constraints: unique endpoint ids and slugs, unique request
        ids, and every request pointing at an existing endpoint. */
    ghost predicate Valid()
      reads this
    {
      && Distinct(endpoints, EndpointKey)
      && Distinct(endpoints, SlugKey)
      && Distinct(requests, RequestKey)
      && (forall i :: 0 <= i < |endpoints| ==> endpoints[i].id < nextId)
      && (forall i :: 0 <= i < |requests| ==> requests[i].id < nextId)
      && (forall i :: 0 <= i < |requests| ==> HasId(endpoints, requests[i].endpointId))
    }

    constructor ()
      ensures Valid()
      ensures endpoints == [] && requests == [] && registry == map[] && nextId == 0
    {
      endpoints, requests, registry, nextId := [], [], map[], 0;
    }

    /** `endpoint.findUnique({ where: { slug } })`. */
    function Find(slug: Slug): Option<Endpoint>
      reads this
    {
      FindSlug(endpoints, slug)
    }

    /** `endpoint.create`: a new row with a fresh id, refused when the slug is taken. */
    method CreateEndpoint(slug: Slug, name: string, description: Option<string>, createdAt: int,
                          expiresAt: int, isPersistent: bool, creatorIp: Option<string>)
        returns (r: Option<Endpoint>)
      requires Valid()
      modifies this
      ensures Valid()
      ensures old(Find(slug)).Some? ==> r.None? && unchanged(this)
      ensures old(Find(slug)).None? ==>
        && r == Some(Endpoint(old(nextId), slug, name, description, createdAt, expiresAt, isPersistent, creatorIp))
        && endpoints == old(endpoints) + [r.value]
        && requests == old(requests) && registry == old(registry)
    {
      if Find(slug).Some? {
        return None;
      }
      var e := Endpoint(nextId, slug, name, description, createdAt, expiresAt, isPersistent, creatorIp);
      var rows := endpoints + [e];
      forall i, j | 0 <= i < j < |rows| ensures EndpointKey(rows[i]) != EndpointKey(rows[j]) && SlugKey(rows[i]) != SlugKey(rows[j]) {
        if j < |endpoints| {
          assert rows[i] == endpoints[i] && rows[j] == endpoints[j];
        }
      }
      forall i | 0 <= i < |requests| ensures HasId(rows, requests[i].endpointId) {
        var w :| w in endpoints && w.id == requests[i].endpointId;
        assert w in rows;
      }
      endpoints := rows;
      nextId := nextId + 1;
      r := Some(e);
    }

    /** `request.create`: appends one row with a fresh id; the foreign key must exist. */
    method CreateRequest(endpointId: Id, verb: string, headers: Headers, body: Body,
                         queryParams: Value, ip: Option<string>, userAgent: string, createdAt: int)
        returns (r: Request)
      requires Valid() && HasId(endpoints, endpointId)
      modifies this
      ensures Valid()
      ensures r == Request(old(nextId), endpointId, verb, headers, body, queryParams, ip, userAgent, createdAt)
      ensures requests == old(requests) + [r]
      ensures endpoints == old(endpoints) && registry == old(registry)
    {
      r := Request(nextId, endpointId, verb, headers, body, queryParams, ip, userAgent, createdAt);
      var log := requests + [r];
      forall i, j | 0 <= i < j < |log| ensures RequestKey(log[i]) != RequestKey(log[j]) {
        if j < |requests| {
          assert log[i] == requests[i] && log[j] == requests[j];
        }
      }
      requests := log;
      nextId := nextId + 1;
    }

    /** `ipRegistry.update`: a new `lastSeen` and `requestUsage` for an existing row. */
    method UpdateRequestUsage(ip: string, lastSeen: int, requestUsage: int)
      requires Valid() && ip in registry
      modifies this
      ensures Valid()
      ensures registry == old(registry)[ip := old(registry)[ip].(lastSeen := lastSeen, requestUsage := requestUsage)]
      ensures endpoints == old(endpoints) && requests == old(requests) && nextId == old(nextId)
    {
      registry := registry[ip := registry[ip].(lastSeen := lastSeen, requestUsage := requestUsage)];
    }

    /** `endpoint.delete({ where: { id } })` with the cascade to its requests. */
    method DeleteEndpoint(id: Id)
      requires Valid()
      modifies this
      ensures Valid()
      ensures endpoints == WithoutEndpoint(old(endpoints), id)
      ensures requests == WithoutRequestsOf(old(requests), id)
      ensures registry == old(registry) && nextId == old(nextId)
    {
      var rows := WithoutEndpoint(endpoints, id);
      var log := WithoutRequestsOf(requests, id);
      FilterDistinct(endpoints, (e: Endpoint) => e.id != id, EndpointKey);
      FilterDistinct(endpoints, (e: Endpoint) => e.id != id, SlugKey);
      FilterDistinct(requests, (r: Request) => r.endpointId != id, RequestKey);
      forall i | 0 <= i < |log| ensures HasId(rows, log[i].endpointId) {
        var w :| w in endpoints && w.id == log[i].endpointId;
        var k :| 0 <= k < |endpoints| && endpoints[k] == w;
        assert endpoints[k] in rows;
      }
      endpoints, requests := rows, log;
    }

    /** `request.delete({ where: { id } })`: `false`, and no change, when no row has that id. */
    method DeleteRequest(id: Id) returns (found: bool)
      requires Valid()
      modifies this
      ensures Valid()
      ensures found <==> exists r :: r in old(requests) && r.id == id
      ensures requests == if found then WithoutRequest(old(requests), id) else old(requests)
      ensures !found ==> unchanged(this)
      ensures endpoints == old(endpoints) && registry == old(registry) && nextId == old(nextId)
    {
      found := exists r :: r in requests && r.id == id;
      if found {
        var log := WithoutRequest(requests, id);
        FilterDistinct(requests, (r: Request) => r.id != id, RequestKey);
        requests := log;
      }
    }

    /** `endpoint.deleteMany({ where: { id: { in: ids } } })` with the cascade;
        `count` is the number of endpoint rows removed. */
    method DeleteMany(ids: seq<Id>) returns (count: nat)
      requires Valid()
      modifies this
      ensures Valid()
      ensures endpoints == WithoutEndpoints(old(endpoints), ids)
      ensures requests == WithoutRequestsOfAll(old(requests), ids)
      ensures count == |old(endpoints)| - |endpoints|
      ensures registry == old(registry) && nextId == old(nextId)
    {
      var rows := WithoutEndpoints(endpoints, ids);
      var log := WithoutRequestsOfAll(requests, ids);
      FilterDistinct(endpoints, (e: Endpoint) => e.id !in ids, EndpointKey);
      FilterDistinct(endpoints, (e: Endpoint) => e.id !in ids, SlugKey);
      FilterDistinct(requests, (r: Request) => r.endpointId !in ids, RequestKey);
      forall i | 0 <= i < |log| ensures HasId(rows, log[i].endpointId) {
        var w :| w in endpoints && w.id == log[i].endpointId;
        var k :| 0 <= k < |endpoints| && endpoints[k] == w;
        assert endpoints[k] in rows;
      }
      count := |endpoints| - |rows|;
      endpoints, requests := rows, log;
    }
  }
}
