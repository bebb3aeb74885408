/** The endpoint lifecycle handlers: mint an endpoint under a fresh slug with
    a clamped lifetime, read it back, page through its captured requests
    newest first, and delete a request or a whole endpoint with its requests. */
module Endpoints {
  import opened Schema
  import opened Seqs
  import opened Store

  /** `generateSlug`: the first candidate no endpoint already uses. The
      candidates stand for the successive outputs of the random generator;
      `None` when every one of them collides. */
  method GenerateSlug(db: Db, candidates: seq<Slug>) returns (slug: Option<Slug>)
    ensures slug.Some? ==> db.Find(slug.value).None?
    ensures slug.Some? ==> exists k :: 0 <= k < |candidates| && candidates[k] == slug.value
                                       && forall j :: 0 <= j < k ==> db.Find(candidates[j]).Some?
    ensures slug.None? ==> forall k :: 0 <= k < |candidates| ==> db.Find(candidates[k]).Some?
  {
    var k := 0;
    while k < |candidates|
      invariant 0 <= k <= |candidates|
      invariant forall j :: 0 <= j < k ==> db.Find(candidates[j]).Some?
    {
      if db.Find(candidates[k]).None? {
        return Some(candidates[k]);
      }
      k := k + 1;
    }
    return None;
  }

  /** The lifetime in hours: 720 for a persistent endpoint, otherwise the
      requested duration clamped to one hour .. one week. */
  function HoursToExpire(persistent: bool, duration: int): (h: int)
    ensures 1 <= h <= 720
    ensures persistent ==> h == 720
    ensures !persistent ==> 1 <= h <= 168
    ensures !persistent && 1 <= duration <= 168 ==> h == duration
    ensures !persistent && duration < 1 ==> h == 1
    ensures !persistent && duration > 168 ==> h == 168
  {
    if persistent then 720 else if duration < 1 then 1 else if duration > 168 then 168 else duration
  }

  /** The JSON body of the creation call; `None` is a field left out. */
  datatype CreateBody = CreateBody(name: Option<string>, description: Option<string>, duration: Option<int>, persistent: Option<bool>)

  /** The destructuring default `duration = 24`. */
  function Duration(b: CreateBody): (d: int)
    ensures b.duration.None? ==> d == 24
    ensures b.duration.Some? ==> d == b.duration.value
  {
    if b.duration.Some? then b.duration.value else 24
  }

  /** The destructuring default `persistent = false`. */
  function Persistent(b: CreateBody): (p: bool)
    ensures b.persistent.None? ==> !p
    ensures p <==> b.persistent == Some(true)
  {
    b.persistent.Some? && b.persistent.value
  }

  /** `name || \`Webhook ${slug}\``. */
  function NameFor(name: Option<string>, slug: Slug): (n: string)
    ensures name.Some? && name.value != "" ==> n == name.value
    ensures name.None? || name.value == "" ==> n == "Webhook " + slug
  {
    if name.Some? && name.value != "" then name.value else "Webhook " + slug
  }

  /** The public view of an endpoint returned by create and get. */
  datatype EndpointView = EndpointView(
    id: Id, slug: Slug, url: string, name: string, description: Option<string>,
    createdAt: int, expiresAt: int, isPersistent: bool)

  function HookUrl(apiUrl: string, slug: Slug): string
  {
    apiUrl + "/api/hooks/" + slug
  }

  /** The endpoint as `createEndpoint` and `getEndpoint` answer it: every
      column but the creator address, and the hook URL under `apiUrl`. */
  function ViewOf(e: Endpoint, apiUrl: string): (v: EndpointView)
    ensures v.id == e.id && v.slug == e.slug && v.name == e.name && v.description == e.description
    ensures v.createdAt == e.createdAt && v.expiresAt == e.expiresAt && v.isPersistent == e.isPersistent
    ensures v.url == apiUrl + "/api/hooks/" + e.slug
  {
    EndpointView(e.id, e.slug, HookUrl(apiUrl, e.slug), e.name, e.description, e.createdAt, e.expiresAt, e.isPersistent)
  }

  /** The view hides only the creator address: two endpoints with the same
      creator address and the same view are the same row. */
  lemma ViewOfKeepsAllButCreator(e1: Endpoint, e2: Endpoint, apiUrl: string)
    requires e1.creatorIp == e2.creatorIp
    ensures ViewOf(e1, apiUrl) == ViewOf(e2, apiUrl) <==> e1 == e2
  {
  }

  /** The cache key holding an endpoint's id. */
  function CacheKey(slug: Slug): string
  {
    "endpoint:" + slug
  }

  /** The row `createEndpoint` inserts for a creation body at time `now`:
      the description as given, the name defaulted, no creator address. */
  function NewRow(id: Id, slug: Slug, b: CreateBody, now: int): (e: Endpoint)
    ensures e.id == id && e.slug == slug && e.description == b.description
    ensures e.name == NameFor(b.name, slug) && e.name != ""
    ensures e.createdAt == now && e.creatorIp.None?
  {
    var hours := HoursToExpire(Persistent(b), Duration(b));
    Endpoint(id, slug, NameFor(b.name, slug), b.description, now, now + hours * MillisPerHour, Persistent(b), None)
  }

  /** A new endpoint is alive from creation until its lifetime has passed,
      a lifetime of 1 to 720 whole hours that the cache entry's TTL matches to the second. */
  lemma NewRowLifetime(id: Id, slug: Slug, b: CreateBody, now: int)
    ensures var e := NewRow(id, slug, b, now);
      var hours := HoursToExpire(Persistent(b), Duration(b));
      && e.createdAt == now < e.expiresAt
      && MillisPerHour <= e.expiresAt - e.createdAt <= 720 * MillisPerHour
      && e.expiresAt - e.createdAt == hours * 3600 * 1000
      && (!Persistent(b) ==> e.expiresAt - e.createdAt <= 168 * MillisPerHour)
      && e.isPersistent == Persistent(b)
      && e.creatorIp.None?
  {
  }

  datatype CreateResponse = Created(view: EndpointView) | CreateFailed(status: int, error: string)

  lemma FindSlugAppend(rows: seq<Endpoint>, e: Endpoint)
    requires FindSlug(rows, e.slug).None?
    ensures FindSlug(rows + [e], e.slug) == Some(e)
  {
    var all := rows + [e];
    if FindSlug(all, e.slug) != Some(e) {
      var k := |rows|;
      assert all[k] == e;
      FindSlugFirst(all, e.slug, k);
      assert false;
    }
  }

  /** The row found for a slug is the first one carrying it. */
  lemma {:induction false} FindSlugFirst(rows: seq<Endpoint>, slug: Slug, k: nat)
    requires k < |rows| && rows[k].slug == slug
    requires forall j :: 0 <= j < k ==> rows[j].slug != slug
    ensures FindSlug(rows, slug) == Some(rows[k])
  {
    if k > 0 {
      FindSlugFirst(rows[1..], slug, k - 1);
    }
  }

  /** `createEndpoint`: picks a fresh slug, inserts the endpoint (with no
      creator address and no quota check), and records the cache entry with a
      TTL of the lifetime in seconds. The new endpoint is immediately readable.
      A generator that keeps colliding, or a store failure, gives 500 and no change. */
  method CreateEndpoint(db: Db, b: CreateBody, now: int, candidates: seq<Slug>, apiUrl: string)
      returns (resp: CreateResponse, cache: seq<CacheOp>)
    requires db.Valid()
    modifies db
    ensures db.Valid()
    ensures resp.CreateFailed? ==> resp == CreateFailed(500, "Failed to create endpoint") && cache == [] && unchanged(db)
    ensures resp.Created? ==>
      var e := NewRow(old(db.nextId), resp.view.slug, b, now);
      && old(db.Find(resp.view.slug)).None?
      && resp.view.slug in candidates
      && db.endpoints == old(db.endpoints) + [e]
      && db.requests == old(db.requests) && db.registry == old(db.registry)
      && resp.view == ViewOf(e, apiUrl)
      && cache == [CacheSet(CacheKey(e.slug), e.id),
                   CacheExpire(CacheKey(e.slug), HoursToExpire(Persistent(b), Duration(b)) * 3600)]
      && db.Find(e.slug) == Some(e)
      && GetEndpoint(db, e.slug, now, apiUrl) == Found(resp.view)
    ensures (exists k :: 0 <= k < |candidates| && old(db.Find(candidates[k])).None?) ==> resp.Created?
  {
    cache := [];
    var slug := GenerateSlug(db, candidates);
    if slug.None? {
      return CreateFailed(500, "Failed to create endpoint"), cache;
    }
    var hours := HoursToExpire(Persistent(b), Duration(b));
    var expiresAt := now + hours * MillisPerHour;
    ghost var before := db.endpoints;
    var row := db.CreateEndpoint(slug.value, NameFor(b.name, slug.value), b.description, now, expiresAt, Persistent(b), None);
    if row.None? {
      return CreateFailed(500, "Failed to create endpoint"), cache;
    }
    var e := row.value;
    FindSlugAppend(before, e);
    cache := [CacheSet(CacheKey(slug.value), e.id), CacheExpire(CacheKey(slug.value), hours * 3600)];
    resp := Created(ViewOf(e, apiUrl));
  }

  datatype GetResponse = Found(view: EndpointView) | GetFailed(status: int, error: string)

  /** `getEndpoint`: 404 for an unknown slug, 410 once `expiresAt` has passed
      (persistent or not), the view otherwise. */
  function GetEndpoint(db: Db, slug: Slug, now: int, apiUrl: string): (r: GetResponse)
    reads db
    ensures r == GetFailed(404, "Endpoint not found") <==> db.Find(slug).None?
    ensures r == GetFailed(410, "Endpoint has expired") <==> db.Find(slug).Some? && db.Find(slug).value.expiresAt < now
    ensures r.Found? <==> db.Find(slug).Some? && db.Find(slug).value.expiresAt >= now
    ensures r.Found? ==> r.view == ViewOf(db.Find(slug).value, apiUrl) && r.view.slug == slug
  {
    match db.Find(slug)
    case None => GetFailed(404, "Endpoint not found")
    case Some(e) => if e.expiresAt < now then GetFailed(410, "Endpoint has expired") else Found(ViewOf(e, apiUrl))
  }

  /** `parseInt(req.query.limit) || 50`: `None` is an absent or unparsable value. */
  function LimitOf(param: Option<int>): (limit: int)
    ensures limit != 0
    ensures param.Some? && param.value != 0 ==> limit == param.value
    ensures param.None? || param.value == 0 ==> limit == 50
  {
    if param.None? || param.value == 0 then 50 else param.value
  }

  /** `parseInt(req.query.page) || 1`. */
  function PageOf(param: Option<int>): (page: int)
    ensures page != 0
    ensures param.Some? && param.value != 0 ==> page == param.value
    ensures param.None? || param.value == 0 ==> page == 1
  {
    if param.None? || param.value == 0 then 1 else param.value
  }

  /** `skip = (page - 1) * limit` is negative exactly when page and limit
      point in opposite directions: a page past the first with a negative
      limit, or a negative page with a positive limit. */
  lemma SkipSign(page: int, limit: int)
    requires page != 0 && limit != 0
    ensures (page - 1) * limit < 0 <==> (page > 1 && limit < 0) || (page < 0 && limit > 0)
  {
    if page > 1 && limit < 0 {
      MulMonotone(limit, 0, page - 1);
    } else if page < 0 && limit > 0 {
      MulMonotone(page - 1, 0, limit);
    } else if page == 1 {
      assert (page - 1) * limit == 0;
    } else if page > 1 {
      MulMonotone(0, page - 1, limit);
    } else {
      assert (page - 1) * limit == (1 - page) * -limit;
      MulMonotone(0, 1 - page, -limit);
    }
  }

  /** `Math.ceil(total / limit)`: the least integer `p` with `p >= total / limit`.
      For a negative limit that is zero or negative. */
  function Pages(total: nat, limit: int): (pages: int)
    requires limit != 0
    ensures limit > 0 ==> pages >= 0 && (total == 0 <==> pages == 0)
    ensures limit > 0 && total > 0 ==> (pages - 1) * limit < total <= pages * limit
    ensures limit < 0 ==> pages <= 0 && pages * limit <= total < (pages - 1) * limit
  {
    if limit > 0 then (total + limit - 1) / limit
    else
      var q := total / -limit;
      assert q * -limit <= total < (q + 1) * -limit;
      assert -q * limit == q * -limit && (-q - 1) * limit == (q + 1) * -limit;
      -q
  }

  /** `skip`/`take` over an ordered result: at most `take` rows starting at `skip`. */
  function Window<T>(all: seq<T>, skip: nat, take: nat): (r: seq<T>)
    ensures |r| <= take
    ensures skip >= |all| ==> r == []
    ensures skip < |all| ==> |r| == (if skip + take <= |all| then take else |all| - skip)
    ensures forall i :: 0 <= i < |r| ==> r[i] == all[skip + i]
  {
    if skip >= |all| then [] else if skip + take <= |all| then all[skip..skip + take] else all[skip..]
  }

  /** A negative `take` of `-take`: the store reads the ordered result from its
      end, passes over `skip` rows, keeps `take` rows and returns them in the
      original order, so the result is the run of rows that ends `skip` rows
      before the end. */
  function WindowFromEnd<T>(all: seq<T>, skip: nat, take: nat): (r: seq<T>)
    ensures |r| <= take
    ensures skip >= |all| ==> r == []
    ensures skip < |all| ==> |r| == (if skip + take <= |all| then take else |all| - skip)
    ensures forall i :: 0 <= i < |r| ==> |all| - skip - |r| + i >= 0 && r[i] == all[|all| - skip - |r| + i]
  {
    var w := Window(Reverse(all), skip, take);
    var r := Reverse(w);
    assert forall i :: 0 <= i < |r| ==> r[i] == Reverse(all)[skip + |w| - 1 - i];
    r
  }

  /** The requests of endpoint `id`, newest first: all of them, and no others. */
  function NewestFirst(log: seq<Request>, id: Id): (r: seq<Request>)
    ensures |r| == |RequestsOf(log, id)|
    ensures forall i :: 0 <= i < |r| ==> r[i] in log && r[i].endpointId == id
    ensures forall i :: 0 <= i < |log| && log[i].endpointId == id ==> log[i] in r
  {
    var own := RequestsOf(log, id);
    var r := Reverse(own);
    assert forall i :: 0 <= i < |own| ==> own[i] == r[|own| - 1 - i];
    r
  }

  /** The request captured last comes first in its endpoint's listing, ahead
      of all that endpoint's earlier requests in their previous order; the
      listings of other endpoints do not change. */
  lemma NewestFirstAppend(log: seq<Request>, q: Request, id: Id)
    ensures id == q.endpointId ==> NewestFirst(log + [q], id) == [q] + NewestFirst(log, id)
    ensures id != q.endpointId ==> NewestFirst(log + [q], id) == NewestFirst(log, id)
  {
    var p := (r: Request) => r.endpointId == id;
    FilterAppend(log, [q], p);
    var own := RequestsOf(log, id);
    if id == q.endpointId {
      assert Filter([q], p) == [q];
      assert RequestsOf(log + [q], id) == own + [q];
      ReverseSnoc(own, q);
    } else {
      assert Filter([q], p) == [];
      assert RequestsOf(log + [q], id) == own;
    }
  }

  datatype ListResponse =
    | Listed(requests: seq<Request>, total: nat, pages: int, page: int, limit: int)
    | ListFailed(status: int, error: string)

  /** The page returned for endpoint `e` once the request has passed the
      checks and `skip` is not negative: a positive limit takes that many
      rows from `skip` on, a negative one counts from the end of the listing. */
  function ListPage(log: seq<Request>, e: Endpoint, page: int, limit: int): (r: ListResponse)
    requires limit != 0 && (page - 1) * limit >= 0
    ensures r.Listed? && r.page == page && r.limit == limit
    ensures r.total == |RequestsOf(log, e.id)| && r.pages == Pages(r.total, limit)
    ensures limit > 0 ==> r.requests == Window(NewestFirst(log, e.id), (page - 1) * limit, limit)
    ensures limit < 0 ==> r.requests == WindowFromEnd(NewestFirst(log, e.id), (page - 1) * limit, -limit)
    ensures |r.requests| <= if limit > 0 then limit else -limit
  {
    var all := NewestFirst(log, e.id);
    var skip := (page - 1) * limit;
    var rows := if limit > 0 then Window(all, skip, limit) else WindowFromEnd(all, skip, -limit);
    Listed(rows, |all|, Pages(|all|, limit), page, limit)
  }

  /** `getRequests`: 404 for an unknown slug, 410 only for an expired endpoint
      that is not persistent; 500 when `skip` comes out negative, which the
      store refuses; otherwise one page of its requests newest first with the
      total and the page count. */
  function GetRequests(db: Db, slug: Slug, limitParam: Option<int>, pageParam: Option<int>, now: int): (r: ListResponse)
    reads db
    ensures r == ListFailed(404, "Endpoint not found") <==> db.Find(slug).None?
    ensures r == ListFailed(410, "Endpoint has expired") <==>
      db.Find(slug).Some? && db.Find(slug).value.expiresAt < now && !db.Find(slug).value.isPersistent
    ensures r == ListFailed(500, "Failed to fetch requests") <==>
      db.Find(slug).Some? && !(db.Find(slug).value.expiresAt < now && !db.Find(slug).value.isPersistent)
      && var page, limit := PageOf(pageParam), LimitOf(limitParam);
         (page > 1 && limit < 0) || (page < 0 && limit > 0)
    ensures r.Listed? <==>
      db.Find(slug).Some? && !(db.Find(slug).value.expiresAt < now && !db.Find(slug).value.isPersistent)
      && (PageOf(pageParam) - 1) * LimitOf(limitParam) >= 0
    ensures r.Listed? ==> r == ListPage(db.requests, db.Find(slug).value, PageOf(pageParam), LimitOf(limitParam))
  {
    var limit := LimitOf(limitParam);
    var page := PageOf(pageParam);
    SkipSign(page, limit);
    match db.Find(slug)
    case None => ListFailed(404, "Endpoint not found")
    case Some(e) =>
      if e.expiresAt < now && !e.isPersistent then ListFailed(410, "Endpoint has expired")
      else if (page - 1) * limit < 0 then ListFailed(500, "Failed to fetch requests")
      else ListPage(db.requests, e, page, limit)
  }

  /** Every request appears on exactly the page its newest-first position
      falls in: position `k` is item `k % limit` of page `k / limit + 1`, and
      that page is within the page count. */
  lemma {:induction false} PageHolds<T>(all: seq<T>, limit: int, k: nat)
    requires limit > 0 && k < |all|
    ensures var page := k / limit + 1;
      && 1 <= page <= Pages(|all|, limit)
      && k % limit < |Window(all, (page - 1) * limit, limit)|
      && Window(all, (page - 1) * limit, limit)[k % limit] == all[k]
  {
    var q, m := k / limit, k % limit;
    assert k == q * limit + m;
    var p := Pages(|all|, limit);
    assert (p - 1) * limit < |all| <= p * limit;
    if q + 1 > p {
      assert q >= p;
      assert q * limit >= p * limit by {
        MulMonotone(p, q, limit);
      }
      assert false;
    }
    assert (q + 1 - 1) * limit == q * limit;
  }

  lemma MulMonotone(a: int, b: int, c: int)
    requires a <= b && c >= 0
    ensures a * c <= b * c
  {
  }

  /** For a live endpoint with 15 captured requests, `?limit=10&page=2`
      answers the 5 oldest of them, with 15 in total over 2 pages. */
  lemma PageTwoOfFifteen(db: Db, slug: Slug, now: int)
    requires db.Find(slug).Some? && db.Find(slug).value.expiresAt >= now
    requires |RequestsOf(db.requests, db.Find(slug).value.id)| == 15
    ensures var r := GetRequests(db, slug, Some(10), Some(2), now);
      && r.Listed? && r.total == 15 && r.pages == 2 && r.page == 2 && r.limit == 10
      && r.requests == NewestFirst(db.requests, db.Find(slug).value.id)[10..]
      && |r.requests| == 5
  {
  }

  /** For the same endpoint, `?limit=-5` (page 1, so `skip` 0) answers the
      last 5 rows of the newest-first listing, that is again the 5 oldest,
      and reports `Math.ceil(15 / -5) = -3` pages. */
  lemma NegativeLimitOfFifteen(db: Db, slug: Slug, now: int)
    requires db.Find(slug).Some? && db.Find(slug).value.expiresAt >= now
    requires |RequestsOf(db.requests, db.Find(slug).value.id)| == 15
    ensures var r := GetRequests(db, slug, Some(-5), None, now);
      && r.Listed? && r.total == 15 && r.pages == -3 && r.page == 1 && r.limit == -5
      && r.requests == NewestFirst(db.requests, db.Find(slug).value.id)[10..]
  {
    var all := NewestFirst(db.requests, db.Find(slug).value.id);
    assert LimitOf(Some(-5)) == -5 && PageOf(None) == 1;
    assert Pages(15, -5) == -3;
    var w := WindowFromEnd(all, 0, 5);
    assert |w| == 5;
    assert w == all[10..];
  }

  datatype DeleteResponse = Deleted | DeleteFailed(status: int, error: string)

  /** `deleteRequest`: removes exactly that request, leaving endpoints and
      every other request alone; 500 when the store finds no such request. */
  method DeleteRequest(db: Db, id: Id) returns (resp: DeleteResponse)
    requires db.Valid()
    modifies db
    ensures db.Valid()
    ensures resp.Deleted? <==> exists r :: r in old(db.requests) && r.id == id
    ensures resp.DeleteFailed? ==> resp == DeleteFailed(500, "Failed to delete request") && unchanged(db)
    ensures resp.Deleted? ==> db.requests == WithoutRequest(old(db.requests), id)
                              && db.endpoints == old(db.endpoints) && db.registry == old(db.registry)
    ensures forall r :: r in db.requests ==> r.id != id
  {
    var found := db.DeleteRequest(id);
    resp := if found then Deleted else DeleteFailed(500, "Failed to delete request");
  }

  /** `deleteEndpoint`: 404 and no change for an unknown slug; otherwise the
      endpoint, every request captured for it, and its cache key go, and
      nothing else changes. Afterwards the slug is unknown. */
  method DeleteEndpoint(db: Db, slug: Slug) returns (resp: DeleteResponse, cache: seq<CacheOp>)
    requires db.Valid()
    modifies db
    ensures db.Valid()
    ensures old(db.Find(slug)).None? ==>
      resp == DeleteFailed(404, "Endpoint not found") && cache == [] && unchanged(db)
    ensures old(db.Find(slug)).Some? ==>
      var e := old(db.Find(slug)).value;
      && resp == Deleted
      && db.endpoints == WithoutEndpoint(old(db.endpoints), e.id)
      && db.requests == WithoutRequestsOf(old(db.requests), e.id)
      && db.registry == old(db.registry)
      && cache == [CacheDelete(CacheKey(slug))]
      && (forall r :: r in db.requests ==> r.endpointId != e.id)
      && db.Find(slug).None?
  {
    var found := db.Find(slug);
    if found.None? {
      return DeleteFailed(404, "Endpoint not found"), [];
    }
    var e := found.value;
    ghost var rows := db.endpoints;
    db.DeleteEndpoint(e.id);
    forall i | 0 <= i < |db.endpoints| ensures db.endpoints[i].slug != slug {
      var w := db.endpoints[i];
      var a :| 0 <= a < |rows| && rows[a] == w;
      var b :| 0 <= b < |rows| && rows[b] == e;
      assert a != b;
      if a < b {
        assert SlugKey(rows[a]) != SlugKey(rows[b]);
      } else {
        assert SlugKey(rows[b]) != SlugKey(rows[a]);
      }
    }
    resp, cache := Deleted, [CacheDelete(CacheKey(slug))];
  }
}
