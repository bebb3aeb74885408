/** The expiry sweeper run every 30 minutes: select the endpoints whose
    `expiresAt` is before `now` and that are not persistent, together with
    their request counts; if there are any, total the counts, delete those
    endpoints in one statement (their requests go by cascade), and report. */
module Cleanup {
  import opened Schema
  import opened Seqs
  import opened Store

  /** The `where` clause: `expiresAt < now` and `isPersistent = false`. */
  predicate Sweepable(e: Endpoint, now: int)
  {
    e.expiresAt < now && !e.isPersistent
  }

  /** The rows the sweeper's query matches, in table order. */
  function Selected(rows: seq<Endpoint>, now: int): (r: seq<Endpoint>)
    ensures |r| <= |rows|
    ensures forall i :: 0 <= i < |r| ==> r[i] in rows && Sweepable(r[i], now)
    ensures forall i :: 0 <= i < |rows| && Sweepable(rows[i], now) ==> rows[i] in r
  {
    Filter(rows, (e: Endpoint) => Sweepable(e, now))
  }

  /** The rows the sweeper must leave alone. */
  function Survivors(rows: seq<Endpoint>, now: int): (r: seq<Endpoint>)
    ensures |r| <= |rows|
    ensures forall i :: 0 <= i < |r| ==> r[i] in rows && !Sweepable(r[i], now)
    ensures forall i :: 0 <= i < |rows| && !Sweepable(rows[i], now) ==> rows[i] in r
  {
    Filter(rows, (e: Endpoint) => !Sweepable(e, now))
  }

  /** One row of the query result: `{ id, _count: { requests } }`. */
  datatype ExpiredInfo = ExpiredInfo(id: Id, requests: nat)

  /** The query result: each selected endpoint with the number of its requests. */
  function Infos(rows: seq<Endpoint>, log: seq<Request>): (r: seq<ExpiredInfo>)
    ensures |r| == |rows|
    ensures forall i :: 0 <= i < |rows| ==> r[i] == ExpiredInfo(rows[i].id, |RequestsOf(log, rows[i].id)|)
  {
    if rows == [] then [] else [ExpiredInfo(rows[0].id, |RequestsOf(log, rows[0].id)|)] + Infos(rows[1..], log)
  }

  /** `reduce((sum, e) => sum + e._count.requests, 0)`. */
  function TotalRequests(infos: seq<ExpiredInfo>): (t: nat)
    ensures forall i :: 0 <= i < |infos| ==> infos[i].requests <= t
    ensures t == 0 <==> forall i :: 0 <= i < |infos| ==> infos[i].requests == 0
  {
    if infos == [] then 0 else infos[0].requests + TotalRequests(infos[1..])
  }

  /** `map(e => e.id)`. */
  function IdsOf(infos: seq<ExpiredInfo>): (ids: seq<Id>)
    ensures |ids| == |infos|
    ensures forall i :: 0 <= i < |infos| ==> ids[i] == infos[i].id
  {
    if infos == [] then [] else [infos[0].id] + IdsOf(infos[1..])
  }

  /** The ids the sweeper passes to `deleteMany`. */
  function SweptIds(rows: seq<Endpoint>, log: seq<Request>, now: int): seq<Id>
  {
    IdsOf(Infos(Selected(rows, now), log))
  }

  /** What a run reports: nothing found, or how many endpoints and requests went. */
  datatype Outcome = NothingExpired | Swept(endpoints: nat, requests: nat)

  /** The requests captured for any endpoint in `ids`. */
  function RequestsOfAny(log: seq<Request>, ids: seq<Id>): seq<Request>
  {
    Filter(log, (r: Request) => r.endpointId in ids)
  }

  /** An id is swept exactly when it belongs to a selected row. */
  lemma SweptIdsAreSelected(rows: seq<Endpoint>, log: seq<Request>, now: int, id: Id)
    ensures id in SweptIds(rows, log, now) <==> exists e :: e in Selected(rows, now) && e.id == id
  {
    var sel := Selected(rows, now);
    var ids := SweptIds(rows, log, now);
    if id in ids {
      var k :| 0 <= k < |ids| && ids[k] == id;
      assert sel[k] in sel;
    }
    if exists e :: e in sel && e.id == id {
      var e :| e in sel && e.id == id;
      var k :| 0 <= k < |sel| && sel[k] == e;
      assert ids[k] == id;
    }
  }

  /** With unique ids, deleting the swept ids removes exactly the sweepable
      rows: persistent endpoints and those whose `expiresAt` is not before
      `now` all survive, in their order. */
  lemma SweepRemovesExactlyTheExpired(rows: seq<Endpoint>, log: seq<Request>, now: int)
    requires Distinct(rows, EndpointKey)
    ensures WithoutEndpoints(rows, SweptIds(rows, log, now)) == Survivors(rows, now)
    ensures |rows| - |WithoutEndpoints(rows, SweptIds(rows, log, now))| == |Selected(rows, now)|
  {
    var ids := SweptIds(rows, log, now);
    forall i | 0 <= i < |rows| ensures (rows[i].id !in ids) == !Sweepable(rows[i], now) {
      SweptIdsAreSelected(rows, log, now, rows[i].id);
      if Sweepable(rows[i], now) {
        assert rows[i] in Selected(rows, now);
      }
    }
    FilterCongruent(rows, (e: Endpoint) => e.id !in ids, (e: Endpoint) => !Sweepable(e, now));
    FilterComplementSize(rows, (e: Endpoint) => Sweepable(e, now), (e: Endpoint) => !Sweepable(e, now));
  }

  /** Requests for one more endpoint id, not among `ids`, add their own count. */
  lemma {:induction false} RequestsOfAnySplit(log: seq<Request>, id: Id, ids: seq<Id>)
    requires id !in ids
    ensures |RequestsOfAny(log, [id] + ids)| == |RequestsOf(log, id)| + |RequestsOfAny(log, ids)|
  {
    if log != [] {
      RequestsOfAnySplit(log[1..], id, ids);
    }
  }

  /** For endpoints with distinct ids, the request counts add up to the
      number of requests belonging to any of them. */
  lemma {:induction false} TotalCountsRequests(sel: seq<Endpoint>, log: seq<Request>)
    requires Distinct(sel, EndpointKey)
    ensures TotalRequests(Infos(sel, log)) == |RequestsOfAny(log, IdsOf(Infos(sel, log)))|
  {
    if sel == [] {
      FilterNone(log, (r: Request) => r.endpointId in []);
    } else {
      var rest := sel[1..];
      DistinctTail(sel, EndpointKey);
      TotalCountsRequests(rest, log);
      var ids := IdsOf(Infos(rest, log));
      assert Infos(sel, log) == [ExpiredInfo(sel[0].id, |RequestsOf(log, sel[0].id)|)] + Infos(rest, log);
      assert IdsOf(Infos(sel, log)) == [sel[0].id] + ids;
      forall k | 0 <= k < |ids| ensures ids[k] != sel[0].id {
        assert ids[k] == sel[k + 1].id;
        assert EndpointKey(sel[0]) != EndpointKey(sel[k + 1]);
      }
      RequestsOfAnySplit(log, sel[0].id, ids);
    }
  }

  /** The reported request total is exactly the number of requests the
      cascade removes. */
  lemma SweepReportsRemovedRequests(rows: seq<Endpoint>, log: seq<Request>, now: int)
    requires Distinct(rows, EndpointKey)
    ensures TotalRequests(Infos(Selected(rows, now), log))
            == |log| - |WithoutRequestsOfAll(log, SweptIds(rows, log, now))|
  {
    var sel := Selected(rows, now);
    var ids := SweptIds(rows, log, now);
    FilterDistinct(rows, (e: Endpoint) => Sweepable(e, now), EndpointKey);
    TotalCountsRequests(sel, log);
    FilterComplementSize(log, (r: Request) => r.endpointId in ids, (r: Request) => r.endpointId !in ids);
  }

  /** One sweeper run at time `now`. */
  method Run(db: Db, now: int) returns (outcome: Outcome)
    requires db.Valid()
    modifies db
    ensures db.Valid()
    ensures Selected(old(db.endpoints), now) == [] ==> outcome == NothingExpired && unchanged(db)
    ensures Selected(old(db.endpoints), now) != [] ==>
      var ids := SweptIds(old(db.endpoints), old(db.requests), now);
      && db.endpoints == Survivors(old(db.endpoints), now)
      && db.requests == WithoutRequestsOfAll(old(db.requests), ids)
      && db.registry == old(db.registry)
      && outcome == Swept(|Selected(old(db.endpoints), now)|, TotalRequests(Infos(Selected(old(db.endpoints), now), old(db.requests))))
      && outcome.requests == |old(db.requests)| - |db.requests|
  {
    var infos := Infos(Selected(db.endpoints, now), db.requests);
    if |infos| == 0 {
      return NothingExpired;
    }
    var total := TotalRequests(infos);
    var ids := IdsOf(infos);
    SweepRemovesExactlyTheExpired(db.endpoints, db.requests, now);
    SweepReportsRemovedRequests(db.endpoints, db.requests, now);
    var count := db.DeleteMany(ids);
    outcome := Swept(count, total);
  }
}
