/** The stand-alone cleanup script: after connecting to the store it runs the
    same selection, total and `deleteMany` as the scheduled sweeper, once. */
module ManualCleanup {
  import opened Store
  import Cleanup

  /** The script's `cleanup()`: one sweep at time `now`, with the sweeper's outcome. */
  method Run(db: Db, now: int) returns (outcome: Cleanup.Outcome)
    requires db.Valid()
    modifies db
    ensures db.Valid()
    ensures Cleanup.Selected(old(db.endpoints), now) == [] ==> outcome == Cleanup.NothingExpired && unchanged(db)
    ensures Cleanup.Selected(old(db.endpoints), now) != [] ==>
      && db.endpoints == Cleanup.Survivors(old(db.endpoints), now)
      && db.requests == WithoutRequestsOfAll(old(db.requests), Cleanup.SweptIds(old(db.endpoints), old(db.requests), now))
      && db.registry == old(db.registry)
      && outcome == Cleanup.Swept(|Cleanup.Selected(old(db.endpoints), now)|,
                                  Cleanup.TotalRequests(Cleanup.Infos(Cleanup.Selected(old(db.endpoints), now), old(db.requests))))
      && outcome.requests == |old(db.requests)| - |db.requests|
  {
    outcome := Cleanup.Run(db, now);
  }
}
