/** Two requests on the aircraft tables at the same time. A request decides on
    what it has read and commits later; another may commit in between. */
module FleetRaces {
  import opened FleetDb
  import opened AircraftService
  import opened FleetRuns
  import opened AssetDrift

  // ---- creating under a limit ----

  /** The count of live assets is read first; the constraints are checked by the inserts. */
  function CommitCreate(seen: Db, db: Db, org: Id, user: Option<Id>, p: CreateRequest, maxAssets: Option<int>, assetId: Id, aircraftId: Id): Outcome {
    if LimitReached(seen.assets, org, maxAssets) then Raise(db, UsageLimitExceeded)
    else if !CanInsert(db, org, p, assetId, aircraftId) then Raise(db, Conflict)
    else
      Outcome(
        Inserted(db, org, p, assetId, aircraftId).(audit := db.audit + [CreatedRecord(org, user, p, assetId, aircraftId)]),
        Ok(aircraftId))
  }

  lemma NoRaceIsCreate(db: Db, org: Id, user: Option<Id>, p: CreateRequest, max: Option<int>, assetId: Id, aircraftId: Id)
    ensures CommitCreate(db, db, org, user, p, max, assetId, aircraftId) == Create(db, org, user, p, max, assetId, aircraftId)
  {
  }

  /** The tables stay in step whatever was committed in between: the unique constraints see to it. */
  lemma CreateRaceKeepsInStep(seen: Db, db: Db, org: Id, user: Option<Id>, p: CreateRequest, max: Option<int>, assetId: Id, aircraftId: Id)
    requires InStep(db)
    ensures InStep(CommitCreate(seen, db, org, user, p, max, assetId, aircraftId).db)
  {
    if CanInsert(db, org, p, assetId, aircraftId) {
      InsertedInStep(db, org, p, assetId, aircraftId);
    }
  }

  lemma OneMoreLive(db: Db, org: Id, p: CreateRequest, assetId: Id, aircraftId: Id)
    requires CanInsert(db, org, p, assetId, aircraftId)
    ensures |LiveAssets(Inserted(db, org, p, assetId, aircraftId).assets, org)| == |LiveAssets(db.assets, org)| + 1
  {
    assert LiveAssets(Inserted(db, org, p, assetId, aircraftId).assets, org) == LiveAssets(db.assets, org) + {assetId};
  }

  /** The organization is within its limit after the commit exactly when the
      limit was not reached by then, whatever had been counted before. */
  lemma LimitSurvivesRaceIff(seen: Db, db: Db, org: Id, user: Option<Id>, p: CreateRequest, m: int, assetId: Id, aircraftId: Id)
    requires CommitCreate(seen, db, org, user, p, Some(m), assetId, aircraftId).result.Ok?
    ensures |LiveAssets(CommitCreate(seen, db, org, user, p, Some(m), assetId, aircraftId).db.assets, org)| <= m
            <==> !LimitReached(db.assets, org, Some(m))
  {
    OneMoreLive(db, org, p, assetId, aircraftId);
  }

  lemma StillRoom(db: Db, org: Id, p: CreateRequest, s: Id, i: Id, q: CreateRequest, t: Id, j: Id)
    requires CanInsert(db, org, p, s, i) && CanInsert(db, org, q, t, j) && s != t && i != j && p.registration != q.registration
    ensures CanInsert(Inserted(db, org, p, s, i), org, q, t, j)
  {
  }

  /** Two creations that count before either commits both go through at one below the limit. */
  lemma CrossingCreatesExceed(db: Db, org: Id, user: Option<Id>, p: CreateRequest, s: Id, i: Id, q: CreateRequest, t: Id, j: Id, m: int)
    requires CanInsert(db, org, p, s, i) && CanInsert(db, org, q, t, j) && s != t && i != j && p.registration != q.registration
    requires |LiveAssets(db.assets, org)| == m - 1
    ensures var between := Create(db, org, user, p, Some(m), s, i);
            var after := CommitCreate(db, between.db, org, user, q, Some(m), t, j);
            between.result.Ok? && after.result.Ok? && |LiveAssets(after.db.assets, org)| == m + 1
  {
    StillRoom(db, org, p, s, i, q, t, j);
    OneMoreLive(db, org, p, s, i);
    OneMoreLive(Create(db, org, user, p, Some(m), s, i).db, org, q, t, j);
  }

  /** And that can be reached, with a limit of one from no rows at all. */
  lemma LimitOfOneExceeded(p: CreateRequest, q: CreateRequest)
    requires p.registration != q.registration
    ensures var between := Create(NO_ROWS, 0, None, p, Some(1), 1, 2).db;
            |LiveAssets(CommitCreate(NO_ROWS, between, 0, None, q, Some(1), 3, 4).db.assets, 0)| == 2
  {
    assert LiveAssets(NO_ROWS.assets, 0) == {};
    CrossingCreatesExceed(NO_ROWS, 0, None, p, 1, 2, q, 3, 4, 1);
  }

  // ---- updating one aircraft ----

  /** A column is part of the UPDATE only if it was set to another value than had been read. */
  function WrittenText(asked: Option<string>, seen: string, now: string): string {
    if asked.Some? && asked.value != seen then asked.value else now
  }

  function WrittenColumn(asked: Option<string>, seen: Option<string>, now: Option<string>): Option<string> {
    if asked.Some? && asked != seen then asked else now
  }

  function AircraftCommitted(p: UpdateRequest, seen: Aircraft, now: Aircraft): Aircraft {
    now.(msn := WrittenText(p.msn, seen.msn, now.msn), aircraftType := WrittenText(p.aircraftType, seen.aircraftType, now.aircraftType),
         status := WrittenText(p.status, seen.status, now.status))
  }

  function AssetCommitted(p: UpdateRequest, seen: Asset, now: Asset): Asset {
    now.(manufacturer := WrittenColumn(p.manufacturer, seen.manufacturer, now.manufacturer),
         model := WrittenColumn(p.aircraftType, seen.model, now.model),
         serialNumber := WrittenColumn(p.msn, seen.serialNumber, now.serialNumber), status := WrittenText(p.status, seen.status, now.status))
  }

  function DetailCommitted(p: UpdateRequest, seen: AircraftDetail, now: AircraftDetail): AircraftDetail {
    AircraftDetail(WrittenText(p.msn, seen.msn, now.msn), WrittenText(p.aircraftType, seen.aircraftType, now.aircraftType))
  }

  /** One aircraft with the two rows behind it, in both states. */
  ghost predicate SameLink(seen: Db, db: Db, i: Id, s: Id) {
    && i in seen.aircraft && i in db.aircraft && seen.aircraft[i].assetId == Some(s) && db.aircraft[i].assetId == Some(s)
    && s in seen.assets && s in db.assets && s in seen.details && s in db.details
  }

  /** The three rows as an update leaves them that had read `seen`. */
  function UpdateCommitted(seen: Db, db: Db, i: Id, s: Id, p: UpdateRequest): Db
    requires SameLink(seen, db, i, s)
  {
    db.(aircraft := db.aircraft[i := AircraftCommitted(p, seen.aircraft[i], db.aircraft[i])],
        assets := db.assets[s := AssetCommitted(p, seen.assets[s], db.assets[s])],
        details := db.details[s := DetailCommitted(p, seen.details[s], db.details[s])])
  }

  /** If nothing was committed in between, these are the rows of the plain call. */
  lemma NoRaceIsUpdate(db: Db, i: Id, s: Id, p: UpdateRequest)
    requires SameLink(db, db, i, s)
    ensures UpdateCommitted(db, db, i, s, p) == Updated(db, i, p)
  {
    assert AircraftCommitted(p, db.aircraft[i], db.aircraft[i]) == Patched(db.aircraft[i], p);
    assert AssetCommitted(p, db.assets[s], db.assets[s]) == PatchedAsset(db.assets[s], p);
    assert DetailCommitted(p, db.details[s], db.details[s]) == PatchedDetail(db.details[s], p);
  }

  /** The request asks for the value the aircraft had, the asset had none as
      the backfill leaves it, and the aircraft has another value by now. */
  predicate Overtaken(asked: Option<string>, seen: string, seenColumn: Option<string>, now: string) {
    asked == Some(seen) && seenColumn.None? && now != seen
  }

  lemma RowsInStepIff(p: UpdateRequest, a: Aircraft, s: Asset, d: AircraftDetail, a': Aircraft, s': Asset, d': AircraftDetail)
    requires InStepAt(a, s, d) && InStepAt(a', s', d')
    ensures InStepAt(AircraftCommitted(p, a, a'), AssetCommitted(p, s, s'), DetailCommitted(p, d, d'))
            <==> !Overtaken(p.msn, a.msn, s.serialNumber, a'.msn) && !Overtaken(p.aircraftType, a.aircraftType, s.model, a'.aircraftType)
  {
  }

  lemma RowsWrittenInStepIff(db: Db, i: Id, s: Id, a: Aircraft, asset: Asset, d: AircraftDetail)
    requires InStep(db) && i in db.aircraft && db.aircraft[i].assetId == Some(s)
    requires a.org == db.aircraft[i].org && a.registration == db.aircraft[i].registration && a.assetId == Some(s)
    requires asset.org == db.assets[s].org && asset.registration == db.assets[s].registration
    ensures InStep(db.(aircraft := db.aircraft[i := a], assets := db.assets[s := asset], details := db.details[s := d]))
            <==> InStepAt(a, asset, d)
  {
    var db' := db.(aircraft := db.aircraft[i := a], assets := db.assets[s := asset], details := db.details[s := d]);
    if InStep(db') {
      assert db'.aircraft[i] == a;
    }
  }

  /** Overlapping updates of one aircraft leave the tables in step exactly when
      neither field was overtaken in that way. */
  lemma UpdateRaceInStepIff(seen: Db, db: Db, i: Id, s: Id, p: UpdateRequest)
    requires InStep(seen) && InStep(db) && SameLink(seen, db, i, s)
    ensures InStep(UpdateCommitted(seen, db, i, s, p))
            <==> && !Overtaken(p.msn, seen.aircraft[i].msn, seen.assets[s].serialNumber, db.aircraft[i].msn)
                 && !Overtaken(p.aircraftType, seen.aircraft[i].aircraftType, seen.assets[s].model, db.aircraft[i].aircraftType)
  {
    RowsInStepIff(p, seen.aircraft[i], seen.assets[s], seen.details[s], db.aircraft[i], db.assets[s], db.details[s]);
    RowsWrittenInStepIff(db, i, s, AircraftCommitted(p, seen.aircraft[i], db.aircraft[i]),
                         AssetCommitted(p, seen.assets[s], db.assets[s]), DetailCommitted(p, seen.details[s], db.details[s]));
  }

  /** It happens to a backfilled aircraft: one request repeats its serial
      number, another changes it and commits first. */
  lemma CrossingUpdatesDrift(db: Db, i: Id, s: Id, other: string)
    requires InStep(db) && SameLink(db, db, i, s) && db.assets[s].serialNumber.None? && other != db.aircraft[i].msn
    ensures var same, changed := UpdateRequest(None, Some(db.aircraft[i].msn), None, None), UpdateRequest(None, Some(other), None, None);
            var between := Updated(db, i, changed);
            InStep(between) && SameLink(db, between, i, s) && !InStep(UpdateCommitted(db, between, i, s, same))
  {
    var same, changed := UpdateRequest(None, Some(db.aircraft[i].msn), None, None), UpdateRequest(None, Some(other), None, None);
    var between := Updated(db, i, changed);
    UpdatedInStep(db, i, changed);
    UpdateRaceInStepIff(db, between, i, s, same);
  }
}
