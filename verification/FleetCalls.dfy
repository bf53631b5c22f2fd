/** What each call on the aircraft and asset tables accepts and stores, column
    by column. */
module FleetCalls {
  import opened FleetDb
  import opened Text
  import opened AircraftService
  import opened AssetService

  // ---- creating under a limit ----

  ghost function Live(db: Db, org: Id): set<Id> {
    set i | i in db.assets && db.assets[i].org == org && db.assets[i].deletion.None?
  }

  /** A creation is refused for the limit exactly when the organization has
      that many assets, of any type, that are not soft-deleted. */
  lemma LimitRefusesIff(db: Db, org: Id, user: Option<Id>, p: CreateRequest, max: Option<int>, assetId: Id, aircraftId: Id)
    ensures Create(db, org, user, p, max, assetId, aircraftId).result == Err(UsageLimitExceeded)
            <==> max.Some? && |Live(db, org)| >= max.value
  {
    assert LiveAssets(db.assets, org) == Live(db, org);
  }

  /** Nothing but the limit stands in the way. */
  ghost predicate Creatable(db: Db, org: Id, p: CreateRequest, assetId: Id, aircraftId: Id) {
    && assetId !in db.assets && assetId !in db.details && aircraftId !in db.aircraft
    && (forall i :: i in db.aircraft ==> db.aircraft[i].assetId != Some(assetId))
    && (forall i :: i in db.assets && db.assets[i].org == org ==> db.assets[i].registration != Some(p.registration))
    && (forall i :: i in db.aircraft && db.aircraft[i].org == org ==> db.aircraft[i].registration != p.registration)
  }

  lemma CreatableSucceedsIff(db: Db, org: Id, user: Option<Id>, p: CreateRequest, max: Option<int>, assetId: Id, aircraftId: Id)
    requires Creatable(db, org, p, assetId, aircraftId)
    ensures var r := Create(db, org, user, p, max, assetId, aircraftId).result;
            r == if max.Some? && |Live(db, org)| >= max.value then Err(UsageLimitExceeded) else Ok(aircraftId)
  {
    LimitRefusesIff(db, org, user, p, max, assetId, aircraftId);
  }

  /** At the limit, soft-deleting one of the organization's live assets lets
      the very creation through that was refused before. */
  lemma SoftDeleteMakesRoom(db: Db, org: Id, user: Option<Id>, s: Id, reason: Option<string>, p: CreateRequest, m: int, assetId: Id, aircraftId: Id)
    requires s in db.assets && db.assets[s].org == org && db.assets[s].deletion.None?
    requires |Live(db, org)| == m
    requires Creatable(db, org, p, assetId, aircraftId)
    ensures var gone := SoftDelete(db, org, user, s, reason).db;
            && Create(db, org, user, p, Some(m), assetId, aircraftId).result == Err(UsageLimitExceeded)
            && Create(gone, org, user, p, Some(m), assetId, aircraftId).result == Ok(aircraftId)
  {
    var gone := SoftDelete(db, org, user, s, reason).db;
    assert Live(gone, org) == Live(db, org) - {s};
    assert Creatable(gone, org, p, assetId, aircraftId);
    CreatableSucceedsIff(db, org, user, p, Some(m), assetId, aircraftId);
    CreatableSucceedsIff(gone, org, user, p, Some(m), assetId, aircraftId);
  }

  /** One below the limit, a further live asset of whatever type takes the last place. */
  lemma LiveAssetTakesPlace(db: Db, org: Id, user: Option<Id>, s: Id, a: Asset, p: CreateRequest, m: int, assetId: Id, aircraftId: Id)
    requires s !in db.assets && s != assetId && a.org == org && a.deletion.None?
    requires |Live(db, org)| == m - 1
    requires Creatable(db, org, p, assetId, aircraftId)
    ensures Create(db, org, user, p, Some(m), assetId, aircraftId).result == Ok(aircraftId)
    ensures Create(db.(assets := db.assets[s := a]), org, user, p, Some(m), assetId, aircraftId).result == Err(UsageLimitExceeded)
  {
    var more := db.(assets := db.assets[s := a]);
    assert Live(more, org) == Live(db, org) + {s};
    CreatableSucceedsIff(db, org, user, p, Some(m), assetId, aircraftId);
    LimitRefusesIff(more, org, user, p, Some(m), assetId, aircraftId);
  }

  /** The three rows and the record of a successful creation. */
  lemma CreateWritesRows(db: Db, org: Id, user: Option<Id>, p: CreateRequest, max: Option<int>, assetId: Id, aircraftId: Id)
    ensures var Outcome(db', r) := Create(db, org, user, p, max, assetId, aircraftId);
            r.Ok? ==>
              && r.id == aircraftId
              && db'.aircraft == db.aircraft[aircraftId := Aircraft(org, p.registration, p.msn, p.aircraftType, p.status, Some(assetId))]
              && db'.assets == db.assets[assetId := Asset(org, AIRCRAFT, p.manufacturer, Some(p.aircraftType), Some(p.msn), Some(p.registration),
                                                          p.status, None, None)]
              && db'.details == db.details[assetId := AircraftDetail(p.msn, p.aircraftType)]
              && db'.audit == db.audit + [AuditRecord(org, user, AircraftCreated(aircraftId, p.registration, p.msn, p.aircraftType),
                                                      AssetEntity, assetId)]
  {
  }

  // ---- updating an aircraft ----

  /** An update goes through exactly for an aircraft of the organization whose
      asset, if it has one, is not soft-deleted. */
  lemma UpdateSucceedsIff(db: Db, org: Id, user: Option<Id>, i: Id, p: UpdateRequest)
    ensures var Outcome(db', r) := Update(db, org, user, i, p);
            && r == (if i in db.aircraft && db.aircraft[i].org == org
                        && (forall s :: db.aircraft[i].assetId == Some(s) && s in db.assets ==> db.assets[s].deletion.None?)
                     then Ok(i) else Err(NotFound))
            && (r.Err? ==> db' == db)
  {
  }

  /** It reaches those of the three rows that exist, whether or not they agreed before. */
  lemma UpdatedReachesEachRow(db: Db, i: Id, p: UpdateRequest, s: Id)
    requires i in db.aircraft && db.aircraft[i].assetId == Some(s)
    ensures RowsReached(db, i, p, s, Updated(db, i, p))
  {
    if s in db.assets {
      AssetIsReached(db.assets[s], p);
    }
    RowsAreReached(db.aircraft[i], p, if s in db.details then db.details[s] else AircraftDetail("", ""));
  }

  ghost predicate RowsReached(db: Db, i: Id, p: UpdateRequest, s: Id, db': Db)
    requires i in db.aircraft
  {
    && i in db'.aircraft && (s in db.assets <==> s in db'.assets) && (s in db.details <==> s in db'.details)
    && AircraftReached(db.aircraft[i], p, db'.aircraft[i])
    && (s in db.assets ==> AssetReached(db.assets[s], p, db'.assets[s]))
    && (s in db.details ==> DetailReached(db.details[s], p, db'.details[s]))
  }

  lemma UpdateReachesEachRow(db: Db, org: Id, user: Option<Id>, i: Id, p: UpdateRequest, s: Id)
    requires i in db.aircraft && db.aircraft[i].assetId == Some(s) && Update(db, org, user, i, p).result.Ok?
    ensures RowsReached(db, i, p, s, Update(db, org, user, i, p).db)
  {
    if p.Empty() {
      if s in db.assets {
        AssetIsReached(db.assets[s], p);
      }
      RowsAreReached(db.aircraft[i], p, if s in db.details then db.details[s] else AircraftDetail("", ""));
    } else {
      UpdatedReachesEachRow(db, i, p, s);
    }
  }

  ghost predicate AircraftReached(a: Aircraft, p: UpdateRequest, a': Aircraft) {
    && a'.msn == (if p.msn.Some? then p.msn.value else a.msn)
    && a'.aircraftType == (if p.aircraftType.Some? then p.aircraftType.value else a.aircraftType)
    && a'.status == (if p.status.Some? then p.status.value else a.status)
    && a'.org == a.org && a'.registration == a.registration && a'.assetId == a.assetId
  }

  ghost predicate DetailReached(d: AircraftDetail, p: UpdateRequest, d': AircraftDetail) {
    && d'.msn == (if p.msn.Some? then p.msn.value else d.msn)
    && d'.aircraftType == (if p.aircraftType.Some? then p.aircraftType.value else d.aircraftType)
  }

  lemma RowsAreReached(a: Aircraft, p: UpdateRequest, d: AircraftDetail)
    ensures AircraftReached(a, p, Patched(a, p)) && DetailReached(d, p, PatchedDetail(d, p))
    ensures p.Empty() ==> Patched(a, p) == a && PatchedDetail(d, p) == d
  {
  }

  ghost predicate AssetReached(a: Asset, p: UpdateRequest, a': Asset) {
    && a'.serialNumber == (if p.msn.Some? then p.msn else a.serialNumber)
    && a'.model == (if p.aircraftType.Some? then p.aircraftType else a.model)
    && a'.manufacturer == (if p.manufacturer.Some? then p.manufacturer else a.manufacturer)
    && a'.status == (if p.status.Some? then p.status.value else a.status)
    && a'.org == a.org && a'.assetType == a.assetType && a'.registration == a.registration
    && a'.facilityId == a.facilityId && a'.deletion == a.deletion
  }

  lemma AssetIsReached(a: Asset, p: UpdateRequest)
    ensures AssetReached(a, p, PatchedAsset(a, p))
    ensures p.Empty() ==> PatchedAsset(a, p) == a
  {
  }

  // ---- deleting and updating an asset ----

  /** A soft deletion goes through exactly for a live asset of the
      organization; a second one is a conflict. It stores who and why, keeps
      every other column and row, and records what was deleted. */
  lemma SoftDeleteSucceedsIff(db: Db, org: Id, user: Option<Id>, s: Id, reason: Option<string>)
    ensures var Outcome(db', r) := SoftDelete(db, org, user, s, reason);
            var why := match reason case None => None case Some(t) => if t == "" then None else Some(Strip(t));
            var own := s in db.assets && db.assets[s].org == org;
            && r == (if !own then Err(NotFound) else if db.assets[s].deletion.Some? then Err(Conflict) else Ok(s))
            && (r.Err? ==> db' == db)
            && (r.Ok? ==>
                  db' == db.(assets := db.assets[s := db.assets[s].(deletion := Some(Deletion(user, why)))],
                             audit := db.audit + [AuditRecord(org, user, AssetDeleted(db.assets[s].registration, db.assets[s].assetType, why),
                                                              AssetEntity, s)]))
  {
  }

  lemma SecondDeletionConflicts(db: Db, org: Id, user: Option<Id>, s: Id, reason: Option<string>, other: Option<Id>, again: Option<string>)
    requires SoftDelete(db, org, user, s, reason).result.Ok?
    ensures var once := SoftDelete(db, org, user, s, reason).db;
            SoftDelete(once, org, other, s, again) == Outcome(once, Err(Conflict))
  {
  }

  /** The column after a generic update that may carry a text for it. */
  predicate Column(sent: Option<string>, before: Option<string>, after: Option<string>) {
    after == if sent.Some? then Some(Strip(sent.value)) else before
  }

  ghost predicate AssetStored(a: Asset, p: AssetPatch, a': Asset) {
    && Column(p.manufacturer, a.manufacturer, a'.manufacturer) && Column(p.model, a.model, a'.model)
    && Column(p.serialNumber, a.serialNumber, a'.serialNumber)
    && a'.facilityId == (if p.facilityId.Some? then p.facilityId else a.facilityId)
    && a'.status == (if p.status.Some? then Upper(Strip(p.status.value)) else a.status)
    && a'.org == a.org && a'.assetType == a.assetType && a'.registration == a.registration && a'.deletion == a.deletion
  }

  lemma WrittenIsStored(a: Asset, p: AssetPatch, org: Id, user: Option<Id>, s: Id)
    ensures AssetStored(a, p, Written(a, Normalized(p))) && RecordsPatch(org, user, s, p, WrittenRecord(org, user, s, Normalized(p)))
  {
  }

  /** A generic update goes through exactly for a live asset of the
      organization and, if it names a facility, one that exists. */
  lemma UpdateAssetSucceedsIff(db: Db, org: Id, user: Option<Id>, s: Id, p: AssetPatch)
    ensures var Outcome(db', r) := UpdateAsset(db, org, user, s, p);
            var found := s in db.assets && db.assets[s].org == org && db.assets[s].deletion.None?;
            && r == (if !found then Err(NotFound)
                     else if p.facilityId.Some? && p.facilityId.value !in db.facilities then Err(DatabaseError) else Ok(s))
            && (r.Err? ==> db' == db)
  {
  }

  /** One that carries nothing changes and records nothing. */
  lemma EmptyPatchStoresNothing(db: Db, org: Id, user: Option<Id>, s: Id)
    ensures UpdateAsset(db, org, user, s, AssetPatch(None, None, None, None, None)).db == db
  {
  }

  /** Any other stores the stripped values it carries in that one row, whatever
      the type of the asset and whether or not it backs an aircraft, and
      records them once. */
  lemma UpdateAssetStores(db: Db, org: Id, user: Option<Id>, s: Id, p: AssetPatch) returns (a: Asset, r: AuditRecord)
    requires UpdateAsset(db, org, user, s, p).result.Ok? && p != AssetPatch(None, None, None, None, None)
    ensures s in db.assets && AssetStored(db.assets[s], p, a) && RecordsPatch(org, user, s, p, r)
    ensures UpdateAsset(db, org, user, s, p).db == db.(assets := db.assets[s := a], audit := db.audit + [r])
  {
    a, r := Written(db.assets[s], Normalized(p)), WrittenRecord(org, user, s, Normalized(p));
    WrittenIsStored(db.assets[s], p, org, user, s);
  }

  ghost predicate RecordsPatch(org: Id, user: Option<Id>, s: Id, p: AssetPatch, r: AuditRecord) {
    && r.org == org && r.user == user && r.entityType == AssetEntity && r.entityId == s && r.action.AssetUpdated?
    && Column(p.manufacturer, None, r.action.manufacturer) && Column(p.model, None, r.action.model)
    && Column(p.serialNumber, None, r.action.serialNumber) && r.action.facilityId == p.facilityId
    && r.action.newStatus == (if p.status.Some? then Some(Upper(Strip(p.status.value))) else None)
  }
}
