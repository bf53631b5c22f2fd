/** Creating and updating aircraft: one aircraft row, one asset row and one
    detail row, written together. */
module AircraftService {
  import opened FleetDb
  import opened Text

  datatype CreateRequest = CreateRequest(
    registration: string, msn: string, aircraftType: string, status: string, manufacturer: Option<string>)

  datatype UpdateRequest = UpdateRequest(
    manufacturer: Option<string>, msn: Option<string>, aircraftType: Option<string>, status: Option<string>)
  {
    predicate Empty() {
      manufacturer.None? && msn.None? && aircraftType.None? && status.None?
    }
  }

  function Or(change: Option<string>, current: string): string {
    if change.Some? then change.value else current
  }

  function OrOption(change: Option<string>, current: Option<string>): Option<string> {
    if change.Some? then change else current
  }

  /** The organization's assets that count against `max_assets`. */
  function LiveAssets(assets: map<Id, Asset>, org: Id): set<Id> {
    set i | i in assets && assets[i].org == org && assets[i].deletion.None?
  }

  predicate LimitReached(assets: map<Id, Asset>, org: Id, maxAssets: Option<int>) {
    maxAssets.Some? && |LiveAssets(assets, org)| >= maxAssets.value
  }

  function NewAsset(org: Id, p: CreateRequest): Asset {
    Asset(org, AIRCRAFT, p.manufacturer, Some(p.aircraftType), Some(p.msn), Some(p.registration), p.status, None, None)
  }

  function NewAircraft(org: Id, p: CreateRequest, assetId: Id): Aircraft {
    Aircraft(org, p.registration, p.msn, p.aircraftType, p.status, Some(assetId))
  }

  function CreatedRecord(org: Id, user: Option<Id>, p: CreateRequest, assetId: Id, aircraftId: Id): AuditRecord {
    AuditRecord(org, user, AircraftCreated(aircraftId, p.registration, p.msn, p.aircraftType), AssetEntity, assetId)
  }

  /** Nothing stands in the way of the three inserts: the generated keys are
      new and the registration is not taken in the organization, by an
      aircraft or by any asset. */
  predicate CanInsert(db: Db, org: Id, p: CreateRequest, assetId: Id, aircraftId: Id) {
    && assetId !in db.assets && assetId !in db.details && aircraftId !in db.aircraft
    && (forall i :: i in db.aircraft ==> db.aircraft[i].assetId != Some(assetId))
    && !AssetHolds(db.assets, org, p.registration)
    && !AircraftHolds(db.aircraft, org, p.registration)
  }

  function Inserted(db: Db, org: Id, p: CreateRequest, assetId: Id, aircraftId: Id): Db {
    db.(aircraft := db.aircraft[aircraftId := NewAircraft(org, p, assetId)],
        assets := db.assets[assetId := NewAsset(org, p)],
        details := db.details[assetId := AircraftDetail(p.msn, p.aircraftType)])
  }

  function Create(db: Db, org: Id, user: Option<Id>, p: CreateRequest, maxAssets: Option<int>, assetId: Id, aircraftId: Id): Outcome {
    if LimitReached(db.assets, org, maxAssets) then Raise(db, UsageLimitExceeded)
    else if !CanInsert(db, org, p, assetId, aircraftId) then Raise(db, Conflict)
    else
      Outcome(
        Inserted(db, org, p, assetId, aircraftId).(audit := db.audit + [CreatedRecord(org, user, p, assetId, aircraftId)]),
        Ok(aircraftId))
  }

  function Patched(a: Aircraft, p: UpdateRequest): Aircraft {
    a.(msn := Or(p.msn, a.msn), aircraftType := Or(p.aircraftType, a.aircraftType), status := Or(p.status, a.status))
  }

  function PatchedAsset(a: Asset, p: UpdateRequest): Asset {
    a.(manufacturer := OrOption(p.manufacturer, a.manufacturer), model := OrOption(p.aircraftType, a.model),
       serialNumber := OrOption(p.msn, a.serialNumber), status := Or(p.status, a.status))
  }

  function PatchedDetail(d: AircraftDetail, p: UpdateRequest): AircraftDetail {
    AircraftDetail(Or(p.msn, d.msn), Or(p.aircraftType, d.aircraftType))
  }

  function UpdatedRecord(org: Id, user: Option<Id>, aircraftId: Id, assetId: Option<Id>, p: UpdateRequest): AuditRecord {
    AuditRecord(org, user, AircraftUpdated(p.manufacturer, p.msn, p.aircraftType, p.status),
                if assetId.Some? then AssetEntity else AircraftEntity, if assetId.Some? then assetId.value else aircraftId)
  }

  function AssetsUpdated(db: Db, s: Id, p: UpdateRequest): map<Id, Asset> {
    if s in db.assets then db.assets[s := PatchedAsset(db.assets[s], p)] else db.assets
  }

  function DetailsUpdated(db: Db, s: Id, p: UpdateRequest): map<Id, AircraftDetail> {
    if s in db.details then db.details[s := PatchedDetail(db.details[s], p)] else db.details
  }

  /** The rows after an update: the aircraft, and the asset and detail row behind it where they exist. */
  function Updated(db: Db, aircraftId: Id, p: UpdateRequest): Db
    requires aircraftId in db.aircraft
  {
    var link := db.aircraft[aircraftId].assetId;
    db.(aircraft := db.aircraft[aircraftId := Patched(db.aircraft[aircraftId], p)],
        assets := if link.Some? then AssetsUpdated(db, link.value, p) else db.assets,
        details := if link.Some? then DetailsUpdated(db, link.value, p) else db.details)
  }

  function Update(db: Db, org: Id, user: Option<Id>, aircraftId: Id, p: UpdateRequest): Outcome {
    if !Visible(db, org, aircraftId) then Raise(db, NotFound)
    else if p.Empty() then Outcome(db, Ok(aircraftId))
    else
      Outcome(
        Updated(db, aircraftId, p).(audit := db.audit + [UpdatedRecord(org, user, aircraftId, db.aircraft[aircraftId].assetId, p)]),
        Ok(aircraftId))
  }

  /** `payload.reason.strip() if payload.reason else None` */
  function StoredReason(reason: Option<string>): Option<string> {
    if reason.Some? && reason.value != "" then Some(Strip(reason.value)) else None
  }

  function DeletedRecord(org: Id, user: Option<Id>, assetId: Id, asset: Asset, reason: Option<string>): AuditRecord {
    AuditRecord(org, user, AssetDeleted(asset.registration, asset.assetType, StoredReason(reason)), AssetEntity, assetId)
  }

  /** `soft_delete_asset`: the row stays, marked as deleted. */
  function SoftDelete(db: Db, org: Id, user: Option<Id>, assetId: Id, reason: Option<string>): Outcome {
    if assetId !in db.assets || db.assets[assetId].org != org then Raise(db, NotFound)
    else if db.assets[assetId].deletion.Some? then Raise(db, Conflict)
    else
      Outcome(
        db.(assets := db.assets[assetId := db.assets[assetId].(
                        deletion := Some(Deletion(user, StoredReason(reason))))],
            audit := db.audit + [DeletedRecord(org, user, assetId, db.assets[assetId], reason)]),
        Ok(assetId))
  }

  /** Inserts the three rows one after the other inside one transaction. A
      constraint violation at any of them rolls all of them back. */
  method CreateAircraft(db: Session, org: Id, user: Option<Id>, p: CreateRequest, maxAssets: Option<int>, assetId: Id, aircraftId: Id)
    returns (r: Result)
    modifies db
    ensures Outcome(db.Contents(), r) == Create(old(db.Contents()), org, user, p, maxAssets, assetId, aircraftId)
  {
    if LimitReached(db.assets, org, maxAssets) {
      return Err(UsageLimitExceeded);
    }
    var committed := db.Contents();
    // flush of the asset: primary key and uq_assets_organization_id_registration
    if assetId in db.assets || AssetHolds(db.assets, org, p.registration) {
      db.Rollback(committed);
      return Err(Conflict);
    }
    db.assets := db.assets[assetId := NewAsset(org, p)];
    // flush of the detail and the aircraft: two primary keys and two unique constraints
    if assetId in db.details {
      db.Rollback(committed);
      return Err(Conflict);
    }
    db.details := db.details[assetId := AircraftDetail(p.msn, p.aircraftType)];
    if aircraftId in db.aircraft || AircraftHolds(db.aircraft, org, p.registration)
       || exists i :: i in db.aircraft && db.aircraft[i].assetId == Some(assetId)
    {
      db.Rollback(committed);
      return Err(Conflict);
    }
    db.aircraft := db.aircraft[aircraftId := NewAircraft(org, p, assetId)];
    db.RecordAuditEvent(CreatedRecord(org, user, p, assetId, aircraftId));
    return Ok(aircraftId);
  }

  /** Applies the fields present to the asset and the detail row, each where it exists. */
  method UpdateBehind(db: Session, s: Id, p: UpdateRequest)
    modifies db`assets, db`details
    ensures db.assets == AssetsUpdated(old(db.Contents()), s, p) && db.details == DetailsUpdated(old(db.Contents()), s, p)
  {
    if s in db.assets {
      var asset := db.assets[s];
      if p.manufacturer.Some? { asset := asset.(manufacturer := p.manufacturer); }
      if p.aircraftType.Some? { asset := asset.(model := p.aircraftType); }
      if p.msn.Some? { asset := asset.(serialNumber := p.msn); }
      if p.status.Some? { asset := asset.(status := p.status.value); }
      db.assets := db.assets[s := asset];
    }
    if s in db.details {
      var detail := db.details[s];
      if p.msn.Some? { detail := detail.(msn := p.msn.value); }
      if p.aircraftType.Some? { detail := detail.(aircraftType := p.aircraftType.value); }
      db.details := db.details[s := detail];
    }
  }

  /** Applies the fields present in the request to the aircraft, then to the
      asset and the detail row behind it where they exist. */
  method UpdateAircraft(db: Session, org: Id, user: Option<Id>, aircraftId: Id, p: UpdateRequest) returns (r: Result)
    modifies db
    ensures Outcome(db.Contents(), r) == Update(old(db.Contents()), org, user, aircraftId, p)
  {
    if !Visible(db.Contents(), org, aircraftId) {
      return Err(NotFound);
    }
    if p.Empty() {
      return Ok(aircraftId);
    }
    var a := db.aircraft[aircraftId];
    if p.msn.Some? { a := a.(msn := p.msn.value); }
    if p.aircraftType.Some? { a := a.(aircraftType := p.aircraftType.value); }
    if p.status.Some? { a := a.(status := p.status.value); }
    db.aircraft := db.aircraft[aircraftId := a];
    if a.assetId.Some? {
      UpdateBehind(db, a.assetId.value, p);
    }
    db.RecordAuditEvent(UpdatedRecord(org, user, aircraftId, a.assetId, p));
    return Ok(aircraftId);
  }

  method SoftDeleteAsset(db: Session, org: Id, user: Option<Id>, assetId: Id, reason: Option<string>) returns (r: Result)
    modifies db
    ensures Outcome(db.Contents(), r) == SoftDelete(old(db.Contents()), org, user, assetId, reason)
  {
    if assetId !in db.assets || db.assets[assetId].org != org {
      return Err(NotFound);
    }
    var asset := db.assets[assetId];
    if asset.deletion.Some? {
      return Err(Conflict);
    }
    db.assets := db.assets[assetId := asset.(deletion := Some(Deletion(user, StoredReason(reason))))];
    db.RecordAuditEvent(DeletedRecord(org, user, assetId, asset, reason));
    return Ok(assetId);
  }
}
