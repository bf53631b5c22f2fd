/** The generic asset update, which writes one asset row of any type. */
module AssetService {
  import opened FleetDb
  import opened AircraftService
  import opened Text

  /** The body of a generic asset update. */
  datatype AssetPatch = AssetPatch(
    manufacturer: Option<string>, model: Option<string>, serialNumber: Option<string>, facilityId: Option<Id>, status: Option<string>)
  {
    predicate Empty() {
      manufacturer.None? && model.None? && serialNumber.None? && facilityId.None? && status.None?
    }
  }

  function Stripped(value: Option<string>): Option<string> {
    if value.Some? then Some(Strip(value.value)) else None
  }

  /** The values as they are stored. */
  function Normalized(p: AssetPatch): AssetPatch {
    AssetPatch(Stripped(p.manufacturer), Stripped(p.model), Stripped(p.serialNumber), p.facilityId,
               if p.status.Some? then Some(Upper(Strip(p.status.value))) else None)
  }

  function Written(a: Asset, n: AssetPatch): Asset {
    a.(manufacturer := OrOption(n.manufacturer, a.manufacturer), model := OrOption(n.model, a.model),
       serialNumber := OrOption(n.serialNumber, a.serialNumber), facilityId := if n.facilityId.Some? then n.facilityId else a.facilityId,
       status := Or(n.status, a.status))
  }

  function WrittenRecord(org: Id, user: Option<Id>, assetId: Id, n: AssetPatch): AuditRecord {
    AuditRecord(org, user, AssetUpdated(n.manufacturer, n.model, n.serialNumber, n.facilityId, n.status), AssetEntity, assetId)
  }

  /** The foreign key to `facilities`, which looks at the rows of all organizations. */
  predicate FacilityStored(db: Db, p: AssetPatch) {
    p.facilityId.Some? ==> p.facilityId.value in db.facilities
  }

  predicate AssetFound(db: Db, org: Id, assetId: Id) {
    assetId in db.assets && db.assets[assetId].org == org && db.assets[assetId].deletion.None?
  }

  /** `asset_service.update_asset` */
  function UpdateAsset(db: Db, org: Id, user: Option<Id>, assetId: Id, p: AssetPatch): Outcome {
    if !AssetFound(db, org, assetId) then Raise(db, NotFound)
    else if p.Empty() then Outcome(db, Ok(assetId))
    else if !FacilityStored(db, p) then Raise(db, DatabaseError)
    else
      Outcome(
        db.(assets := db.assets[assetId := Written(db.assets[assetId], Normalized(p))],
            audit := db.audit + [WrittenRecord(org, user, assetId, Normalized(p))]),
        Ok(assetId))
  }

  /** Sets the fields present in the patch one by one; a failing commit undoes them. */
  method UpdateAssetRow(db: Session, org: Id, user: Option<Id>, assetId: Id, p: AssetPatch) returns (r: Result)
    modifies db
    ensures Outcome(db.Contents(), r) == UpdateAsset(old(db.Contents()), org, user, assetId, p)
  {
    if !AssetFound(db.Contents(), org, assetId) {
      return Err(NotFound);
    }
    var committed := db.Contents();
    var a := db.assets[assetId];
    if p.manufacturer.Some? { a := a.(manufacturer := Some(Strip(p.manufacturer.value))); }
    if p.model.Some? { a := a.(model := Some(Strip(p.model.value))); }
    if p.serialNumber.Some? { a := a.(serialNumber := Some(Strip(p.serialNumber.value))); }
    if p.facilityId.Some? { a := a.(facilityId := p.facilityId); }
    if p.status.Some? { a := a.(status := Upper(Strip(p.status.value))); }
    db.assets := db.assets[assetId := a];
    if !p.Empty() {
      db.RecordAuditEvent(WrittenRecord(org, user, assetId, Normalized(p)));
      if !FacilityStored(db.Contents(), p) {
        db.Rollback(committed);
        return Err(DatabaseError);
      }
    }
    return Ok(assetId);
  }
}
