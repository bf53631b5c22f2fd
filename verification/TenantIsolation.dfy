/** What one organization can see and change of the others, over whole runs. */
module TenantIsolation {
  import opened FleetDb
  import opened AircraftService
  import opened AogService
  import opened AssetService
  import opened FleetRuns

  function RecordsOf(log: seq<AuditRecord>, org: Id): seq<AuditRecord> {
    if log == [] then []
    else RecordsOf(log[..|log| - 1], org) + if log[|log| - 1].org == org then [log[|log| - 1]] else []
  }

  // ---- one table ----

  function AircraftOf(t: map<Id, Aircraft>, org: Id): map<Id, Aircraft> {
    map i | i in t && t[i].org == org :: t[i]
  }

  function AssetsOf(t: map<Id, Asset>, org: Id): map<Id, Asset> {
    map i | i in t && t[i].org == org :: t[i]
  }

  /** A detail row belongs to the organization of its asset. */
  function DetailsOf(t: map<Id, AircraftDetail>, assets: map<Id, Asset>): map<Id, AircraftDetail> {
    map i | i in t && i in assets :: t[i]
  }

  function EventsOf(t: map<Id, AogEvent>, org: Id): map<Id, AogEvent> {
    map i | i in t && t[i].org == org :: t[i]
  }

  function BlockersOf(t: map<Id, AogBlocker>, org: Id): map<Id, AogBlocker> {
    map i | i in t && t[i].org == org :: t[i]
  }

  function OwnedBy(t: map<Id, Id>, org: Id): map<Id, Id> {
    map i | i in t && t[i] == org :: org
  }

  /** Row by row, `v` is what the table holds for the organization. */
  ghost predicate SameAircraft(t: map<Id, Aircraft>, org: Id, v: map<Id, Aircraft>) {
    (forall i :: i in v <==> i in t && t[i].org == org) && forall i :: i in v ==> v[i] == t[i]
  }

  ghost predicate SameAssets(t: map<Id, Asset>, org: Id, v: map<Id, Asset>) {
    (forall i :: i in v <==> i in t && t[i].org == org) && forall i :: i in v ==> v[i] == t[i]
  }

  ghost predicate SameDetails(t: map<Id, AircraftDetail>, assets: map<Id, Asset>, v: map<Id, AircraftDetail>) {
    (forall i :: i in v <==> i in t && i in assets) && forall i :: i in v ==> v[i] == t[i]
  }

  ghost predicate SameEvents(t: map<Id, AogEvent>, org: Id, v: map<Id, AogEvent>) {
    (forall i :: i in v <==> i in t && t[i].org == org) && forall i :: i in v ==> v[i] == t[i]
  }

  ghost predicate SameBlockers(t: map<Id, AogBlocker>, org: Id, v: map<Id, AogBlocker>) {
    (forall i :: i in v <==> i in t && t[i].org == org) && forall i :: i in v ==> v[i] == t[i]
  }

  ghost predicate SameOwned(t: map<Id, Id>, org: Id, v: map<Id, Id>) {
    (forall i :: i in v <==> i in t && t[i] == org) && forall i :: i in v ==> v[i] == org
  }

  lemma SameAircraftIs(t: map<Id, Aircraft>, org: Id, v: map<Id, Aircraft>)
    ensures SameAircraft(t, org, v) <==> v == AircraftOf(t, org)
  {
  }

  lemma SameAssetsIs(t: map<Id, Asset>, org: Id, v: map<Id, Asset>)
    ensures SameAssets(t, org, v) <==> v == AssetsOf(t, org)
  {
  }

  lemma SameDetailsIs(t: map<Id, AircraftDetail>, assets: map<Id, Asset>, v: map<Id, AircraftDetail>)
    ensures SameDetails(t, assets, v) <==> v == DetailsOf(t, assets)
  {
  }

  lemma SameEventsIs(t: map<Id, AogEvent>, org: Id, v: map<Id, AogEvent>)
    ensures SameEvents(t, org, v) <==> v == EventsOf(t, org)
  {
  }

  lemma SameBlockersIs(t: map<Id, AogBlocker>, org: Id, v: map<Id, AogBlocker>)
    ensures SameBlockers(t, org, v) <==> v == BlockersOf(t, org)
  {
  }

  lemma SameOwnedIs(t: map<Id, Id>, org: Id, v: map<Id, Id>)
    ensures SameOwned(t, org, v) <==> v == OwnedBy(t, org)
  {
  }

  // ---- one row written ----

  lemma AircraftWritten(t: map<Id, Aircraft>, org: Id, v: map<Id, Aircraft>, i: Id, a: Aircraft)
    requires SameAircraft(t, org, v) && (i in t ==> t[i].org == a.org)
    ensures a.org == org ==> SameAircraft(t[i := a], org, v[i := a])
    ensures a.org != org ==> SameAircraft(t[i := a], org, v)
  {
  }

  lemma AssetWritten(t: map<Id, Asset>, org: Id, v: map<Id, Asset>, i: Id, a: Asset)
    requires SameAssets(t, org, v) && (i in t ==> t[i].org == a.org)
    ensures a.org == org ==> SameAssets(t[i := a], org, v[i := a])
    ensures a.org != org ==> SameAssets(t[i := a], org, v)
  {
  }

  lemma DetailWritten(t: map<Id, AircraftDetail>, assets: map<Id, Asset>, v: map<Id, AircraftDetail>, i: Id, d: AircraftDetail)
    requires SameDetails(t, assets, v)
    ensures i in assets ==> SameDetails(t[i := d], assets, v[i := d])
    ensures i !in assets ==> SameDetails(t[i := d], assets, v)
  {
  }

  lemma DetailsUnderWrite(t: map<Id, AircraftDetail>, assets: map<Id, Asset>, v: map<Id, AircraftDetail>, i: Id, a: Asset)
    requires SameDetails(t, assets, v) && (i in assets || i !in t)
    ensures SameDetails(t, assets[i := a], v)
  {
  }

  lemma EventWritten(t: map<Id, AogEvent>, org: Id, v: map<Id, AogEvent>, i: Id, e: AogEvent)
    requires SameEvents(t, org, v) && (i in t ==> t[i].org == e.org)
    ensures e.org == org ==> SameEvents(t[i := e], org, v[i := e])
    ensures e.org != org ==> SameEvents(t[i := e], org, v)
  {
  }

  lemma BlockerWritten(t: map<Id, AogBlocker>, org: Id, v: map<Id, AogBlocker>, i: Id, b: AogBlocker)
    requires SameBlockers(t, org, v) && (i in t ==> t[i].org == b.org)
    ensures b.org == org ==> SameBlockers(t[i := b], org, v[i := b])
    ensures b.org != org ==> SameBlockers(t[i := b], org, v)
  {
  }

  // ---- all tables ----

  /** The rows of one organization. */
  function Restrict(db: Db, org: Id): Db {
    var assets := AssetsOf(db.assets, org);
    Db(AircraftOf(db.aircraft, org), assets, DetailsOf(db.details, assets), EventsOf(db.events, org), BlockersOf(db.blockers, org),
       RecordsOf(db.audit, org), OwnedBy(db.workOrders, org), OwnedBy(db.facilities, org))
  }

  ghost predicate SameFleet(db: Db, org: Id, v: Db) {
    SameAircraft(db.aircraft, org, v.aircraft) && SameAssets(db.assets, org, v.assets) && SameDetails(db.details, v.assets, v.details)
  }

  ghost predicate SameAog(db: Db, org: Id, v: Db) {
    SameEvents(db.events, org, v.events) && SameBlockers(db.blockers, org, v.blockers)
  }

  /** The same for the rows the services only refer to. */
  ghost predicate SameReferred(db: Db, org: Id, v: Db) {
    SameOwned(db.workOrders, org, v.workOrders) && SameOwned(db.facilities, org, v.facilities)
  }

  ghost predicate SameRows(db: Db, org: Id, v: Db) {
    SameFleet(db, org, v) && SameAog(db, org, v) && SameReferred(db, org, v)
  }

  /** The rows and records of an organization are its restriction, and determine it. */
  lemma SameRowsIs(db: Db, org: Id, v: Db)
    ensures v == Restrict(db, org) <==> SameRows(db, org, v) && v.audit == RecordsOf(db.audit, org)
  {
    SameAircraftIs(db.aircraft, org, v.aircraft);
    SameAssetsIs(db.assets, org, v.assets);
    SameDetailsIs(db.details, v.assets, v.details);
    SameEventsIs(db.events, org, v.events);
    SameBlockersIs(db.blockers, org, v.blockers);
    SameOwnedIs(db.workOrders, org, v.workOrders);
    SameOwnedIs(db.facilities, org, v.facilities);
  }

  // ---- the rows of the others ----

  /** The asset behind an aircraft exists in the same organization. */
  predicate LinkOk(db: Db, aircraftId: Id) {
    aircraftId in db.aircraft && db.aircraft[aircraftId].assetId.Some? ==>
      var s := db.aircraft[aircraftId].assetId.value;
      s in db.assets && db.assets[s].org == db.aircraft[aircraftId].org
  }

  lemma InsertedElsewhere(db: Db, org: Id, p: CreateRequest, assetId: Id, aircraftId: Id, other: Id, v: Db)
    requires CanInsert(db, org, p, assetId, aircraftId) && org != other && SameFleet(db, other, v)
    ensures SameFleet(Inserted(db, org, p, assetId, aircraftId), other, v)
  {
    AircraftWritten(db.aircraft, other, v.aircraft, aircraftId, NewAircraft(org, p, assetId));
    AssetWritten(db.assets, other, v.assets, assetId, NewAsset(org, p));
    DetailWritten(db.details, v.assets, v.details, assetId, AircraftDetail(p.msn, p.aircraftType));
  }

  lemma UpdatedElsewhere(db: Db, org: Id, aircraftId: Id, p: UpdateRequest, other: Id, v: Db)
    requires Visible(db, org, aircraftId) && LinkOk(db, aircraftId) && org != other && SameFleet(db, other, v)
    ensures SameFleet(Updated(db, aircraftId, p), other, v)
  {
    var a := db.aircraft[aircraftId];
    AircraftWritten(db.aircraft, other, v.aircraft, aircraftId, Patched(a, p));
    if a.assetId.Some? {
      var s := a.assetId.value;
      AssetWritten(db.assets, other, v.assets, s, PatchedAsset(db.assets[s], p));
      if s in db.details {
        DetailWritten(db.details, v.assets, v.details, s, PatchedDetail(db.details[s], p));
      }
    }
  }

  lemma FleetCallsStayHome(db: Db, op: Op, other: Id, v: Db)
    requires OnFleet(op) && (op.OpUpdate? ==> LinkOk(db, op.aircraftId))
    requires op.org != other && SameFleet(db, other, v)
    ensures SameFleet(Step(db, op).db, other, v)
  {
    if Step(db, op).db != db {
      match op
      case OpCreate(org, _, p, _, assetId, aircraftId) => InsertedElsewhere(db, org, p, assetId, aircraftId, other, v);
      case OpUpdate(org, _, id, p) => UpdatedElsewhere(db, org, id, p, other, v);
      case OpSoftDelete(_, _, id, _) => AssetWritten(db.assets, other, v.assets, id, Step(db, op).db.assets[id]);
      case OpUpdateAsset(_, _, id, _) => AssetWritten(db.assets, other, v.assets, id, Step(db, op).db.assets[id]);
    }
  }

  lemma AogCallsStayHome(db: Db, op: Op, other: Id, v: Db)
    requires !OnFleet(op) && BlockersOwned(db) && op.org != other && SameAog(db, other, v)
    ensures SameAog(Step(db, op).db, other, v)
  {
    var db' := Step(db, op).db;
    if db' != db {
      match op
      case OpDeclare(_, _, _, id) => EventWritten(db.events, other, v.events, id, db'.events[id]);
      case OpPatch(_, _, id, _) => EventWritten(db.events, other, v.events, id, db'.events[id]);
      case OpMove(_, _, id, _) => EventWritten(db.events, other, v.events, id, db'.events[id]);
      case OpAddBlocker(_, _, _, _, b) => BlockerWritten(db.blockers, other, v.blockers, b, db'.blockers[b]);
      case OpResolve(_, _, _, b) => BlockerWritten(db.blockers, other, v.blockers, b, db'.blockers[b]);
    }
  }

  // ---- the rows of the caller ----

  lemma CanInsertLocally(db: Db, org: Id, p: CreateRequest, max: Option<int>, assetId: Id, aircraftId: Id, v: Db)
    requires LinksHome(db) && assetId !in db.assets && aircraftId !in db.aircraft && SameFleet(db, org, v)
    ensures LimitReached(v.assets, org, max) == LimitReached(db.assets, org, max)
    ensures CanInsert(v, org, p, assetId, aircraftId) == CanInsert(db, org, p, assetId, aircraftId)
  {
    assert LiveAssets(v.assets, org) == LiveAssets(db.assets, org);
    if i :| i in db.assets && db.assets[i].org == org && db.assets[i].registration == Some(p.registration) {
      assert i in v.assets;
    }
    if i :| i in db.aircraft && db.aircraft[i].org == org && db.aircraft[i].registration == p.registration {
      assert i in v.aircraft;
    }
  }

  lemma InsertedLocally(db: Db, org: Id, p: CreateRequest, assetId: Id, aircraftId: Id, v: Db)
    requires assetId !in db.assets && assetId !in db.details && aircraftId !in db.aircraft && SameFleet(db, org, v)
    ensures SameFleet(Inserted(db, org, p, assetId, aircraftId), org, Inserted(v, org, p, assetId, aircraftId))
  {
    var a := NewAsset(org, p);
    AircraftWritten(db.aircraft, org, v.aircraft, aircraftId, NewAircraft(org, p, assetId));
    AssetWritten(db.assets, org, v.assets, assetId, a);
    DetailsUnderWrite(db.details, v.assets, v.details, assetId, a);
    DetailWritten(db.details, v.assets[assetId := a], v.details, assetId, AircraftDetail(p.msn, p.aircraftType));
  }

  lemma CreateLocally(db: Db, op: Op, v: Db)
    requires op.OpCreate? && LinksHome(db) && op.assetId !in db.assets && op.aircraftId !in db.aircraft && SameFleet(db, op.org, v)
    ensures Step(v, op).result == Step(db, op).result && SameFleet(Step(db, op).db, op.org, Step(v, op).db)
  {
    CanInsertLocally(db, op.org, op.create, op.maxAssets, op.assetId, op.aircraftId, v);
    if Step(db, op).result.Ok? {
      InsertedLocally(db, op.org, op.create, op.assetId, op.aircraftId, v);
    }
  }

  lemma VisibleLocally(db: Db, org: Id, aircraftId: Id, v: Db)
    requires LinkOk(db, aircraftId) && SameFleet(db, org, v)
    ensures Visible(v, org, aircraftId) == Visible(db, org, aircraftId)
    ensures Visible(db, org, aircraftId) ==> v.aircraft[aircraftId] == db.aircraft[aircraftId]
  {
  }

  lemma AssetUpdatedLocally(db: Db, org: Id, s: Id, p: UpdateRequest, v: Db)
    requires SameFleet(db, org, v) && s in db.assets && db.assets[s].org == org
    ensures s in v.assets && v.assets[s] == db.assets[s] && (s in v.details <==> s in db.details)
    ensures SameAssets(AssetsUpdated(db, s, p), org, AssetsUpdated(v, s, p))
    ensures SameDetails(DetailsUpdated(db, s, p), AssetsUpdated(v, s, p), DetailsUpdated(v, s, p))
  {
    var asset := PatchedAsset(db.assets[s], p);
    AssetWritten(db.assets, org, v.assets, s, asset);
    DetailsUnderWrite(db.details, v.assets, v.details, s, asset);
    if s in db.details {
      DetailWritten(db.details, v.assets[s := asset], v.details, s, PatchedDetail(db.details[s], p));
    }
  }

  lemma UpdatedLocally(db: Db, org: Id, aircraftId: Id, p: UpdateRequest, v: Db)
    requires aircraftId in db.aircraft && db.aircraft[aircraftId].org == org && LinkOk(db, aircraftId) && SameFleet(db, org, v)
    requires aircraftId in v.aircraft && v.aircraft[aircraftId] == db.aircraft[aircraftId]
    ensures SameFleet(Updated(db, aircraftId, p), org, Updated(v, aircraftId, p))
  {
    var link, now, after := db.aircraft[aircraftId].assetId, Updated(db, aircraftId, p), Updated(v, aircraftId, p);
    assert SameAircraft(now.aircraft, org, after.aircraft) by {
      AircraftWritten(db.aircraft, org, v.aircraft, aircraftId, Patched(db.aircraft[aircraftId], p));
    }
    assert SameAssets(now.assets, org, after.assets) && SameDetails(now.details, after.assets, after.details) by {
      if link.Some? {
        AssetUpdatedLocally(db, org, link.value, p, v);
      }
    }
  }

  lemma UpdateLocally(db: Db, op: Op, v: Db)
    requires op.OpUpdate? && LinkOk(db, op.aircraftId) && SameFleet(db, op.org, v)
    ensures Step(v, op).result == Step(db, op).result && SameFleet(Step(db, op).db, op.org, Step(v, op).db)
  {
    VisibleLocally(db, op.org, op.aircraftId, v);
    if Visible(db, op.org, op.aircraftId) && !op.update.Empty() {
      UpdatedLocally(db, op.org, op.aircraftId, op.update, v);
    }
  }

  /** The call names a row of another organization that a foreign key then
      accepts: a work order in a declaration, a facility in an asset update. */
  predicate NamesForeign(db: Db, op: Op) {
    match op
    case OpDeclare(org, _, p, _) =>
      && Visible(db, org, p.aircraftId) && p.workOrderId.Some?
      && p.workOrderId.value in db.workOrders && db.workOrders[p.workOrderId.value] != org
    case OpUpdateAsset(org, _, id, p) =>
      && AssetFound(db, org, id) && p.facilityId.Some?
      && p.facilityId.value in db.facilities && db.facilities[p.facilityId.value] != org
    case _ => false
  }

  lemma WriteAssetLocally(db: Db, org: Id, s: Id, a: Asset, v: Db, db': Db, v': Db)
    requires SameFleet(db, org, v) && s in db.assets && db.assets[s].org == org && a.org == org
    requires db'.assets == db.assets[s := a] && v'.assets == v.assets[s := a]
    requires db'.aircraft == db.aircraft && v'.aircraft == v.aircraft && db'.details == db.details && v'.details == v.details
    ensures SameFleet(db', org, v')
  {
    AssetWritten(db.assets, org, v.assets, s, a);
    DetailsUnderWrite(db.details, v.assets, v.details, s, a);
  }

  lemma AssetFoundLocally(db: Db, org: Id, s: Id, v: Db)
    requires SameFleet(db, org, v)
    ensures AssetFound(v, org, s) == AssetFound(db, org, s)
    ensures s in db.assets && db.assets[s].org == org ==> s in v.assets && v.assets[s] == db.assets[s]
    ensures !(s in db.assets && db.assets[s].org == org) ==> s !in v.assets
  {
  }

  lemma FacilityLocally(db: Db, org: Id, p: AssetPatch, v: Db)
    requires SameReferred(db, org, v)
    requires !(p.facilityId.Some? && p.facilityId.value in db.facilities && db.facilities[p.facilityId.value] != org)
    ensures FacilityStored(v, p) == FacilityStored(db, p)
  {
  }

  lemma UpdateAssetLocally(db: Db, op: Op, v: Db)
    requires op.OpUpdateAsset? && !NamesForeign(db, op) && SameFleet(db, op.org, v) && SameReferred(db, op.org, v)
    ensures Step(v, op).result == Step(db, op).result && SameFleet(Step(db, op).db, op.org, Step(v, op).db)
  {
    AssetFoundLocally(db, op.org, op.assetId, v);
    if AssetFound(db, op.org, op.assetId) {
      FacilityLocally(db, op.org, op.asset, v);
      if Step(db, op).result.Ok? && !op.asset.Empty() {
        WriteAssetLocally(db, op.org, op.assetId, Written(db.assets[op.assetId], Normalized(op.asset)), v, Step(db, op).db, Step(v, op).db);
      }
    }
  }

  lemma SoftDeleteLocally(db: Db, op: Op, v: Db)
    requires op.OpSoftDelete? && SameFleet(db, op.org, v)
    ensures Step(v, op).result == Step(db, op).result && SameFleet(Step(db, op).db, op.org, Step(v, op).db)
  {
    AssetFoundLocally(db, op.org, op.assetId, v);
    if Step(db, op).result.Ok? {
      WriteAssetLocally(db, op.org, op.assetId, Step(db, op).db.assets[op.assetId], v, Step(db, op).db, Step(v, op).db);
    }
  }

  lemma DeclareLocally(db: Db, op: Op, v: Db)
    requires op.OpDeclare? && LinkOk(db, op.declare.aircraftId) && op.eventId !in db.events && SameRows(db, op.org, v)
    requires !NamesForeign(db, op)
    ensures Step(v, op).result == Step(db, op).result && SameAog(Step(db, op).db, op.org, Step(v, op).db)
  {
    VisibleLocally(db, op.org, op.declare.aircraftId, v);
    if Step(db, op).result.Ok? {
      EventWritten(db.events, op.org, v.events, op.eventId, NewEvent(db, op.org, op.user, op.declare));
    }
  }

  lemma FoundLocally(db: Db, org: Id, eventId: Id, v: Db)
    requires SameAog(db, org, v)
    ensures EventFound(v, org, eventId) == EventFound(db, org, eventId)
    ensures EventFound(db, org, eventId) ==> v.events[eventId] == db.events[eventId]
  {
  }

  lemma PatchLocally(db: Db, op: Op, v: Db)
    requires op.OpPatch? && SameAog(db, op.org, v)
    ensures Step(v, op).result == Step(db, op).result && SameAog(Step(db, op).db, op.org, Step(v, op).db)
  {
    FoundLocally(db, op.org, op.eventId, v);
    if EventFound(db, op.org, op.eventId) && !op.patch.Empty() && op.patch.Storable() {
      EventWritten(db.events, op.org, v.events, op.eventId, PatchedEvent(db.events[op.eventId], op.patch));
    }
  }

  lemma AddBlockerLocally(db: Db, op: Op, v: Db)
    requires op.OpAddBlocker? && op.blockerId !in db.blockers && SameAog(db, op.org, v)
    ensures Step(v, op).result == Step(db, op).result && SameAog(Step(db, op).db, op.org, Step(v, op).db)
  {
    FoundLocally(db, op.org, op.eventId, v);
    if Step(db, op).result.Ok? {
      BlockerWritten(db.blockers, op.org, v.blockers, op.blockerId, Step(db, op).db.blockers[op.blockerId]);
    }
  }

  lemma ResolveLocally(db: Db, op: Op, v: Db)
    requires op.OpResolve? && BlockersOwned(db) && SameAog(db, op.org, v)
    ensures Step(v, op).result == Step(db, op).result && SameAog(Step(db, op).db, op.org, Step(v, op).db)
  {
    FoundLocally(db, op.org, op.eventId, v);
    if Step(db, op).result.Ok? {
      BlockerWritten(db.blockers, op.org, v.blockers, op.blockerId, Step(db, op).db.blockers[op.blockerId]);
    }
  }

  lemma UnresolvedLocally(db: Db, org: Id, eventId: Id, v: Db)
    requires BlockersOwned(db) && EventFound(db, org, eventId) && SameAog(db, org, v)
    ensures HasUnresolved(v, eventId) == HasUnresolved(db, eventId)
  {
    if b :| b in db.blockers && db.blockers[b].eventId == eventId && !db.blockers[b].resolved {
      assert b in v.blockers;
    }
  }

  lemma MovedLocally(db: Db, org: Id, user: Option<Id>, e: Id, move: Move, v: Db)
    requires SameAog(db, org, v) && (EventFound(db, org, e) ==> HasUnresolved(v, e) == HasUnresolved(db, e))
    ensures var r, r' := ChangeStatus(db, org, user, e, move), ChangeStatus(v, org, user, e, move);
            r'.result == r.result && SameAog(r.db, org, r'.db)
  {
    FoundLocally(db, org, e, v);
    if EventFound(db, org, e) {
      EventWritten(db.events, org, v.events, e, db.events[e].(status := move.Target()));
    }
  }

  lemma MoveLocally(db: Db, op: Op, v: Db)
    requires op.OpMove? && BlockersOwned(db) && SameAog(db, op.org, v)
    ensures Step(v, op).result == Step(db, op).result && SameAog(Step(db, op).db, op.org, Step(v, op).db)
  {
    if EventFound(db, op.org, op.eventId) {
      UnresolvedLocally(db, op.org, op.eventId, v);
    }
    MovedLocally(db, op.org, op.user, op.eventId, op.move, v);
  }

  // ---- the log ----

  lemma RecordsOfAppend(log: seq<AuditRecord>, r: seq<AuditRecord>, org: Id, other: Id)
    requires |r| <= 1 && forall k :: k in r ==> k.org == org
    ensures RecordsOf(log + r, other) == if org == other then RecordsOf(log, other) + r else RecordsOf(log, other)
  {
    if r == [] {
      assert log + r == log;
    } else {
      assert (log + r)[..|log|] == log;
      assert r == [r[0]] && r[0] in r;
    }
  }

  /** A call appends at most one record, its own organization's. */
  lemma Logged(db: Db, op: Op) returns (r: seq<AuditRecord>)
    ensures Step(db, op).db.audit == db.audit + r && |r| <= 1
    ensures forall k :: k in r ==> k.org == op.org
  {
    r := [];
    if Step(db, op).db != db {
      var k := CallLog(db, op);
      r := [k];
    }
  }

  /** On the view alone the record would be the same. */
  lemma CreateLogLocally(db: Db, op: Op, v: Db) returns (r: AuditRecord)
    requires op.OpCreate? && Step(db, op).result.Ok? && Step(v, op).result.Ok?
    ensures Step(db, op).db.audit == db.audit + [r] && Step(v, op).db.audit == v.audit + [r] && r.org == op.org
  {
    r := CreatedRecord(op.org, op.user, op.create, op.assetId, op.aircraftId);
  }

  lemma UpdateLogLocally(db: Db, op: Op, v: Db) returns (r: seq<AuditRecord>)
    requires op.OpUpdate? && SameFleet(db, op.org, v) && Step(db, op).result.Ok? && Step(v, op).result.Ok?
    ensures Step(db, op).db.audit == db.audit + r && Step(v, op).db.audit == v.audit + r && |r| <= 1
    ensures forall k :: k in r ==> k.org == op.org
  {
    assert v.aircraft[op.aircraftId] == db.aircraft[op.aircraftId];
    r := if op.update.Empty() then []
         else [UpdatedRecord(op.org, op.user, op.aircraftId, db.aircraft[op.aircraftId].assetId, op.update)];
  }

  lemma AssetLogLocally(db: Db, op: Op, v: Db) returns (r: seq<AuditRecord>)
    requires (op.OpSoftDelete? || op.OpUpdateAsset?) && SameFleet(db, op.org, v) && Step(db, op).result.Ok? && Step(v, op).result.Ok?
    ensures Step(db, op).db.audit == db.audit + r && Step(v, op).db.audit == v.audit + r && |r| <= 1
    ensures forall k :: k in r ==> k.org == op.org
  {
    if op.OpSoftDelete? {
      assert v.assets[op.assetId] == db.assets[op.assetId];
      r := [DeletedRecord(op.org, op.user, op.assetId, db.assets[op.assetId], op.reason)];
    } else {
      r := if op.asset.Empty() then [] else [WrittenRecord(op.org, op.user, op.assetId, Normalized(op.asset))];
    }
  }

  lemma EventLogLocally(db: Db, op: Op, v: Db) returns (r: seq<AuditRecord>)
    requires (op.OpDeclare? || op.OpPatch? || op.OpMove?) && SameAog(db, op.org, v) && Step(db, op).result.Ok? && Step(v, op).result.Ok?
    ensures Step(db, op).db.audit == db.audit + r && Step(v, op).db.audit == v.audit + r && |r| <= 1
    ensures forall k :: k in r ==> k.org == op.org
  {
    match op
    case OpDeclare(org, user, p, id) => r := [AuditRecord(org, user, AogDeclared(p.aircraftId, p.severity), AogEventEntity, id)];
    case OpPatch(org, user, id, p) => r := if p.Empty() then [] else [AuditRecord(org, user, PatchAction(p), AogEventEntity, id)];
    case OpMove(org, user, id, move) =>
      assert v.events[id] == db.events[id];
      r := [AuditRecord(org, user, move.Record(db.events[id].status), AogEventEntity, id)];
  }

  lemma BlockerLogLocally(db: Db, op: Op, v: Db) returns (r: AuditRecord)
    requires (op.OpAddBlocker? || op.OpResolve?) && Step(db, op).result.Ok? && Step(v, op).result.Ok?
    ensures Step(db, op).db.audit == db.audit + [r] && Step(v, op).db.audit == v.audit + [r] && r.org == op.org
  {
    r := AuditRecord(op.org, op.user, if op.OpAddBlocker? then BlockerAdded(op.eventId, op.blocker.blockerType) else BlockerResolved(op.eventId),
                     AogBlockerEntity, op.blockerId);
  }

  lemma CallLogLocally(db: Db, op: Op, v: Db) returns (r: seq<AuditRecord>)
    requires SameRows(db, op.org, v) && Step(db, op).result.Ok? && Step(v, op).result.Ok?
    ensures Step(db, op).db.audit == db.audit + r && Step(v, op).db.audit == v.audit + r && |r| <= 1
    ensures forall k :: k in r ==> k.org == op.org
  {
    if op.OpCreate? {
      var k := CreateLogLocally(db, op, v);
      r := [k];
    } else if op.OpUpdate? {
      r := UpdateLogLocally(db, op, v);
    } else if op.OpSoftDelete? || op.OpUpdateAsset? {
      r := AssetLogLocally(db, op, v);
    } else if op.OpAddBlocker? || op.OpResolve? {
      var k := BlockerLogLocally(db, op, v);
      r := [k];
    } else {
      r := EventLogLocally(db, op, v);
    }
  }

  // ---- one call ----

  lemma LinksOk(db: Db)
    requires LinksHome(db)
    ensures forall i :: LinkOk(db, i)
  {
  }

  lemma RowsUntouched(db: Db, op: Op, org: Id, v: Db)
    requires AtHome(db) && op.org != org && SameRows(db, org, v)
    ensures SameRows(Step(db, op).db, org, v)
  {
    if OnFleet(op) {
      FleetCallTouches(db, op);
      LinksOk(db);
      FleetCallsStayHome(db, op, org, v);
    } else {
      AogCallTouches(db, op);
      AogCallsStayHome(db, op, org, v);
    }
  }

  /** A call made for one organization changes no row of any other. */
  lemma OthersUntouched(db: Db, op: Op, org: Id)
    requires AtHome(db) && op.org != org
    ensures Restrict(Step(db, op).db, org) == Restrict(db, org)
  {
    var v := Restrict(db, org);
    SameRowsIs(db, org, v);
    RowsUntouched(db, op, org, v);
    var r := Logged(db, op);
    RecordsOfAppend(db.audit, r, op.org, org);
    SameRowsIs(Step(db, op).db, org, v);
  }

  /** The keys the database generates for the call are new. */
  predicate FreshKeys(db: Db, op: Op) {
    && (op.OpCreate? ==> op.assetId !in db.assets && op.aircraftId !in db.aircraft)
    && (op.OpDeclare? ==> op.eventId !in db.events)
    && (op.OpAddBlocker? ==> op.blockerId !in db.blockers)
  }

  lemma FleetCallLocally(db: Db, op: Op, v: Db)
    requires OnFleet(op) && LinksHome(db) && FreshKeys(db, op) && !NamesForeign(db, op)
    requires SameFleet(db, op.org, v) && SameReferred(db, op.org, v)
    ensures Step(v, op).result == Step(db, op).result && SameFleet(Step(db, op).db, op.org, Step(v, op).db)
  {
    LinksOk(db);
    if op.OpCreate? {
      CreateLocally(db, op, v);
    } else if op.OpUpdate? {
      UpdateLocally(db, op, v);
    } else if op.OpSoftDelete? {
      SoftDeleteLocally(db, op, v);
    } else {
      UpdateAssetLocally(db, op, v);
    }
  }

  lemma AogCallLocally(db: Db, op: Op, v: Db)
    requires !OnFleet(op) && AtHome(db) && FreshKeys(db, op) && !NamesForeign(db, op) && SameRows(db, op.org, v)
    ensures Step(v, op).result == Step(db, op).result && SameAog(Step(db, op).db, op.org, Step(v, op).db)
  {
    match op
    case OpDeclare(_, _, p, _) =>
      LinksOk(db);
      DeclareLocally(db, op, v);
    case OpPatch(_, _, _, _) => PatchLocally(db, op, v);
    case OpAddBlocker(_, _, _, _, _) => AddBlockerLocally(db, op, v);
    case OpResolve(_, _, _, _) => ResolveLocally(db, op, v);
    case OpMove(_, _, _, _) => MoveLocally(db, op, v);
  }

  /** On the view alone the call has the same result and leads to the view of the new state. */
  lemma CallLocally(db: Db, op: Op, v: Db)
    requires AtHome(db) && FreshKeys(db, op) && !NamesForeign(db, op) && SameRows(db, op.org, v)
    ensures Step(v, op).result == Step(db, op).result && SameRows(Step(db, op).db, op.org, Step(v, op).db)
  {
    if OnFleet(op) {
      FleetCallTouches(db, op);
      FleetCallTouches(v, op);
      FleetCallLocally(db, op, v);
    } else {
      AogCallTouches(db, op);
      AogCallTouches(v, op);
      AogCallLocally(db, op, v);
    }
  }

  lemma FailureKeepsAll(db: Db, op: Op)
    requires Step(db, op).result.Err?
    ensures Step(db, op).db == db
  {
  }

  lemma LogLocally(db: Db, op: Op, v: Db)
    requires SameRows(db, op.org, v) && Step(v, op).result == Step(db, op).result && v.audit == RecordsOf(db.audit, op.org)
    ensures Step(v, op).db.audit == RecordsOf(Step(db, op).db.audit, op.org)
  {
    if Step(db, op).result.Ok? {
      var r := CallLogLocally(db, op, v);
      RecordsOfAppend(db.audit, r, op.org, op.org);
    } else {
      FailureKeepsAll(db, op);
      FailureKeepsAll(v, op);
    }
  }

  lemma OwnRowsEnough(db: Db, op: Op)
    requires AtHome(db) && FreshKeys(db, op) && !NamesForeign(db, op)
    ensures Step(Restrict(db, op.org), op) == Outcome(Restrict(Step(db, op).db, op.org), Step(db, op).result)
  {
    var v := Restrict(db, op.org);
    SameRowsIs(db, op.org, v);
    CallLocally(db, op, v);
    LogLocally(db, op, v);
    SameRowsIs(Step(db, op).db, op.org, Step(v, op).db);
  }

  /** The foreign key accepts the row while its owner keeps it; on the rows of
      the caller's organization alone it would not. */
  lemma ForeignRowDecides(db: Db, op: Op, v: Db)
    requires LinksHome(db) && FreshKeys(db, op) && NamesForeign(db, op) && SameRows(db, op.org, v)
    ensures Step(db, op).result.Ok? && Step(v, op).result == Err(DatabaseError)
  {
    if op.OpDeclare? {
      LinksOk(db);
      VisibleLocally(db, op.org, op.declare.aircraftId, v);
    }
  }

  /** The result of a call, and its effect on its own organization's rows and
      records, depend only on that organization's rows, exactly when the call
      does not get a foreign key satisfied by another organization's row. */
  lemma OwnRowsSuffice(db: Db, op: Op)
    requires AtHome(db) && FreshKeys(db, op)
    ensures Step(Restrict(db, op.org), op) == Outcome(Restrict(Step(db, op).db, op.org), Step(db, op).result) <==> !NamesForeign(db, op)
    ensures Step(Restrict(db, op.org), op).result == Step(db, op).result <==> !NamesForeign(db, op)
  {
    if NamesForeign(db, op) {
      SameRowsIs(db, op.org, Restrict(db, op.org));
      ForeignRowDecides(db, op, Restrict(db, op.org));
    } else {
      OwnRowsEnough(db, op);
    }
  }

  /** One aircraft of organization 0, and a work order of organization 1. */
  const TWO_TENANTS := Db(map[0 := Aircraft(0, "", "", "", "", None)], map[], map[], map[], map[], [], map[7 := 1], map[])

  /** Organization 0 can name that work order; alone it could not. */
  lemma ForeignWorkOrderAccepted(severity: string)
    ensures var op := OpDeclare(0, None, DeclareRequest(0, Some(7), severity, None), 1);
            && AtHome(TWO_TENANTS) && FreshKeys(TWO_TENANTS, op)
            && Step(TWO_TENANTS, op).result == Ok(1)
            && Step(Restrict(TWO_TENANTS, 0), op).result == Err(DatabaseError)
  {
    var op := OpDeclare(0, None, DeclareRequest(0, Some(7), severity, None), 1);
    SameRowsIs(TWO_TENANTS, 0, Restrict(TWO_TENANTS, 0));
    ForeignRowDecides(TWO_TENANTS, op, Restrict(TWO_TENANTS, 0));
  }

  // ---- whole runs ----

  /** The calls of a run that were made for one organization. */
  function CallsOf(ops: seq<Op>, org: Id): seq<Op> {
    if ops == [] then []
    else CallsOf(ops[..|ops| - 1], org) + if ops[|ops| - 1].org == org then [ops[|ops| - 1]] else []
  }

  /** What the calls of one organization returned, in order. */
  function Results(db: Db, ops: seq<Op>, org: Id): seq<Result> {
    if ops == [] then []
    else
      Results(db, ops[..|ops| - 1], org)
      + if ops[|ops| - 1].org == org then [Step(Run(db, ops[..|ops| - 1]), ops[|ops| - 1]).result] else []
  }

  predicate FreshRun(db: Db, ops: seq<Op>) {
    ops == [] || (FreshRun(db, ops[..|ops| - 1]) && FreshKeys(Run(db, ops[..|ops| - 1]), ops[|ops| - 1]))
  }

  lemma RunAppend(db: Db, ops: seq<Op>, op: Op)
    ensures Run(db, ops + [op]) == Step(Run(db, ops), op).db
    ensures FreshRun(db, ops + [op]) <==> FreshRun(db, ops) && FreshKeys(Run(db, ops), op)
  {
    assert (ops + [op])[..|ops|] == ops;
  }

  lemma ResultsAppend(db: Db, ops: seq<Op>, op: Op, org: Id)
    ensures Results(db, ops + [op], org)
            == Results(db, ops, org) + if op.org == org then [Step(Run(db, ops), op).result] else []
    ensures CallsOf(ops + [op], org) == CallsOf(ops, org) + if op.org == org then [op] else []
  {
    assert (ops + [op])[..|ops|] == ops;
  }

  /** The organization's part of the run, and the run of its part, agree. */
  ghost predicate Isolated(db: Db, ops: seq<Op>, org: Id) {
    && Restrict(Run(db, ops), org) == Run(Restrict(db, org), CallsOf(ops, org))
    && Results(db, ops, org) == Results(Restrict(db, org), CallsOf(ops, org), org)
  }

  /** No call of the organization, when it is made, names another's row. */
  predicate NamesOnlyOwn(db: Db, ops: seq<Op>, org: Id) {
    ops == []
    || (NamesOnlyOwn(db, ops[..|ops| - 1], org)
        && (ops[|ops| - 1].org == org ==> !NamesForeign(Run(db, ops[..|ops| - 1]), ops[|ops| - 1])))
  }

  lemma IsolationStep(db: Db, past: seq<Op>, op: Op, org: Id)
    requires AtHome(Run(db, past)) && FreshKeys(Run(db, past), op) && Isolated(db, past, org)
    requires op.org == org ==> !NamesForeign(Run(db, past), op)
    ensures Isolated(db, past + [op], org)
  {
    var before, alone, mine := Run(db, past), Restrict(db, org), CallsOf(past, org);
    RunAppend(db, past, op);
    ResultsAppend(db, past, op, org);
    if op.org == org {
      OwnRowsSuffice(before, op);
      RunAppend(alone, mine, op);
      ResultsAppend(alone, mine, op, org);
    } else {
      OthersUntouched(before, op, org);
      assert mine + [] == mine;
    }
  }

  /** The first call that names another's row gets another result than alone. */
  lemma ForeignStep(db: Db, past: seq<Op>, op: Op, org: Id)
    requires AtHome(Run(db, past)) && FreshKeys(Run(db, past), op) && Isolated(db, past, org)
    requires op.org == org && NamesForeign(Run(db, past), op)
    ensures Results(db, past + [op], org) != Results(Restrict(db, org), CallsOf(past + [op], org), org)
  {
    var before, alone, mine := Run(db, past), Restrict(db, org), CallsOf(past, org);
    ResultsAppend(db, past, op, org);
    ResultsAppend(alone, mine, op, org);
    OwnRowsSuffice(before, op);
    var n := |Results(db, past, org)|;
    assert Results(db, past + [op], org)[n] == Step(before, op).result;
  }

  lemma ResultsLonger(db: Db, past: seq<Op>, op: Op, org: Id)
    requires Results(db, past, org) != Results(Restrict(db, org), CallsOf(past, org), org)
    requires |Results(db, past, org)| == |Results(Restrict(db, org), CallsOf(past, org), org)|
    ensures Results(db, past + [op], org) != Results(Restrict(db, org), CallsOf(past + [op], org), org)
  {
    var alone, mine := Restrict(db, org), CallsOf(past, org);
    var n := |Results(db, past, org)|;
    ResultsAppend(db, past, op, org);
    if op.org == org {
      ResultsAppend(alone, mine, op, org);
      assert Results(db, past + [op], org)[..n] == Results(db, past, org);
      assert Results(alone, mine + [op], org)[..n] == Results(alone, mine, org);
    } else {
      assert mine + [] == mine;
    }
  }

  lemma {:induction false} ResultsCount(db: Db, ops: seq<Op>, org: Id)
    requires forall op :: op in ops ==> op.org == org
    ensures |Results(db, ops, org)| == |ops|
  {
    if ops != [] {
      ResultsCount(db, ops[..|ops| - 1], org);
    }
  }

  lemma {:induction false} CallsOfOne(ops: seq<Op>, org: Id, db: Db)
    ensures forall op :: op in CallsOf(ops, org) ==> op.org == org
    ensures |CallsOf(ops, org)| == |Results(db, ops, org)|
  {
    if ops != [] {
      CallsOfOne(ops[..|ops| - 1], org, db);
    }
  }

  /** Tenant isolation: in an interleaving of the calls of all organizations an
      organization ends with the rows, and its calls with the results, that it
      would have had if it had been alone, exactly when none of its calls gets
      a foreign key satisfied by a row of another. */
  lemma {:induction false} TenantsAreIsolated(db: Db, ops: seq<Op>, org: Id)
    requires AtHome(db) && FreshRun(db, ops)
    ensures Isolated(db, ops, org) <==> NamesOnlyOwn(db, ops, org)
    ensures Results(db, ops, org) == Results(Restrict(db, org), CallsOf(ops, org), org) <==> NamesOnlyOwn(db, ops, org)
  {
    if ops != [] {
      var past, op := ops[..|ops| - 1], ops[|ops| - 1];
      assert ops == past + [op];
      TenantsAreIsolated(db, past, org);
      RunKeepsHome(db, past);
      if !NamesOnlyOwn(db, past, org) {
        CallsOfOne(past, org, db);
        ResultsCount(Restrict(db, org), CallsOf(past, org), org);
        ResultsLonger(db, past, op, org);
      } else if op.org == org && NamesForeign(Run(db, past), op) {
        ForeignStep(db, past, op, org);
      } else {
        IsolationStep(db, past, op, org);
      }
    }
  }
}
