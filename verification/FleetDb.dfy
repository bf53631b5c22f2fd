/** The tables behind the aircraft and AOG services, as values and as the
    mutable session those services work on. */
module FleetDb {

  datatype Option<+T> = None | Some(value: T)

  type Id = nat

  datatype AssetType = AIRCRAFT | DRONE | HELICOPTER | EVTOL | AAM | OTHER

  datatype AogStatus = DECLARED | IN_RECOVERY | RECOVERED | CANCELLED

  datatype Aircraft = Aircraft(
    org: Id, registration: string, msn: string, aircraftType: string, status: string, assetId: Option<Id>)

  datatype Asset = Asset(
    org: Id, assetType: AssetType, manufacturer: Option<string>, model: Option<string>,
    serialNumber: Option<string>, registration: Option<string>, status: string,
    facilityId: Option<Id>, deletion: Option<Deletion>)

  /** `deleted_by` and `deletion_reason`, set together with `deleted_at`. */
  datatype Deletion = Deletion(deletedBy: Option<Id>, reason: Option<string>)

  datatype AircraftDetail = AircraftDetail(msn: string, aircraftType: string)

  datatype AogEvent = AogEvent(
    org: Id, aircraftId: Id, assetId: Option<Id>, workOrderId: Option<Id>, status: AogStatus, severity: string,
    rootCause: Option<string>, declaredBy: Option<Id>, owner: Option<Id>, recoveryNotes: Option<string>)

  datatype AogBlocker = AogBlocker(
    org: Id, eventId: Id, blockerType: string, description: string, sourceReference: Option<string>, resolved: bool)

  /** A field of a PATCH body: absent, or present with a value. */
  datatype Field<+T> = Unset | Set(value: T)

  /** The `action` of an audit record together with the metadata recorded under
      it; `Elsewhere` stands for the actions of all other services. */
  datatype Action =
    | AircraftCreated(aircraftId: Id, registration: string, msn: string, aircraftType: string)
    | AircraftUpdated(manufacturer: Option<string>, newMsn: Option<string>, newType: Option<string>, newStatus: Option<string>)
    | AssetDeleted(ofRegistration: Option<string>, ofType: AssetType, reason: Option<string>)
    | AssetUpdated(manufacturer: Option<string>, model: Option<string>, serialNumber: Option<string>, facilityId: Option<Id>,
                   newStatus: Option<string>)
    | AogDeclared(onAircraft: Id, severity: string)
    | AogUpdated(newSeverity: Field<string>, newRootCause: Field<Option<string>>, newNotes: Field<Option<string>>, ownerCleared: bool)
    | BlockerAdded(eventId: Id, blockerType: string)
    | BlockerResolved(ofEvent: Id)
    | RecoveryStarted(fromStatus: AogStatus, toStatus: AogStatus)
    | EventRecovered(fromStatus: AogStatus, toStatus: AogStatus)
    | EventCancelled(fromStatus: AogStatus, toStatus: AogStatus)
    | Elsewhere(name: string)

  datatype EntityType = AssetEntity | AircraftEntity | AogEventEntity | AogBlockerEntity | OtherEntity(name: string)

  datatype AuditRecord = AuditRecord(org: Id, user: Option<Id>, action: Action, entityType: EntityType, entityId: Id)

  /** The committed contents of the tables. Of `work_orders` and `facilities`,
      which the services only refer to, it holds each row's organization. */
  datatype Db = Db(
    aircraft: map<Id, Aircraft>, assets: map<Id, Asset>, details: map<Id, AircraftDetail>,
    events: map<Id, AogEvent>, blockers: map<Id, AogBlocker>, audit: seq<AuditRecord>,
    workOrders: map<Id, Id>, facilities: map<Id, Id>)

  datatype Error = NotFound | Conflict | UsageLimitExceeded | DatabaseError

  datatype Result = Ok(id: Id) | Err(error: Error)

  /** What a service call leaves behind and returns. */
  datatype Outcome = Outcome(db: Db, result: Result)

  /** A call that raises leaves nothing behind: the transaction is rolled back. */
  function Raise(db: Db, e: Error): Outcome {
    Outcome(db, Err(e))
  }

  /** The unique constraint on (organization_id, registration) of `assets`;
      soft-deleted rows and rows of every asset type count, NULL never does. */
  ghost predicate AssetRegistrationsUnique(assets: map<Id, Asset>) {
    forall i, j ::
      (&& i in assets && j in assets && assets[i].org == assets[j].org
       && assets[i].registration == assets[j].registration && assets[i].registration.Some?)
      ==> i == j
  }

  /** The unique constraint on (organization_id, registration) of `aircraft` (migration 0023). */
  ghost predicate AircraftRegistrationsUnique(aircraft: map<Id, Aircraft>) {
    forall i, j ::
      (&& i in aircraft && j in aircraft && aircraft[i].org == aircraft[j].org
       && aircraft[i].registration == aircraft[j].registration)
      ==> i == j
  }

  predicate AssetHolds(assets: map<Id, Asset>, org: Id, registration: string) {
    exists i :: i in assets && assets[i].org == org && assets[i].registration == Some(registration)
  }

  predicate AircraftHolds(aircraft: map<Id, Aircraft>, org: Id, registration: string) {
    exists i :: i in aircraft && aircraft[i].org == org && aircraft[i].registration == registration
  }

  /** The outer join of `get_aircraft` and `list_aircraft`: the row is in the
      organization and its asset, if it has one, is not soft-deleted. */
  predicate Visible(db: Db, org: Id, aircraftId: Id) {
    && aircraftId in db.aircraft
    && var a := db.aircraft[aircraftId];
       a.org == org && (a.assetId.None? || a.assetId.value !in db.assets || db.assets[a.assetId.value].deletion.None?)
  }

  predicate EventFound(db: Db, org: Id, eventId: Id) {
    eventId in db.events && db.events[eventId].org == org
  }

  /** A database session: the tables as the current transaction sees them. */
  class Session {
    var aircraft: map<Id, Aircraft>
    var assets: map<Id, Asset>
    var details: map<Id, AircraftDetail>
    var events: map<Id, AogEvent>
    var blockers: map<Id, AogBlocker>
    var audit: seq<AuditRecord>
    var workOrders: map<Id, Id>
    var facilities: map<Id, Id>

    constructor (db: Db)
      ensures Contents() == db
    {
      aircraft, assets, details := db.aircraft, db.assets, db.details;
      events, blockers, audit := db.events, db.blockers, db.audit;
      workOrders, facilities := db.workOrders, db.facilities;
    }

    function Contents(): Db
      reads this
    {
      Db(aircraft, assets, details, events, blockers, audit, workOrders, facilities)
    }

    /** Back to the last committed contents. */
    method Rollback(committed: Db)
      modifies this
      ensures Contents() == committed
    {
      aircraft, assets, details := committed.aircraft, committed.assets, committed.details;
      events, blockers, audit := committed.events, committed.blockers, committed.audit;
      workOrders, facilities := committed.workOrders, committed.facilities;
    }

    /** Adds one record at the end of the append-only log. */
    method RecordAuditEvent(r: AuditRecord)
      modifies this`audit
      ensures audit == old(audit) + [r]
    {
      audit := audit + [r];
    }
  }
}
