/** The AOG event state machine: declaration, general updates, blockers and
    the guarded status changes. */
module AogService {
  import opened FleetDb

  datatype DeclareRequest = DeclareRequest(
    aircraftId: Id, workOrderId: Option<Id>, severity: string, rootCause: Option<string>)

  datatype BlockerRequest = BlockerRequest(blockerType: string, description: string, sourceReference: Option<string>)

  /** Every field may be absent, null or a value. */
  datatype EventPatch = EventPatch(
    severity: Field<Option<string>>, rootCause: Field<Option<string>>, owner: Field<Option<Id>>, notes: Field<Option<string>>)
  {
    predicate Empty() {
      severity.Unset? && rootCause.Unset? && owner.Unset? && notes.Unset?
    }

    /** The commit goes through: `severity` is NOT NULL, and an owner's UUID in
        the recorded metadata cannot be encoded as JSON. */
    predicate Storable() {
      severity != Set(None) && (owner.Set? ==> owner.value.None?)
    }
  }

  /** `_ALLOWED_TRANSITIONS` */
  predicate Allowed(from: AogStatus, to: AogStatus) {
    match from
    case DECLARED => to == IN_RECOVERY || to == CANCELLED
    case IN_RECOVERY => to == RECOVERED || to == CANCELLED
    case RECOVERED => false
    case CANCELLED => false
  }

  /** `resolve_asset_id` */
  function ResolveAssetId(a: Aircraft): Option<Id> {
    a.assetId
  }

  /** `event.blockers`: found through the foreign key alone. */
  predicate OnEvent(db: Db, eventId: Id, blockerId: Id) {
    blockerId in db.blockers && db.blockers[blockerId].eventId == eventId
  }

  predicate HasUnresolved(db: Db, eventId: Id) {
    exists b :: b in db.blockers && db.blockers[b].eventId == eventId && !db.blockers[b].resolved
  }

  function NewEvent(db: Db, org: Id, user: Option<Id>, p: DeclareRequest): AogEvent
    requires p.aircraftId in db.aircraft
  {
    AogEvent(org, p.aircraftId, ResolveAssetId(db.aircraft[p.aircraftId]), p.workOrderId, DECLARED, p.severity,
             p.rootCause, user, None, None)
  }

  /** The foreign key to `work_orders`, which looks at the rows of all organizations. */
  predicate WorkOrderStored(db: Db, p: DeclareRequest) {
    p.workOrderId.Some? ==> p.workOrderId.value in db.workOrders
  }

  function Declare(db: Db, org: Id, user: Option<Id>, p: DeclareRequest, eventId: Id): Outcome {
    if !Visible(db, org, p.aircraftId) then Raise(db, NotFound)
    else if eventId in db.events || !WorkOrderStored(db, p) then Raise(db, DatabaseError)
    else
      Outcome(
        db.(events := db.events[eventId := NewEvent(db, org, user, p)],
            audit := db.audit + [AuditRecord(org, user, AogDeclared(p.aircraftId, p.severity), AogEventEntity, eventId)]),
        Ok(eventId))
  }

  function PatchedEvent(e: AogEvent, p: EventPatch): AogEvent
    requires p.Storable()
  {
    e.(severity := if p.severity.Set? then p.severity.value.value else e.severity,
       rootCause := if p.rootCause.Set? then p.rootCause.value else e.rootCause,
       owner := if p.owner.Set? then p.owner.value else e.owner,
       recoveryNotes := if p.notes.Set? then p.notes.value else e.recoveryNotes)
  }

  function PatchAction(p: EventPatch): Action
    requires p.Storable()
  {
    AogUpdated(if p.severity.Set? then Set(p.severity.value.value) else Unset, p.rootCause, p.notes, p.owner.Set?)
  }

  function UpdateEvent(db: Db, org: Id, user: Option<Id>, eventId: Id, p: EventPatch): Outcome {
    if !EventFound(db, org, eventId) then Raise(db, NotFound)
    else if p.Empty() then Outcome(db, Ok(eventId))
    else if !p.Storable() then Raise(db, DatabaseError)
    else
      Outcome(
        db.(events := db.events[eventId := PatchedEvent(db.events[eventId], p)],
            audit := db.audit + [AuditRecord(org, user, PatchAction(p), AogEventEntity, eventId)]),
        Ok(eventId))
  }

  function AddBlocker(db: Db, org: Id, user: Option<Id>, eventId: Id, p: BlockerRequest, blockerId: Id): Outcome {
    if !EventFound(db, org, eventId) then Raise(db, NotFound)
    else if blockerId in db.blockers then Raise(db, DatabaseError)
    else
      Outcome(
        db.(blockers := db.blockers[blockerId := AogBlocker(org, eventId, p.blockerType, p.description, p.sourceReference, false)],
            audit := db.audit + [AuditRecord(org, user, BlockerAdded(eventId, p.blockerType), AogBlockerEntity, blockerId)]),
        Ok(eventId))
  }

  function ResolveBlocker(db: Db, org: Id, user: Option<Id>, eventId: Id, blockerId: Id): Outcome {
    if !EventFound(db, org, eventId) || !OnEvent(db, eventId, blockerId) then Raise(db, NotFound)
    else
      Outcome(
        db.(blockers := db.blockers[blockerId := db.blockers[blockerId].(resolved := true)],
            audit := db.audit + [AuditRecord(org, user, BlockerResolved(eventId), AogBlockerEntity, blockerId)]),
        Ok(eventId))
  }

  /** The three status changes offered to callers. */
  datatype Move = StartRecovery | MarkRecovered | Cancel
  {
    function Target(): AogStatus {
      match this
      case StartRecovery => IN_RECOVERY
      case MarkRecovered => RECOVERED
      case Cancel => CANCELLED
    }

    function Record(from: AogStatus): Action {
      match this
      case StartRecovery => RecoveryStarted(from, Target())
      case MarkRecovered => EventRecovered(from, Target())
      case Cancel => EventCancelled(from, Target())
    }
  }

  function ChangeStatus(db: Db, org: Id, user: Option<Id>, eventId: Id, move: Move): Outcome {
    if !EventFound(db, org, eventId) then Raise(db, NotFound)
    else if move == MarkRecovered && HasUnresolved(db, eventId) then Raise(db, Conflict)
    else if !Allowed(db.events[eventId].status, move.Target()) then Raise(db, Conflict)
    else
      var e := db.events[eventId];
      Outcome(
        db.(events := db.events[eventId := e.(status := move.Target())],
            audit := db.audit + [AuditRecord(org, user, move.Record(e.status), AogEventEntity, eventId)]),
        Ok(eventId))
  }

  // ---- the service methods ----

  method DeclareAog(db: Session, org: Id, user: Option<Id>, p: DeclareRequest, eventId: Id) returns (r: Result)
    modifies db
    ensures Outcome(db.Contents(), r) == Declare(old(db.Contents()), org, user, p, eventId)
  {
    if !Visible(db.Contents(), org, p.aircraftId) {
      return Err(NotFound);
    }
    var event := NewEvent(db.Contents(), org, user, p);
    // flush: the primary key and the foreign key to work_orders
    if eventId in db.events || !WorkOrderStored(db.Contents(), p) {
      return Err(DatabaseError);
    }
    db.events := db.events[eventId := event];
    db.RecordAuditEvent(AuditRecord(org, user, AogDeclared(p.aircraftId, p.severity), AogEventEntity, eventId));
    return Ok(eventId);
  }

  /** Sets the fields present in the patch; the failing commit comes last and undoes them. */
  method UpdateAogEvent(db: Session, org: Id, user: Option<Id>, eventId: Id, p: EventPatch) returns (r: Result)
    modifies db
    ensures Outcome(db.Contents(), r) == UpdateEvent(old(db.Contents()), org, user, eventId, p)
  {
    if !EventFound(db.Contents(), org, eventId) {
      return Err(NotFound);
    }
    var committed := db.Contents();
    var e := db.events[eventId];
    if p.severity.Set? && p.severity.value.Some? { e := e.(severity := p.severity.value.value); }
    if p.rootCause.Set? { e := e.(rootCause := p.rootCause.value); }
    if p.owner.Set? { e := e.(owner := p.owner.value); }
    if p.notes.Set? { e := e.(recoveryNotes := p.notes.value); }
    db.events := db.events[eventId := e];
    if !p.Storable() {
      db.Rollback(committed);
      return Err(DatabaseError);
    }
    if !p.Empty() {
      db.RecordAuditEvent(AuditRecord(org, user, PatchAction(p), AogEventEntity, eventId));
    }
    return Ok(eventId);
  }

  method AddBlockerToEvent(db: Session, org: Id, user: Option<Id>, eventId: Id, p: BlockerRequest, blockerId: Id) returns (r: Result)
    modifies db
    ensures Outcome(db.Contents(), r) == AddBlocker(old(db.Contents()), org, user, eventId, p, blockerId)
  {
    if !EventFound(db.Contents(), org, eventId) {
      return Err(NotFound);
    }
    if blockerId in db.blockers {
      return Err(DatabaseError);
    }
    db.blockers := db.blockers[blockerId := AogBlocker(org, eventId, p.blockerType, p.description, p.sourceReference, false)];
    db.RecordAuditEvent(AuditRecord(org, user, BlockerAdded(eventId, p.blockerType), AogBlockerEntity, blockerId));
    return Ok(eventId);
  }

  method ResolveBlockerOnEvent(db: Session, org: Id, user: Option<Id>, eventId: Id, blockerId: Id) returns (r: Result)
    modifies db
    ensures Outcome(db.Contents(), r) == ResolveBlocker(old(db.Contents()), org, user, eventId, blockerId)
  {
    if !EventFound(db.Contents(), org, eventId) || !OnEvent(db.Contents(), eventId, blockerId) {
      return Err(NotFound);
    }
    db.blockers := db.blockers[blockerId := db.blockers[blockerId].(resolved := true)];
    db.RecordAuditEvent(AuditRecord(org, user, BlockerResolved(eventId), AogBlockerEntity, blockerId));
    return Ok(eventId);
  }

  /** `start_recovery`, `mark_recovered` and `cancel_aog_event` over `_transition`. */
  method Transition(db: Session, org: Id, user: Option<Id>, eventId: Id, move: Move) returns (r: Result)
    modifies db
    ensures Outcome(db.Contents(), r) == ChangeStatus(old(db.Contents()), org, user, eventId, move)
  {
    if !EventFound(db.Contents(), org, eventId) {
      return Err(NotFound);
    }
    if move == MarkRecovered && HasUnresolved(db.Contents(), eventId) {
      return Err(Conflict);
    }
    var e := db.events[eventId];
    if !Allowed(e.status, move.Target()) {
      return Err(Conflict);
    }
    db.events := db.events[eventId := e.(status := move.Target())];
    db.RecordAuditEvent(AuditRecord(org, user, move.Record(e.status), AogEventEntity, eventId));
    return Ok(eventId);
  }
}
