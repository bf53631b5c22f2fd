/** Runs of service calls by any mixture of organizations: what every call
    keeps, and exactly when creating an aircraft succeeds. */
module FleetRuns {
  import opened FleetDb
  import opened AircraftService
  import opened AogService
  import opened AssetService
  import opened Sets

  datatype Op =
    | OpCreate(org: Id, user: Option<Id>, create: CreateRequest, maxAssets: Option<int>, assetId: Id, aircraftId: Id)
    | OpUpdate(org: Id, user: Option<Id>, aircraftId: Id, update: UpdateRequest)
    | OpSoftDelete(org: Id, user: Option<Id>, assetId: Id, reason: Option<string>)
    | OpUpdateAsset(org: Id, user: Option<Id>, assetId: Id, asset: AssetPatch)
    | OpDeclare(org: Id, user: Option<Id>, declare: DeclareRequest, eventId: Id)
    | OpPatch(org: Id, user: Option<Id>, eventId: Id, patch: EventPatch)
    | OpAddBlocker(org: Id, user: Option<Id>, eventId: Id, blocker: BlockerRequest, blockerId: Id)
    | OpResolve(org: Id, user: Option<Id>, eventId: Id, blockerId: Id)
    | OpMove(org: Id, user: Option<Id>, eventId: Id, move: Move)

  function Step(db: Db, op: Op): Outcome {
    match op
    case OpCreate(org, user, p, max, assetId, aircraftId) => Create(db, org, user, p, max, assetId, aircraftId)
    case OpUpdate(org, user, id, p) => Update(db, org, user, id, p)
    case OpSoftDelete(org, user, id, reason) => SoftDelete(db, org, user, id, reason)
    case OpUpdateAsset(org, user, id, p) => UpdateAsset(db, org, user, id, p)
    case OpDeclare(org, user, p, id) => Declare(db, org, user, p, id)
    case OpPatch(org, user, id, p) => UpdateEvent(db, org, user, id, p)
    case OpAddBlocker(org, user, id, p, blockerId) => AddBlocker(db, org, user, id, p, blockerId)
    case OpResolve(org, user, id, blockerId) => ResolveBlocker(db, org, user, id, blockerId)
    case OpMove(org, user, id, move) => ChangeStatus(db, org, user, id, move)
  }

  function Run(db: Db, ops: seq<Op>): Db {
    if ops == [] then db else Step(Run(db, ops[..|ops| - 1]), ops[|ops| - 1]).db
  }

  predicate OnFleet(op: Op) {
    op.OpCreate? || op.OpUpdate? || op.OpSoftDelete? || op.OpUpdateAsset?
  }

  // ---- what a call touches ----

  lemma AircraftCallTouches(db: Db, op: Op)
    requires op.OpCreate? || op.OpUpdate?
    ensures var db' := Step(db, op).db;
            && db'.events == db.events && db'.blockers == db.blockers
            && db'.workOrders == db.workOrders && db'.facilities == db.facilities
  {
  }

  lemma UpdateAssetTouches(db: Db, org: Id, user: Option<Id>, s: Id, p: AssetPatch)
    ensures var db' := UpdateAsset(db, org, user, s, p).db;
            && db'.aircraft == db.aircraft && db'.details == db.details && db'.events == db.events && db'.blockers == db.blockers
            && db'.workOrders == db.workOrders && db'.facilities == db.facilities
  {
  }

  lemma AssetCallTouches(db: Db, op: Op)
    requires op.OpSoftDelete? || op.OpUpdateAsset?
    ensures var db' := Step(db, op).db;
            && db'.aircraft == db.aircraft && db'.details == db.details && db'.events == db.events && db'.blockers == db.blockers
            && db'.workOrders == db.workOrders && db'.facilities == db.facilities
  {
    if op.OpUpdateAsset? {
      UpdateAssetTouches(db, op.org, op.user, op.assetId, op.asset);
    }
  }

  lemma EventCallTouches(db: Db, op: Op)
    requires op.OpDeclare? || op.OpPatch? || op.OpMove?
    ensures var db' := Step(db, op).db;
            db' == db.(events := db'.events, audit := db'.audit)
  {
  }

  lemma AddBlockerTouches(db: Db, org: Id, user: Option<Id>, e: Id, p: BlockerRequest, b: Id)
    ensures var db' := AddBlocker(db, org, user, e, p, b).db; db' == db.(blockers := db'.blockers, audit := db'.audit)
  {
  }

  lemma ResolveTouches(db: Db, org: Id, user: Option<Id>, e: Id, b: Id)
    ensures var db' := ResolveBlocker(db, org, user, e, b).db; db' == db.(blockers := db'.blockers, audit := db'.audit)
  {
  }

  lemma BlockerCallTouches(db: Db, op: Op)
    requires op.OpAddBlocker? || op.OpResolve?
    ensures var db' := Step(db, op).db; db' == db.(blockers := db'.blockers, audit := db'.audit)
  {
    if op.OpAddBlocker? {
      AddBlockerTouches(db, op.org, op.user, op.eventId, op.blocker, op.blockerId);
    } else {
      ResolveTouches(db, op.org, op.user, op.eventId, op.blockerId);
    }
  }

  lemma FleetCallTouches(db: Db, op: Op)
    requires OnFleet(op)
    ensures var db' := Step(db, op).db;
            && db'.events == db.events && db'.blockers == db.blockers
            && db'.workOrders == db.workOrders && db'.facilities == db.facilities
            && (op.OpSoftDelete? || op.OpUpdateAsset? ==> db'.aircraft == db.aircraft && db'.details == db.details)
  {
    if op.OpCreate? || op.OpUpdate? {
      AircraftCallTouches(db, op);
    } else {
      AssetCallTouches(db, op);
    }
  }

  lemma AogCallTouches(db: Db, op: Op)
    requires !OnFleet(op)
    ensures var db' := Step(db, op).db;
            && db'.aircraft == db.aircraft && db'.assets == db.assets && db'.details == db.details
            && db'.workOrders == db.workOrders && db'.facilities == db.facilities
            && (!op.OpAddBlocker? && !op.OpResolve? ==> db'.blockers == db.blockers)
            && (op.OpAddBlocker? || op.OpResolve? ==> db'.events == db.events)
  {
    if op.OpAddBlocker? || op.OpResolve? {
      BlockerCallTouches(db, op);
    } else {
      EventCallTouches(db, op);
    }
  }

  lemma FleetCallLog(db: Db, op: Op) returns (r: AuditRecord)
    requires OnFleet(op) && Step(db, op).db != db
    ensures Step(db, op).db.audit == db.audit + [r] && r.org == op.org && r.user == op.user
  {
    r := match op
      case OpCreate(org, user, p, _, s, i) => CreatedRecord(org, user, p, s, i)
      case OpUpdate(org, user, i, p) => UpdatedRecord(org, user, i, db.aircraft[i].assetId, p)
      case OpSoftDelete(org, user, s, reason) => DeletedRecord(org, user, s, db.assets[s], reason)
      case OpUpdateAsset(org, user, s, p) => WrittenRecord(org, user, s, Normalized(p));
  }

  lemma AogCallLog(db: Db, op: Op) returns (r: AuditRecord)
    requires !OnFleet(op) && Step(db, op).db != db
    ensures Step(db, op).db.audit == db.audit + [r] && r.org == op.org && r.user == op.user
  {
    r := match op
      case OpDeclare(org, user, p, e) => AuditRecord(org, user, AogDeclared(p.aircraftId, p.severity), AogEventEntity, e)
      case OpPatch(org, user, e, p) => AuditRecord(org, user, PatchAction(p), AogEventEntity, e)
      case OpMove(org, user, e, move) => AuditRecord(org, user, move.Record(db.events[e].status), AogEventEntity, e)
      case OpAddBlocker(org, user, e, p, b) => AuditRecord(org, user, BlockerAdded(e, p.blockerType), AogBlockerEntity, b)
      case OpResolve(org, user, e, b) => AuditRecord(org, user, BlockerResolved(e), AogBlockerEntity, b);
  }

  /** A call that changes anything appends exactly one record, its own organization's and user's. */
  lemma CallLog(db: Db, op: Op) returns (r: AuditRecord)
    requires Step(db, op).db != db
    ensures Step(db, op).db.audit == db.audit + [r] && r.org == op.org && r.user == op.user
  {
    if OnFleet(op) {
      r := FleetCallLog(db, op);
    } else {
      r := AogCallLog(db, op);
    }
  }

  // ---- what every call keeps ----

  /** NULL, as the backfill leaves it, or the value the aircraft row has. */
  predicate NullOr(column: Option<string>, value: string) {
    column.None? || column.value == value
  }

  /** An aircraft, its asset and its detail row tell the same story. */
  predicate InStepAt(a: Aircraft, asset: Asset, detail: AircraftDetail) {
    && asset.org == a.org && asset.assetType == AIRCRAFT
    && asset.registration == Some(a.registration) && asset.status == a.status
    && detail == AircraftDetail(a.msn, a.aircraftType)
    && NullOr(asset.serialNumber, a.msn) && NullOr(asset.model, a.aircraftType)
  }

  ghost predicate InStep(db: Db) {
    && AssetRegistrationsUnique(db.assets) && AircraftRegistrationsUnique(db.aircraft)
    && (forall s :: s in db.details ==> s in db.assets)
    && (forall i :: i in db.aircraft && db.aircraft[i].assetId.Some? ==>
          var s := db.aircraft[i].assetId.value;
          s in db.assets && s in db.details && InStepAt(db.aircraft[i], db.assets[s], db.details[s]))
    && (forall i, j ::
          (i in db.aircraft && j in db.aircraft && db.aircraft[i].assetId.Some? && db.aircraft[i].assetId == db.aircraft[j].assetId)
          ==> i == j)
  }

  /** Every AOG event points at an aircraft of its own organization and at that aircraft's asset. */
  ghost predicate EventsLinked(db: Db) {
    forall e :: e in db.events ==>
      && db.events[e].aircraftId in db.aircraft
      && var a := db.aircraft[db.events[e].aircraftId];
         db.events[e].org == a.org && db.events[e].assetId == a.assetId
  }

  ghost predicate BlockersOwned(db: Db) {
    forall b :: b in db.blockers ==>
      db.blockers[b].eventId in db.events && db.blockers[b].org == db.events[db.blockers[b].eventId].org
  }

  ghost predicate Sound(db: Db) {
    InStep(db) && EventsLinked(db) && BlockersOwned(db)
  }

  lemma InsertKeepsUnique(db: Db, org: Id, p: CreateRequest, assetId: Id, aircraftId: Id)
    requires AssetRegistrationsUnique(db.assets) && AircraftRegistrationsUnique(db.aircraft)
    requires CanInsert(db, org, p, assetId, aircraftId)
    ensures AssetRegistrationsUnique(db.assets[assetId := NewAsset(org, p)])
    ensures AircraftRegistrationsUnique(db.aircraft[aircraftId := NewAircraft(org, p, assetId)])
  {
  }

  lemma InsertedInStep(db: Db, org: Id, p: CreateRequest, assetId: Id, aircraftId: Id)
    requires InStep(db) && CanInsert(db, org, p, assetId, aircraftId)
    ensures InStep(Inserted(db, org, p, assetId, aircraftId))
  {
    InsertKeepsUnique(db, org, p, assetId, aircraftId);
  }

  lemma CreateKeepsInStep(db: Db, op: Op)
    requires InStep(db) && op.OpCreate?
    ensures InStep(Step(db, op).db)
  {
    if Step(db, op).result.Ok? {
      InsertedInStep(db, op.org, op.create, op.assetId, op.aircraftId);
    }
  }

  lemma UpdatedInStep(db: Db, i: Id, p: UpdateRequest)
    requires InStep(db) && i in db.aircraft
    ensures InStep(Updated(db, i, p))
  {
  }

  lemma UpdateKeepsInStep(db: Db, op: Op)
    requires InStep(db) && op.OpUpdate?
    ensures InStep(Step(db, op).db)
  {
    if Step(db, op).db != db {
      UpdatedInStep(db, op.aircraftId, op.update);
    }
  }

  lemma SoftDeleteKeepsInStep(db: Db, op: Op)
    requires InStep(db) && op.OpSoftDelete?
    ensures InStep(Step(db, op).db)
  {
  }

  lemma StepKeepsInStep(db: Db, op: Op)
    requires InStep(db) && !op.OpUpdateAsset?
    ensures InStep(Step(db, op).db)
  {
    if op.OpCreate? {
      CreateKeepsInStep(db, op);
    } else if op.OpUpdate? {
      UpdateKeepsInStep(db, op);
    } else if op.OpSoftDelete? {
      SoftDeleteKeepsInStep(db, op);
    } else {
      AogCallTouches(db, op);
    }
  }

  /** An aircraft keeps its organization, registration and asset link for good. */
  lemma IdentityIsImmutable(db: Db, op: Op, i: Id)
    requires i in db.aircraft
    ensures var db' := Step(db, op).db;
            && i in db'.aircraft && db'.aircraft[i].org == db.aircraft[i].org
            && db'.aircraft[i].registration == db.aircraft[i].registration
            && db'.aircraft[i].assetId == db.aircraft[i].assetId
  {
    if op.OpSoftDelete? || op.OpUpdateAsset? {
      FleetCallTouches(db, op);
    } else if !OnFleet(op) {
      AogCallTouches(db, op);
    }
  }

  lemma PatchKeepsIdentity(db: Db, org: Id, user: Option<Id>, id: Id, p: EventPatch, e: Id)
    requires e in db.events
    ensures var db' := UpdateEvent(db, org, user, id, p).db;
            && e in db'.events && db'.events[e].org == db.events[e].org
            && db'.events[e].aircraftId == db.events[e].aircraftId && db'.events[e].assetId == db.events[e].assetId
  {
  }

  lemma MoveKeepsIdentity(db: Db, org: Id, user: Option<Id>, id: Id, move: Move, e: Id)
    requires e in db.events
    ensures var db' := ChangeStatus(db, org, user, id, move).db;
            && e in db'.events && db'.events[e].org == db.events[e].org
            && db'.events[e].aircraftId == db.events[e].aircraftId && db'.events[e].assetId == db.events[e].assetId
  {
  }

  lemma EventCallKeepsIdentity(db: Db, op: Op, e: Id)
    requires (op.OpDeclare? || op.OpPatch? || op.OpMove?) && e in db.events
    ensures var db' := Step(db, op).db;
            && e in db'.events && db'.events[e].org == db.events[e].org
            && db'.events[e].aircraftId == db.events[e].aircraftId && db'.events[e].assetId == db.events[e].assetId
  {
    match op
    case OpDeclare(_, _, _, _) =>
    case OpPatch(org, user, id, p) => PatchKeepsIdentity(db, org, user, id, p, e);
    case OpMove(org, user, id, move) => MoveKeepsIdentity(db, org, user, id, move, e);
  }

  /** An AOG event keeps its organization, aircraft and asset link for good. */
  lemma EventIdentityIsImmutable(db: Db, op: Op, e: Id)
    requires e in db.events
    ensures var db' := Step(db, op).db;
            && e in db'.events && db'.events[e].org == db.events[e].org
            && db'.events[e].aircraftId == db.events[e].aircraftId && db'.events[e].assetId == db.events[e].assetId
  {
    if OnFleet(op) {
      FleetCallTouches(db, op);
    } else if op.OpAddBlocker? || op.OpResolve? {
      AogCallTouches(db, op);
    } else {
      EventCallKeepsIdentity(db, op, e);
    }
  }

  lemma StepKeepsEventsLinked(db: Db, op: Op)
    requires EventsLinked(db)
    ensures EventsLinked(Step(db, op).db)
  {
    var db' := Step(db, op).db;
    forall e | e in db'.events
      ensures db'.events[e].aircraftId in db'.aircraft
      ensures db'.events[e].org == db'.aircraft[db'.events[e].aircraftId].org
      ensures db'.events[e].assetId == db'.aircraft[db'.events[e].aircraftId].assetId
    {
      if e in db.events {
        EventIdentityIsImmutable(db, op, e);
        IdentityIsImmutable(db, op, db.events[e].aircraftId);
      }
    }
  }

  lemma StepKeepsBlockersOwned(db: Db, op: Op)
    requires BlockersOwned(db)
    ensures BlockersOwned(Step(db, op).db)
  {
    if OnFleet(op) {
      FleetCallTouches(db, op);
    } else if !op.OpAddBlocker? && !op.OpResolve? {
      AogCallTouches(db, op);
    }
  }

  /** Every run keeps the asset link of every AOG event equal to its
      aircraft's, in step or not, with an asset or without. */
  lemma {:induction false} RunKeepsEventsLinked(db: Db, ops: seq<Op>)
    requires EventsLinked(db)
    ensures EventsLinked(Run(db, ops))
  {
    if ops != [] {
      RunKeepsEventsLinked(db, ops[..|ops| - 1]);
      StepKeepsEventsLinked(Run(db, ops[..|ops| - 1]), ops[|ops| - 1]);
    }
  }

  lemma {:induction false} RunKeepsBlockersOwned(db: Db, ops: seq<Op>)
    requires BlockersOwned(db)
    ensures BlockersOwned(Run(db, ops))
  {
    if ops != [] {
      RunKeepsBlockersOwned(db, ops[..|ops| - 1]);
      StepKeepsBlockersOwned(Run(db, ops[..|ops| - 1]), ops[|ops| - 1]);
    }
  }

  // ---- links that stay inside the organization ----

  /** Every detail row has its asset, and every aircraft that is linked is
      linked to an asset of its own organization; in step or not. */
  ghost predicate LinksHome(db: Db) {
    && (forall s :: s in db.details ==> s in db.assets)
    && (forall i :: i in db.aircraft && db.aircraft[i].assetId.Some? ==>
          db.aircraft[i].assetId.value in db.assets && db.assets[db.aircraft[i].assetId.value].org == db.aircraft[i].org)
  }

  ghost predicate AtHome(db: Db) {
    LinksHome(db) && BlockersOwned(db)
  }

  predicate AssetKept(db: Db, db': Db, s: Id)
    requires s in db.assets
  {
    s in db'.assets && db'.assets[s].org == db.assets[s].org
  }

  lemma UpdateKeepsAsset(db: Db, org: Id, user: Option<Id>, i: Id, p: UpdateRequest, s: Id)
    requires s in db.assets
    ensures AssetKept(db, Update(db, org, user, i, p).db, s)
  {
  }

  lemma UpdateAssetKeepsAsset(db: Db, org: Id, user: Option<Id>, i: Id, p: AssetPatch, s: Id)
    requires s in db.assets
    ensures AssetKept(db, UpdateAsset(db, org, user, i, p).db, s)
  {
  }

  /** An asset keeps its organization for good. */
  lemma AssetsStay(db: Db, op: Op, s: Id)
    requires s in db.assets
    ensures AssetKept(db, Step(db, op).db, s)
  {
    match op
    case OpCreate(_, _, _, _, _, _) =>
    case OpUpdate(org, user, i, p) => UpdateKeepsAsset(db, org, user, i, p, s);
    case OpSoftDelete(_, _, _, _) =>
    case OpUpdateAsset(org, user, i, p) => UpdateAssetKeepsAsset(db, org, user, i, p, s);
    case _ => AogCallTouches(db, op);
  }

  lemma StepKeepsLinksHome(db: Db, op: Op)
    requires LinksHome(db)
    ensures LinksHome(Step(db, op).db)
  {
    var db' := Step(db, op).db;
    forall s | s in db'.details ensures s in db'.assets {
      if s in db.details {
        AssetsStay(db, op, s);
      }
    }
    forall i | i in db'.aircraft && db'.aircraft[i].assetId.Some?
      ensures db'.aircraft[i].assetId.value in db'.assets && db'.assets[db'.aircraft[i].assetId.value].org == db'.aircraft[i].org
    {
      if i in db.aircraft {
        IdentityIsImmutable(db, op, i);
        AssetsStay(db, op, db.aircraft[i].assetId.value);
      }
    }
  }

  lemma StepKeepsHome(db: Db, op: Op)
    requires AtHome(db)
    ensures AtHome(Step(db, op).db)
  {
    StepKeepsLinksHome(db, op);
    StepKeepsBlockersOwned(db, op);
  }

  /** Every run keeps links and blockers inside their organization, the generic asset update included. */
  lemma {:induction false} RunKeepsHome(db: Db, ops: seq<Op>)
    requires AtHome(db)
    ensures AtHome(Run(db, ops))
  {
    if ops != [] {
      RunKeepsHome(db, ops[..|ops| - 1]);
      StepKeepsHome(Run(db, ops[..|ops| - 1]), ops[|ops| - 1]);
    }
  }

  // ---- creating an aircraft is all or nothing ----

  /** Given room under the limit and new keys, creation succeeds exactly when
      the registration is free among the organization's aircraft and all its
      assets, soft-deleted or of another type included. */
  lemma CreateSucceedsIff(db: Db, org: Id, user: Option<Id>, p: CreateRequest, max: Option<int>, assetId: Id, aircraftId: Id)
    requires LinksHome(db) && !LimitReached(db.assets, org, max)
    requires assetId !in db.assets && aircraftId !in db.aircraft
    ensures var Outcome(db', r) := Create(db, org, user, p, max, assetId, aircraftId);
            && (r.Ok? <==> !AssetHolds(db.assets, org, p.registration) && !AircraftHolds(db.aircraft, org, p.registration))
            && (r.Err? ==> db' == db && r.error == Conflict)
  {
  }

  /** A creation that succeeds adds one row to each table and one record, under
      a link no other aircraft has, and stays within the organization's limit;
      one that fails for any reason changes nothing. */
  lemma CreateAllOrNothing(db: Db, org: Id, user: Option<Id>, p: CreateRequest, max: Option<int>, assetId: Id, aircraftId: Id)
    ensures var Outcome(db', r) := Create(db, org, user, p, max, assetId, aircraftId);
            && (r.Err? ==> db' == db)
            && (r.Ok? ==>
                  && aircraftId !in db.aircraft && assetId !in db.assets && assetId !in db.details
                  && db'.aircraft - {aircraftId} == db.aircraft && aircraftId in db'.aircraft
                  && db'.assets - {assetId} == db.assets && assetId in db'.assets
                  && db'.details - {assetId} == db.details && assetId in db'.details
                  && db'.events == db.events && db'.blockers == db.blockers
                  && db'.audit == db.audit + [AuditRecord(org, user, AircraftCreated(aircraftId, p.registration, p.msn, p.aircraftType),
                                                          AssetEntity, assetId)]
                  && db'.aircraft[aircraftId] == Aircraft(org, p.registration, p.msn, p.aircraftType, p.status, Some(assetId))
                  && db'.assets[assetId].serialNumber == Some(p.msn) && db'.assets[assetId].model == Some(p.aircraftType)
                  && db'.assets[assetId].manufacturer == p.manufacturer
                  && InStepAt(db'.aircraft[aircraftId], db'.assets[assetId], db'.details[assetId])
                  && (forall i :: i in db.aircraft ==> db'.aircraft[i].assetId != db'.aircraft[aircraftId].assetId)
                  && Visible(db', org, aircraftId))
  {
  }

  /** A creation under a limit succeeds exactly when it leaves one live asset more, still within the limit. */
  lemma CreateRespectsLimit(db: Db, op: Op)
    requires op.OpCreate? && op.maxAssets.Some?
    ensures var before, after := |LiveAssets(db.assets, op.org)|, |LiveAssets(Step(db, op).db.assets, op.org)|;
            Step(db, op).result.Ok? <==> after == before + 1 && after <= op.maxAssets.value
  {
    if Step(db, op).result.Ok? {
      assert LiveAssets(Step(db, op).db.assets, op.org) == LiveAssets(db.assets, op.org) + {op.assetId};
    }
  }

  /** Every creation by the organization is made under a limit of at most `m`. */
  predicate CreatesWithin(op: Op, org: Id, m: int) {
    op.OpCreate? && op.org == org ==> op.maxAssets.Some? && op.maxAssets.value <= m
  }

  lemma OthersOnlyLower(db: Db, op: Op, org: Id)
    requires !(op.OpCreate? && op.org == org)
    ensures LiveAssets(Step(db, op).db.assets, org) <= LiveAssets(db.assets, org)
  {
    if !OnFleet(op) {
      AogCallTouches(db, op);
    }
  }

  lemma StepRespectsLimit(db: Db, op: Op, org: Id, m: int)
    requires CreatesWithin(op, org, m) && |LiveAssets(db.assets, org)| <= m
    ensures |LiveAssets(Step(db, op).db.assets, org)| <= m
  {
    if op.OpCreate? && op.org == org {
      if Step(db, op).result.Ok? {
        CreateRespectsLimit(db, op);
      } else {
        assert Step(db, op).db == db;
      }
    } else {
      OthersOnlyLower(db, op, org);
      SubsetCardinality(LiveAssets(Step(db, op).db.assets, org), LiveAssets(db.assets, org));
    }
  }

  /** An organization within a limit under which it creates stays within it,
      whatever it and the others call. */
  lemma {:induction false} RunRespectsLimit(db: Db, ops: seq<Op>, org: Id, m: int)
    requires (forall op :: op in ops ==> CreatesWithin(op, org, m)) && |LiveAssets(db.assets, org)| <= m
    ensures |LiveAssets(Run(db, ops).assets, org)| <= m
  {
    if ops != [] {
      RunRespectsLimit(db, ops[..|ops| - 1], org, m);
      StepRespectsLimit(Run(db, ops[..|ops| - 1]), ops[|ops| - 1], org, m);
    }
  }

  /** A soft-deleted asset hides its aircraft from update and declaration, and
      still occupies its registration. */
  lemma SoftDeletedStillOccupies(db: Db, org: Id, user: Option<Id>, aircraftId: Id, p: CreateRequest, u: UpdateRequest,
                                 d: DeclareRequest, max: Option<int>, reason: Option<string>, newAsset: Id, newId: Id)
    requires LinksHome(db) && Visible(db, org, aircraftId) && db.aircraft[aircraftId].assetId.Some?
    requires p.registration == db.aircraft[aircraftId].registration && d.aircraftId == aircraftId
    ensures var gone := SoftDelete(db, org, user, db.aircraft[aircraftId].assetId.value, reason).db;
            && !Visible(gone, org, aircraftId)
            && Update(gone, org, user, aircraftId, u) == Raise(gone, NotFound)
            && Declare(gone, org, user, d, newId) == Raise(gone, NotFound)
            && Create(gone, org, user, p, max, newAsset, newId).result.Err?
  {
    var gone := SoftDelete(db, org, user, db.aircraft[aircraftId].assetId.value, reason).db;
    assert gone.aircraft[aircraftId] == db.aircraft[aircraftId];
  }

  // ---- what an update does ----

  /** A field carried by an update, as three tables show it afterwards. */
  predicate Shown(change: Option<string>, before: string, after: string, assetBefore: Option<string>, assetAfter: Option<string>,
                  detailAfter: string)
  {
    match change
    case Some(v) => after == v && assetAfter == Some(v) && detailAfter == v
    case None => after == before && assetAfter == assetBefore && detailAfter == before
  }

  /** The three rows behind one aircraft before and after an update. */
  ghost predicate RowsUpdated(a: Aircraft, s: Asset, a': Aircraft, s': Asset, d': AircraftDetail, p: UpdateRequest) {
    && Shown(p.msn, a.msn, a'.msn, s.serialNumber, s'.serialNumber, d'.msn)
    && Shown(p.aircraftType, a.aircraftType, a'.aircraftType, s.model, s'.model, d'.aircraftType)
    && a'.status == (if p.status.Some? then p.status.value else a.status) && s'.status == a'.status
    && s'.manufacturer == (if p.manufacturer.Some? then p.manufacturer else s.manufacturer)
    && s'.deletion == s.deletion && s'.facilityId == s.facilityId
  }

  lemma PatchesAgree(a: Aircraft, s: Asset, d: AircraftDetail, p: UpdateRequest)
    requires InStepAt(a, s, d)
    ensures RowsUpdated(a, s, Patched(a, p), PatchedAsset(s, p), PatchedDetail(d, p), p)
    ensures p.Empty() ==> Patched(a, p) == a && PatchedAsset(s, p) == s && PatchedDetail(d, p) == d
  {
  }

  /** A visible aircraft can always be updated. Every field the request carries
      then reads the same in all the tables that have it, and every field it
      does not carry is as before. */
  lemma UpdateTakesEffectEverywhere(db: Db, org: Id, user: Option<Id>, i: Id, p: UpdateRequest)
    requires InStep(db) && Visible(db, org, i) && db.aircraft[i].assetId.Some?
    ensures var Outcome(db', r) := Update(db, org, user, i, p);
            var s := db.aircraft[i].assetId.value;
            && r == Ok(i) && i in db'.aircraft && s in db'.assets && s in db'.details
            && RowsUpdated(db.aircraft[i], db.assets[s], db'.aircraft[i], db'.assets[s], db'.details[s], p)
  {
    var s := db.aircraft[i].assetId.value;
    PatchesAgree(db.aircraft[i], db.assets[s], db.details[s], p);
  }

  lemma UpdatedElsewhereSame(db: Db, i: Id, p: UpdateRequest)
    requires i in db.aircraft && db.aircraft[i].assetId.Some?
    ensures var db', s := Updated(db, i, p), db.aircraft[i].assetId.value;
            db'.aircraft - {i} == db.aircraft - {i} && db'.assets - {s} == db.assets - {s} && db'.details - {s} == db.details - {s}
  {
  }

  /** No row but the aircraft's own three changes, and an update that asks for anything is recorded once, on the asset. */
  lemma UpdateTouchesThreeRows(db: Db, org: Id, user: Option<Id>, i: Id, p: UpdateRequest)
    requires Visible(db, org, i) && db.aircraft[i].assetId.Some?
    ensures var db' := Update(db, org, user, i, p).db;
            var s := db.aircraft[i].assetId.value;
            && db'.aircraft - {i} == db.aircraft - {i} && db'.assets - {s} == db.assets - {s} && db'.details - {s} == db.details - {s}
            && db'.events == db.events && db'.blockers == db.blockers
            && db'.audit == db.audit + if p.Empty() then []
                                       else [AuditRecord(org, user, AircraftUpdated(p.manufacturer, p.msn, p.aircraftType, p.status), AssetEntity, s)]
  {
    UpdatedElsewhereSame(db, i, p);
  }

  /** An aircraft from before the asset foundation, with no asset, is updated alone and recorded under its own name. */
  lemma UpdateWithoutAsset(db: Db, org: Id, user: Option<Id>, i: Id, p: UpdateRequest)
    requires i in db.aircraft && db.aircraft[i].org == org && db.aircraft[i].assetId.None? && !p.Empty()
    ensures var Outcome(db', r) := Update(db, org, user, i, p);
            && r == Ok(i) && i in db'.aircraft && db'.aircraft - {i} == db.aircraft - {i}
            && db'.assets == db.assets && db'.details == db.details && db'.events == db.events && db'.blockers == db.blockers
            && db'.aircraft[i].msn == (if p.msn.Some? then p.msn.value else db.aircraft[i].msn)
            && db'.aircraft[i].aircraftType == (if p.aircraftType.Some? then p.aircraftType.value else db.aircraft[i].aircraftType)
            && db'.aircraft[i].status == (if p.status.Some? then p.status.value else db.aircraft[i].status)
            && db'.audit == db.audit + [AuditRecord(org, user, AircraftUpdated(p.manufacturer, p.msn, p.aircraftType, p.status), AircraftEntity, i)]
  {
  }
}
