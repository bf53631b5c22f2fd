/** The audit log that runs of service calls write, as the listing reads it. */
module AuditRuns {
  import opened FleetDb
  import opened AogService
  import opened FleetRuns
  import opened TenantIsolation
  import opened AuditLog

  /** The action as it is stored. */
  function ActionName(a: Action): string {
    match a
    case AircraftCreated(_, _, _, _) => "aircraft.created"
    case AircraftUpdated(_, _, _, _) => "aircraft.updated"
    case AssetDeleted(_, _, _) => "asset.deleted"
    case AssetUpdated(_, _, _, _, _) => "asset.updated"
    case AogDeclared(_, _) => "aog_event.declared"
    case AogUpdated(_, _, _, _) => "aog_event.updated"
    case BlockerAdded(_, _) => "aog_blocker.added"
    case BlockerResolved(_) => "aog_blocker.resolved"
    case RecoveryStarted(_, _) => "aog_event.recovery_started"
    case EventRecovered(_, _) => "aog_event.recovered"
    case EventCancelled(_, _) => "aog_event.cancelled"
    case Elsewhere(name) => name
  }

  function EntityName(t: EntityType): string {
    match t
    case AssetEntity => "Asset"
    case AircraftEntity => "Aircraft"
    case AogEventEntity => "AogEvent"
    case AogBlockerEntity => "AogBlocker"
    case OtherEntity(name) => name
  }

  /** The names under which each call that changes anything is stored, action and entity type. */
  function NamesOf(op: Op, linked: bool): (string, string) {
    match op
    case OpCreate(_, _, _, _, _, _) => ("aircraft.created", "Asset")
    case OpUpdate(_, _, _, _) => ("aircraft.updated", if linked then "Asset" else "Aircraft")
    case OpSoftDelete(_, _, _, _) => ("asset.deleted", "Asset")
    case OpUpdateAsset(_, _, _, _) => ("asset.updated", "Asset")
    case OpDeclare(_, _, _, _) => ("aog_event.declared", "AogEvent")
    case OpPatch(_, _, _, _) => ("aog_event.updated", "AogEvent")
    case OpAddBlocker(_, _, _, _, _) => ("aog_blocker.added", "AogBlocker")
    case OpResolve(_, _, _, _) => ("aog_blocker.resolved", "AogBlocker")
    case OpMove(_, _, _, StartRecovery) => ("aog_event.recovery_started", "AogEvent")
    case OpMove(_, _, _, MarkRecovered) => ("aog_event.recovered", "AogEvent")
    case OpMove(_, _, _, Cancel) => ("aog_event.cancelled", "AogEvent")
  }

  /** What the database adds to a record: its key and the time it is written. */
  datatype Stamp = Stamp(id: Id, createdAt: int)

  function Stored(r: AuditRecord, stamp: Stamp): Entry {
    Entry(stamp.id, stamp.createdAt, r.org, ActionName(r.action), EntityName(r.entityType))
  }

  /** The table `audit_events` after these records. */
  function Rows(audit: seq<AuditRecord>, stamps: seq<Stamp>): (rows: seq<Entry>)
    requires |audit| <= |stamps|
    ensures |rows| == |audit| && forall k :: 0 <= k < |rows| ==> rows[k] == Stored(audit[k], stamps[k])
  {
    seq(|audit|, k requires 0 <= k < |audit| => Stored(audit[k], stamps[k]))
  }

  ghost predicate KeysDrawn(stamps: seq<Stamp>) {
    forall i, j :: 0 <= i < j < |stamps| ==> stamps[i].id != stamps[j].id
  }

  lemma RowsHaveUniqueKeys(audit: seq<AuditRecord>, stamps: seq<Stamp>)
    requires |audit| <= |stamps| && KeysDrawn(stamps)
    ensures KeysUnique(Rows(audit, stamps))
  {
  }

  lemma RowsAppend(audit: seq<AuditRecord>, r: AuditRecord, stamps: seq<Stamp>)
    requires |audit| < |stamps|
    ensures Rows(audit + [r], stamps) == Rows(audit, stamps) + [Stored(r, stamps[|audit|])]
  {
  }

  const ALL := Filter(None, None, None, None, None)

  lemma {:induction false} InsertGrows(e: Entry, s: seq<Entry>)
    ensures |Insert(e, s)| == |s| + 1
  {
    if s != [] && !Before(e, s[0]) {
      InsertGrows(e, s[1..]);
    }
  }

  lemma ListingAppend(log: seq<Entry>, e: Entry, f: Filter)
    ensures |Listing(log + [e], f)| == |Listing(log, f)| + if Matches(f, e) then 1 else 0
  {
    assert (log + [e])[..|log|] == log;
    InsertGrows(e, Listing(log, f));
  }

  /** The total reported for an organization is the number of its records. */
  lemma {:induction false} TotalCountsRecords(audit: seq<AuditRecord>, stamps: seq<Stamp>, org: Id)
    requires |audit| <= |stamps|
    ensures |Listing(Rows(audit, stamps), ALL.(org := Some(org)))| == |RecordsOf(audit, org)|
  {
    if audit != [] {
      var past, r := audit[..|audit| - 1], audit[|audit| - 1];
      TotalCountsRecords(past, stamps, org);
      assert audit == past + [r];
      RowsAppend(past, r, stamps);
      ListingAppend(Rows(past, stamps), Stored(r, stamps[|past|]), ALL.(org := Some(org)));
    } else {
      assert Rows(audit, stamps) == [];
    }
  }

  /** Each call that changes anything is listed once more for its own
      organization, and for no other; a call that changes nothing is not listed. */
  lemma EveryChangeIsListedOnce(db: Db, op: Op, stamps: seq<Stamp>, org: Id)
    requires |Step(db, op).db.audit| <= |stamps| && |db.audit| <= |stamps|
    ensures |Listing(Rows(Step(db, op).db.audit, stamps), ALL.(org := Some(org)))|
            == |Listing(Rows(db.audit, stamps), ALL.(org := Some(org)))| + if Step(db, op).db != db && op.org == org then 1 else 0
  {
    if Step(db, op).db != db {
      var r := CallLog(db, op);
      RowsAppend(db.audit, r, stamps);
      ListingAppend(Rows(db.audit, stamps), Stored(r, stamps[|db.audit|]), ALL.(org := Some(org)));
    }
  }

  /** A reader who filters by action and entity type finds each call under its names. */
  lemma CallsAreStoredByName(db: Db, op: Op, stamp: Stamp) returns (r: AuditRecord)
    requires Step(db, op).db != db
    ensures Step(db, op).db.audit == db.audit + [r]
    ensures var linked := op.OpUpdate? && op.aircraftId in db.aircraft && db.aircraft[op.aircraftId].assetId.Some?;
            var row := Stored(r, stamp);
            (row.action, row.entityType) == NamesOf(op, linked) && row.org == op.org && row.id == stamp.id && row.createdAt == stamp.createdAt
  {
    r := CallLog(db, op);
    if OnFleet(op) {
      var k := FleetCallNamed(db, op);
    } else {
      var k := AogCallNamed(db, op);
    }
  }

  lemma FleetCallNamed(db: Db, op: Op) returns (r: AuditRecord)
    requires OnFleet(op) && Step(db, op).db != db
    ensures Step(db, op).db.audit == db.audit + [r] && r == Step(db, op).db.audit[|db.audit|]
    ensures (ActionName(r.action), EntityName(r.entityType))
            == NamesOf(op, op.OpUpdate? && op.aircraftId in db.aircraft && db.aircraft[op.aircraftId].assetId.Some?)
  {
    r := FleetCallLog(db, op);
  }

  lemma AogCallNamed(db: Db, op: Op) returns (r: AuditRecord)
    requires !OnFleet(op) && Step(db, op).db != db
    ensures Step(db, op).db.audit == db.audit + [r] && r == Step(db, op).db.audit[|db.audit|]
    ensures (ActionName(r.action), EntityName(r.entityType)) == NamesOf(op, false)
  {
    r := AogCallLog(db, op);
  }

  /** Every run only appends to the log. */
  lemma {:induction false} RunOnlyAppends(db: Db, ops: seq<Op>)
    ensures db.audit <= Run(db, ops).audit
  {
    if ops != [] {
      var before, op := Run(db, ops[..|ops| - 1]), ops[|ops| - 1];
      RunOnlyAppends(db, ops[..|ops| - 1]);
      if Step(before, op).db != before {
        var r := CallLog(before, op);
      }
    }
  }

  /** The records after the first `n` were written later than those. */
  ghost predicate LaterAfter(stamps: seq<Stamp>, n: nat) {
    forall i, j :: 0 <= i < n <= j < |stamps| ==> stamps[i].createdAt < stamps[j].createdAt
  }

  lemma LaterIsNewer(past: seq<AuditRecord>, all: seq<AuditRecord>, stamps: seq<Stamp>, f: Filter)
    requires past <= all && |all| <= |stamps| && LaterAfter(stamps, |past|)
    ensures Rows(past, stamps) == Rows(all, stamps)[..|past|]
    ensures Newer(Rows(past, stamps), Rows(all, stamps)[|past|..], f)
  {
    var early, added := Rows(past, stamps), Rows(all, stamps)[|past|..];
    forall x, y | x in early && y in added ensures Before(y, x) {
      var i :| 0 <= i < |early| && early[i] == x;
      var j :| 0 <= j < |added| && added[j] == y;
      assert y == Stored(all[|past| + j], stamps[|past| + j]);
    }
  }

  /** The page that was at `offset` is now as much further on as the listing has grown. */
  predicate Shifted(was: seq<Entry>, now: seq<Entry>, f: Filter, offset: nat, limit: int) {
    var before, after := Listing(was, f), Listing(now, f);
    |after| >= |before| && Slice(after, offset + (|after| - |before|), Clamp(limit)) == Slice(before, offset, Clamp(limit))
  }

  lemma NewerShifts(rows: seq<Entry>, added: seq<Entry>, f: Filter, offset: nat, limit: int)
    requires KeysUnique(rows + added) && Newer(rows, added, f)
    ensures Shifted(rows, rows + added, f, offset, limit)
  {
    NewRecordsInFront(rows, added, f);
    SliceBehind(Listing(added, f), Listing(rows, f), offset, Clamp(limit));
  }

  lemma GrowthShiftsPages(past: seq<AuditRecord>, all: seq<AuditRecord>, stamps: seq<Stamp>, f: Filter, offset: nat, limit: int)
    requires past <= all && |all| <= |stamps| && KeysDrawn(stamps) && LaterAfter(stamps, |past|)
    ensures Shifted(Rows(past, stamps), Rows(all, stamps), f, offset, limit)
  {
    var rows, added := Rows(past, stamps), Rows(all, stamps)[|past|..];
    LaterIsNewer(past, all, stamps, f);
    RowsHaveUniqueKeys(all, stamps);
    assert Rows(all, stamps) == rows + added;
    NewerShifts(rows, added, f, offset, limit);
  }

  /** The page a reader would have got at an offset before a run is, after it,
      at the offset moved by the number of matching records the run wrote. */
  lemma RunShiftsPages(db: Db, ops: seq<Op>, stamps: seq<Stamp>, f: Filter, offset: nat, limit: int)
    requires |db.audit| <= |stamps| && |Run(db, ops).audit| <= |stamps| && KeysDrawn(stamps) && LaterAfter(stamps, |db.audit|)
    ensures Shifted(Rows(db.audit, stamps), Rows(Run(db, ops).audit, stamps), f, offset, limit)
  {
    RunOnlyAppends(db, ops);
    GrowthShiftsPages(db.audit, Run(db, ops).audit, stamps, f, offset, limit);
  }
}
