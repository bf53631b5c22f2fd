/** The AOG tables against their own audit log: replay, status paths, and
    what a recovered event says about its blockers. */
module AogHistory {
  import opened FleetDb
  import opened AogService
  import opened FleetRuns

  // ---- replaying the log ----

  /** The columns of an event and of a blocker that the log determines. */
  datatype EventView = EventView(org: Id, aircraftId: Id, severity: string, status: AogStatus, notes: Option<string>)
  datatype BlockerView = BlockerView(org: Id, eventId: Id, blockerType: string, resolved: bool)
  datatype AogView = AogView(events: map<Id, EventView>, blockers: map<Id, BlockerView>)

  const NO_AOG := AogView(map[], map[])

  function Apply(v: AogView, r: AuditRecord): AogView {
    var id := r.entityId;
    match r.action
    case AogDeclared(aircraftId, severity) =>
      v.(events := v.events[id := EventView(r.org, aircraftId, severity, DECLARED, None)])
    case AogUpdated(severity, _, notes, _) =>
      if id in v.events then
        var e := v.events[id];
        v.(events := v.events[id := e.(severity := if severity.Set? then severity.value else e.severity,
                                          notes := if notes.Set? then notes.value else e.notes)])
      else v
    case BlockerAdded(eventId, blockerType) =>
      v.(blockers := v.blockers[id := BlockerView(r.org, eventId, blockerType, false)])
    case BlockerResolved(_) =>
      if id in v.blockers then v.(blockers := v.blockers[id := v.blockers[id].(resolved := true)]) else v
    case RecoveryStarted(_, to) => WithStatus(v, id, to)
    case EventRecovered(_, to) => WithStatus(v, id, to)
    case EventCancelled(_, to) => WithStatus(v, id, to)
    case _ => v
  }

  function WithStatus(v: AogView, id: Id, to: AogStatus): AogView {
    if id in v.events then v.(events := v.events[id := v.events[id].(status := to)]) else v
  }

  /** The AOG tables as the log alone tells them. */
  function Replay(log: seq<AuditRecord>): AogView {
    if log == [] then NO_AOG else Apply(Replay(log[..|log| - 1]), log[|log| - 1])
  }

  function EventColumns(e: AogEvent): EventView {
    EventView(e.org, e.aircraftId, e.severity, e.status, e.recoveryNotes)
  }

  function BlockerColumns(b: AogBlocker): BlockerView {
    BlockerView(b.org, b.eventId, b.blockerType, b.resolved)
  }

  function ViewOf(events: map<Id, AogEvent>, blockers: map<Id, AogBlocker>): AogView {
    AogView(map i | i in events :: EventColumns(events[i]), map i | i in blockers :: BlockerColumns(blockers[i]))
  }

  ghost predicate Replayable(db: Db) {
    ViewOf(db.events, db.blockers) == Replay(db.audit)
  }

  lemma ViewOfWrites(events: map<Id, AogEvent>, blockers: map<Id, AogBlocker>, id: Id, e: AogEvent, b: AogBlocker)
    ensures ViewOf(events[id := e], blockers) == ViewOf(events, blockers).(events := ViewOf(events, blockers).events[id := EventColumns(e)])
    ensures ViewOf(events, blockers[id := b]) == ViewOf(events, blockers).(blockers := ViewOf(events, blockers).blockers[id := BlockerColumns(b)])
  {
    var v := ViewOf(events, blockers);
    assert ViewOf(events[id := e], blockers).events == v.events[id := EventColumns(e)];
    assert ViewOf(events, blockers[id := b]).blockers == v.blockers[id := BlockerColumns(b)];
  }

  const NO_BLOCKER := AogBlocker(0, 0, "", "", None, false)

  predicate OnEvents(op: Op) {
    op.OpDeclare? || op.OpPatch? || op.OpMove?
  }

  predicate OnBlockers(op: Op) {
    op.OpAddBlocker? || op.OpResolve?
  }

  lemma DeclareTellsAll(db: Db, org: Id, user: Option<Id>, p: DeclareRequest, e: Id, r: AuditRecord)
    requires p.aircraftId in db.aircraft
    requires r == AuditRecord(org, user, AogDeclared(p.aircraftId, p.severity), AogEventEntity, e)
    ensures ViewOf(db.events[e := NewEvent(db, org, user, p)], db.blockers) == Apply(ViewOf(db.events, db.blockers), r)
  {
    ViewOfWrites(db.events, db.blockers, e, NewEvent(db, org, user, p), NO_BLOCKER);
  }

  lemma PatchTellsAll(db: Db, org: Id, user: Option<Id>, e: Id, p: EventPatch, r: AuditRecord)
    requires e in db.events && p.Storable() && r == AuditRecord(org, user, PatchAction(p), AogEventEntity, e)
    ensures ViewOf(db.events[e := PatchedEvent(db.events[e], p)], db.blockers) == Apply(ViewOf(db.events, db.blockers), r)
  {
    ViewOfWrites(db.events, db.blockers, e, PatchedEvent(db.events[e], p), NO_BLOCKER);
  }

  lemma StatusTells(events: map<Id, AogEvent>, blockers: map<Id, AogBlocker>, e: Id, to: AogStatus)
    requires e in events
    ensures ViewOf(events[e := events[e].(status := to)], blockers) == WithStatus(ViewOf(events, blockers), e, to)
  {
    ViewOfWrites(events, blockers, e, events[e].(status := to), NO_BLOCKER);
    assert EventColumns(events[e].(status := to)) == EventColumns(events[e]).(status := to);
  }

  lemma ApplyChange(v: AogView, r: AuditRecord)
    requires IsChange(r.action)
    ensures Apply(v, r) == WithStatus(v, r.entityId, r.action.toStatus)
  {
  }

  /** A recorded status change tells all of a write to one event's status. */
  lemma ChangeTellsAll(events: map<Id, AogEvent>, blockers: map<Id, AogBlocker>, e: Id, r: AuditRecord)
    requires e in events && r.entityId == e && IsChange(r.action)
    ensures ViewOf(events[e := events[e].(status := r.action.toStatus)], blockers) == Apply(ViewOf(events, blockers), r)
  {
    StatusTells(events, blockers, e, r.action.toStatus);
    ApplyChange(ViewOf(events, blockers), r);
  }

  lemma EventRecordTellsAll(db: Db, op: Op) returns (r: AuditRecord)
    requires OnEvents(op) && Step(db, op).db != db
    ensures Step(db, op).db.audit == db.audit + [r]
    ensures ViewOf(Step(db, op).db.events, Step(db, op).db.blockers) == Apply(ViewOf(db.events, db.blockers), r)
  {
    match op
    case OpDeclare(org, user, p, e) =>
      r := AuditRecord(org, user, AogDeclared(p.aircraftId, p.severity), AogEventEntity, e);
      DeclareTellsAll(db, org, user, p, e, r);
    case OpPatch(org, user, e, p) =>
      r := AuditRecord(org, user, PatchAction(p), AogEventEntity, e);
      PatchTellsAll(db, org, user, e, p, r);
    case OpMove(org, user, e, move) =>
      r := AuditRecord(org, user, move.Record(db.events[e].status), AogEventEntity, e);
      ChangeTellsAll(db.events, db.blockers, e, r);
  }

  lemma BlockerRecordTellsAll(db: Db, op: Op) returns (r: AuditRecord)
    requires OnBlockers(op) && Step(db, op).db != db
    ensures Step(db, op).db.audit == db.audit + [r]
    ensures ViewOf(Step(db, op).db.events, Step(db, op).db.blockers) == Apply(ViewOf(db.events, db.blockers), r)
  {
    var db' := Step(db, op).db;
    r := db'.audit[|db.audit|];
    var b := db'.blockers[op.blockerId];
    var any := db.events[op.eventId];
    assert db'.blockers == db.blockers[op.blockerId := b] && db'.events == db.events;
    ViewOfWrites(db.events, db.blockers, op.blockerId, any, b);
  }

  lemma FleetRecordTellsNothing(db: Db, op: Op) returns (r: AuditRecord)
    requires !OnEvents(op) && !OnBlockers(op) && Step(db, op).db != db
    ensures Step(db, op).db.audit == db.audit + [r]
    ensures ViewOf(Step(db, op).db.events, Step(db, op).db.blockers) == ViewOf(db.events, db.blockers)
    ensures Apply(ViewOf(db.events, db.blockers), r) == ViewOf(db.events, db.blockers)
  {
    r := Step(db, op).db.audit[|db.audit|];
  }

  /** A call that changes anything appends exactly one record, and that record
      tells exactly what happened to the AOG tables. */
  lemma RecordTellsAll(db: Db, op: Op) returns (r: AuditRecord)
    requires Step(db, op).db != db
    ensures Step(db, op).db.audit == db.audit + [r]
    ensures ViewOf(Step(db, op).db.events, Step(db, op).db.blockers) == Apply(ViewOf(db.events, db.blockers), r)
  {
    if OnEvents(op) {
      r := EventRecordTellsAll(db, op);
    } else if OnBlockers(op) {
      r := BlockerRecordTellsAll(db, op);
    } else {
      r := FleetRecordTellsNothing(db, op);
    }
  }

  lemma ReplayAppend(log: seq<AuditRecord>, r: AuditRecord)
    ensures Replay(log + [r]) == Apply(Replay(log), r)
  {
    assert (log + [r])[..|log|] == log;
  }

  /** Every run leaves AOG tables that a replay of the log reconstructs. */
  lemma {:induction false} RunReplayable(db: Db, ops: seq<Op>)
    requires Replayable(db)
    ensures Replayable(Run(db, ops))
  {
    if ops != [] {
      var before, op := Run(db, ops[..|ops| - 1]), ops[|ops| - 1];
      RunReplayable(db, ops[..|ops| - 1]);
      if Step(before, op).db != before {
        var r := RecordTellsAll(before, op);
        ReplayAppend(before.audit, r);
      }
    }
  }

  // ---- the path of statuses ----

  /** The (from, to) pairs recorded for one event, in order. */
  function Changes(log: seq<AuditRecord>, eventId: Id): seq<(AogStatus, AogStatus)> {
    if log == [] then []
    else
      var r := log[|log| - 1];
      Changes(log[..|log| - 1], eventId)
      + if r.entityId == eventId && IsChange(r.action) then [(r.action.fromStatus, r.action.toStatus)] else []
  }

  predicate IsChange(a: Action) {
    a.RecoveryStarted? || a.EventRecovered? || a.EventCancelled?
  }

  /** A connected path of allowed transitions from DECLARED. */
  predicate PathTo(path: seq<(AogStatus, AogStatus)>, status: AogStatus) {
    if path == [] then status == DECLARED
    else
      var (from, to) := path[|path| - 1];
      to == status && Allowed(from, to) && PathTo(path[..|path| - 1], from)
  }

  /** How many more changes a status can see. */
  function Rank(s: AogStatus): nat {
    match s
    case DECLARED => 2
    case IN_RECOVERY => 1
    case _ => 0
  }

  lemma {:induction false} PathIsShort(path: seq<(AogStatus, AogStatus)>, status: AogStatus)
    requires PathTo(path, status)
    ensures |path| + Rank(status) <= 2
  {
    if path != [] {
      PathIsShort(path[..|path| - 1], path[|path| - 1].0);
    }
  }

  /** Events without a row have no recorded changes; the others have a path to their status. */
  ghost predicate PathsRecorded(db: Db) {
    && (forall e :: e in db.events ==> PathTo(Changes(db.audit, e), db.events[e].status))
    && (forall e :: e !in db.events ==> Changes(db.audit, e) == [])
  }

  lemma ChangesAppend(log: seq<AuditRecord>, r: AuditRecord, eventId: Id)
    ensures Changes(log + [r], eventId)
            == Changes(log, eventId)
               + if r.entityId == eventId && IsChange(r.action) then [(r.action.fromStatus, r.action.toStatus)] else []
  {
    assert (log + [r])[..|log|] == log;
  }

  /** A status changes exactly where a change is recorded for that event. */
  lemma OnlyMovesChangeStatus(db: Db, op: Op, r: AuditRecord, e: Id)
    requires Step(db, op).db.audit == db.audit + [r] && Step(db, op).db != db
    ensures var db' := Step(db, op).db;
            && (e in db'.events <==> e in db.events || (op.OpDeclare? && e == op.eventId))
            && (IsChange(r.action) && r.entityId == e ==>
                  e in db.events && r.action.fromStatus == db.events[e].status
                  && db'.events[e].status == r.action.toStatus && Allowed(r.action.fromStatus, r.action.toStatus))
            && (!(IsChange(r.action) && r.entityId == e) && e in db.events ==> db'.events[e].status == db.events[e].status)
            && (e in db'.events && e !in db.events ==> db'.events[e].status == DECLARED)
  {
    assert r == (db.audit + [r])[|db.audit|];
  }

  lemma StepKeepsPaths(db: Db, op: Op)
    requires PathsRecorded(db)
    ensures PathsRecorded(Step(db, op).db)
  {
    var db' := Step(db, op).db;
    if db' != db {
      var r := RecordTellsAll(db, op);
      forall e: Id
        ensures e in db'.events ==> PathTo(Changes(db'.audit, e), db'.events[e].status)
        ensures e !in db'.events ==> Changes(db'.audit, e) == []
      {
        OnlyMovesChangeStatus(db, op, r, e);
        ChangesAppend(db.audit, r, e);
        var before, after := Changes(db.audit, e), Changes(db'.audit, e);
        if after != before {
          assert after[..|before|] == before;
        }
      }
    }
  }

  /** Over every run, the status changes recorded for an event form a connected
      path of allowed transitions from DECLARED to its status, at most two. */
  lemma {:induction false} RunRecordsPaths(db: Db, ops: seq<Op>)
    requires PathsRecorded(db)
    ensures PathsRecorded(Run(db, ops))
    ensures forall e :: e in Run(db, ops).events ==> |Changes(Run(db, ops).audit, e)| + Rank(Run(db, ops).events[e].status) <= 2
  {
    var after := Run(db, ops);
    if ops != [] {
      RunRecordsPaths(db, ops[..|ops| - 1]);
      StepKeepsPaths(Run(db, ops[..|ops| - 1]), ops[|ops| - 1]);
    }
    forall e | e in after.events ensures |Changes(after.audit, e)| + Rank(after.events[e].status) <= 2 {
      PathIsShort(Changes(after.audit, e), after.events[e].status);
    }
  }

  lemma FinalStatusStep(db: Db, op: Op, e: Id)
    requires e in db.events && Rank(db.events[e].status) == 0
    ensures e in Step(db, op).db.events && Step(db, op).db.events[e].status == db.events[e].status
  {
    if Step(db, op).db != db {
      var r := RecordTellsAll(db, op);
      OnlyMovesChangeStatus(db, op, r, e);
    }
  }

  /** A recovered or cancelled event keeps its status whatever is called. */
  lemma {:induction false} FinalStatusIsAbsorbing(db: Db, ops: seq<Op>, e: Id)
    requires e in db.events && Rank(db.events[e].status) == 0
    ensures e in Run(db, ops).events && Run(db, ops).events[e].status == db.events[e].status
  {
    if ops != [] {
      FinalStatusIsAbsorbing(db, ops[..|ops| - 1], e);
      FinalStatusStep(Run(db, ops[..|ops| - 1]), ops[|ops| - 1], e);
    }
  }

  // ---- recovery and blockers ----

  /** Where in the log the event was last recovered, or -1. */
  function RecoveredAt(log: seq<AuditRecord>, e: Id): int {
    if log == [] then -1
    else
      var r := log[|log| - 1];
      if r.action.EventRecovered? && r.entityId == e then |log| - 1 else RecoveredAt(log[..|log| - 1], e)
  }

  /** Where in the log the blocker was last added, or -1. */
  function AddedAt(log: seq<AuditRecord>, b: Id): int {
    if log == [] then -1
    else
      var r := log[|log| - 1];
      if r.action.BlockerAdded? && r.entityId == b then |log| - 1 else AddedAt(log[..|log| - 1], b)
  }

  lemma PositionsAppend(log: seq<AuditRecord>, r: AuditRecord, e: Id, b: Id)
    ensures RecoveredAt(log + [r], e) == if r.action.EventRecovered? && r.entityId == e then |log| else RecoveredAt(log, e)
    ensures AddedAt(log + [r], b) == if r.action.BlockerAdded? && r.entityId == b then |log| else AddedAt(log, b)
  {
    assert (log + [r])[..|log|] == log;
  }

  lemma {:induction false} PositionsInLog(log: seq<AuditRecord>, e: Id, b: Id)
    ensures RecoveredAt(log, e) < |log| && AddedAt(log, b) < |log|
  {
    if log != [] {
      PositionsInLog(log[..|log| - 1], e, b);
    }
  }

  predicate OpenOnRecovered(db: Db, b: Id) {
    && b in db.blockers && !db.blockers[b].resolved && db.blockers[b].eventId in db.events
    && db.events[db.blockers[b].eventId].status == RECOVERED
  }

  /** Every recovery and every blocker is on record, and a blocker that is open
      on a recovered event was added after the recovery. */
  ghost predicate OpenBlockersAreLate(db: Db) {
    && (forall e :: e in db.events && db.events[e].status == RECOVERED ==> RecoveredAt(db.audit, e) >= 0)
    && (forall b :: b in db.blockers <==> AddedAt(db.audit, b) >= 0)
    && (forall b :: OpenOnRecovered(db, b) ==> RecoveredAt(db.audit, db.blockers[b].eventId) < AddedAt(db.audit, b))
  }

  /** What a call does to one event's status and one blocker, as its record says. */
  lemma StepOnBlocker(db: Db, op: Op, r: AuditRecord, b: Id)
    requires BlockersOwned(db) && Step(db, op).db.audit == db.audit + [r] && Step(db, op).db != db
    ensures var db' := Step(db, op).db;
            && (b in db'.blockers <==> b in db.blockers || (r.action.BlockerAdded? && r.entityId == b))
            && (r.action.BlockerAdded? && r.entityId == b ==> b !in db.blockers)
            && (b in db.blockers ==> db'.blockers[b].eventId == db.blockers[b].eventId
                                     && (db.blockers[b].resolved ==> db'.blockers[b].resolved))
            && (r.action.EventRecovered? ==> !HasUnresolved(db', r.entityId) && r.action.toStatus == RECOVERED)
            && (IsChange(r.action) && r.action.toStatus == RECOVERED ==> r.action.EventRecovered?)
  {
    assert r == (db.audit + [r])[|db.audit|];
  }

  lemma StepKeepsLate(db: Db, op: Op)
    requires BlockersOwned(db) && OpenBlockersAreLate(db)
    ensures OpenBlockersAreLate(Step(db, op).db)
  {
    var db' := Step(db, op).db;
    if db' != db {
      var r := RecordTellsAll(db, op);
      forall e | e in db'.events && db'.events[e].status == RECOVERED ensures RecoveredAt(db'.audit, e) >= 0 {
        PositionsAppend(db.audit, r, e, 0);
        OnlyMovesChangeStatus(db, op, r, e);
        StepOnBlocker(db, op, r, 0);
      }
      forall b: Id ensures b in db'.blockers <==> AddedAt(db'.audit, b) >= 0 {
        PositionsAppend(db.audit, r, 0, b);
        StepOnBlocker(db, op, r, b);
      }
      forall b | OpenOnRecovered(db', b)
        ensures RecoveredAt(db'.audit, db'.blockers[b].eventId) < AddedAt(db'.audit, b)
      {
        LateStep(db, op, r, b);
      }
    }
  }

  lemma LateStep(db: Db, op: Op, r: AuditRecord, b: Id)
    requires BlockersOwned(db) && OpenBlockersAreLate(db)
    requires Step(db, op).db.audit == db.audit + [r] && Step(db, op).db != db
    requires OpenOnRecovered(Step(db, op).db, b)
    ensures RecoveredAt(db.audit + [r], Step(db, op).db.blockers[b].eventId) < AddedAt(db.audit + [r], b)
  {
    var e := Step(db, op).db.blockers[b].eventId;
    PositionsAppend(db.audit, r, e, b);
    PositionsInLog(db.audit, e, b);
    OnlyMovesChangeStatus(db, op, r, e);
    StepOnBlocker(db, op, r, b);
  }

  /** Over every run, each blocker still open on a recovered event was added
      after the step that recovered it. */
  lemma {:induction false} RunKeepsLate(db: Db, ops: seq<Op>)
    requires BlockersOwned(db) && OpenBlockersAreLate(db)
    ensures BlockersOwned(Run(db, ops)) && OpenBlockersAreLate(Run(db, ops))
  {
    if ops != [] {
      RunKeepsLate(db, ops[..|ops| - 1]);
      StepKeepsBlockersOwned(Run(db, ops[..|ops| - 1]), ops[|ops| - 1]);
      StepKeepsLate(Run(db, ops[..|ops| - 1]), ops[|ops| - 1]);
    }
  }

  /** A recovered event has no open blocker: not something every call keeps. */
  ghost predicate NoneOpen(db: Db) {
    forall b :: !OpenOnRecovered(db, b)
  }

  lemma StaysClosed(db: Db, op: Op, r: AuditRecord, b: Id)
    requires BlockersOwned(db) && !OpenOnRecovered(db, b) && !op.OpAddBlocker?
    requires Step(db, op).db.audit == db.audit + [r] && Step(db, op).db != db
    ensures !OpenOnRecovered(Step(db, op).db, b)
  {
    var db' := Step(db, op).db;
    StepOnBlocker(db, op, r, b);
    if b in db'.blockers && db'.blockers[b].eventId in db'.events {
      OnlyMovesChangeStatus(db, op, r, db'.blockers[b].eventId);
    }
  }

  lemma OthersKeepNoneOpen(db: Db, op: Op)
    requires BlockersOwned(db) && NoneOpen(db) && !op.OpAddBlocker?
    ensures NoneOpen(Step(db, op).db)
  {
    var db' := Step(db, op).db;
    if db' != db {
      var r := RecordTellsAll(db, op);
      forall b: Id ensures !OpenOnRecovered(db', b) {
        StaysClosed(db, op, r, b);
      }
    }
  }

  /** It survives a call exactly when the call is not one that adds a blocker
      to an event already recovered, which `add_blocker` does not check. */
  lemma NoneOpenSurvivesIff(db: Db, op: Op)
    requires BlockersOwned(db) && NoneOpen(db)
    ensures NoneOpen(Step(db, op).db)
            <==> !(op.OpAddBlocker? && EventFound(db, op.org, op.eventId) && op.blockerId !in db.blockers
                   && db.events[op.eventId].status == RECOVERED)
  {
    if op.OpAddBlocker? {
      var db' := Step(db, op).db;
      if db' != db {
        assert OpenOnRecovered(db', op.blockerId) <==> db.events[op.eventId].status == RECOVERED;
        forall b: Id | b != op.blockerId ensures !OpenOnRecovered(db', b) {
          assert !OpenOnRecovered(db, b);
        }
      }
    } else {
      OthersKeepNoneOpen(db, op);
    }
  }

  const ONE_AIRCRAFT := Db(map[0 := Aircraft(0, "", "", "", "", None)], map[], map[], map[], map[], [], map[], map[])

  function DeclareAndRecover(p: DeclareRequest): seq<Op> {
    [OpDeclare(0, None, p, 1), OpMove(0, None, 1, StartRecovery), OpMove(0, None, 1, MarkRecovered)]
  }

  lemma RecoveredReached(p: DeclareRequest)
    requires p.aircraftId == 0 && p.workOrderId == None
    ensures var db := Run(ONE_AIRCRAFT, DeclareAndRecover(p));
            EventFound(db, 0, 1) && db.events[1].status == RECOVERED && db.blockers == map[]
  {
    var ops := DeclareAndRecover(p);
    assert ops[..2][..1] == ops[..1] && ops[..1][..0] == [];
    var declared := Step(ONE_AIRCRAFT, ops[0]).db;
    assert Run(ONE_AIRCRAFT, ops[..1]) == declared;
    assert declared.events[1].status == DECLARED && declared.blockers == map[];
    var started := Step(declared, ops[1]).db;
    assert Run(ONE_AIRCRAFT, ops[..2]) == started;
  }

  /** And such a call can be reached: declare, recover, then add a blocker. */
  lemma NoneOpenCanFail(p: DeclareRequest, q: BlockerRequest)
    requires p.aircraftId == 0 && p.workOrderId == None
    ensures Sound(ONE_AIRCRAFT) && NoneOpen(ONE_AIRCRAFT)
    ensures !NoneOpen(Run(ONE_AIRCRAFT, DeclareAndRecover(p) + [OpAddBlocker(0, None, 1, q, 2)]))
  {
    var ops, last := DeclareAndRecover(p), OpAddBlocker(0, None, 1, q, 2);
    RecoveredReached(p);
    assert (ops + [last])[..3] == ops;
    assert OpenOnRecovered(Step(Run(ONE_AIRCRAFT, ops), last).db, 2);
  }

  predicate AboutAog(a: Action) {
    a.AogDeclared? || a.AogUpdated? || a.BlockerAdded? || a.BlockerResolved? || IsChange(a)
  }

  lemma {:induction false} QuietLog(log: seq<AuditRecord>, e: Id, b: Id)
    requires forall r :: r in log ==> !AboutAog(r.action)
    ensures Replay(log) == NO_AOG && Changes(log, e) == [] && RecoveredAt(log, e) == -1 && AddedAt(log, b) == -1
  {
    if log != [] {
      QuietLog(log[..|log| - 1], e, b);
      assert log[|log| - 1] in log;
    }
  }

  /** No AOG rows, and a log that may tell of anything else, satisfy all of the above. */
  lemma FreshDeployment(db: Db)
    requires db.events == map[] && db.blockers == map[] && forall r :: r in db.audit ==> !AboutAog(r.action)
    ensures Replayable(db) && PathsRecorded(db) && OpenBlockersAreLate(db)
  {
    forall e: Id, b: Id
      ensures Replay(db.audit) == NO_AOG && Changes(db.audit, e) == [] && RecoveredAt(db.audit, e) == -1 && AddedAt(db.audit, b) == -1
    {
      QuietLog(db.audit, e, b);
    }
    QuietLog(db.audit, 0, 0);
  }

  // ---- single calls ----

  /** A declaration goes through exactly for an aircraft the organization can
      see and a work order, if it names one, that exists. It adds one event, on
      that aircraft and its asset, and no blocker. */
  lemma DeclareSucceedsIff(db: Db, org: Id, user: Option<Id>, p: DeclareRequest, e: Id)
    ensures var Outcome(db', r) := Declare(db, org, user, p, e);
            && (r.Ok? <==> Visible(db, org, p.aircraftId) && (p.workOrderId.None? || p.workOrderId.value in db.workOrders) && e !in db.events)
            && (r.Err? ==> db' == db && r.error == if Visible(db, org, p.aircraftId) then DatabaseError else NotFound)
            && (r.Ok? ==>
                  && e in db'.events && db'.events - {e} == db.events && db'.blockers == db.blockers && db'.aircraft == db.aircraft
                  && var n := db'.events[e];
                     && n.org == org && n.aircraftId == p.aircraftId && n.assetId == db.aircraft[p.aircraftId].assetId
                     && n.status == DECLARED && n.severity == p.severity && n.rootCause == p.rootCause
                     && n.workOrderId == p.workOrderId && n.declaredBy == user && n.owner == None && n.recoveryNotes == None)
  {
  }

  /** What a change asks of the status. */
  predicate Movable(status: AogStatus, move: Move) {
    match move
    case StartRecovery => status == DECLARED
    case MarkRecovered => status == IN_RECOVERY
    case Cancel => Rank(status) > 0
  }

  lemma MovableIsAllowed(status: AogStatus, move: Move)
    ensures Movable(status, move) <==> Allowed(status, move.Target())
    ensures Movable(status, move) ==> Rank(move.Target()) < Rank(status)
  {
  }

  /** Which status changes go through, action by action; one that does changes
      that event's status, nothing else, to a lower rank. */
  lemma MoveSucceedsIff(db: Db, org: Id, user: Option<Id>, e: Id, move: Move)
    ensures var Outcome(db', r) := ChangeStatus(db, org, user, e, move);
            && (r.Ok? <==>
                  && EventFound(db, org, e) && Movable(db.events[e].status, move)
                  && (move == MarkRecovered ==> forall b :: b in db.blockers && db.blockers[b].eventId == e ==> db.blockers[b].resolved))
            && (r.Err? ==> db' == db && r.error == if EventFound(db, org, e) then Conflict else NotFound)
            && (r.Ok? ==>
                  && db'.events.Keys == db.events.Keys && db'.events - {e} == db.events - {e} && db'.blockers == db.blockers
                  && db'.events[e] == db.events[e].(status := db'.events[e].status)
                  && Rank(db'.events[e].status) < Rank(db.events[e].status))
  {
    if EventFound(db, org, e) {
      MovableIsAllowed(db.events[e].status, move);
    }
  }

  /** Where a change leads, and the one record it appends: who did what, and
      where the event came from. */
  lemma MoveIsRecorded(db: Db, org: Id, user: Option<Id>, e: Id, move: Move)
    requires ChangeStatus(db, org, user, e, move).result.Ok?
    ensures var db' := ChangeStatus(db, org, user, e, move).db;
            var was := db.events[e].status;
            var (status, action) := match move
              case StartRecovery => (IN_RECOVERY, RecoveryStarted(DECLARED, IN_RECOVERY))
              case MarkRecovered => (RECOVERED, EventRecovered(IN_RECOVERY, RECOVERED))
              case Cancel => (CANCELLED, EventCancelled(was, CANCELLED));
            && e in db'.events && db'.events[e].status == status
            && db'.audit == db.audit + [AuditRecord(org, user, action, AogEventEntity, e)]
            && Changes(db'.audit, e) == Changes(db.audit, e) + [(was, status)]
  {
    ChangesAppend(db.audit, AuditRecord(org, user, move.Record(db.events[e].status), AogEventEntity, e), e);
  }

  /** A declaration is recorded once, with its aircraft and severity. */
  lemma DeclareIsRecorded(db: Db, org: Id, user: Option<Id>, p: DeclareRequest, e: Id)
    requires Declare(db, org, user, p, e).result.Ok?
    ensures Declare(db, org, user, p, e).db.audit
            == db.audit + [AuditRecord(org, user, AogDeclared(p.aircraftId, p.severity), AogEventEntity, e)]
  {
  }

  /** A general update is recorded once, with the values it carries; one that
      carries nothing neither changes nor records anything. */
  lemma PatchIsRecorded(db: Db, org: Id, user: Option<Id>, e: Id, p: EventPatch)
    requires UpdateEvent(db, org, user, e, p).result.Ok?
    ensures p == EventPatch(Unset, Unset, Unset, Unset) ==> UpdateEvent(db, org, user, e, p).db == db
    ensures p != EventPatch(Unset, Unset, Unset, Unset) ==>
              UpdateEvent(db, org, user, e, p).db.audit
              == db.audit + [AuditRecord(org, user, AogUpdated(match p.severity case Set(Some(s)) => Set(s) case _ => Unset, p.rootCause, p.notes,
                                                               p.owner == Set(None)), AogEventEntity, e)]
  {
  }

  /** Adding and resolving a blocker are each recorded once, on the blocker, with its event. */
  lemma BlockersAreRecorded(db: Db, org: Id, user: Option<Id>, e: Id, p: BlockerRequest, b: Id)
    ensures AddBlocker(db, org, user, e, p, b).result.Ok? ==>
              AddBlocker(db, org, user, e, p, b).db.audit
              == db.audit + [AuditRecord(org, user, BlockerAdded(e, p.blockerType), AogBlockerEntity, b)]
    ensures ResolveBlocker(db, org, user, e, b).result.Ok? ==>
              ResolveBlocker(db, org, user, e, b).db.audit
              == db.audit + [AuditRecord(org, user, BlockerResolved(e), AogBlockerEntity, b)]
  {
  }

  /** Adding a blocker asks only that the event be the organization's; resolving
      one, that it be this event's as well. Resolving twice is as good as once. */
  lemma BlockerCallsSucceedIff(db: Db, org: Id, user: Option<Id>, e: Id, p: BlockerRequest, b: Id)
    ensures var Outcome(db', r) := AddBlocker(db, org, user, e, p, b);
            && (r.Ok? <==> EventFound(db, org, e) && b !in db.blockers)
            && (r.Err? ==> db' == db && r.error == if EventFound(db, org, e) then DatabaseError else NotFound)
            && (r.Ok? ==>
                  && db'.events == db.events && b in db'.blockers && db'.blockers - {b} == db.blockers
                  && HasUnresolved(db', e) && db'.blockers[b].eventId == e && db'.blockers[b].org == org
                  && db'.blockers[b].blockerType == p.blockerType && db'.blockers[b].description == p.description
                  && db'.blockers[b].sourceReference == p.sourceReference)
    ensures var Outcome(db', r) := ResolveBlocker(db, org, user, e, b);
            && (r.Ok? <==> EventFound(db, org, e) && b in db.blockers && db.blockers[b].eventId == e)
            && (r.Err? ==> db' == db && r.error == NotFound)
            && (r.Ok? ==>
                  && db'.events == db.events && db'.blockers.Keys == db.blockers.Keys && db'.blockers - {b} == db.blockers - {b}
                  && db'.blockers[b].resolved && db'.blockers[b] == db.blockers[b].(resolved := true)
                  && ResolveBlocker(db', org, user, e, b).db.blockers == db'.blockers)
  {
    var Outcome(db', r) := AddBlocker(db, org, user, e, p, b);
    if r.Ok? {
      assert !db'.blockers[b].resolved;
    }
  }

  /** A nullable text column after an update that may carry it. */
  predicate Carried(change: Field<Option<string>>, before: Option<string>, after: Option<string>) {
    after == if change.Set? then change.value else before
  }

  /** Each column after a storable patch, and no other changes. */
  ghost predicate ColumnsPatched(e: AogEvent, p: EventPatch, e': AogEvent) {
    && e' == e.(severity := e'.severity, rootCause := e'.rootCause, owner := e'.owner, recoveryNotes := e'.recoveryNotes)
    && Carried(p.severity, Some(e.severity), Some(e'.severity)) && Carried(p.rootCause, e.rootCause, e'.rootCause)
    && Carried(p.notes, e.recoveryNotes, e'.recoveryNotes) && e'.owner == if p.owner.Set? then None else e.owner
  }

  lemma PatchSetsColumns(e: AogEvent, p: EventPatch)
    requires p.Storable()
    ensures ColumnsPatched(e, p, PatchedEvent(e, p))
  {
  }

  /** A general update of an event that exists goes through exactly when it
      neither nulls the severity nor names an owner; it then sets the columns
      it carries and no other, and otherwise nothing at all is stored. */
  lemma PatchCommitsIff(db: Db, org: Id, user: Option<Id>, e: Id, p: EventPatch)
    ensures var Outcome(db', r) := UpdateEvent(db, org, user, e, p);
            && (r.Ok? <==> EventFound(db, org, e) && p.severity != Set(None) && !(p.owner.Set? && p.owner.value.Some?))
            && (r.Err? ==> db' == db && r.error == if EventFound(db, org, e) then DatabaseError else NotFound)
            && (r.Ok? ==>
                  && db'.events.Keys == db.events.Keys && db'.events - {e} == db.events - {e} && db'.blockers == db.blockers
                  && ColumnsPatched(db.events[e], p, db'.events[e]))
  {
    if EventFound(db, org, e) && p.Storable() {
      PatchSetsColumns(db.events[e], p);
    }
  }
}
