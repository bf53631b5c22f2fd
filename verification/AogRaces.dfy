/** Two requests on one AOG event at the same time. A status change reads the
    event and its blockers, and later writes its one column and its record;
    another transaction may commit in between. */
module AogRaces {
  import opened FleetDb
  import opened AogService
  import opened FleetRuns
  import opened AogHistory

  /** The commit of a status change decided on what `seen` showed. Only the
      status column is written; the record names the status that was read. */
  function CommitMove(seen: Db, db: Db, org: Id, user: Option<Id>, eventId: Id, move: Move): Outcome {
    if ChangeStatus(seen, org, user, eventId, move).result.Err? || eventId !in db.events then
      Raise(db, Conflict)
    else
      Outcome(
        db.(events := db.events[eventId := db.events[eventId].(status := move.Target())],
            audit := db.audit + [AuditRecord(org, user, move.Record(seen.events[eventId].status), AogEventEntity, eventId)]),
        Ok(eventId))
  }

  /** If nothing relevant was committed in between, this is the plain call. */
  lemma NoRaceIsSequential(seen: Db, db: Db, org: Id, user: Option<Id>, eventId: Id, move: Move)
    requires ChangeStatus(seen, org, user, eventId, move).result.Ok? && EventFound(db, org, eventId)
    requires seen.events[eventId].status == db.events[eventId].status
    requires move == MarkRecovered ==> !HasUnresolved(db, eventId)
    ensures CommitMove(seen, db, org, user, eventId, move) == ChangeStatus(db, org, user, eventId, move)
  {
  }

  lemma {:induction false} PathEndsOnce(path: seq<(AogStatus, AogStatus)>, a: AogStatus, b: AogStatus)
    requires PathTo(path, a) && PathTo(path, b)
    ensures a == b
  {
  }

  /** The commit lengthens the recorded path of this event, and of no other, by one change. */
  lemma CommitLengthensPath(seen: Db, db: Db, org: Id, user: Option<Id>, eventId: Id, move: Move, e: Id)
    requires EventFound(db, org, eventId) && ChangeStatus(seen, org, user, eventId, move).result.Ok?
    ensures Changes(CommitMove(seen, db, org, user, eventId, move).db.audit, e)
            == Changes(db.audit, e) + if e == eventId then [(seen.events[eventId].status, move.Target())] else []
  {
    ChangesAppend(db.audit, AuditRecord(org, user, move.Record(seen.events[eventId].status), AogEventEntity, eventId), e);
  }

  lemma LongerPath(path: seq<(AogStatus, AogStatus)>, from: AogStatus, to: AogStatus, status: AogStatus)
    requires Allowed(from, to) && PathTo(path, status)
    ensures PathTo(path + [(from, to)], to) <==> from == status
  {
    assert (path + [(from, to)])[..|path|] == path;
    if PathTo(path, from) {
      PathEndsOnce(path, from, status);
    }
  }

  /** The recorded path of the event stays connected exactly when its status
      was not changed between the read and the commit. */
  lemma PathSurvivesRaceIff(seen: Db, db: Db, org: Id, user: Option<Id>, eventId: Id, move: Move)
    requires PathsRecorded(db) && EventFound(db, org, eventId)
    requires ChangeStatus(seen, org, user, eventId, move).result.Ok?
    ensures PathsRecorded(CommitMove(seen, db, org, user, eventId, move).db)
            <==> seen.events[eventId].status == db.events[eventId].status
  {
    var db' := CommitMove(seen, db, org, user, eventId, move).db;
    forall e: Id
      ensures Changes(db'.audit, e) == Changes(db.audit, e) + if e == eventId then [(seen.events[eventId].status, move.Target())] else []
    {
      CommitLengthensPath(seen, db, org, user, eventId, move, e);
    }
    LongerPath(Changes(db.audit, eventId), seen.events[eventId].status, move.Target(), db.events[eventId].status);
    assert PathsRecorded(db') <==> PathTo(Changes(db'.audit, eventId), db'.events[eventId].status) by {
      forall e | e != eventId ensures Changes(db'.audit, e) == Changes(db.audit, e) {}
    }
  }

  /** Open blockers on recovered events stay later than the recovery exactly
      when no recovery is committed over a blocker that is open by then. */
  lemma LatenessSurvivesRaceIff(seen: Db, db: Db, org: Id, user: Option<Id>, eventId: Id, move: Move)
    requires BlockersOwned(db) && OpenBlockersAreLate(db) && EventFound(db, org, eventId)
    requires ChangeStatus(seen, org, user, eventId, move).result.Ok?
    ensures OpenBlockersAreLate(CommitMove(seen, db, org, user, eventId, move).db)
            <==> !(move == MarkRecovered && HasUnresolved(db, eventId))
  {
    var db' := CommitMove(seen, db, org, user, eventId, move).db;
    var r := AuditRecord(org, user, move.Record(seen.events[eventId].status), AogEventEntity, eventId);
    forall e: Id, b: Id
      ensures RecoveredAt(db'.audit, e) == if move == MarkRecovered && e == eventId then |db.audit| else RecoveredAt(db.audit, e)
      ensures AddedAt(db'.audit, b) == AddedAt(db.audit, b) < |db.audit|
    {
      PositionsAppend(db.audit, r, e, b);
      PositionsInLog(db.audit, e, b);
    }
    if move == MarkRecovered && HasUnresolved(db, eventId) {
      var b :| b in db.blockers && db.blockers[b].eventId == eventId && !db.blockers[b].resolved;
      assert OpenOnRecovered(db', b);
    } else {
      forall b | OpenOnRecovered(db', b) ensures RecoveredAt(db'.audit, db'.blockers[b].eventId) < AddedAt(db'.audit, b) {
        assert move == MarkRecovered ==> db'.blockers[b].eventId != eventId;
        assert OpenOnRecovered(db, b);
      }
    }
  }

  lemma ReplayOfMove(db: Db, db': Db, r: AuditRecord, e: Id)
    requires Replayable(db) && e in db.events && r.entityId == e && IsChange(r.action)
    requires db'.events == db.events[e := db.events[e].(status := r.action.toStatus)] && db'.blockers == db.blockers
    requires db'.audit == db.audit + [r]
    ensures Replayable(db')
  {
    ReplayAppend(db.audit, r);
    ChangeTellsAll(db.events, db.blockers, e, r);
  }

  /** Whatever was read and whatever was committed in between, the log still
      tells the tables: a replay reconstructs them even where the path breaks. */
  lemma ReplaySurvivesRace(seen: Db, db: Db, org: Id, user: Option<Id>, eventId: Id, move: Move)
    requires Replayable(db)
    ensures Replayable(CommitMove(seen, db, org, user, eventId, move).db)
  {
    var Outcome(db', r) := CommitMove(seen, db, org, user, eventId, move);
    if r.Ok? {
      ReplayOfMove(db, db', AuditRecord(org, user, move.Record(seen.events[eventId].status), AogEventEntity, eventId), eventId);
    }
  }

  /** A blocker added between the read and the commit is such a case. */
  lemma BlockerSlipsIn(db: Db, org: Id, user: Option<Id>, eventId: Id, p: BlockerRequest, blockerId: Id)
    requires BlockersOwned(db) && OpenBlockersAreLate(db)
    requires ChangeStatus(db, org, user, eventId, MarkRecovered).result.Ok? && blockerId !in db.blockers
    ensures var between := AddBlocker(db, org, user, eventId, p, blockerId).db;
            !OpenBlockersAreLate(CommitMove(db, between, org, user, eventId, MarkRecovered).db)
  {
    var op := OpAddBlocker(org, user, eventId, p, blockerId);
    var between := Step(db, op).db;
    StepKeepsBlockersOwned(db, op);
    StepKeepsLate(db, op);
    assert between.blockers[blockerId].eventId == eventId && !between.blockers[blockerId].resolved;
    LatenessSurvivesRaceIff(db, between, org, user, eventId, MarkRecovered);
  }

  /** A cancellation decided before a recovery starts and committed after it is
      such a case for the recorded path. */
  lemma RecoveryStarts(db: Db, org: Id, user: Option<Id>, e: Id) returns (between: Db)
    requires PathsRecorded(db) && EventFound(db, org, e) && db.events[e].status == DECLARED
    ensures between == ChangeStatus(db, org, user, e, StartRecovery).db && PathsRecorded(between)
    ensures EventFound(between, org, e) && between.events[e].status == IN_RECOVERY
  {
    between := Step(db, OpMove(org, user, e, StartRecovery)).db;
    StepKeepsPaths(db, OpMove(org, user, e, StartRecovery));
  }

  lemma CancelCrossesRecovery(db: Db, org: Id, user: Option<Id>, e: Id)
    requires PathsRecorded(db) && EventFound(db, org, e) && db.events[e].status == DECLARED
    ensures var between := ChangeStatus(db, org, user, e, StartRecovery).db;
            && PathsRecorded(between)
            && CommitMove(db, between, org, user, e, Cancel).result.Ok?
            && !PathsRecorded(CommitMove(db, between, org, user, e, Cancel).db)
  {
    var between := RecoveryStarts(db, org, user, e);
    PathSurvivesRaceIff(db, between, org, user, e, Cancel);
  }

  lemma OneDeclared(p: DeclareRequest) returns (db: Db)
    requires p.aircraftId == 0 && p.workOrderId == None
    ensures db == Run(ONE_AIRCRAFT, [OpDeclare(0, None, p, 1)])
    ensures PathsRecorded(db) && EventFound(db, 0, 1) && db.events[1].status == DECLARED
  {
    var op := OpDeclare(0, None, p, 1);
    assert [op][..0] == [];
    FreshDeployment(ONE_AIRCRAFT);
    StepKeepsPaths(ONE_AIRCRAFT, op);
    db := Step(ONE_AIRCRAFT, op).db;
  }

  /** And it can be reached, from one aircraft and one declaration. */
  lemma PathCanBreak(p: DeclareRequest)
    requires p.aircraftId == 0 && p.workOrderId == None
    ensures var seen := Run(ONE_AIRCRAFT, [OpDeclare(0, None, p, 1)]);
            var between := ChangeStatus(seen, 0, None, 1, StartRecovery).db;
            PathsRecorded(seen) && PathsRecorded(between) && !PathsRecorded(CommitMove(seen, between, 0, None, 1, Cancel).db)
  {
    var seen := OneDeclared(p);
    CancelCrossesRecovery(seen, 0, None, 1);
  }
}
