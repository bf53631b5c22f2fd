/** The generic asset update writes the asset row alone: when the three
    aircraft tables stay in step under it, and over runs that contain it. */
module AssetDrift {
  import opened FleetDb
  import opened AircraftService
  import opened AssetService
  import opened FleetRuns
  import opened Text

  /** The values say of this aircraft what its own row says. */
  predicate Agrees(n: AssetPatch, a: Aircraft) {
    && (n.model.Some? ==> n.model.value == a.aircraftType)
    && (n.serialNumber.Some? ==> n.serialNumber.value == a.msn)
    && (n.status.Some? ==> n.status.value == a.status)
  }

  lemma WrittenInStepIff(db: Db, db': Db, assetId: Id, n: AssetPatch)
    requires InStep(db) && assetId in db.assets
    requires db'.aircraft == db.aircraft && db'.details == db.details && db'.assets == db.assets[assetId := Written(db.assets[assetId], n)]
    ensures InStep(db') <==> forall i :: i in db.aircraft && db.aircraft[i].assetId == Some(assetId) ==> Agrees(n, db.aircraft[i])
  {
    if i :| i in db.aircraft && db.aircraft[i].assetId == Some(assetId) && !Agrees(n, db.aircraft[i]) {
      assert !InStepAt(db'.aircraft[i], db'.assets[assetId], db'.details[assetId]);
    }
  }

  /** The tables stay in step exactly when the asset backs no aircraft, or the
      patch, stripped and upper-cased, repeats what the aircraft row already says. */
  lemma InStepSurvivesIff(db: Db, org: Id, user: Option<Id>, assetId: Id, p: AssetPatch)
    requires InStep(db) && UpdateAsset(db, org, user, assetId, p).result.Ok?
    ensures InStep(UpdateAsset(db, org, user, assetId, p).db)
            <==> forall i :: i in db.aircraft && db.aircraft[i].assetId == Some(assetId) ==> Agrees(Normalized(p), db.aircraft[i])
  {
    if !p.Empty() {
      WrittenInStepIff(db, UpdateAsset(db, org, user, assetId, p).db, assetId, Normalized(p));
    }
  }

  /** A generic asset update, if the call is one, that repeats what the aircraft on the asset says. */
  ghost predicate Repeats(db: Db, op: Op) {
    op.OpUpdateAsset? && Step(db, op).result.Ok? ==>
      forall i :: i in db.aircraft && db.aircraft[i].assetId == Some(op.assetId) ==> Agrees(Normalized(op.asset), db.aircraft[i])
  }

  /** In a run every generic asset update does so when it is made; a run
      without generic asset updates is one such. */
  ghost predicate AllRepeat(db: Db, ops: seq<Op>) {
    ops == [] || (AllRepeat(db, ops[..|ops| - 1]) && Repeats(Run(db, ops[..|ops| - 1]), ops[|ops| - 1]))
  }

  lemma {:induction false} WithoutUpdatesAllRepeat(db: Db, ops: seq<Op>)
    requires forall op :: op in ops ==> !op.OpUpdateAsset?
    ensures AllRepeat(db, ops)
  {
    if ops != [] {
      WithoutUpdatesAllRepeat(db, ops[..|ops| - 1]);
      assert ops[|ops| - 1] in ops;
    }
  }

  /** Whatever the call, the tables stay in step exactly if it is not an update that drifts. */
  lemma StepInStepIff(db: Db, op: Op)
    requires InStep(db)
    ensures InStep(Step(db, op).db) <==> Repeats(db, op)
  {
    if op.OpUpdateAsset? {
      if Step(db, op).result.Ok? {
        InStepSurvivesIff(db, op.org, op.user, op.assetId, op.asset);
      }
    } else {
      StepKeepsInStep(db, op);
    }
  }

  /** Every run in which the generic asset updates only repeat keeps the three
      aircraft tables in step, whatever the AOG tables hold. */
  lemma {:induction false} RunKeepsInStep(db: Db, ops: seq<Op>)
    requires InStep(db) && AllRepeat(db, ops)
    ensures InStep(Run(db, ops))
  {
    if ops != [] {
      RunKeepsInStep(db, ops[..|ops| - 1]);
      StepInStepIff(Run(db, ops[..|ops| - 1]), ops[|ops| - 1]);
    }
  }

  /** Such a run keeps links of events and ownership of blockers as well. */
  lemma RunKeepsSound(db: Db, ops: seq<Op>)
    requires Sound(db) && AllRepeat(db, ops)
    ensures Sound(Run(db, ops))
  {
    RunKeepsInStep(db, ops);
    RunKeepsEventsLinked(db, ops);
    RunKeepsBlockersOwned(db, ops);
  }

  const NO_ROWS := Db(map[], map[], map[], map[], map[], [], map[], map[])

  /** It can fail: one aircraft created, then its asset given another status. */
  lemma DriftReached(p: CreateRequest, status: string)
    requires Upper(Strip(status)) != p.status
    ensures var db := Run(NO_ROWS, [OpCreate(0, None, p, None, 1, 2)]);
            var Outcome(db', r) := UpdateAsset(db, 0, None, 1, AssetPatch(None, None, None, None, Some(status)));
            InStep(db) && r.Ok? && !InStep(db')
  {
    var op, patch := OpCreate(0, None, p, None, 1, 2), AssetPatch(None, None, None, None, Some(status));
    assert [op][..0] == [];
    var db := Step(NO_ROWS, op).db;
    CreateKeepsInStep(NO_ROWS, op);
    assert db.aircraft[2].assetId == Some(1) && !Agrees(Normalized(patch), db.aircraft[2]);
    InStepSurvivesIff(db, 0, None, 1, patch);
  }
}
