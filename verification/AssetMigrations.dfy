/** Migrations 0027 (the asset foundation) and 0031 (asset links on the MRO
    tables), run in place, and the state they hand to the services. */
module AssetMigrations {
  import opened FleetDb
  import opened AssetDrift
  import opened FleetRuns

  /** The aircraft table without its `asset_id` column. */
  function WithoutLinks(aircraft: map<Id, Aircraft>): map<Id, Aircraft> {
    map i | i in aircraft :: aircraft[i].(assetId := None)
  }

  /** The asset inserted for an aircraft: manufacturer, model and serial number stay NULL. */
  function BackfilledAsset(a: Aircraft): Asset {
    Asset(a.org, AIRCRAFT, None, None, None, Some(a.registration), a.status, None, None)
  }

  /** The keys drawn by gen_random_uuid(), one per aircraft row, all different. */
  ghost predicate Drawn(uuid: map<Id, Id>, rows: set<Id>) {
    rows <= uuid.Keys && forall i, j :: i in rows && j in rows && uuid[i] == uuid[j] ==> i == j
  }

  /** The asset table holds exactly one asset for each of the `rows`. */
  ghost predicate AssetsFor(aircraft: map<Id, Aircraft>, rows: set<Id>, uuid: map<Id, Id>, assets: map<Id, Asset>)
    requires rows <= aircraft.Keys && rows <= uuid.Keys
  {
    && (forall i :: i in rows ==> uuid[i] in assets && assets[uuid[i]] == BackfilledAsset(aircraft[i]))
    && (forall s :: s in assets ==> exists i :: i in rows && uuid[i] == s)
  }

  ghost predicate DetailsFor(aircraft: map<Id, Aircraft>, rows: set<Id>, uuid: map<Id, Id>, details: map<Id, AircraftDetail>)
    requires rows <= aircraft.Keys && rows <= uuid.Keys
  {
    && (forall i :: i in rows ==>
          uuid[i] in details && details[uuid[i]] == AircraftDetail(aircraft[i].msn, aircraft[i].aircraftType))
    && (forall s :: s in details ==> exists i :: i in rows && uuid[i] == s)
  }

  /** What the upgrade leaves: every aircraft linked to its own new asset. */
  ghost predicate Backfilled(before: map<Id, Aircraft>, uuid: map<Id, Id>, aircraft: map<Id, Aircraft>, assets: map<Id, Asset>,
                             details: map<Id, AircraftDetail>)
    requires before.Keys <= uuid.Keys
  {
    && aircraft.Keys == before.Keys
    && (forall i :: i in before ==> aircraft[i] == before[i].(assetId := Some(uuid[i])))
    && AssetsFor(before, before.Keys, uuid, assets)
    && DetailsFor(before, before.Keys, uuid, details)
  }

  /** The constraint of migration 0023, restricted to some rows. */
  ghost predicate UniqueAmong(aircraft: map<Id, Aircraft>, rows: set<Id>)
    requires rows <= aircraft.Keys
  {
    forall i, j ::
      (&& i in rows && j in rows && aircraft[i].org == aircraft[j].org
       && aircraft[i].registration == aircraft[j].registration)
      ==> i == j
  }

  lemma WithoutLinksKeepsUnique(aircraft: map<Id, Aircraft>)
    ensures AircraftRegistrationsUnique(WithoutLinks(aircraft)) <==> AircraftRegistrationsUnique(aircraft)
  {
    var bare := WithoutLinks(aircraft);
    assert forall i :: i in aircraft ==> bare[i].org == aircraft[i].org && bare[i].registration == aircraft[i].registration;
    if AircraftRegistrationsUnique(bare) {
      forall i, j | i in aircraft && j in aircraft && aircraft[i].org == aircraft[j].org
                    && aircraft[i].registration == aircraft[j].registration
        ensures i == j
      {
        assert bare[i].org == bare[j].org && bare[i].registration == bare[j].registration;
      }
    }
  }

  /** Organization and registration lead back to the aircraft the asset was made for. */
  lemma MatchIsOwn(aircraft: map<Id, Aircraft>, uuid: map<Id, Id>, assets: map<Id, Asset>, i: Id, s: Id)
    requires aircraft.Keys <= uuid.Keys && AssetsFor(aircraft, aircraft.Keys, uuid, assets)
    requires AircraftRegistrationsUnique(aircraft) && i in aircraft && s in assets
    requires assets[s].org == aircraft[i].org && assets[s].registration == Some(aircraft[i].registration)
    ensures s == uuid[i]
  {
    var j :| j in aircraft && uuid[j] == s;
    assert aircraft[j].org == aircraft[i].org && aircraft[j].registration == aircraft[i].registration;
  }

  /** The unique constraint stops the insert exactly when a row already done has the registration. */
  lemma RegistrationTakenIff(aircraft: map<Id, Aircraft>, done: set<Id>, uuid: map<Id, Id>, assets: map<Id, Asset>, i: Id)
    requires done <= aircraft.Keys && done <= uuid.Keys && AssetsFor(aircraft, done, uuid, assets) && i in aircraft
    ensures AssetHolds(assets, aircraft[i].org, aircraft[i].registration)
            <==> exists j :: j in done && aircraft[j].org == aircraft[i].org && aircraft[j].registration == aircraft[i].registration
  {
    if s :| s in assets && assets[s].org == aircraft[i].org && assets[s].registration == Some(aircraft[i].registration) {
      var j :| j in done && uuid[j] == s;
    }
    if j :| j in done && aircraft[j].org == aircraft[i].org && aircraft[j].registration == aircraft[i].registration {
      assert assets[uuid[j]] == BackfilledAsset(aircraft[j]);
    }
  }

  /** The five queries of the post-backfill DO block: each finds no bad row. */
  predicate IntegrityChecks(aircraft: map<Id, Aircraft>, assets: map<Id, Asset>, details: map<Id, AircraftDetail>) {
    && (forall i :: i in aircraft ==> aircraft[i].assetId.Some?)
    && (forall i :: i in aircraft ==> aircraft[i].assetId.Some? && aircraft[i].assetId.value in details)
    && (forall i :: i in aircraft && aircraft[i].assetId.Some? && aircraft[i].assetId.value in assets ==>
          assets[aircraft[i].assetId.value].assetType == AIRCRAFT)
    && (forall i :: i in aircraft && aircraft[i].assetId.Some? && aircraft[i].assetId.value in assets ==>
          assets[aircraft[i].assetId.value].org == aircraft[i].org)
    && (forall s :: s in details ==> s in assets)
  }

  /** What the checks refuse: an aircraft without a link, a link without a
      detail row, a linked asset of another type or organization, a detail row
      without an asset; and nothing else. */
  lemma ChecksRefuseIff(aircraft: map<Id, Aircraft>, assets: map<Id, Asset>, details: map<Id, AircraftDetail>)
    ensures !IntegrityChecks(aircraft, assets, details)
            <==> || (exists i :: i in aircraft && aircraft[i].assetId == None)
                 || (exists i, s :: i in aircraft && aircraft[i].assetId == Some(s) && s !in details)
                 || (exists i, s :: i in aircraft && aircraft[i].assetId == Some(s) && s in assets && assets[s].assetType != AIRCRAFT)
                 || (exists i, s :: i in aircraft && aircraft[i].assetId == Some(s) && s in assets && assets[s].org != aircraft[i].org)
                 || (exists s :: s in details && s !in assets)
  {
    if i :| i in aircraft && aircraft[i].assetId.Some? && aircraft[i].assetId.value !in details {
      assert aircraft[i].assetId == Some(aircraft[i].assetId.value);
    }
    if i :| i in aircraft && aircraft[i].assetId.Some? && aircraft[i].assetId.value in assets
            && assets[aircraft[i].assetId.value].assetType != AIRCRAFT {
      assert aircraft[i].assetId == Some(aircraft[i].assetId.value);
    }
    if i :| i in aircraft && aircraft[i].assetId.Some? && aircraft[i].assetId.value in assets
            && assets[aircraft[i].assetId.value].org != aircraft[i].org {
      assert aircraft[i].assetId == Some(aircraft[i].assetId.value);
    }
  }

  /** After the three statements of the backfill none of them can raise. */
  lemma BackfillDone(before: map<Id, Aircraft>, uuid: map<Id, Id>, aircraft: map<Id, Aircraft>, assets: map<Id, Asset>,
                     details: map<Id, AircraftDetail>)
    requires before.Keys == aircraft.Keys <= uuid.Keys
    requires forall i :: i in aircraft ==> aircraft[i] == before[i].(assetId := Some(uuid[i]))
    requires AssetsFor(before, before.Keys, uuid, assets) && DetailsFor(aircraft, aircraft.Keys, uuid, details)
    ensures Backfilled(before, uuid, aircraft, assets, details) && IntegrityChecks(aircraft, assets, details)
  {
    forall i | i in aircraft
      ensures uuid[i] in details && details[uuid[i]] == AircraftDetail(before[i].msn, before[i].aircraftType)
      ensures uuid[i] in assets && assets[uuid[i]] == BackfilledAsset(before[i]) && aircraft[i].assetId == Some(uuid[i])
      ensures aircraft[i].org == before[i].org
    {
    }
    forall s | s in details ensures s in assets {
      var i :| i in before && uuid[i] == s;
    }
  }

  /** The WHERE clause of the UPDATE. */
  predicate Matches(asset: Asset, a: Aircraft) {
    asset.assetType == AIRCRAFT && asset.org == a.org && asset.registration == Some(a.registration)
  }

  predicate LinkTaken(aircraft: map<Id, Aircraft>, s: Id) {
    exists k :: k in aircraft && aircraft[k].assetId == Some(s)
  }

  /** The UPDATE has reached every row but those still to do. */
  ghost predicate PartlyLinked(before: map<Id, Aircraft>, uuid: map<Id, Id>, todo: set<Id>, aircraft: map<Id, Aircraft>)
    requires before.Keys <= uuid.Keys
  {
    && aircraft.Keys == before.Keys
    && (forall i :: i in todo && i in before ==> aircraft[i] == before[i])
    && (forall i :: i in before && i !in todo ==> aircraft[i] == before[i].(assetId := Some(uuid[i])))
  }

  /** The match is the row's own asset, and nothing else is linked to it yet. */
  lemma NotTakenYet(before: map<Id, Aircraft>, uuid: map<Id, Id>, todo: set<Id>, aircraft: map<Id, Aircraft>, i: Id)
    requires Drawn(uuid, before.Keys) && todo <= before.Keys && i in todo
    requires forall k :: k in before ==> before[k].assetId == None
    requires PartlyLinked(before, uuid, todo, aircraft)
    ensures !LinkTaken(aircraft, uuid[i])
  {
    forall k | k in aircraft ensures aircraft[k].assetId != Some(uuid[i]) {
      assert k in before;
    }
  }

  lemma OneMoreLinked(before: map<Id, Aircraft>, uuid: map<Id, Id>, todo: set<Id>, aircraft: map<Id, Aircraft>, i: Id)
    requires before.Keys <= uuid.Keys && todo <= before.Keys && i in todo
    requires PartlyLinked(before, uuid, todo, aircraft)
    ensures PartlyLinked(before, uuid, todo - {i}, aircraft[i := aircraft[i].(assetId := Some(uuid[i]))])
  {
  }

  /** The tables that migration 0027 works on. */
  class AssetFoundation {
    var aircraft: map<Id, Aircraft>
    var assets: map<Id, Asset>
    var details: map<Id, AircraftDetail>

    /** INSERT INTO assets SELECT ... FROM aircraft, in any row order. */
    method InsertAssets(uuid: map<Id, Id>) returns (ok: bool)
      requires assets == map[] && Drawn(uuid, aircraft.Keys)
      modifies this`assets
      ensures ok <==> AircraftRegistrationsUnique(aircraft)
      ensures ok ==> AssetsFor(aircraft, aircraft.Keys, uuid, assets)
    {
      var todo, done := aircraft.Keys, {};
      while todo != {}
        invariant todo + done == aircraft.Keys && todo !! done
        invariant AssetsFor(aircraft, done, uuid, assets)
        invariant UniqueAmong(aircraft, done)
        decreases todo
      {
        var i :| i in todo;
        RegistrationTakenIff(aircraft, done, uuid, assets, i);
        if AssetHolds(assets, aircraft[i].org, aircraft[i].registration) {
          return false;
        }
        assets := assets[uuid[i] := BackfilledAsset(aircraft[i])];
        todo, done := todo - {i}, done + {i};
      }
      assert done == aircraft.Keys;
      return true;
    }

    /** UPDATE aircraft SET asset_id = assets.id FROM assets WHERE type,
        organization and registration match, in any row order. */
    method LinkAircraft(uuid: map<Id, Id>) returns (ok: bool)
      requires Drawn(uuid, aircraft.Keys) && AircraftRegistrationsUnique(aircraft)
      requires forall i :: i in aircraft ==> aircraft[i].assetId == None
      requires AssetsFor(aircraft, aircraft.Keys, uuid, assets)
      modifies this`aircraft
      ensures ok && aircraft.Keys == old(aircraft).Keys
      ensures forall i :: i in aircraft ==> aircraft[i] == old(aircraft)[i].(assetId := Some(uuid[i]))
    {
      ghost var before := aircraft;
      var todo := aircraft.Keys;
      while todo != {}
        invariant todo <= before.Keys && PartlyLinked(before, uuid, todo, aircraft)
        decreases todo
      {
        var i :| i in todo;
        var matching := set s | s in assets && Matches(assets[s], aircraft[i]);
        assert uuid[i] in matching;
        var s :| s in matching;
        MatchIsOwn(before, uuid, assets, i, s);
        NotTakenYet(before, uuid, todo, aircraft, i);
        OneMoreLinked(before, uuid, todo, aircraft, i);
        // uq_aircraft_asset_id
        if LinkTaken(aircraft, s) {
          return false;
        }
        aircraft := aircraft[i := aircraft[i].(assetId := Some(s))];
        todo := todo - {i};
      }
      return true;
    }

    /** INSERT INTO aircraft_details SELECT ... WHERE asset_id IS NOT NULL. */
    method InsertDetails(uuid: map<Id, Id>) returns (ok: bool)
      requires details == map[] && Drawn(uuid, aircraft.Keys)
      requires forall i :: i in aircraft ==> aircraft[i].assetId == Some(uuid[i])
      modifies this`details
      ensures ok && DetailsFor(aircraft, aircraft.Keys, uuid, details)
    {
      var todo, done := aircraft.Keys, {};
      while todo != {}
        invariant todo + done == aircraft.Keys && todo !! done
        invariant DetailsFor(aircraft, done, uuid, details)
        decreases todo
      {
        var i :| i in todo;
        if aircraft[i].assetId.Some? {
          var s := aircraft[i].assetId.value;
          if s in details {
            return false;
          }
          details := details[s := AircraftDetail(aircraft[i].msn, aircraft[i].aircraftType)];
        }
        todo, done := todo - {i}, done + {i};
      }
      assert done == aircraft.Keys;
      return true;
    }

    /** The whole upgrade in one transaction. It goes through exactly when no
        organization has two aircraft of one registration, which migration 0023
        guarantees; no integrity check can then raise. If it fails, nothing changes. */
    method Upgrade(uuid: map<Id, Id>) returns (ok: bool)
      requires Drawn(uuid, aircraft.Keys)
      modifies this
      ensures ok <==> AircraftRegistrationsUnique(old(aircraft))
      ensures ok ==> Backfilled(WithoutLinks(old(aircraft)), uuid, aircraft, assets, details)
      ensures !ok ==> aircraft == old(aircraft) && assets == old(assets) && details == old(details)
    {
      var committed := (aircraft, assets, details);
      WithoutLinksKeepsUnique(aircraft);
      assets, details, aircraft := map[], map[], WithoutLinks(aircraft);
      ghost var before := aircraft;
      ok := InsertAssets(uuid);
      if ok { ok := LinkAircraft(uuid); }
      if ok { ok := InsertDetails(uuid); }
      if ok {
        BackfillDone(before, uuid, aircraft, assets, details);
        ok := IntegrityChecks(aircraft, assets, details);
      }
      if !ok {
        aircraft, assets, details := committed.0, committed.1, committed.2;
      }
    }

    /** Drops the column and both tables. */
    method Downgrade()
      modifies this
      ensures aircraft == WithoutLinks(old(aircraft)) && assets == map[] && details == map[]
    {
      aircraft := WithoutLinks(aircraft);
      details := map[];
      assets := map[];
    }
  }

  /** Upgrading and downgrading returns the original aircraft table. */
  method UpgradeThenDowngrade(db: AssetFoundation, uuid: map<Id, Id>)
    requires Drawn(uuid, db.aircraft.Keys) && AircraftRegistrationsUnique(db.aircraft)
    requires forall i :: i in db.aircraft ==> db.aircraft[i].assetId == None
    modifies db
    ensures db.aircraft == old(db.aircraft) && db.assets == map[] && db.details == map[]
  {
    var ok := db.Upgrade(uuid);
    db.Downgrade();
  }

  lemma BackfilledUnique(before: map<Id, Aircraft>, uuid: map<Id, Id>, aircraft: map<Id, Aircraft>, assets: map<Id, Asset>,
                         details: map<Id, AircraftDetail>)
    requires before.Keys <= uuid.Keys && AircraftRegistrationsUnique(before)
    requires Backfilled(before, uuid, aircraft, assets, details)
    ensures AircraftRegistrationsUnique(aircraft) && AssetRegistrationsUnique(assets)
  {
    forall i, j | i in aircraft && j in aircraft && aircraft[i].org == aircraft[j].org && aircraft[i].registration == aircraft[j].registration
      ensures i == j
    {
      assert before[i].org == before[j].org && before[i].registration == before[j].registration;
    }
    forall s, t | s in assets && t in assets && assets[s].org == assets[t].org && assets[s].registration == assets[t].registration
      ensures s == t
    {
      var i :| i in before && uuid[i] == s;
      MatchIsOwn(before, uuid, assets, i, t);
    }
  }

  /** Starting the services on freshly migrated tables starts them in step. */
  lemma MigratedInStep(before: map<Id, Aircraft>, uuid: map<Id, Id>, db: Db)
    requires Drawn(uuid, before.Keys) && AircraftRegistrationsUnique(before)
    requires Backfilled(before, uuid, db.aircraft, db.assets, db.details)
    ensures InStep(db)
  {
    BackfilledUnique(before, uuid, db.aircraft, db.assets, db.details);
    forall i | i in db.aircraft
      ensures uuid[i] in db.assets && uuid[i] in db.details && InStepAt(db.aircraft[i], db.assets[uuid[i]], db.details[uuid[i]])
    {
      assert db.assets[uuid[i]] == BackfilledAsset(before[i]);
    }
  }

  /** What the upgrade leaves for one aircraft, column by column. */
  lemma MigratedColumns(before: map<Id, Aircraft>, uuid: map<Id, Id>, db: Db, i: Id)
    requires before.Keys <= uuid.Keys && Backfilled(before, uuid, db.aircraft, db.assets, db.details) && i in before
    ensures i in db.aircraft && uuid[i] in db.assets && uuid[i] in db.details
    ensures db.aircraft[i] == Aircraft(before[i].org, before[i].registration, before[i].msn, before[i].aircraftType, before[i].status, Some(uuid[i]))
    ensures db.assets[uuid[i]] == Asset(before[i].org, AIRCRAFT, None, None, None, Some(before[i].registration), before[i].status, None, None)
    ensures db.details[uuid[i]] == AircraftDetail(before[i].msn, before[i].aircraftType)
  {
  }

  /** Every migrated aircraft is visible to its organization, and to no other. */
  lemma MigratedVisible(before: map<Id, Aircraft>, uuid: map<Id, Id>, db: Db, i: Id, org: Id)
    requires before.Keys <= uuid.Keys && Backfilled(before, uuid, db.aircraft, db.assets, db.details) && i in before
    ensures Visible(db, org, i) <==> org == before[i].org
  {
    MigratedColumns(before, uuid, db, i);
  }

  // ---- migration 0031 ----

  /** The two columns of an MRO table that the migration deals with. */
  datatype MroRow = MroRow(aircraftId: Option<Id>, assetId: Option<Id>)

  /** The asset of the aircraft a row refers to, if both exist. */
  function AssetBehind(aircraft: map<Id, Aircraft>, aircraftId: Option<Id>): Option<Id> {
    if aircraftId.Some? && aircraftId.value in aircraft then aircraft[aircraftId.value].assetId else None
  }

  /** Every row of a table carries the asset of its aircraft. */
  ghost predicate Repointed(aircraft: map<Id, Aircraft>, before: map<Id, MroRow>, table: map<Id, MroRow>) {
    && table.Keys == before.Keys
    && forall i :: i in before ==> table[i] == MroRow(before[i].aircraftId, AssetBehind(aircraft, before[i].aircraftId))
  }

  /** A repointed row keeps its aircraft, and has an asset exactly if that
      aircraft exists and has one: then the same. */
  lemma RepointedRow(aircraft: map<Id, Aircraft>, before: map<Id, MroRow>, table: map<Id, MroRow>, i: Id, s: Id)
    requires Repointed(aircraft, before, table) && i in before
    ensures i in table && table[i].aircraftId == before[i].aircraftId
    ensures table[i].assetId == Some(s) <==> exists a :: a in aircraft && before[i].aircraftId == Some(a) && aircraft[a].assetId == Some(s)
  {
  }

  class MroTables {
    const aircraft: map<Id, Aircraft>
    /** work_orders, aog_events, ..., purchase_orders: eight tables. */
    var tables: seq<map<Id, MroRow>>

    constructor (aircraft: map<Id, Aircraft>, tables: seq<map<Id, MroRow>>)
      ensures this.aircraft == aircraft && this.tables == tables
    {
      this.aircraft, this.tables := aircraft, tables;
    }

    /** For each table: add a NULL column, then UPDATE it FROM aircraft where
        the aircraft has an asset. */
    method Upgrade()
      modifies this
      ensures |tables| == |old(tables)|
      ensures forall k :: 0 <= k < |tables| ==> Repointed(aircraft, old(tables)[k], tables[k])
    {
      ghost var before := tables;
      for k := 0 to |tables|
        invariant |tables| == |before|
        invariant forall m :: 0 <= m < k ==> Repointed(aircraft, before[m], tables[m])
        invariant forall m :: k <= m < |tables| ==> tables[m] == before[m]
      {
        var table := map i | i in tables[k] :: MroRow(tables[k][i].aircraftId, None);
        var todo := table.Keys;
        while todo != {}
          invariant table.Keys == before[k].Keys && todo <= table.Keys
          invariant forall i :: i in table ==> table[i].aircraftId == before[k][i].aircraftId
          invariant forall i :: i in todo ==> table[i].assetId == None
          invariant forall i :: i in table && i !in todo ==> table[i].assetId == AssetBehind(aircraft, table[i].aircraftId)
          decreases todo
        {
          var i :| i in todo;
          var a := table[i].aircraftId;
          if a.Some? && a.value in aircraft && aircraft[a.value].assetId.Some? {
            table := table[i := table[i].(assetId := aircraft[a.value].assetId)];
          }
          todo := todo - {i};
        }
        tables := tables[k := table];
      }
    }
  }

  /** The aog_events table as the migration sees it. */
  function AogRows(events: map<Id, AogEvent>): map<Id, MroRow> {
    map e | e in events :: MroRow(Some(events[e].aircraftId), events[e].assetId)
  }

  /** Whatever the aircraft tables hold when migration 0031 runs, aircraft
      without an asset included, after it and any later run of service calls
      every AOG event carries the asset link of its aircraft. */
  lemma LinksNeverDrift(old0031: map<Id, MroRow>, db: Db, ops: seq<Op>)
    requires Repointed(db.aircraft, old0031, AogRows(db.events))
    requires forall e :: e in db.events ==>
               db.events[e].aircraftId in db.aircraft && db.events[e].org == db.aircraft[db.events[e].aircraftId].org
    ensures EventsLinked(Run(db, ops))
  {
    forall e | e in db.events ensures db.events[e].assetId == db.aircraft[db.events[e].aircraftId].assetId {
      assert e in AogRows(db.events) && AogRows(db.events)[e].assetId == db.events[e].assetId;
    }
    RunKeepsEventsLinked(db, ops);
  }

  /** From the tables migration 0027 leaves, every run of service calls whose
      generic asset updates only repeat keeps the three aircraft tables in step. */
  lemma MigratedStaysInStep(before: map<Id, Aircraft>, uuid: map<Id, Id>, db: Db, ops: seq<Op>)
    requires Drawn(uuid, before.Keys) && AircraftRegistrationsUnique(before)
    requires Backfilled(before, uuid, db.aircraft, db.assets, db.details) && AllRepeat(db, ops)
    ensures InStep(Run(db, ops))
  {
    MigratedInStep(before, uuid, db);
    RunKeepsInStep(db, ops);
  }
}
