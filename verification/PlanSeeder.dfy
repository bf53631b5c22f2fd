/** The idempotent seeder of commercial plans: plans by code, and below each
    plan its features and limits by key. */
module PlanSeeder {
  import opened FleetDb

  datatype Plan = Plan(
    code: string, name: string, description: string, assetScope: string, isActive: bool, suiteId: Option<Id>)

  /** A row of `plan_features` (V is the flag) or `plan_limits` (V is the limit). */
  datatype Keyed<V> = Keyed(planId: Id, key: string, value: V)

  datatype Limit = Limit(limitValue: Option<int>, isUnlimited: bool)

  datatype PlanSpec = PlanSpec(
    code: string, name: string, description: string, assetScope: string, isActive: bool,
    features: seq<(string, bool)>, limits: seq<(string, Option<int>)>)

  /** `is_unlimited=False if limit_val is not None else True` */
  function ToLimit(v: Option<int>): Limit {
    Limit(v, v.None?)
  }

  function ToLimits(limits: seq<(string, Option<int>)>): (r: seq<(string, Limit)>)
    ensures |r| == |limits|
    ensures forall i :: 0 <= i < |r| ==>
              r[i].0 == limits[i].0 && r[i].1.limitValue == limits[i].1 && (r[i].1.isUnlimited <==> limits[i].1.None?)
  {
    seq(|limits|, i requires 0 <= i < |limits| => (limits[i].0, ToLimit(limits[i].1)))
  }

  /** The unique constraint on (plan_id, key). */
  ghost predicate KeysUnique<V>(rows: map<Id, Keyed<V>>) {
    forall r, s ::
      (r in rows && s in rows && rows[r].planId == rows[s].planId && rows[r].key == rows[s].key) ==> r == s
  }

  /** The keys of a Python dict. */
  ghost predicate DistinctKeys<V>(list: seq<(string, V)>) {
    forall i, j :: 0 <= i < j < |list| ==> list[i].0 != list[j].0
  }

  predicate Listed<V>(list: seq<(string, V)>, key: string) {
    exists i :: 0 <= i < |list| && list[i].0 == key
  }

  /** The plan has a row with this key and value. */
  ghost predicate Has<V>(rows: map<Id, Keyed<V>>, planId: Id, key: string, value: V) {
    exists r :: r in rows && rows[r] == Keyed(planId, key, value)
  }

  ghost predicate HasAll<V>(rows: map<Id, Keyed<V>>, planId: Id, list: seq<(string, V)>) {
    forall i :: 0 <= i < |list| ==> Has(rows, planId, list[i].0, list[i].1)
  }

  /** Old rows stay, with their keys; those of other plans or of keys not
      listed stay as they are; new rows are for listed keys of this plan. */
  ghost predicate OnlyListedChanged<V>(before: map<Id, Keyed<V>>, after: map<Id, Keyed<V>>, planId: Id, list: seq<(string, V)>) {
    && (forall r :: r in before ==>
          && r in after && after[r].planId == before[r].planId && after[r].key == before[r].key
          && (before[r].planId != planId || !Listed(list, before[r].key) ==> after[r] == before[r]))
    && (forall r :: r in after && r !in before ==> after[r].planId == planId && Listed(list, after[r].key))
  }

  /** The row of this plan and key, if there is one. */
  ghost predicate IsRowOf<V>(rows: map<Id, Keyed<V>>, planId: Id, key: string, found: Option<Id>) {
    match found
    case Some(r) => r in rows && rows[r].planId == planId && rows[r].key == key
    case None => forall r :: r in rows ==> !(rows[r].planId == planId && rows[r].key == key)
  }

  /** Only the row of this plan and key may differ, and it may be new. */
  ghost predicate OnlyChanged<V>(before: map<Id, Keyed<V>>, after: map<Id, Keyed<V>>, planId: Id, key: string) {
    && (forall r :: r in before ==> r in after && after[r].planId == before[r].planId && after[r].key == before[r].key)
    && (forall r :: r in before && (before[r].planId != planId || before[r].key != key) ==> after[r] == before[r])
    && (forall r :: r in after && r !in before ==> after[r].planId == planId && after[r].key == key)
  }

  method UpsertOne<V>(rows: map<Id, Keyed<V>>, nextId: Id, planId: Id, key: string, value: V, found: Option<Id>)
    returns (rows': map<Id, Keyed<V>>, nextId': Id)
    requires KeysUnique(rows) && (forall r :: r in rows ==> r < nextId) && IsRowOf(rows, planId, key, found)
    ensures KeysUnique(rows') && nextId <= nextId' && forall r :: r in rows' ==> r < nextId'
    ensures Has(rows', planId, key, value) && OnlyChanged(rows, rows', planId, key)
    ensures Has(rows, planId, key, value) ==> rows' == rows
  {
    match found
    case Some(r) =>
      rows', nextId' := rows[r := rows[r].(value := value)], nextId;
      assert rows'[r] == Keyed(planId, key, value);
    case None =>
      rows', nextId' := rows[nextId := Keyed(planId, key, value)], nextId + 1;
      assert rows'[nextId] == Keyed(planId, key, value);
  }

  /** The inner loop of the seeder, once over the features of a plan and once
      over its limits: overwrite the rows that exist, insert the others. */
  method UpsertAll<V>(rows: map<Id, Keyed<V>>, nextId: Id, planId: Id, list: seq<(string, V)>)
    returns (rows': map<Id, Keyed<V>>, nextId': Id)
    requires KeysUnique(rows) && DistinctKeys(list) && forall r :: r in rows ==> r < nextId
    ensures KeysUnique(rows') && nextId <= nextId' && forall r :: r in rows' ==> r < nextId'
    ensures HasAll(rows', planId, list)
    ensures OnlyListedChanged(rows, rows', planId, list)
    ensures HasAll(rows, planId, list) ==> rows' == rows
  {
    var existing := map r | r in rows && rows[r].planId == planId :: rows[r].key := r;
    rows', nextId' := rows, nextId;
    for k := 0 to |list|
      invariant KeysUnique(rows') && nextId <= nextId' && forall r :: r in rows' ==> r < nextId'
      invariant HasAll(rows', planId, list[..k]) && OnlyListedChanged(rows, rows', planId, list[..k])
      invariant HasAll(rows, planId, list) ==> rows' == rows
    {
      var (key, value) := list[k];
      var found := if key in existing then Some(existing[key]) else None;
      NotListedYet(rows, rows', planId, list, k, found);
      ghost var was := rows';
      rows', nextId' := UpsertOne(rows', nextId', planId, key, value, found);
      OneMoreListed(rows, was, rows', planId, list, k);
      assert HasAll(rows, planId, list) ==> Has(rows, planId, list[k].0, list[k].1);
    }
    assert list[..|list|] == list;
  }

  lemma NotListedYet<V>(rows: map<Id, Keyed<V>>, was: map<Id, Keyed<V>>, planId: Id, list: seq<(string, V)>, k: nat, found: Option<Id>)
    requires k < |list| && DistinctKeys(list) && OnlyListedChanged(rows, was, planId, list[..k])
    requires IsRowOf(rows, planId, list[k].0, found)
    ensures IsRowOf(was, planId, list[k].0, found)
  {
    assert forall i :: 0 <= i < k ==> list[..k][i].0 != list[k].0;
    assert !Listed(list[..k], list[k].0);
  }

  lemma OneMoreListed<V>(rows: map<Id, Keyed<V>>, was: map<Id, Keyed<V>>, now: map<Id, Keyed<V>>, planId: Id, list: seq<(string, V)>, k: nat)
    requires k < |list| && DistinctKeys(list)
    requires HasAll(was, planId, list[..k]) && OnlyListedChanged(rows, was, planId, list[..k])
    requires Has(now, planId, list[k].0, list[k].1) && OnlyChanged(was, now, planId, list[k].0)
    ensures HasAll(now, planId, list[..k + 1]) && OnlyListedChanged(rows, now, planId, list[..k + 1])
  {
    var upTo, before := list[..k + 1], list[..k];
    assert forall i :: 0 <= i < k ==> upTo[i] == before[i];
    forall i | 0 <= i < |upTo| ensures Has(now, planId, upTo[i].0, upTo[i].1) {
      if i < k {
        assert Has(was, planId, before[i].0, before[i].1);
        var r :| r in was && was[r] == Keyed(planId, before[i].0, before[i].1);
        assert now[r] == was[r];
      }
    }
    forall key | Listed(before, key) || key == list[k].0 ensures Listed(upTo, key) {
      if Listed(before, key) {
        var i :| 0 <= i < |before| && before[i].0 == key;
        assert upTo[i].0 == key;
      } else {
        assert upTo[k].0 == key;
      }
    }
  }

  // ---- the catalog of plans ----

  datatype Catalog = Catalog(plans: map<Id, Plan>, features: map<Id, Keyed<bool>>, limits: map<Id, Keyed<Limit>>)

  /** The unique constraint on plans.code. */
  ghost predicate CodesUnique(plans: map<Id, Plan>) {
    forall i, j :: i in plans && j in plans && plans[i].code == plans[j].code ==> i == j
  }

  ghost predicate ValidCatalog(c: Catalog, nextId: Id) {
    && CodesUnique(c.plans) && KeysUnique(c.features) && KeysUnique(c.limits)
    && (forall i :: i in c.plans ==> i < nextId)
    && (forall r :: r in c.features ==> r < nextId)
    && (forall r :: r in c.limits ==> r < nextId)
  }

  ghost predicate ValidSpec(s: PlanSpec) {
    DistinctKeys(s.features) && DistinctKeys(s.limits)
  }

  ghost predicate DistinctCodes(specs: seq<PlanSpec>) {
    forall i, j :: 0 <= i < j < |specs| ==> specs[i].code != specs[j].code
  }

  predicate PlanIs(p: Plan, s: PlanSpec) {
    p.code == s.code && p.name == s.name && p.description == s.description && p.assetScope == s.assetScope && p.isActive == s.isActive
  }

  ghost predicate SeededAt(c: Catalog, s: PlanSpec, id: Id) {
    id in c.plans && PlanIs(c.plans[id], s) && HasAll(c.features, id, s.features) && HasAll(c.limits, id, ToLimits(s.limits))
  }

  /** The listed plan, and each listed feature and limit of it, hold exactly the spec's values. */
  ghost predicate Seeded(c: Catalog, s: PlanSpec) {
    exists id :: SeededAt(c, s, id)
  }

  ghost predicate AllSeeded(c: Catalog, specs: seq<PlanSpec>) {
    forall s :: s in specs ==> Seeded(c, s)
  }

  predicate CodeListed(specs: seq<PlanSpec>, code: string) {
    exists i :: 0 <= i < |specs| && specs[i].code == code
  }

  predicate FeatureListed(plans: map<Id, Plan>, specs: seq<PlanSpec>, planId: Id, key: string) {
    planId in plans && exists i :: 0 <= i < |specs| && specs[i].code == plans[planId].code && Listed(specs[i].features, key)
  }

  predicate LimitListed(plans: map<Id, Plan>, specs: seq<PlanSpec>, planId: Id, key: string) {
    planId in plans && exists i :: 0 <= i < |specs| && specs[i].code == plans[planId].code && Listed(specs[i].limits, key)
  }

  /** Nothing that is not listed changes, no row disappears or changes its
      identity, and new rows are for listed plans, features and limits. */
  ghost predicate PlansFrame(b: Catalog, a: Catalog, specs: seq<PlanSpec>) {
    && (forall i :: i in b.plans ==>
          && i in a.plans && a.plans[i].code == b.plans[i].code && a.plans[i].suiteId == b.plans[i].suiteId
          && (!CodeListed(specs, b.plans[i].code) ==> a.plans[i] == b.plans[i]))
    && (forall i :: i in a.plans && i !in b.plans ==> CodeListed(specs, a.plans[i].code) && a.plans[i].suiteId == None)
  }

  ghost predicate FeaturesFrame(b: Catalog, a: Catalog, specs: seq<PlanSpec>) {
    && (forall r :: r in b.features ==>
          && r in a.features && a.features[r].planId == b.features[r].planId && a.features[r].key == b.features[r].key
          && (!FeatureListed(a.plans, specs, b.features[r].planId, b.features[r].key) ==> a.features[r] == b.features[r]))
    && (forall r :: r in a.features && r !in b.features ==> FeatureListed(a.plans, specs, a.features[r].planId, a.features[r].key))
  }

  ghost predicate LimitsFrame(b: Catalog, a: Catalog, specs: seq<PlanSpec>) {
    && (forall r :: r in b.limits ==>
          && r in a.limits && a.limits[r].planId == b.limits[r].planId && a.limits[r].key == b.limits[r].key
          && (!LimitListed(a.plans, specs, b.limits[r].planId, b.limits[r].key) ==> a.limits[r] == b.limits[r]))
    && (forall r :: r in a.limits && r !in b.limits ==> LimitListed(a.plans, specs, a.limits[r].planId, a.limits[r].key))
  }

  ghost predicate Frame(b: Catalog, a: Catalog, specs: seq<PlanSpec>) {
    PlansFrame(b, a, specs) && FeaturesFrame(b, a, specs) && LimitsFrame(b, a, specs)
  }

  lemma ListedInPart(plans: map<Id, Plan>, later: map<Id, Plan>, xs: seq<PlanSpec>, ys: seq<PlanSpec>, planId: Id, key: string, code: string)
    requires planId in plans ==> planId in later && later[planId].code == plans[planId].code
    ensures CodeListed(xs, code) || CodeListed(ys, code) ==> CodeListed(xs + ys, code)
    ensures FeatureListed(plans, xs, planId, key) || FeatureListed(later, ys, planId, key) ==> FeatureListed(later, xs + ys, planId, key)
    ensures LimitListed(plans, xs, planId, key) || LimitListed(later, ys, planId, key) ==> LimitListed(later, xs + ys, planId, key)
  {
    var all := xs + ys;
    assert forall i :: 0 <= i < |xs| ==> all[i] == xs[i];
    assert forall i :: 0 <= i < |ys| ==> all[|xs| + i] == ys[i];
  }

  lemma PlansCompose(b: Catalog, m: Catalog, a: Catalog, xs: seq<PlanSpec>, ys: seq<PlanSpec>)
    requires PlansFrame(b, m, xs) && PlansFrame(m, a, ys)
    ensures PlansFrame(b, a, xs + ys)
  {
    forall code ensures CodeListed(xs, code) || CodeListed(ys, code) ==> CodeListed(xs + ys, code) {
      ListedInPart(map[], map[], xs, ys, 0, "", code);
    }
    forall i | i in a.plans && i !in b.plans ensures CodeListed(xs + ys, a.plans[i].code) {
      assert i in m.plans ==> a.plans[i].code == m.plans[i].code;
    }
  }

  lemma FeaturesCompose(b: Catalog, m: Catalog, a: Catalog, xs: seq<PlanSpec>, ys: seq<PlanSpec>)
    requires PlansFrame(m, a, ys) && FeaturesFrame(b, m, xs) && FeaturesFrame(m, a, ys)
    ensures FeaturesFrame(b, a, xs + ys)
  {
    forall planId: Id, key
      ensures FeatureListed(m.plans, xs, planId, key) || FeatureListed(a.plans, ys, planId, key) ==> FeatureListed(a.plans, xs + ys, planId, key)
    {
      ListedInPart(m.plans, a.plans, xs, ys, planId, key, "");
    }
    forall r | r in a.features && r !in b.features ensures FeatureListed(a.plans, xs + ys, a.features[r].planId, a.features[r].key) {
      assert r in m.features ==> a.features[r].planId == m.features[r].planId && a.features[r].key == m.features[r].key;
    }
  }

  lemma LimitsCompose(b: Catalog, m: Catalog, a: Catalog, xs: seq<PlanSpec>, ys: seq<PlanSpec>)
    requires PlansFrame(m, a, ys) && LimitsFrame(b, m, xs) && LimitsFrame(m, a, ys)
    ensures LimitsFrame(b, a, xs + ys)
  {
    forall planId: Id, key
      ensures LimitListed(m.plans, xs, planId, key) || LimitListed(a.plans, ys, planId, key) ==> LimitListed(a.plans, xs + ys, planId, key)
    {
      ListedInPart(m.plans, a.plans, xs, ys, planId, key, "");
    }
    forall r | r in a.limits && r !in b.limits ensures LimitListed(a.plans, xs + ys, a.limits[r].planId, a.limits[r].key) {
      assert r in m.limits ==> a.limits[r].planId == m.limits[r].planId && a.limits[r].key == m.limits[r].key;
    }
  }

  lemma FramesCompose(b: Catalog, m: Catalog, a: Catalog, xs: seq<PlanSpec>, ys: seq<PlanSpec>)
    requires Frame(b, m, xs) && Frame(m, a, ys)
    ensures Frame(b, a, xs + ys)
  {
    PlansCompose(b, m, a, xs, ys);
    FeaturesCompose(b, m, a, xs, ys);
    LimitsCompose(b, m, a, xs, ys);
  }

  /** What a seeded plan holds, value by value. */
  lemma SeededValues(c: Catalog, s: PlanSpec) returns (id: Id)
    requires Seeded(c, s)
    ensures id in c.plans && c.plans[id] == Plan(s.code, s.name, s.description, s.assetScope, s.isActive, c.plans[id].suiteId)
    ensures forall i :: 0 <= i < |s.features| ==> Has(c.features, id, s.features[i].0, s.features[i].1)
    ensures forall i :: 0 <= i < |s.limits| ==> Has(c.limits, id, s.limits[i].0, Limit(s.limits[i].1, s.limits[i].1 == None))
  {
    id :| SeededAt(c, s, id);
    forall i | 0 <= i < |s.limits| ensures Has(c.limits, id, s.limits[i].0, Limit(s.limits[i].1, s.limits[i].1 == None)) {
      var l := ToLimits(s.limits)[i];
      assert Has(c.limits, id, l.0, l.1) && l.1 == Limit(s.limits[i].1, s.limits[i].1 == None);
    }
  }

  /** Seeding one plan leaves what was seeded for another. */
  lemma SeededPersists(m: Catalog, a: Catalog, s: PlanSpec, t: PlanSpec)
    requires Seeded(m, t) && Frame(m, a, [s]) && s.code != t.code
    ensures Seeded(a, t)
  {
    var id :| SeededAt(m, t, id);
    assert !CodeListed([s], t.code);
    forall i | 0 <= i < |t.features| ensures Has(a.features, id, t.features[i].0, t.features[i].1) {
      assert Has(m.features, id, t.features[i].0, t.features[i].1);
      var r :| r in m.features && m.features[r] == Keyed(id, t.features[i].0, t.features[i].1);
      assert a.features[r] == m.features[r];
    }
    forall i | 0 <= i < |t.limits| ensures Has(a.limits, id, ToLimits(t.limits)[i].0, ToLimits(t.limits)[i].1) {
      assert Has(m.limits, id, ToLimits(t.limits)[i].0, ToLimits(t.limits)[i].1);
      var r :| r in m.limits && m.limits[r] == Keyed(id, ToLimits(t.limits)[i].0, ToLimits(t.limits)[i].1);
      assert a.limits[r] == m.limits[r];
    }
    assert SeededAt(a, t, id);
  }

  lemma RoundDone(b: Catalog, m: Catalog, a: Catalog, specs: seq<PlanSpec>, k: nat)
    requires k < |specs| && DistinctCodes(specs)
    requires Frame(b, m, specs[..k]) && AllSeeded(m, specs[..k])
    requires Frame(m, a, [specs[k]]) && Seeded(a, specs[k])
    ensures Frame(b, a, specs[..k + 1]) && AllSeeded(a, specs[..k + 1])
  {
    FramesCompose(b, m, a, specs[..k], [specs[k]]);
    assert specs[..k + 1] == specs[..k] + [specs[k]];
    forall s | s in specs[..k + 1] ensures Seeded(a, s) {
      if s in specs[..k] {
        SeededPersists(m, a, specs[k], s);
      }
    }
  }

  lemma DistinctLimits(s: PlanSpec)
    requires ValidSpec(s)
    ensures DistinctKeys(ToLimits(s.limits))
    ensures forall key :: Listed(ToLimits(s.limits), key) <==> Listed(s.limits, key)
  {
    var l := ToLimits(s.limits);
    assert forall i :: 0 <= i < |l| ==> l[i].0 == s.limits[i].0;
  }

  class PlanDatabase {
    var plans: map<Id, Plan>
    var features: map<Id, Keyed<bool>>
    var limits: map<Id, Keyed<Limit>>
    /** The next key the database will generate. */
    var nextId: Id

    ghost function Contents(): Catalog
      reads this
    {
      Catalog(plans, features, limits)
    }

    /** Looks the plan up by code; overwrites what the spec says, or inserts it. */
    method UpsertPlan(s: PlanSpec) returns (id: Id)
      requires ValidCatalog(Contents(), nextId)
      modifies this`plans, this`nextId
      ensures ValidCatalog(Contents(), nextId) && nextId >= old(nextId)
      ensures id in plans && PlanIs(plans[id], s)
      ensures PlansFrame(old(Contents()), Contents(), [s])
      ensures forall i :: i in old(plans) && PlanIs(old(plans)[i], s) ==> i == id && plans == old(plans)
    {
      assert [s][0] == s && CodeListed([s], s.code);
      if i :| i in plans && plans[i].code == s.code {
        id := i;
        plans := plans[id := plans[id].(name := s.name, description := s.description, assetScope := s.assetScope, isActive := s.isActive)];
      } else {
        id := nextId;
        plans := plans[id := Plan(s.code, s.name, s.description, s.assetScope, s.isActive, None)];
        nextId := nextId + 1;
      }
    }

    /** One round of the outer loop. */
    method SeedPlan(s: PlanSpec)
      requires ValidCatalog(Contents(), nextId) && ValidSpec(s)
      modifies this
      ensures ValidCatalog(Contents(), nextId)
      ensures Seeded(Contents(), s) && Frame(old(Contents()), Contents(), [s])
      ensures Seeded(old(Contents()), s) ==> Contents() == old(Contents())
    {
      ghost var before := Contents();
      var id := UpsertPlan(s);
      ghost var withPlan := Contents();
      DistinctLimits(s);
      features, nextId := UpsertAll(features, nextId, id, s.features);
      limits, nextId := UpsertAll(limits, nextId, id, ToLimits(s.limits));
      assert SeededAt(Contents(), s, id);
      SeededFrame(before, withPlan, Contents(), s, id);
    }

    /** The whole seeder. Afterwards every listed plan, feature and limit holds
        the spec's values; keys stay unique; nothing unlisted changes; and a
        database that already holds them is left exactly as it is. */
    method SeedPlans(specs: seq<PlanSpec>)
      requires ValidCatalog(Contents(), nextId) && DistinctCodes(specs) && forall s :: s in specs ==> ValidSpec(s)
      modifies this
      ensures ValidCatalog(Contents(), nextId)
      ensures AllSeeded(Contents(), specs) && Frame(old(Contents()), Contents(), specs)
      ensures AllSeeded(old(Contents()), specs) ==> Contents() == old(Contents())
    {
      ghost var before := Contents();
      for k := 0 to |specs|
        invariant ValidCatalog(Contents(), nextId)
        invariant AllSeeded(Contents(), specs[..k]) && Frame(before, Contents(), specs[..k])
        invariant AllSeeded(before, specs) ==> Contents() == before
      {
        ghost var mid := Contents();
        SeedPlan(specs[k]);
        RoundDone(before, mid, Contents(), specs, k);
      }
      assert specs[..|specs|] == specs;
    }

    /** Running the seeder a second time changes nothing. */
    method SeedPlansTwice(specs: seq<PlanSpec>) returns (ghost once: Catalog)
      requires ValidCatalog(Contents(), nextId) && DistinctCodes(specs) && forall s :: s in specs ==> ValidSpec(s)
      modifies this
      ensures Contents() == once && AllSeeded(once, specs)
    {
      SeedPlans(specs);
      once := Contents();
      SeedPlans(specs);
    }
  }

  lemma SeededFrame(before: Catalog, withPlan: Catalog, after: Catalog, s: PlanSpec, id: Id)
    requires id in withPlan.plans && withPlan.plans[id].code == s.code && after.plans == withPlan.plans
    requires PlansFrame(before, withPlan, [s]) && withPlan.features == before.features && withPlan.limits == before.limits
    requires OnlyListedChanged(before.features, after.features, id, s.features)
    requires OnlyListedChanged(before.limits, after.limits, id, ToLimits(s.limits))
    requires forall key :: Listed(ToLimits(s.limits), key) <==> Listed(s.limits, key)
    ensures Frame(before, after, [s])
  {
    forall key ensures Listed(s.features, key) ==> FeatureListed(after.plans, [s], id, key) {
      assert [s][0] == s;
    }
    forall key ensures Listed(s.limits, key) ==> LimitListed(after.plans, [s], id, key) {
      assert [s][0] == s;
    }
  }
}
