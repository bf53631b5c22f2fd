/** The get-or-create seeder of the product catalog: suites, their modules, and
    each module's pages and features, all looked up by code. */
module CatalogSeeder {
  import opened FleetDb

  datatype Spec = Spec(code: string, name: string, description: string, route: Option<string>)

  /** A row of one of the four tables; suites have no parent. */
  datatype Row = Row(spec: Spec, parent: Option<Id>)

  type Table = map<Id, Row>

  datatype Entry = Entry(suite: Spec, moduleSpec: Spec, page: Spec, feature: Spec)

  /** The four tables and the next key the database will generate. */
  datatype Catalog = Catalog(suites: Table, modules: Table, pages: Table, features: Table, nextId: Id)

  /** The unique constraint on `code`. */
  ghost predicate CodesUnique(t: Table) {
    forall i, j :: i in t && j in t && t[i].spec.code == t[j].spec.code ==> i == j
  }

  predicate HasCode(t: Table, code: string) {
    exists i :: i in t && t[i].spec.code == code
  }

  ghost function FindCode(t: Table, code: string): (r: Id)
    requires HasCode(t, code)
    ensures r in t && t[r].spec.code == code
  {
    var i :| i in t && t[i].spec.code == code; i
  }

  ghost predicate ParentsIn(t: Table, parents: Table) {
    forall i :: i in t ==> t[i].parent.Some? && t[i].parent.value in parents
  }

  ghost predicate Below(t: Table, bound: Id) {
    forall i :: i in t ==> i < bound
  }

  ghost predicate Valid(c: Catalog) {
    && CodesUnique(c.suites) && CodesUnique(c.modules) && CodesUnique(c.pages) && CodesUnique(c.features)
    && Below(c.suites, c.nextId) && Below(c.modules, c.nextId) && Below(c.pages, c.nextId) && Below(c.features, c.nextId)
    && ParentsIn(c.modules, c.suites) && ParentsIn(c.pages, c.modules) && ParentsIn(c.features, c.modules)
  }

  /** Existing rows are never changed or removed. */
  ghost predicate Extends(a: Table, b: Table) {
    forall i :: i in a ==> i in b && b[i] == a[i]
  }

  ghost predicate OnlyAdds(a: Catalog, b: Catalog) {
    Extends(a.suites, b.suites) && Extends(a.modules, b.modules) && Extends(a.pages, b.pages) && Extends(a.features, b.features)
  }

  /** The four rows an entry asks for exist. */
  ghost predicate Present(c: Catalog, e: Entry) {
    HasCode(c.suites, e.suite.code) && HasCode(c.modules, e.moduleSpec.code)
    && HasCode(c.pages, e.page.code) && HasCode(c.features, e.feature.code)
  }

  // ---- what the seeder does, as a function ----

  /** What `_get_or_create_*` leaves: the table, the row's key, the next key. */
  datatype Got = Got(table: Table, id: Id, nextId: Id)

  ghost function Ensured(t: Table, spec: Spec, parent: Option<Id>, nextId: Id): Got {
    if HasCode(t, spec.code) then Got(t, FindCode(t, spec.code), nextId)
    else Got(t[nextId := Row(spec, parent)], nextId, nextId + 1)
  }

  ghost function SeedEntry(c: Catalog, e: Entry): Catalog {
    var s := Ensured(c.suites, e.suite, None, c.nextId);
    var m := Ensured(c.modules, e.moduleSpec, Some(s.id), s.nextId);
    var p := Ensured(c.pages, e.page, Some(m.id), m.nextId);
    var f := Ensured(c.features, e.feature, Some(m.id), p.nextId);
    Catalog(s.table, m.table, p.table, f.table, f.nextId)
  }

  ghost function Seed(c: Catalog, entries: seq<Entry>): Catalog {
    if entries == [] then c else SeedEntry(Seed(c, entries[..|entries| - 1]), entries[|entries| - 1])
  }

  // ---- one entry ----

  /** The row is there, and at most it was added. */
  ghost predicate Ensures(t: Table, spec: Spec, parent: Option<Id>, nextId: Id, g: Got) {
    && CodesUnique(g.table) && Below(g.table, g.nextId) && nextId <= g.nextId && Extends(t, g.table)
    && g.id in g.table && g.table[g.id].spec.code == spec.code
    && (forall i :: i in g.table && i !in t ==> i == g.id && g.table[i] == Row(spec, parent))
  }

  lemma EnsuredFacts(t: Table, spec: Spec, parent: Option<Id>, nextId: Id)
    requires CodesUnique(t) && Below(t, nextId)
    ensures Ensures(t, spec, parent, nextId, Ensured(t, spec, parent, nextId))
  {
  }

  /** A row is new, has one of the entries' specs, and hangs below a row with the code that entry names. */
  ghost predicate NewRowsListed(a: Catalog, b: Catalog, entries: seq<Entry>) {
    && (forall i :: i in b.suites && i !in a.suites ==>
          exists e :: e in entries && b.suites[i] == Row(e.suite, None))
    && (forall i :: i in b.modules && i !in a.modules ==>
          exists e :: e in entries && b.modules[i].spec == e.moduleSpec && HangsBelow(b.modules[i], b.suites, e.suite.code))
    && (forall i :: i in b.pages && i !in a.pages ==>
          exists e :: e in entries && b.pages[i].spec == e.page && HangsBelow(b.pages[i], b.modules, e.moduleSpec.code))
    && (forall i :: i in b.features && i !in a.features ==>
          exists e :: e in entries && b.features[i].spec == e.feature && HangsBelow(b.features[i], b.modules, e.moduleSpec.code))
  }

  predicate HangsBelow(r: Row, parents: Table, code: string) {
    r.parent.Some? && r.parent.value in parents && parents[r.parent.value].spec.code == code
  }

  lemma ParentsKept(t: Table, parents: Table, t': Table, parents': Table)
    requires ParentsIn(t, parents) && Extends(t, t') && Extends(parents, parents')
    requires forall i :: i in t' && i !in t ==> t'[i].parent.Some? && t'[i].parent.value in parents'
    ensures ParentsIn(t', parents')
  {
  }

  lemma ChainKeepsValid(c: Catalog, e: Entry, s: Got, m: Got, p: Got, f: Got)
    requires Valid(c)
    requires Ensures(c.suites, e.suite, None, c.nextId, s) && Ensures(c.modules, e.moduleSpec, Some(s.id), s.nextId, m)
    requires Ensures(c.pages, e.page, Some(m.id), m.nextId, p) && Ensures(c.features, e.feature, Some(m.id), p.nextId, f)
    ensures Valid(Catalog(s.table, m.table, p.table, f.table, f.nextId))
  {
    ParentsKept(c.modules, c.suites, m.table, s.table);
    ParentsKept(c.pages, c.modules, p.table, m.table);
    ParentsKept(c.features, c.modules, f.table, m.table);
  }

  lemma ChainAddsListed(c: Catalog, e: Entry, s: Got, m: Got, p: Got, f: Got)
    requires Ensures(c.suites, e.suite, None, c.nextId, s) && Ensures(c.modules, e.moduleSpec, Some(s.id), s.nextId, m)
    requires Ensures(c.pages, e.page, Some(m.id), m.nextId, p) && Ensures(c.features, e.feature, Some(m.id), p.nextId, f)
    ensures NewRowsListed(c, Catalog(s.table, m.table, p.table, f.table, f.nextId), [e])
  {
    assert e in [e];
  }

  /** What seeding some entries has achieved. */
  ghost predicate SeededWith(c: Catalog, d: Catalog, entries: seq<Entry>) {
    Valid(d) && OnlyAdds(c, d) && NewRowsListed(c, d, entries) && AllPresent(d, entries)
  }

  ghost predicate AllPresent(d: Catalog, entries: seq<Entry>) {
    forall e :: e in entries ==> Present(d, e)
  }

  lemma SeedEntryWorks(c: Catalog, e: Entry)
    requires Valid(c)
    ensures SeededWith(c, SeedEntry(c, e), [e])
  {
    var s := Ensured(c.suites, e.suite, None, c.nextId);
    EnsuredFacts(c.suites, e.suite, None, c.nextId);
    var m := Ensured(c.modules, e.moduleSpec, Some(s.id), s.nextId);
    EnsuredFacts(c.modules, e.moduleSpec, Some(s.id), s.nextId);
    var p := Ensured(c.pages, e.page, Some(m.id), m.nextId);
    EnsuredFacts(c.pages, e.page, Some(m.id), m.nextId);
    var f := Ensured(c.features, e.feature, Some(m.id), p.nextId);
    EnsuredFacts(c.features, e.feature, Some(m.id), p.nextId);
    ChainKeepsValid(c, e, s, m, p, f);
    ChainAddsListed(c, e, s, m, p, f);
    assert Present(SeedEntry(c, e), e);
  }

  /** An entry whose rows are all there changes nothing. */
  lemma PresentIsNoOp(c: Catalog, e: Entry)
    requires Present(c, e)
    ensures SeedEntry(c, e) == c
  {
  }

  lemma PresentPersists(a: Catalog, b: Catalog, e: Entry)
    requires Present(a, e) && OnlyAdds(a, b)
    ensures Present(b, e)
  {
  }

  lemma NewRowsCompose(a: Catalog, b: Catalog, c: Catalog, past: seq<Entry>, last: Entry)
    requires NewRowsListed(a, b, past) && NewRowsListed(b, c, [last]) && OnlyAdds(b, c)
    ensures NewRowsListed(a, c, past + [last])
  {
    var all := past + [last];
    forall e ensures e in all <==> e in past || e in [last] {}
    forall i | i in c.modules && i !in a.modules
      ensures exists e :: e in all && c.modules[i].spec == e.moduleSpec && HangsBelow(c.modules[i], c.suites, e.suite.code)
    {
      if i in b.modules {
        var e :| e in past && b.modules[i].spec == e.moduleSpec && HangsBelow(b.modules[i], b.suites, e.suite.code);
        assert e in all && HangsBelow(c.modules[i], c.suites, e.suite.code);
      }
    }
    forall i | i in c.pages && i !in a.pages
      ensures exists e :: e in all && c.pages[i].spec == e.page && HangsBelow(c.pages[i], c.modules, e.moduleSpec.code)
    {
      if i in b.pages {
        var e :| e in past && b.pages[i].spec == e.page && HangsBelow(b.pages[i], b.modules, e.moduleSpec.code);
        assert e in all && HangsBelow(c.pages[i], c.modules, e.moduleSpec.code);
      }
    }
    forall i | i in c.features && i !in a.features
      ensures exists e :: e in all && c.features[i].spec == e.feature && HangsBelow(c.features[i], c.modules, e.moduleSpec.code)
    {
      if i in b.features {
        var e :| e in past && b.features[i].spec == e.feature && HangsBelow(b.features[i], b.modules, e.moduleSpec.code);
        assert e in all && HangsBelow(c.features[i], c.modules, e.moduleSpec.code);
      }
    }
  }

  // ---- any list of entries ----

  lemma AllPresentExtends(m: Catalog, d: Catalog, past: seq<Entry>, last: Entry)
    requires AllPresent(m, past) && OnlyAdds(m, d) && AllPresent(d, [last])
    ensures AllPresent(d, past + [last])
  {
    assert last in [last];
    forall e | e in past + [last] ensures Present(d, e) {
      if e in past {
        PresentPersists(m, d, e);
      }
    }
  }

  lemma OnlyAddsTwice(c: Catalog, m: Catalog, d: Catalog)
    requires OnlyAdds(c, m) && OnlyAdds(m, d)
    ensures OnlyAdds(c, d)
  {
  }

  /** For any starting catalog and any entries: existing rows are never
      changed, codes stay unique, every parent exists, afterwards every entry's
      four rows are there, and no row is added that no entry asks for. */
  lemma {:induction false} SeedOnlyAdds(c: Catalog, entries: seq<Entry>)
    requires Valid(c)
    ensures SeededWith(c, Seed(c, entries), entries)
  {
    if entries != [] {
      var past, last := entries[..|entries| - 1], entries[|entries| - 1];
      SeedOnlyAdds(c, past);
      var m, d := Seed(c, past), Seed(c, entries);
      SeedEntryWorks(m, last);
      assert entries == past + [last];
      AllPresentExtends(m, d, past, last);
      OnlyAddsTwice(c, m, d);
      NewRowsCompose(c, m, d, past, last);
    }
  }

  /** Seeding a concatenated list is seeding its parts in order. */
  lemma {:induction false} SeedConcat(c: Catalog, xs: seq<Entry>, ys: seq<Entry>)
    ensures Seed(c, xs + ys) == Seed(Seed(c, xs), ys)
  {
    if ys == [] {
      assert xs + ys == xs;
    } else {
      SeedConcat(c, xs, ys[..|ys| - 1]);
      assert (xs + ys)[..|xs + ys| - 1] == xs + ys[..|ys| - 1];
    }
  }

  lemma {:induction false} AllPresentIsNoOp(c: Catalog, entries: seq<Entry>)
    requires AllPresent(c, entries)
    ensures Seed(c, entries) == c
  {
    if entries != [] {
      var past, last := entries[..|entries| - 1], entries[|entries| - 1];
      assert last in entries && forall e :: e in past ==> e in entries;
      AllPresentIsNoOp(c, past);
      PresentIsNoOp(c, last);
    }
  }

  /** A rerun, of the same list or of any list of the same entries, is a no-op. */
  lemma RerunIsNoOp(c: Catalog, entries: seq<Entry>, again: seq<Entry>)
    requires Valid(c) && forall e :: e in again ==> e in entries
    ensures Seed(Seed(c, entries), again) == Seed(c, entries)
  {
    SeedOnlyAdds(c, entries);
    AllPresentIsNoOp(Seed(c, entries), again);
  }

  // ---- the script ----

  /** `_get_or_create_suite/module/page/feature` */
  method GetOrCreate(t: Table, spec: Spec, parent: Option<Id>, nextId: Id) returns (t': Table, id: Id, nextId': Id)
    requires CodesUnique(t)
    ensures Got(t', id, nextId') == Ensured(t, spec, parent, nextId)
  {
    if i :| i in t && t[i].spec.code == spec.code {
      return t, i, nextId;
    }
    return t[nextId := Row(spec, parent)], nextId, nextId + 1;
  }

  class CatalogDatabase {
    var suites: Table
    var modules: Table
    var pages: Table
    var features: Table
    var nextId: Id

    function Contents(): Catalog
      reads this
    {
      Catalog(suites, modules, pages, features, nextId)
    }

    /** One round of the loop. */
    method SeedOne(e: Entry)
      requires Valid(Contents())
      modifies this
      ensures Contents() == SeedEntry(old(Contents()), e)
    {
      var suite, mod, page, feature;
      suites, suite, nextId := GetOrCreate(suites, e.suite, None, nextId);
      modules, mod, nextId := GetOrCreate(modules, e.moduleSpec, Some(suite), nextId);
      pages, page, nextId := GetOrCreate(pages, e.page, Some(mod), nextId);
      features, feature, nextId := GetOrCreate(features, e.feature, Some(mod), nextId);
    }

    /** The loop over `_CATALOG_ENTRIES`. */
    method SeedCatalog(entries: seq<Entry>)
      requires Valid(Contents())
      modifies this
      ensures Contents() == Seed(old(Contents()), entries)
    {
      ghost var start := Contents();
      for k := 0 to |entries|
        invariant Contents() == Seed(start, entries[..k]) && Valid(Contents())
      {
        SeedOne(entries[k]);
        SeedOnlyAdds(start, entries[..k + 1]);
        assert entries[..k + 1][..k] == entries[..k];
      }
      assert entries[..|entries|] == entries;
    }
  }
}
