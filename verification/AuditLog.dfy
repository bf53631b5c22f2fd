/** Reading the append-only audit log: filters, the newest-first order and
    clamped pages. */
module AuditLog {
  import opened FleetDb

  /** A stored record: its key, when it was written, and what the filters look at. */
  datatype Entry = Entry(id: Id, createdAt: int, org: Id, action: string, entityType: string)

  const DEFAULT_LIMIT := 50
  const MAX_LIMIT := 100

  datatype Filter = Filter(
    org: Option<Id>, action: Option<string>, entityType: Option<string>, dateFrom: Option<int>, dateTo: Option<int>)

  predicate Matches(f: Filter, e: Entry) {
    && (f.org.Some? ==> e.org == f.org.value)
    && (f.action.Some? ==> e.action == f.action.value)
    && (f.entityType.Some? ==> e.entityType == f.entityType.value)
    && (f.dateFrom.Some? ==> e.createdAt >= f.dateFrom.value)
    && (f.dateTo.Some? ==> e.createdAt < f.dateTo.value)
  }

  /** `ORDER BY created_at DESC, id DESC` */
  predicate Before(a: Entry, b: Entry) {
    a.createdAt > b.createdAt || (a.createdAt == b.createdAt && a.id > b.id)
  }

  ghost predicate Ordered(s: seq<Entry>) {
    forall i, j :: 0 <= i < j < |s| ==> Before(s[i], s[j])
  }

  /** The primary key of audit_events. */
  ghost predicate KeysUnique(log: seq<Entry>) {
    forall i, j :: 0 <= i < j < |log| ==> log[i].id != log[j].id
  }

  // ---- the database's answer ----

  /** Puts a row in its place in an ordered result. */
  function Insert(e: Entry, s: seq<Entry>): seq<Entry> {
    if s == [] || Before(e, s[0]) then [e] + s else [s[0]] + Insert(e, s[1..])
  }

  /** The whole filtered, ordered result. */
  function Listing(log: seq<Entry>, f: Filter): seq<Entry> {
    if log == [] then []
    else
      var rest := Listing(log[..|log| - 1], f);
      if Matches(f, log[|log| - 1]) then Insert(log[|log| - 1], rest) else rest
  }

  lemma {:induction false} InsertKeepsOrder(e: Entry, s: seq<Entry>)
    requires Ordered(s) && forall x :: x in s ==> x.id != e.id
    ensures Ordered(Insert(e, s)) && |Insert(e, s)| == |s| + 1
    ensures forall x :: x in Insert(e, s) <==> x == e || x in s
  {
    if s != [] && !Before(e, s[0]) {
      var head, tail := s[0], s[1..];
      assert s == [head] + tail;
      assert forall x :: x in tail ==> x in s && Before(head, x);
      InsertKeepsOrder(e, tail);
      assert forall x :: x in Insert(e, tail) ==> Before(head, x);
    }
  }

  /** The listing holds exactly the matching rows, each once, newest first. */
  lemma {:induction false} ListingIsExact(log: seq<Entry>, f: Filter)
    requires KeysUnique(log)
    ensures Ordered(Listing(log, f))
    ensures forall x :: x in Listing(log, f) <==> x in log && Matches(f, x)
  {
    if log != [] {
      var past, e := log[..|log| - 1], log[|log| - 1];
      ListingIsExact(past, f);
      assert log == past + [e];
      if Matches(f, e) {
        InsertKeepsOrder(e, Listing(past, f));
      }
    }
  }

  lemma HeadIsMember(s: seq<Entry>)
    ensures s == [] || exists x :: x in s
  {
    if s != [] {
      assert s[0] in s;
    }
  }

  /** An ordered sequence is determined by what is in it. */
  lemma {:induction false} OrderedUnique(a: seq<Entry>, b: seq<Entry>)
    requires Ordered(a) && Ordered(b) && forall x :: x in a <==> x in b
    ensures a == b
  {
    if a != [] && b != [] {
      assert a[0] in b && b[0] in a;
      assert a == [a[0]] + a[1..] && b == [b[0]] + b[1..];
      assert forall x :: x in a[1..] ==> Before(a[0], x);
      assert forall x :: x in b[1..] ==> Before(b[0], x);
      assert a[0] == b[0];
      forall x ensures x in a[1..] <==> x in b[1..] {
        assert x in a <==> x == a[0] || x in a[1..];
        assert x in b <==> x == b[0] || x in b[1..];
      }
      OrderedUnique(a[1..], b[1..]);
    } else if a != b {
      HeadIsMember(a);
      HeadIsMember(b);
      assert false;
    }
  }

  /** Without a filter the whole log is listed, newest first: later rows
      first, and of rows written at one time the larger key first. */
  lemma EmptyFilterListsAll(log: seq<Entry>)
    requires KeysUnique(log)
    ensures var all := Listing(log, Filter(None, None, None, None, None));
            && (forall x :: x in all <==> x in log)
            && (forall i, j :: 0 <= i < j < |all| ==>
                  all[i].createdAt > all[j].createdAt || (all[i].createdAt == all[j].createdAt && all[i].id > all[j].id))
  {
    var f := Filter(None, None, None, None, None);
    ListingIsExact(log, f);
    forall i, j | 0 <= i < j < |Listing(log, f)| ensures Before(Listing(log, f)[i], Listing(log, f)[j]) {}
  }

  /** `b` is what is left of the listing `a` when only some rows are kept, in the same order. */
  ghost predicate Kept(a: seq<Entry>, b: seq<Entry>, kept: set<Entry>) {
    Ordered(a) && Ordered(b) && forall x :: x in b <==> x in a && x in kept
  }

  /** Each further filter keeps exactly the listed rows whose stored column fits it. */
  lemma OrgNarrows(log: seq<Entry>, f: Filter, org: Id)
    requires KeysUnique(log) && f.org.None?
    ensures Kept(Listing(log, f), Listing(log, f.(org := Some(org))), set x | x in log && x.org == org)
  {
    ListingIsExact(log, f);
    ListingIsExact(log, f.(org := Some(org)));
  }

  lemma ActionNarrows(log: seq<Entry>, f: Filter, action: string)
    requires KeysUnique(log) && f.action.None?
    ensures Kept(Listing(log, f), Listing(log, f.(action := Some(action))), set x | x in log && x.action == action)
  {
    ListingIsExact(log, f);
    ListingIsExact(log, f.(action := Some(action)));
  }

  lemma EntityTypeNarrows(log: seq<Entry>, f: Filter, entityType: string)
    requires KeysUnique(log) && f.entityType.None?
    ensures Kept(Listing(log, f), Listing(log, f.(entityType := Some(entityType))), set x | x in log && x.entityType == entityType)
  {
    ListingIsExact(log, f);
    ListingIsExact(log, f.(entityType := Some(entityType)));
  }

  lemma DateFromNarrows(log: seq<Entry>, f: Filter, from: int)
    requires KeysUnique(log) && f.dateFrom.None?
    ensures Kept(Listing(log, f), Listing(log, f.(dateFrom := Some(from))), set x | x in log && x.createdAt >= from)
  {
    ListingIsExact(log, f);
    ListingIsExact(log, f.(dateFrom := Some(from)));
  }

  lemma DateToNarrows(log: seq<Entry>, f: Filter, to: int)
    requires KeysUnique(log) && f.dateTo.None?
    ensures Kept(Listing(log, f), Listing(log, f.(dateTo := Some(to))), set x | x in log && x.createdAt < to)
  {
    ListingIsExact(log, f);
    ListingIsExact(log, f.(dateTo := Some(to)));
  }

  // ---- list_audit_events ----

  function Clamp(limit: int): (r: int)
    ensures 1 <= r <= 100 && (1 <= limit <= 100 ==> r == limit)
    ensures (limit < r ==> r == 1) && (limit > r ==> r == 100)
  {
    if limit < 1 then 1 else if limit > MAX_LIMIT then MAX_LIMIT else limit
  }

  function Slice(s: seq<Entry>, offset: nat, limit: nat): seq<Entry> {
    if offset >= |s| then [] else if offset + limit >= |s| then s[offset..] else s[offset..offset + limit]
  }

  /** One clause of the WHERE conjunction. */
  datatype Clause =
    | OrgIs(org: Id) | ActionIs(action: string) | EntityTypeIs(entityType: string) | From(from: int) | Until(until: int)

  predicate Holds(c: Clause, e: Entry) {
    match c
    case OrgIs(o) => e.org == o
    case ActionIs(a) => e.action == a
    case EntityTypeIs(t) => e.entityType == t
    case From(d) => e.createdAt >= d
    case Until(d) => e.createdAt < d
  }

  /** `stmt.where(c)`, on the rows a statement selects so far. */
  function Where(rows: seq<Entry>, c: Clause): seq<Entry> {
    if rows == [] then []
    else Where(rows[..|rows| - 1], c) + if Holds(c, rows[|rows| - 1]) then [rows[|rows| - 1]] else []
  }

  function OrderBy(rows: seq<Entry>): seq<Entry> {
    if rows == [] then [] else Insert(rows[|rows| - 1], OrderBy(rows[..|rows| - 1]))
  }

  lemma {:induction false} WhereIsExact(rows: seq<Entry>, c: Clause)
    requires KeysUnique(rows)
    ensures KeysUnique(Where(rows, c))
    ensures forall x :: x in Where(rows, c) <==> x in rows && Holds(c, x)
  {
    if rows != [] {
      var past, e := rows[..|rows| - 1], rows[|rows| - 1];
      WhereIsExact(past, c);
      assert rows == past + [e];
      forall x | x in Where(past, c) ensures x.id != e.id {
        assert x in past;
      }
    }
  }

  lemma {:induction false} OrderByIsExact(rows: seq<Entry>)
    requires KeysUnique(rows)
    ensures Ordered(OrderBy(rows)) && |OrderBy(rows)| == |rows|
    ensures forall x :: x in OrderBy(rows) <==> x in rows
  {
    if rows != [] {
      var past, e := rows[..|rows| - 1], rows[|rows| - 1];
      OrderByIsExact(past);
      assert rows == past + [e];
      InsertKeepsOrder(e, OrderBy(past));
    }
  }

  predicate AllHold(cs: seq<Clause>, e: Entry) {
    forall c :: c in cs ==> Holds(c, e)
  }

  lemma AllHoldAppend(cs: seq<Clause>, c: Clause)
    ensures forall e :: AllHold(cs + [c], e) <==> AllHold(cs, e) && Holds(c, e)
  {
    forall e: Entry ensures AllHold(cs + [c], e) <==> AllHold(cs, e) && Holds(c, e) {
      if AllHold(cs + [c], e) {
        assert forall d :: d in cs ==> d in cs + [c];
        assert c in cs + [c];
      }
    }
  }

  /** The clauses of a request, in the order the code collects them. */
  method Clauses(f: Filter) returns (filters: seq<Clause>)
    ensures forall e :: AllHold(filters, e) <==> Matches(f, e)
  {
    filters := [];
    if f.org.Some? {
      AllHoldAppend(filters, OrgIs(f.org.value));
      filters := filters + [OrgIs(f.org.value)];
    }
    if f.action.Some? {
      AllHoldAppend(filters, ActionIs(f.action.value));
      filters := filters + [ActionIs(f.action.value)];
    }
    if f.entityType.Some? {
      AllHoldAppend(filters, EntityTypeIs(f.entityType.value));
      filters := filters + [EntityTypeIs(f.entityType.value)];
    }
    if f.dateFrom.Some? {
      AllHoldAppend(filters, From(f.dateFrom.value));
      filters := filters + [From(f.dateFrom.value)];
    }
    if f.dateTo.Some? {
      AllHoldAppend(filters, Until(f.dateTo.value));
      filters := filters + [Until(f.dateTo.value)];
    }
  }

  /** Collects the clauses present in the request, applies them one after the
      other to the row query and to the count query, and returns one clamped
      page of the ordered rows with the total before paging. */
  method ListAuditEvents(log: seq<Entry>, f: Filter, limit: int := DEFAULT_LIMIT, offset: int := 0) returns (events: seq<Entry>, total: nat)
    requires KeysUnique(log)
    ensures events == Slice(Listing(log, f), if offset < 0 then 0 else offset, Clamp(limit))
    ensures total == |Listing(log, f)| && |events| <= Clamp(limit)
    ensures forall i :: 0 <= i < |events| ==>
              var at := (if offset < 0 then 0 else offset) + i; at < total && events[i] == Listing(log, f)[at]
    ensures |events| < Clamp(limit) ==> (if offset < 0 then 0 else offset) + |events| >= total
  {
    var filters := Clauses(f);
    var base, count := log, log;
    for k := 0 to |filters|
      invariant KeysUnique(base) && count == base
      invariant forall e :: e in base <==> e in log && AllHold(filters[..k], e)
    {
      WhereIsExact(base, filters[k]);
      AllHoldAppend(filters[..k], filters[k]);
      assert filters[..k + 1] == filters[..k] + [filters[k]];
      base, count := Where(base, filters[k]), Where(count, filters[k]);
    }
    assert filters[..|filters|] == filters;
    OrderByIsExact(base);
    ListingIsExact(log, f);
    OrderedUnique(OrderBy(base), Listing(log, f));
    total := |count|;
    events := Slice(OrderBy(base), if offset < 0 then 0 else offset, Clamp(limit));
  }

  // ---- paging ----

  /** The pages at offsets 0, limit, 2 * limit, ... put together. */
  function Pages(s: seq<Entry>, limit: nat, n: nat): seq<Entry> {
    if n == 0 then [] else Pages(s, limit, n - 1) + Slice(s, (n - 1) * limit, limit)
  }

  lemma SlicesJoin(s: seq<Entry>, k: nat, limit: nat)
    ensures Slice(s, 0, k) + Slice(s, k, limit) == Slice(s, 0, k + limit)
  {
  }

  lemma {:induction false} PagesArePrefix(s: seq<Entry>, limit: nat, n: nat)
    ensures n * limit >= 0 && Pages(s, limit, n) == Slice(s, 0, n * limit)
  {
    if n > 0 {
      PagesArePrefix(s, limit, n - 1);
      assert n * limit == (n - 1) * limit + limit;
      SlicesJoin(s, (n - 1) * limit, limit);
    }
  }

  /** Reading page after page until the total is reached yields the whole
      filtered list, in order, nothing twice and nothing missing. */
  lemma PagesCoverEverything(log: seq<Entry>, f: Filter, limit: int, n: nat)
    requires KeysUnique(log) && n * Clamp(limit) >= |Listing(log, f)|
    ensures Pages(Listing(log, f), Clamp(limit), n) == Listing(log, f)
    ensures Ordered(Listing(log, f)) && forall x :: x in Listing(log, f) <==> x in log && Matches(f, x)
  {
    PagesArePrefix(Listing(log, f), Clamp(limit), n);
    ListingIsExact(log, f);
  }

  // ---- what new records do to a page ----

  /** The added records that match are newer than the old ones that do. */
  ghost predicate Newer(log: seq<Entry>, added: seq<Entry>, f: Filter) {
    forall x, y :: x in log && y in added && Matches(f, x) && Matches(f, y) ==> Before(y, x)
  }

  lemma ListingSplits(whole: seq<Entry>, f: Filter, a: seq<Entry>, b: seq<Entry>)
    requires KeysUnique(whole) && Ordered(a) && Ordered(b)
    requires forall x, y :: x in a && y in b ==> Before(x, y)
    requires forall x :: x in a || x in b <==> x in whole && Matches(f, x)
    ensures Listing(whole, f) == a + b
  {
    ListingIsExact(whole, f);
    OrderedUnique(Listing(whole, f), a + b);
  }

  lemma Subsequences(log: seq<Entry>, added: seq<Entry>)
    requires KeysUnique(log + added)
    ensures KeysUnique(log) && KeysUnique(added)
  {
    var all := log + added;
    assert forall i :: 0 <= i < |log| ==> log[i] == all[i];
    assert forall i :: 0 <= i < |added| ==> added[i] == all[|log| + i];
  }

  /** Newer matching records go in front of the old listing. */
  lemma NewRecordsInFront(log: seq<Entry>, added: seq<Entry>, f: Filter)
    requires KeysUnique(log + added) && Newer(log, added, f)
    ensures Listing(log + added, f) == Listing(added, f) + Listing(log, f)
  {
    Subsequences(log, added);
    ListingIsExact(log, f);
    ListingIsExact(added, f);
    ListingSplits(log + added, f, Listing(added, f), Listing(log, f));
  }

  lemma SliceBehind(a: seq<Entry>, b: seq<Entry>, offset: nat, limit: nat)
    ensures Slice(a + b, offset + |a|, limit) == Slice(b, offset, limit)
  {
    var whole, at := a + b, offset + |a|;
    if offset < |b| {
      var end := if offset + limit >= |b| then |b| else offset + limit;
      assert whole[at..end + |a|] == b[offset..end];
    }
  }

  /** If k newer matching records arrive, the page at offset o + k is the page
      that was at offset o. */
  lemma PagesShift(log: seq<Entry>, added: seq<Entry>, f: Filter, offset: nat, limit: int)
    requires KeysUnique(log + added) && Newer(log, added, f)
    ensures Slice(Listing(log + added, f), offset + |Listing(added, f)|, Clamp(limit))
            == Slice(Listing(log, f), offset, Clamp(limit))
  {
    NewRecordsInFront(log, added, f);
    SliceBehind(Listing(added, f), Listing(log, f), offset, Clamp(limit));
  }

  /** Two adjacent half-open date ranges split a listing exactly. */
  lemma DateRangesSplit(log: seq<Entry>, f: Filter, from: Option<int>, mid: int, to: Option<int>)
    requires KeysUnique(log)
    requires (from.Some? ==> from.value <= mid) && (to.Some? ==> mid <= to.value)
    ensures Listing(log, f.(dateFrom := from, dateTo := to))
            == Listing(log, f.(dateFrom := Some(mid), dateTo := to)) + Listing(log, f.(dateFrom := from, dateTo := Some(mid)))
  {
    var late, early := f.(dateFrom := Some(mid), dateTo := to), f.(dateFrom := from, dateTo := Some(mid));
    ListingIsExact(log, late);
    ListingIsExact(log, early);
    ListingSplits(log, f.(dateFrom := from, dateTo := to), Listing(log, late), Listing(log, early));
  }
}
