/** The process-local fixed-window rate limiter: its in-memory counters, the
    opportunistic prune, and the locked section of one hit. */
module RateLimit {

  /** The counters never number more than this without a prune being tried. */
  const MAX_TRACKED_WINDOWS := 20_000

  datatype WindowKey = WindowKey(bucket: string, client: string, index: int)

  type Counts = map<WindowKey, int>

  /** What one endpoint passes to the `rate_limit` factory. */
  datatype Rule = Rule(limit: int, windowSeconds: int)

  /** The rules are fixed when the application is wired, one per bucket. */
  type Config = c: map<string, Rule> | forall b :: b in c ==> c[b].windowSeconds > 0 witness map[]

  datatype Verdict = Accepted | RateLimited

  /** `int(time.time() // window_seconds)` */
  function WindowIndex(now: real, windowSeconds: int): int
    requires windowSeconds > 0
  {
    (now / windowSeconds as real).Floor
  }

  function CountOf(counts: Counts, k: WindowKey): int {
    if k in counts then counts[k] else 0
  }

  function Bump(counts: Counts, k: WindowKey): Counts {
    counts[k := CountOf(counts, k) + 1]
  }

  function WithoutStale(counts: Counts, index: int): Counts {
    map k | k in counts && k.index >= index :: counts[k]
  }

  /** The counters after the locked section of a hit on `k`. */
  function Enter(counts: Counts, k: WindowKey): Counts {
    var bumped := Bump(counts, k);
    if |bumped| > MAX_TRACKED_WINDOWS then WithoutStale(bumped, k.index) else bumped
  }

  /** The one process-wide limiter object. */
  class FixedWindowLimiter {
    var counts: Counts

    constructor ()
      ensures counts == map[]
    {
      counts := map[];
    }

    /** One call, from the clock value it read to its verdict. The limiter is
        left as `Enter` says; the caller is refused exactly when the number of
        hits counted in its window, this one included, exceeds the limit; and
        the table is then within its size limit unless it holds no counter
        older than the caller's window. */
    method Hit(bucket: string, client: string, limit: int, windowSeconds: int, now: real)
      returns (verdict: Verdict)
      requires windowSeconds > 0
      modifies this
      ensures var k := WindowKey(bucket, client, WindowIndex(now, windowSeconds));
              && counts == Enter(old(counts), k)
              && (verdict == RateLimited <==> CountOf(old(counts), k) + 1 > limit)
              && counts[k] == CountOf(old(counts), k) + 1
              && (|counts| <= MAX_TRACKED_WINDOWS || forall j :: j in counts ==> j.index >= k.index)
    {
      var index := WindowIndex(now, windowSeconds);
      var k := WindowKey(bucket, client, index);
      var count := (if k in counts then counts[k] else 0) + 1;
      counts := counts[k := count];
      if |counts| > MAX_TRACKED_WINDOWS {
        ghost var bumped := counts;
        var stale := set j | j in counts && j.index < index;
        while stale != {}
          invariant stale <= counts.Keys
          invariant forall j :: j in stale ==> j.index < index
          invariant counts.Keys <= bumped.Keys
          invariant forall j :: j in counts ==> counts[j] == bumped[j]
          invariant forall j :: j in bumped ==> (j in counts <==> j.index >= index || j in stale)
        {
          var j :| j in stale;
          counts := counts - {j};
          stale := stale - {j};
        }
        assert counts == WithoutStale(bumped, index);
      }
      verdict := if count > limit then RateLimited else Accepted;
    }
  }

  // ---- the window index as a function of time ----

  lemma DivMonotone(s: real, t: real, w: real)
    requires s <= t && w > 0.0
    ensures s / w <= t / w
  {
    assert (t - s) / w >= 0.0;
    assert (t - s) / w == t / w - s / w;
  }

  lemma DivSmaller(t: real, v: real, w: real)
    requires 0.0 <= t && 0.0 < v <= w
    ensures t / w <= t / v
  {
    var a, b := t / w, t / v;
    assert a * w == t && b * v == t;
    assert a >= 0.0;
    assert a * (w - v) >= 0.0;
    assert (b - a) * v >= 0.0;
  }

  /** Clock values share an index exactly when they fall in the same half-open
      interval of one window's length, counted from time zero. */
  lemma WindowIsInterval(t: real, w: int, k: int)
    requires w > 0
    ensures WindowIndex(t, w) == k <==> (k * w) as real <= t < ((k + 1) * w) as real
  {
    var r, x := w as real, t / w as real;
    assert x * r == t;
    assert k as real <= x <==> (k * w) as real <= t by {
      ScaleKeepsOrder(k as real, x, r);
      assert (k * w) as real == k as real * r;
    }
    assert (k + 1) as real <= x <==> ((k + 1) * w) as real <= t by {
      ScaleKeepsOrder((k + 1) as real, x, r);
      assert ((k + 1) * w) as real == (k + 1) as real * r;
    }
    assert x.Floor == k <==> k as real <= x < (k + 1) as real;
  }

  lemma ScaleKeepsOrder(x: real, y: real, r: real)
    requires r > 0.0
    ensures x <= y <==> x * r <= y * r
  {
    assert (y - x) * r == y * r - x * r;
    if x <= y {
      assert (y - x) * r >= 0.0;
    } else {
      assert (x - y) * r > 0.0;
    }
  }

  /** The counters after one hit, counter by counter: the caller's is one up,
      and if there are more than 20,000 then, those of lower index are gone. */
  lemma EnterCounterByCounter(counts: Counts, k: WindowKey, j: WindowKey)
    ensures var pruned := |counts.Keys + {k}| > 20_000;
            && (j in Enter(counts, k) <==> j == k || (j in counts && (pruned ==> j.index >= k.index)))
            && k in Enter(counts, k) && Enter(counts, k)[k] == (if k in counts then counts[k] + 1 else 1)
            && (j != k && j in Enter(counts, k) ==> Enter(counts, k)[j] == counts[j])
  {
    assert Bump(counts, k).Keys == counts.Keys + {k};
  }

  lemma IndexMonotone(s: real, t: real, w: int)
    requires s <= t && w > 0
    ensures WindowIndex(s, w) <= WindowIndex(t, w)
  {
    DivMonotone(s, t, w as real);
  }

  /** A shorter window never has the smaller index at the same instant. */
  lemma IndexShorterWindow(t: real, v: int, w: int)
    requires 0.0 <= t && 0 < v <= w
    ensures WindowIndex(t, w) <= WindowIndex(t, v)
  {
    DivSmaller(t, v as real, w as real);
  }
}
