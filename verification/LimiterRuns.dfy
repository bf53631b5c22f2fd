/** Whole sequences of hits, in the order in which they take the lock. */
module LimiterRuns {
  import opened RateLimit
  import opened Sets

  /** One call: the endpoint's bucket, the client and the clock value read. */
  datatype Hit = Hit(bucket: string, client: string, now: real)

  ghost predicate Legal(cfg: Config, hits: seq<Hit>) {
    forall h :: h in hits ==> h.bucket in cfg
  }

  function KeyOf(cfg: Config, h: Hit): WindowKey
    requires h.bucket in cfg
  {
    WindowKey(h.bucket, h.client, WindowIndex(h.now, cfg[h.bucket].windowSeconds))
  }

  /** The counters after a sequence of hits. */
  function After(cfg: Config, hits: seq<Hit>): Counts
    requires Legal(cfg, hits)
  {
    if hits == [] then map[]
    else Enter(After(cfg, hits[..|hits| - 1]), KeyOf(cfg, hits[|hits| - 1]))
  }

  /** The limiter's verdict on the hit `h` coming after `hits`. */
  predicate Admits(cfg: Config, hits: seq<Hit>, h: Hit)
    requires Legal(cfg, hits) && h.bucket in cfg
  {
    CountOf(After(cfg, hits), KeyOf(cfg, h)) + 1 <= cfg[h.bucket].limit
  }

  function Cap(limit: int): nat {
    if limit < 0 then 0 else limit
  }

  /** How many hits on `k` the limiter admitted. */
  function Admitted(cfg: Config, hits: seq<Hit>, k: WindowKey): nat
    requires Legal(cfg, hits)
  {
    if hits == [] then 0
    else
      var past, h := hits[..|hits| - 1], hits[|hits| - 1];
      Admitted(cfg, past, k) + if KeyOf(cfg, h) == k && Admits(cfg, past, h) then 1 else 0
  }

  /** How many times a prune deleted the counter of `k`. */
  function Deletions(cfg: Config, hits: seq<Hit>, k: WindowKey): nat
    requires Legal(cfg, hits)
  {
    if hits == [] then 0
    else
      var past, h := hits[..|hits| - 1], hits[|hits| - 1];
      var before := After(cfg, past);
      Deletions(cfg, past, k) + if k in before && k !in Enter(before, KeyOf(cfg, h)) then 1 else 0
  }

  // ---- the reference limiter: it remembers every hit and never prunes ----

  /** How many hits fell on `k`. */
  function Total(cfg: Config, hits: seq<Hit>, k: WindowKey): nat
    requires Legal(cfg, hits)
  {
    if hits == [] then 0
    else Total(cfg, hits[..|hits| - 1], k) + if KeyOf(cfg, hits[|hits| - 1]) == k then 1 else 0
  }

  /** The intended rule: admit a hit exactly when fewer than `limit` hits of
      the same client on the same bucket came before it in the same window. */
  predicate ShouldAdmit(cfg: Config, hits: seq<Hit>, h: Hit)
    requires Legal(cfg, hits) && h.bucket in cfg
  {
    Total(cfg, hits, KeyOf(cfg, h)) < cfg[h.bucket].limit
  }

  lemma RunAppend(cfg: Config, past: seq<Hit>, h: Hit, k: WindowKey)
    requires Legal(cfg, past) && h.bucket in cfg
    ensures Legal(cfg, past + [h]) && After(cfg, past + [h]) == Enter(After(cfg, past), KeyOf(cfg, h))
    ensures Total(cfg, past + [h], k) == Total(cfg, past, k) + if KeyOf(cfg, h) == k then 1 else 0
  {
    assert (past + [h])[..|past|] == past;
  }

  // ---- what is counted, hit by hit ----

  /** The hit is the same client's on the same bucket, in the window of this
      index: the interval of one window's length that starts at index * length. */
  ghost predicate FallsOn(cfg: Config, h: Hit, k: WindowKey)
    requires k.bucket in cfg
  {
    var w := cfg[k.bucket].windowSeconds;
    h.bucket == k.bucket && h.client == k.client && (k.index * w) as real <= h.now < ((k.index + 1) * w) as real
  }

  lemma FallsOnIsKey(cfg: Config, h: Hit, k: WindowKey)
    requires k.bucket in cfg && h.bucket in cfg
    ensures FallsOn(cfg, h, k) <==> KeyOf(cfg, h) == k
  {
    if h.bucket == k.bucket {
      WindowIsInterval(h.now, cfg[k.bucket].windowSeconds, k.index);
    }
  }

  ghost function HitsOn(cfg: Config, hits: seq<Hit>, k: WindowKey): set<int>
    requires k.bucket in cfg
  {
    set i | 0 <= i < |hits| && FallsOn(cfg, hits[i], k)
  }

  lemma HitsOnAppend(cfg: Config, past: seq<Hit>, h: Hit, k: WindowKey)
    requires k.bucket in cfg
    ensures HitsOn(cfg, past + [h], k) == HitsOn(cfg, past, k) + if FallsOn(cfg, h, k) then {|past|} else {}
  {
  }

  /** The reference limiter's count is the number of hits that fell on the window. */
  lemma {:induction false} TotalIsNumber(cfg: Config, hits: seq<Hit>, k: WindowKey)
    requires Legal(cfg, hits) && k.bucket in cfg
    ensures Total(cfg, hits, k) == |HitsOn(cfg, hits, k)|
  {
    if hits != [] {
      var past, h := hits[..|hits| - 1], hits[|hits| - 1];
      assert hits == past + [h];
      TotalIsNumber(cfg, past, k);
      FallsOnIsKey(cfg, h, k);
      HitsOnAppend(cfg, past, h, k);
    }
  }

  ghost predicate AdmittedAt(cfg: Config, hits: seq<Hit>, i: int)
    requires Legal(cfg, hits) && 0 <= i < |hits|
  {
    Admits(cfg, hits[..i], hits[i])
  }

  ghost function AdmittedOn(cfg: Config, hits: seq<Hit>, k: WindowKey): set<int>
    requires Legal(cfg, hits) && k.bucket in cfg
  {
    set i | 0 <= i < |hits| && FallsOn(cfg, hits[i], k) && AdmittedAt(cfg, hits, i)
  }

  lemma AdmittedAtAppend(cfg: Config, past: seq<Hit>, h: Hit, i: int)
    requires Legal(cfg, past) && h.bucket in cfg && Legal(cfg, past + [h]) && 0 <= i <= |past|
    ensures (past + [h])[i] == if i == |past| then h else past[i]
    ensures AdmittedAt(cfg, past + [h], i) == if i == |past| then Admits(cfg, past, h) else AdmittedAt(cfg, past, i)
  {
    assert (past + [h])[..i] == past[..i];
    assert past[..|past|] == past;
  }

  lemma AdmittedOnAppend(cfg: Config, past: seq<Hit>, h: Hit, k: WindowKey)
    requires Legal(cfg, past) && h.bucket in cfg && Legal(cfg, past + [h]) && k.bucket in cfg
    ensures AdmittedOn(cfg, past + [h], k) == AdmittedOn(cfg, past, k) + if FallsOn(cfg, h, k) && Admits(cfg, past, h) then {|past|} else {}
  {
    forall i | 0 <= i <= |past|
      ensures (past + [h])[i] == if i == |past| then h else past[i]
      ensures AdmittedAt(cfg, past + [h], i) == if i == |past| then Admits(cfg, past, h) else AdmittedAt(cfg, past, i)
    {
      AdmittedAtAppend(cfg, past, h, i);
    }
  }

  /** What is counted as admitted is the number of hits on the window that were. */
  lemma {:induction false} AdmittedIsNumber(cfg: Config, hits: seq<Hit>, k: WindowKey)
    requires Legal(cfg, hits) && k.bucket in cfg
    ensures Admitted(cfg, hits, k) == |AdmittedOn(cfg, hits, k)|
  {
    if hits != [] {
      var past, h := hits[..|hits| - 1], hits[|hits| - 1];
      assert hits == past + [h];
      AdmittedIsNumber(cfg, past, k);
      FallsOnIsKey(cfg, h, k);
      AdmittedOnAppend(cfg, past, h, k);
    }
  }

  /** A hit in a window that no earlier hit of the same client and bucket fell
      in is judged afresh, under any clock: only a limit below one refuses it. */
  lemma NewWindowStartsAfresh(cfg: Config, hits: seq<Hit>, h: Hit, k: WindowKey)
    requires Legal(cfg, hits) && h.bucket in cfg && k.bucket in cfg && FallsOn(cfg, h, k)
    requires forall g :: g in hits ==> !FallsOn(cfg, g, k)
    ensures Admits(cfg, hits, h) <==> cfg[h.bucket].limit >= 1
  {
    FallsOnIsKey(cfg, h, k);
    if k in After(cfg, hits) {
      TrackedWereSeen(cfg, hits, k);
      var g :| g in hits && KeyOf(cfg, g) == k;
      FallsOnIsKey(cfg, g, k);
    }
  }

  lemma OneMoreServed(cfg: Config, hits: seq<Hit>, n: nat)
    requires Legal(cfg, hits) && n < |hits|
    ensures var counts, k := After(cfg, hits[..n]), KeyOf(cfg, hits[n]);
            && After(cfg, hits[..n + 1]) == Enter(counts, k)
            && (AdmittedAt(cfg, hits, n) <==> CountOf(counts, k) + 1 <= cfg[hits[n].bucket].limit)
  {
    assert hits[..n + 1] == hits[..n] + [hits[n]];
    RunAppend(cfg, hits[..n], hits[n], KeyOf(cfg, hits[n]));
  }

  /** The one limiter object, serving calls one after the other: its counters
      and its verdicts are those of the sequence. */
  method Serve(cfg: Config, hits: seq<Hit>) returns (limiter: FixedWindowLimiter, verdicts: seq<Verdict>)
    requires Legal(cfg, hits)
    ensures fresh(limiter) && limiter.counts == After(cfg, hits) && |verdicts| == |hits|
    ensures forall i :: 0 <= i < |hits| ==> (verdicts[i] == Accepted <==> AdmittedAt(cfg, hits, i))
  {
    limiter := new FixedWindowLimiter();
    verdicts := [];
    for n := 0 to |hits|
      invariant fresh(limiter) && limiter.counts == After(cfg, hits[..n]) && |verdicts| == n
      invariant forall i :: 0 <= i < n ==> (verdicts[i] == Accepted <==> AdmittedAt(cfg, hits, i))
    {
      var h := hits[n];
      var verdict := limiter.Hit(h.bucket, h.client, cfg[h.bucket].limit, cfg[h.bucket].windowSeconds, h.now);
      OneMoreServed(cfg, hits, n);
      verdicts := verdicts + [verdict];
    }
    assert hits[..|hits|] == hits;
  }

  // ---- any clock: what the limit is worth across prunes ----

  lemma {:induction false} CountsNonNegative(cfg: Config, hits: seq<Hit>, k: WindowKey)
    requires Legal(cfg, hits)
    ensures CountOf(After(cfg, hits), k) >= 0
  {
    if hits != [] {
      CountsNonNegative(cfg, hits[..|hits| - 1], k);
      CountsNonNegative(cfg, hits[..|hits| - 1], KeyOf(cfg, hits[|hits| - 1]));
    }
  }

  function Min(a: int, b: int): int { if a < b then a else b }

  /** The arithmetic of one hit: one deletion more is worth one allowance more. */
  lemma AllowanceStep(cap: nat, d: nat, d': nat, count: nat, count': nat, a: nat, a': nat)
    requires a <= cap * d + Min(count, cap)
    requires || (d' == d && count' == count + 1 && a' == a + if count < cap then 1 else 0)
             || (d' == d && count' == count && a' == a)
             || (d' == d + 1 && a' == a)
    ensures a' <= cap * d' + Min(count', cap)
  {
    assert cap * (d + 1) == cap * d + cap;
  }

  /** What one hit does to the counter of `k`: counted, forgotten or untouched. */
  lemma StepOn(cfg: Config, past: seq<Hit>, h: Hit, k: WindowKey)
    requires Legal(cfg, past + [h]) && Legal(cfg, past) && h.bucket in cfg
    ensures var before, after := CountOf(After(cfg, past), k), CountOf(After(cfg, past + [h]), k);
            && Deletions(cfg, past, k) <= Deletions(cfg, past + [h], k) <= Deletions(cfg, past, k) + 1
            && Admitted(cfg, past + [h], k) == Admitted(cfg, past, k) + (if KeyOf(cfg, h) == k && before < cfg[h.bucket].limit then 1 else 0)
            && (KeyOf(cfg, h) == k ==> after == before + 1 && Deletions(cfg, past + [h], k) == Deletions(cfg, past, k))
            && (KeyOf(cfg, h) != k ==> after == if Deletions(cfg, past + [h], k) == Deletions(cfg, past, k) then before else 0)
  {
    assert (past + [h])[..|past|] == past;
  }

  /** The inductive form: each deletion of a counter is worth at most one more
      allowance, and the live counter accounts for the rest. */
  lemma {:induction false} AdmittedInductive(cfg: Config, hits: seq<Hit>, k: WindowKey)
    requires Legal(cfg, hits) && k.bucket in cfg
    ensures var cap := Cap(cfg[k.bucket].limit);
            Admitted(cfg, hits, k) <= cap * Deletions(cfg, hits, k) + Min(CountOf(After(cfg, hits), k), cap)
  {
    if hits != [] {
      var past, h := hits[..|hits| - 1], hits[|hits| - 1];
      AdmittedInductive(cfg, past, k);
      CountsNonNegative(cfg, past, k);
      CountsNonNegative(cfg, hits, k);
      assert hits == past + [h];
      StepOn(cfg, past, h, k);
      AllowanceStep(Cap(cfg[k.bucket].limit), Deletions(cfg, past, k), Deletions(cfg, hits, k), CountOf(After(cfg, past), k),
                    CountOf(After(cfg, hits), k), Admitted(cfg, past, k), Admitted(cfg, hits, k));
    }
  }

  /** The limit, and the limit once more for every deletion of the counter. */
  function Allowance(cfg: Config, hits: seq<Hit>, k: WindowKey): nat
    requires Legal(cfg, hits) && k.bucket in cfg
  {
    var cap := Cap(cfg[k.bucket].limit);
    cap + cap * Deletions(cfg, hits, k)
  }

  /** In any sequence of hits under any clock, a window admits at most its
      limit, plus its limit once more for every prune that deleted its counter. */
  lemma AdmittedBound(cfg: Config, hits: seq<Hit>, k: WindowKey)
    requires Legal(cfg, hits) && k.bucket in cfg
    ensures Admitted(cfg, hits, k) <= Allowance(cfg, hits, k)
  {
    AdmittedInductive(cfg, hits, k);
  }

  // ---- clock values that reach the lock in order ----

  ghost predicate ClockNondecreasing(hits: seq<Hit>) {
    && (forall i :: 0 <= i < |hits| ==> hits[i].now >= 0.0)
    && (forall i, j :: 0 <= i <= j < |hits| ==> hits[i].now <= hits[j].now)
  }

  ghost predicate ShortestWindow(cfg: Config, bucket: string) {
    bucket in cfg && forall c :: c in cfg ==> cfg[bucket].windowSeconds <= cfg[c].windowSeconds
  }

  /** The windows of length `w` are entered in order: hits may swap between
      reading the clock and taking the lock, but not into an earlier window. */
  ghost predicate WindowsInOrder(hits: seq<Hit>, w: int)
    requires w > 0
  {
    && (forall i :: 0 <= i < |hits| ==> hits[i].now >= 0.0)
    && (forall i, j :: 0 <= i <= j < |hits| ==> WindowIndex(hits[i].now, w) <= WindowIndex(hits[j].now, w))
  }

  lemma ClockKeepsWindowsInOrder(hits: seq<Hit>, w: int)
    requires ClockNondecreasing(hits) && w > 0
    ensures WindowsInOrder(hits, w)
  {
    forall i, j | 0 <= i <= j < |hits| ensures WindowIndex(hits[i].now, w) <= WindowIndex(hits[j].now, w) {
      IndexMonotone(hits[i].now, hits[j].now, w);
    }
  }

  /** No live counter of a bucket with the shortest window is ever deleted: it
      always holds the exact number of hits. */
  lemma {:induction false} LiveCountersExact(cfg: Config, hits: seq<Hit>, k: WindowKey)
    requires Legal(cfg, hits) && ShortestWindow(cfg, k.bucket) && WindowsInOrder(hits, cfg[k.bucket].windowSeconds)
    requires hits != [] ==> k.index >= WindowIndex(hits[|hits| - 1].now, cfg[k.bucket].windowSeconds)
    ensures CountOf(After(cfg, hits), k) == Total(cfg, hits, k)
  {
    if hits != [] {
      var past, h := hits[..|hits| - 1], hits[|hits| - 1];
      LiveCountersExact(cfg, past, k);
      IndexShorterWindow(h.now, cfg[k.bucket].windowSeconds, cfg[h.bucket].windowSeconds);
    }
  }

  /** The pruning limiter refines the reference: on a bucket with the shortest
      window, every verdict is the intended one. */
  lemma PruningIsInvisible(cfg: Config, hits: seq<Hit>, h: Hit)
    requires Legal(cfg, hits + [h]) && ShortestWindow(cfg, h.bucket) && WindowsInOrder(hits + [h], cfg[h.bucket].windowSeconds)
    ensures Admits(cfg, hits, h) <==> ShouldAdmit(cfg, hits, h)
  {
    var run := hits + [h];
    assert h in run && forall g :: g in hits ==> g in run;
    assert forall i :: 0 <= i < |hits| ==> hits[i] == run[i];
    assert run[|hits|] == h;
    LiveCountersExact(cfg, hits, KeyOf(cfg, h));
  }

  /** Such a bucket admits exactly the first `limit` hits of every window. */
  lemma {:induction false} AdmittedExact(cfg: Config, hits: seq<Hit>, k: WindowKey)
    requires Legal(cfg, hits) && ShortestWindow(cfg, k.bucket) && WindowsInOrder(hits, cfg[k.bucket].windowSeconds)
    ensures Admitted(cfg, hits, k) == Min(Total(cfg, hits, k), Cap(cfg[k.bucket].limit))
  {
    if hits != [] {
      var past, h := hits[..|hits| - 1], hits[|hits| - 1];
      AdmittedExact(cfg, past, k);
      assert hits == past + [h];
      if KeyOf(cfg, h) == k {
        PruningIsInvisible(cfg, past, h);
      }
    }
  }

  // ---- how many hits one client gets through in an interval of time ----

  /** Admitted hits of one client on one bucket whose window index is in [lo, hi). */
  function AdmittedAcross(cfg: Config, hits: seq<Hit>, bucket: string, client: string, lo: int, hi: int): nat
    requires Legal(cfg, hits) && lo <= hi
    decreases hi - lo
  {
    if lo == hi then 0
    else AdmittedAcross(cfg, hits, bucket, client, lo, hi - 1) + Admitted(cfg, hits, WindowKey(bucket, client, hi - 1))
  }

  /** Admitted hits of one client on one bucket read in the half-open interval [start, start + length). */
  function AdmittedDuring(cfg: Config, hits: seq<Hit>, bucket: string, client: string, start: real, length: real): nat
    requires Legal(cfg, hits)
  {
    if hits == [] then 0
    else
      var past, h := hits[..|hits| - 1], hits[|hits| - 1];
      AdmittedDuring(cfg, past, bucket, client, start, length)
      + if h.bucket == bucket && h.client == client && start <= h.now < start + length && Admits(cfg, past, h)
        then 1 else 0
  }

  ghost predicate AdmittedWithin(cfg: Config, hits: seq<Hit>, bucket: string, client: string, start: real, length: real, i: int)
    requires Legal(cfg, hits) && 0 <= i < |hits|
  {
    hits[i].bucket == bucket && hits[i].client == client && start <= hits[i].now < start + length && AdmittedAt(cfg, hits, i)
  }

  ghost function AdmittedBetween(cfg: Config, hits: seq<Hit>, bucket: string, client: string, start: real, length: real): set<int>
    requires Legal(cfg, hits)
  {
    set i | 0 <= i < |hits| && AdmittedWithin(cfg, hits, bucket, client, start, length, i)
  }

  lemma AdmittedBetweenAppend(cfg: Config, past: seq<Hit>, h: Hit, bucket: string, client: string, start: real, length: real)
    requires Legal(cfg, past) && h.bucket in cfg && Legal(cfg, past + [h])
    ensures AdmittedBetween(cfg, past + [h], bucket, client, start, length)
            == AdmittedBetween(cfg, past, bucket, client, start, length)
               + if h.bucket == bucket && h.client == client && start <= h.now < start + length && Admits(cfg, past, h) then {|past|} else {}
  {
    forall i | 0 <= i <= |past|
      ensures AdmittedWithin(cfg, past + [h], bucket, client, start, length, i)
              <==> if i == |past| then h.bucket == bucket && h.client == client && start <= h.now < start + length && Admits(cfg, past, h)
                   else AdmittedWithin(cfg, past, bucket, client, start, length, i)
    {
      AdmittedAtAppend(cfg, past, h, i);
    }
  }

  /** That is the number of hits so made and admitted. */
  lemma {:induction false} AdmittedDuringIsNumber(cfg: Config, hits: seq<Hit>, bucket: string, client: string, start: real, length: real)
    requires Legal(cfg, hits)
    ensures AdmittedDuring(cfg, hits, bucket, client, start, length) == |AdmittedBetween(cfg, hits, bucket, client, start, length)|
  {
    if hits != [] {
      var past, h := hits[..|hits| - 1], hits[|hits| - 1];
      assert hits == past + [h];
      AdmittedDuringIsNumber(cfg, past, bucket, client, start, length);
      AdmittedBetweenAppend(cfg, past, h, bucket, client, start, length);
    }
  }

  /** Windows that a half-open interval of this length can touch. */
  function WindowsTouched(length: real, windowSeconds: int): int
    requires windowSeconds > 0
  {
    1 - (-length / windowSeconds as real).Floor
  }

  /** That is one more than the number of whole windows the interval needs. */
  lemma WindowsTouchedIs(length: real, w: int, n: int)
    requires w > 0
    ensures WindowsTouched(length, w) == n + 1 <==> ((n - 1) * w) as real < length <= (n * w) as real
  {
    var r := w as real;
    var x := -length / r;
    assert x * r == -length;
    assert (n * w) as real == n as real * r && ((n - 1) * w) as real == (n as real - 1.0) * r;
    ScaleKeepsOrder(-(n as real), x, r);
    ScaleKeepsOrder(-(n as real) + 1.0, x, r);
    assert -(n as real) * r == -(n as real * r) && (-(n as real) + 1.0) * r == -((n as real - 1.0) * r);
    assert x.Floor == -n <==> (-n) as real <= x < (-n) as real + 1.0;
  }

  lemma TouchedIndices(start: real, length: real, now: real, w: int)
    requires w > 0 && start <= now < start + length
    ensures WindowIndex(start, w) <= WindowIndex(now, w) < WindowIndex(start, w) + WindowsTouched(length, w)
  {
    var r := w as real;
    IndexMonotone(start, now, w);
    DivMonotone(start, now, r);
    assert (start + length) / r == start / r + length / r;
    assert (start + length - now) / r > 0.0;
    assert (start + length - now) / r == start / r + length / r - now / r;
    assert -length / r == -(length / r);
  }

  lemma {:induction false} AcrossAppend(cfg: Config, past: seq<Hit>, h: Hit, bucket: string, client: string, lo: int, hi: int)
    requires Legal(cfg, past + [h]) && Legal(cfg, past) && h.bucket in cfg && lo <= hi
    ensures AdmittedAcross(cfg, past + [h], bucket, client, lo, hi)
            == AdmittedAcross(cfg, past, bucket, client, lo, hi)
               + if h.bucket == bucket && h.client == client && lo <= KeyOf(cfg, h).index < hi && Admits(cfg, past, h)
                 then 1 else 0
    decreases hi - lo
  {
    assert (past + [h])[..|past|] == past;
    if lo < hi {
      AcrossAppend(cfg, past, h, bucket, client, lo, hi - 1);
    }
  }

  lemma {:induction false} DuringWithinAcross(cfg: Config, hits: seq<Hit>, bucket: string, client: string, start: real, length: real)
    requires Legal(cfg, hits) && bucket in cfg && length > 0.0
    ensures var w := cfg[bucket].windowSeconds;
            var lo := WindowIndex(start, w);
            && WindowsTouched(length, w) >= 0
            && AdmittedDuring(cfg, hits, bucket, client, start, length)
               <= AdmittedAcross(cfg, hits, bucket, client, lo, lo + WindowsTouched(length, w))
  {
    var w := cfg[bucket].windowSeconds;
    TouchedIndices(start, length, start, w);
    if hits != [] {
      var past, h := hits[..|hits| - 1], hits[|hits| - 1];
      var lo := WindowIndex(start, w);
      DuringWithinAcross(cfg, past, bucket, client, start, length);
      assert hits == past + [h];
      AcrossAppend(cfg, past, h, bucket, client, lo, lo + WindowsTouched(length, w));
      if h.bucket == bucket && start <= h.now < start + length {
        TouchedIndices(start, length, h.now, w);
      }
    }
  }

  lemma {:induction false} AcrossBound(cfg: Config, hits: seq<Hit>, bucket: string, client: string, lo: int, hi: int)
    requires Legal(cfg, hits) && ShortestWindow(cfg, bucket) && WindowsInOrder(hits, cfg[bucket].windowSeconds) && lo <= hi
    ensures AdmittedAcross(cfg, hits, bucket, client, lo, hi) <= (hi - lo) * Cap(cfg[bucket].limit)
    decreases hi - lo
  {
    var cap := Cap(cfg[bucket].limit);
    if lo < hi {
      AcrossBound(cfg, hits, bucket, client, lo, hi - 1);
      AdmittedExact(cfg, hits, WindowKey(bucket, client, hi - 1));
      assert (hi - lo) * cap == (hi - 1 - lo) * cap + cap;
    }
  }

  /** An interval of any length admits at most the limit once for every window
      it can touch: ceil(length / window) + 1 of them. */
  lemma IntervalBound(cfg: Config, hits: seq<Hit>, bucket: string, client: string, start: real, length: real)
    requires Legal(cfg, hits) && ShortestWindow(cfg, bucket) && WindowsInOrder(hits, cfg[bucket].windowSeconds) && length > 0.0
    ensures AdmittedDuring(cfg, hits, bucket, client, start, length)
            <= WindowsTouched(length, cfg[bucket].windowSeconds) * Cap(cfg[bucket].limit)
  {
    DuringWithinAcross(cfg, hits, bucket, client, start, length);
    var lo := WindowIndex(start, cfg[bucket].windowSeconds);
    AcrossBound(cfg, hits, bucket, client, lo, lo + WindowsTouched(length, cfg[bucket].windowSeconds));
  }

  lemma OneWindowTouchesTwo(w: int)
    requires w > 0
    ensures WindowsTouched(w as real, w) == 2
  {
    var r := w as real;
    assert -r / r == -1.0;
  }

  /** No interval one window long admits more than twice the limit. */
  lemma OneWindowAdmitsTwice(cfg: Config, hits: seq<Hit>, bucket: string, client: string, start: real)
    requires Legal(cfg, hits) && ShortestWindow(cfg, bucket) && WindowsInOrder(hits, cfg[bucket].windowSeconds)
    ensures AdmittedDuring(cfg, hits, bucket, client, start, cfg[bucket].windowSeconds as real)
            <= 2 * Cap(cfg[bucket].limit)
  {
    IntervalBound(cfg, hits, bucket, client, start, cfg[bucket].windowSeconds as real);
    OneWindowTouchesTwo(cfg[bucket].windowSeconds);
  }

  // ---- the size of the table ----

  ghost predicate UniformWindow(cfg: Config, w: int) {
    w > 0 && forall b :: b in cfg ==> cfg[b].windowSeconds == w
  }

  /** The distinct (bucket, client) pairs hit in the window `index`. */
  function SeenIn(cfg: Config, hits: seq<Hit>, index: int): set<WindowKey>
    requires Legal(cfg, hits)
  {
    set h | h in hits && KeyOf(cfg, h).index == index :: KeyOf(cfg, h)
  }

  lemma {:induction false} TrackedWereSeen(cfg: Config, hits: seq<Hit>, k: WindowKey)
    requires Legal(cfg, hits) && k in After(cfg, hits)
    ensures exists h :: h in hits && KeyOf(cfg, h) == k
  {
    var past, h := hits[..|hits| - 1], hits[|hits| - 1];
    if KeyOf(cfg, h) == k {
      assert h in hits;
    } else {
      TrackedWereSeen(cfg, past, k);
    }
  }

  /** When all buckets share one window, the table outgrows its limit only by
      as many counters as there are pairs seen in the current window. */
  lemma TableSize(cfg: Config, hits: seq<Hit>, w: int)
    requires Legal(cfg, hits) && UniformWindow(cfg, w) && WindowsInOrder(hits, w) && hits != []
    ensures var seen := |SeenIn(cfg, hits, WindowIndex(hits[|hits| - 1].now, w))|;
            |After(cfg, hits)| <= if seen > MAX_TRACKED_WINDOWS then seen else MAX_TRACKED_WINDOWS
  {
    var past, h := hits[..|hits| - 1], hits[|hits| - 1];
    var index, counts := WindowIndex(h.now, w), After(cfg, hits);
    assert h in hits;
    if |counts| > MAX_TRACKED_WINDOWS {
      forall k | k in counts ensures k in SeenIn(cfg, hits, index) {
        TrackedWereSeen(cfg, hits, k);
        var g :| g in hits && KeyOf(cfg, g) == k;
        var i :| 0 <= i < |hits| && hits[i] == g;
        assert WindowIndex(hits[i].now, w) <= WindowIndex(hits[|hits| - 1].now, w);
      }
      SubsetCardinality(counts.Keys, SeenIn(cfg, hits, index));
    }
  }
}
