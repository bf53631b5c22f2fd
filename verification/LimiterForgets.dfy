/** When the limiter's verdicts are the intended ones: exactly which buckets,
    for a given set of rules, and why the clock must not run backwards. */
module LimiterForgets {
  import opened RateLimit
  import opened LimiterRuns

  function Unary(n: nat): string {
    seq(n, _ => 'x')
  }

  /** `n` hits of one client at one instant. */
  function Burst(bucket: string, now: real, n: nat): seq<Hit> {
    seq(n, _ => Hit(bucket, "client", now))
  }

  /** `n` hits at one instant, each from another client. */
  function Crowd(bucket: string, now: real, n: nat): seq<Hit> {
    seq(n, (i: nat) => Hit(bucket, Unary(i), now))
  }

  lemma {:induction false} AfterBurst(cfg: Config, b: string, t: real, n: nat)
    requires b in cfg && n > 0
    ensures Legal(cfg, Burst(b, t, n))
    ensures var k := KeyOf(cfg, Hit(b, "client", t));
            After(cfg, Burst(b, t, n)) == map[k := n] && Total(cfg, Burst(b, t, n), k) == n
  {
    assert Burst(b, t, n)[..n - 1] == Burst(b, t, n - 1);
    if n > 1 {
      AfterBurst(cfg, b, t, n - 1);
    } else {
      assert Burst(b, t, 0) == [];
    }
    var k := KeyOf(cfg, Hit(b, "client", t));
    var one: Counts := map[k := n];
    assert one.Keys == {k};
  }

  ghost predicate Crowded(counts: Counts, k: WindowKey, limit: int, index: int, n: nat) {
    && k in counts && counts[k] == limit && |counts| == n + 1
    && forall j :: j in counts && j != k ==> |j.client| < n && j.index == index
  }

  /** One more member of the crowd adds one counter, if there is room. */
  lemma CrowdGrows(counts: Counts, k: WindowKey, limit: int, c: string, index: int, n: nat)
    requires Crowded(counts, k, limit, index, n) && n + 1 < MAX_TRACKED_WINDOWS && k.index != index
    ensures Crowded(Enter(counts, WindowKey(c, Unary(n), index)), k, limit, index, n + 1)
  {
    var j := WindowKey(c, Unary(n), index);
    assert j !in counts;
    assert Bump(counts, j).Keys == counts.Keys + {j};
  }

  lemma CrowdAppends(burst: seq<Hit>, c: string, u: real, n: nat)
    ensures burst + Crowd(c, u, n + 1) == burst + Crowd(c, u, n) + [Hit(c, Unary(n), u)]
  {
    assert Crowd(c, u, n + 1) == Crowd(c, u, n) + [Hit(c, Unary(n), u)];
  }

  ghost predicate AfterBoth(cfg: Config, b: string, t: real, c: string, u: real, n: nat, hits: seq<Hit>)
    requires b in cfg && c in cfg
  {
    var k := KeyOf(cfg, Hit(b, "client", t));
    && Legal(cfg, hits) && Total(cfg, hits, k) == cfg[b].limit
    && Crowded(After(cfg, hits), k, cfg[b].limit, WindowIndex(u, cfg[c].windowSeconds), n)
  }

  lemma OneMoreOfCrowd(cfg: Config, b: string, t: real, c: string, u: real, n: nat, hits: seq<Hit>)
    requires b in cfg && c in cfg && n + 1 < MAX_TRACKED_WINDOWS && AfterBoth(cfg, b, t, c, u, n, hits)
    requires WindowIndex(t, cfg[b].windowSeconds) < WindowIndex(u, cfg[c].windowSeconds)
    ensures AfterBoth(cfg, b, t, c, u, n + 1, hits + [Hit(c, Unary(n), u)])
  {
    var k := KeyOf(cfg, Hit(b, "client", t));
    RunAppend(cfg, hits, Hit(c, Unary(n), u), k);
    CrowdGrows(After(cfg, hits), k, cfg[b].limit, c, WindowIndex(u, cfg[c].windowSeconds), n);
  }

  /** A crowd too small to cause a prune only adds counters. */
  lemma {:induction false} AfterCrowd(cfg: Config, b: string, t: real, c: string, u: real, n: nat)
    requires b in cfg && c in cfg && cfg[b].limit > 0 && n < MAX_TRACKED_WINDOWS
    requires WindowIndex(t, cfg[b].windowSeconds) < WindowIndex(u, cfg[c].windowSeconds)
    ensures AfterBoth(cfg, b, t, c, u, n, Burst(b, t, cfg[b].limit) + Crowd(c, u, n))
  {
    var burst := Burst(b, t, cfg[b].limit);
    if n == 0 {
      AfterBurst(cfg, b, t, cfg[b].limit);
      assert burst + Crowd(c, u, 0) == burst;
    } else {
      AfterCrowd(cfg, b, t, c, u, n - 1);
      OneMoreOfCrowd(cfg, b, t, c, u, n - 1, burst + Crowd(c, u, n - 1));
      CrowdAppends(burst, c, u, n - 1);
    }
  }

  /** A burst, then a crowd whose last member triggers the prune. */
  function Forgetting(cfg: Config, b: string, t: real, c: string, u: real): seq<Hit>
    requires b in cfg && cfg[b].limit > 0
  {
    Burst(b, t, cfg[b].limit) + Crowd(c, u, MAX_TRACKED_WINDOWS)
  }

  /** If some hit can carry a larger raw index than a live counter's, enough of
      them make the limiter forget that counter and admit one hit too many. */
  lemma PruneForgets(cfg: Config, b: string, t: real, c: string, u: real)
    requires b in cfg && c in cfg && cfg[b].limit > 0
    requires WindowIndex(t, cfg[b].windowSeconds) < WindowIndex(u, cfg[c].windowSeconds)
    ensures var hits, h := Forgetting(cfg, b, t, c, u), Hit(b, "client", t);
            Legal(cfg, hits) && Admits(cfg, hits, h) && !ShouldAdmit(cfg, hits, h)
  {
    var burst, n := Burst(b, t, cfg[b].limit), MAX_TRACKED_WINDOWS - 1;
    AfterCrowd(cfg, b, t, c, u, n);
    CrowdAppends(burst, c, u, n);
    LastOfCrowdForgets(cfg, b, t, c, u, burst + Crowd(c, u, n));
  }

  lemma LastOfCrowdForgets(cfg: Config, b: string, t: real, c: string, u: real, before: seq<Hit>)
    requires b in cfg && c in cfg && cfg[b].limit > 0 && AfterBoth(cfg, b, t, c, u, MAX_TRACKED_WINDOWS - 1, before)
    requires WindowIndex(t, cfg[b].windowSeconds) < WindowIndex(u, cfg[c].windowSeconds)
    ensures var hits, h := before + [Hit(c, Unary(MAX_TRACKED_WINDOWS - 1), u)], Hit(b, "client", t);
            Legal(cfg, hits) && Admits(cfg, hits, h) && !ShouldAdmit(cfg, hits, h)
  {
    var last, k := Hit(c, Unary(MAX_TRACKED_WINDOWS - 1), u), KeyOf(cfg, Hit(b, "client", t));
    RunAppend(cfg, before, last, k);
    var counts, j := After(cfg, before), KeyOf(cfg, last);
    assert j !in counts;
    assert Bump(counts, j).Keys == counts.Keys + {j};
  }

  /** Under a clock that never runs backwards, every verdict on `bucket` is the intended one. */
  ghost predicate AlwaysAsIntended(cfg: Config, bucket: string)
    requires bucket in cfg
  {
    forall hits: seq<Hit>, h: Hit ::
      Legal(cfg, hits) && h.bucket == bucket && ClockNondecreasing(hits + [h])
      ==> (Admits(cfg, hits, h) <==> ShouldAdmit(cfg, hits, h))
  }

  lemma DivBack(x: real, y: real)
    requires x > 0.0
    ensures x * y / x == y
  {
  }

  lemma CommonMultiple(v: int, w: int) returns (t: real)
    requires 0 < v && 0 < w
    ensures t >= 0.0 && WindowIndex(t, v) == w && WindowIndex(t, w) == v
  {
    var x, y := v as real, w as real;
    assert x * y / x == y by { DivBack(x, y); }
    assert x * y / y == x by {
      assert x * y == y * x;
      DivBack(y, x);
    }
    t := x * y;
  }

  /** A limit of zero or less refuses everything, under any clock. */
  lemma NothingAdmitted(cfg: Config, hits: seq<Hit>, h: Hit)
    requires Legal(cfg, hits) && h.bucket in cfg && cfg[h.bucket].limit <= 0
    ensures !Admits(cfg, hits, h) && !ShouldAdmit(cfg, hits, h)
  {
    CountsNonNegative(cfg, hits, KeyOf(cfg, h));
  }

  /** More: they are as intended even if hits swap places within a window of the bucket. */
  ghost predicate AsIntendedInOrder(cfg: Config, bucket: string)
    requires bucket in cfg
  {
    forall hits: seq<Hit>, h: Hit ::
      Legal(cfg, hits) && h.bucket == bucket && WindowsInOrder(hits + [h], cfg[bucket].windowSeconds)
      ==> (Admits(cfg, hits, h) <==> ShouldAdmit(cfg, hits, h))
  }

  lemma InOrderCoversClock(cfg: Config, bucket: string)
    requires bucket in cfg && AsIntendedInOrder(cfg, bucket)
    ensures AlwaysAsIntended(cfg, bucket)
  {
    forall hits: seq<Hit>, h: Hit | Legal(cfg, hits) && h.bucket == bucket && ClockNondecreasing(hits + [h])
      ensures Admits(cfg, hits, h) <==> ShouldAdmit(cfg, hits, h)
    {
      ClockKeepsWindowsInOrder(hits + [h], cfg[bucket].windowSeconds);
    }
  }

  lemma ShortestIsTrusted(cfg: Config, bucket: string)
    requires bucket in cfg && (cfg[bucket].limit <= 0 || ShortestWindow(cfg, bucket))
    ensures AsIntendedInOrder(cfg, bucket)
  {
    forall hits: seq<Hit>, h: Hit | Legal(cfg, hits) && h.bucket == bucket && WindowsInOrder(hits + [h], cfg[bucket].windowSeconds)
      ensures Admits(cfg, hits, h) <==> ShouldAdmit(cfg, hits, h)
    {
      if cfg[bucket].limit <= 0 {
        NothingAdmitted(cfg, hits, h);
      } else {
        PruningIsInvisible(cfg, hits, h);
      }
    }
  }

  lemma LongerIsForgotten(cfg: Config, bucket: string, c: string)
    requires bucket in cfg && cfg[bucket].limit > 0
    requires c in cfg && cfg[c].windowSeconds < cfg[bucket].windowSeconds
    ensures !AlwaysAsIntended(cfg, bucket)
  {
    var t := CommonMultiple(cfg[bucket].windowSeconds, cfg[c].windowSeconds);
    PruneForgets(cfg, bucket, t, c, t);
    var hits, h := Forgetting(cfg, bucket, t, c, t), Hit(bucket, "client", t);
    forall i | 0 <= i < |hits + [h]| ensures (hits + [h])[i].now == t {}
    assert ClockNondecreasing(hits + [h]);
  }

  /** The rules under which a bucket can be trusted, exactly: it never admits
      anything, or no other bucket has a shorter window. */
  lemma TrustedBuckets(cfg: Config, bucket: string)
    requires bucket in cfg
    ensures AlwaysAsIntended(cfg, bucket) <==> cfg[bucket].limit <= 0 || ShortestWindow(cfg, bucket)
    ensures AsIntendedInOrder(cfg, bucket) <==> cfg[bucket].limit <= 0 || ShortestWindow(cfg, bucket)
  {
    if AsIntendedInOrder(cfg, bucket) {
      InOrderCoversClock(cfg, bucket);
    }
    if cfg[bucket].limit <= 0 || ShortestWindow(cfg, bucket) {
      ShortestIsTrusted(cfg, bucket);
    } else {
      var c :| c in cfg && cfg[c].windowSeconds < cfg[bucket].windowSeconds;
      LongerIsForgotten(cfg, bucket, c);
    }
  }

  /** What one hit from the window before the crowd's meets after its prune. */
  lemma OldHitIsForgotten(cfg: Config, bucket: string) returns (hits: seq<Hit>, late: Hit)
    requires bucket in cfg && cfg[bucket].limit > 0
    ensures late.bucket == bucket && late.now == 0.0 && Legal(cfg, hits) && ClockNondecreasing(hits)
    ensures Admits(cfg, hits, late) && !ShouldAdmit(cfg, hits, late)
  {
    var r := cfg[bucket].windowSeconds as real;
    assert 0.0 / r == 0.0 && r / r == 1.0;
    PruneForgets(cfg, bucket, 0.0, bucket, r);
    hits, late := Forgetting(cfg, bucket, 0.0, bucket, r), Hit(bucket, "client", 0.0);
    var n := cfg[bucket].limit;
    forall i | 0 <= i < |hits| ensures hits[i].now == if i < n then 0.0 else r {}
  }

  // ---- the rules as shipped ----

  const AUTH := Rule(20, 60)
  const OTP := Rule(5, 300)
  const OTP_CONFIRM := Rule(15, 300)
  const EVIDENCE := Rule(60, 60)

  /** The rules the routers ask for, whatever their buckets are called. */
  ghost predicate Shipped(cfg: Config) {
    cfg.Values == {AUTH, OTP, OTP_CONFIRM, EVIDENCE}
  }

  /** The four pairs of limit and window in seconds. */
  lemma ShippedRules(cfg: Config, bucket: string)
    requires Shipped(cfg) && bucket in cfg
    ensures (cfg[bucket].limit, cfg[bucket].windowSeconds) in {(20, 60), (5, 300), (15, 300), (60, 60)}
  {
    assert cfg[bucket] in cfg.Values;
  }

  /** Of the shipped buckets, exactly those with the one-minute window are always as intended. */
  lemma ShippedTrustedBuckets(cfg: Config, bucket: string)
    requires Shipped(cfg) && bucket in cfg
    ensures AlwaysAsIntended(cfg, bucket) <==> cfg[bucket].windowSeconds == 60
  {
    assert EVIDENCE in cfg.Values;
    var shortest :| shortest in cfg && cfg[shortest] == EVIDENCE;
    forall b | b in cfg ensures cfg[b].windowSeconds >= 60 && cfg[b].limit > 0 {
      assert cfg[b] in cfg.Values;
    }
    TrustedBuckets(cfg, bucket);
  }
}
