/** Concurrent callers of the one limiter. A call is three steps: it reads the
    clock outside the lock, runs the locked section, and decides after
    releasing the lock. Steps of different threads interleave freely. */
module LimiterThreads {
  import opened RateLimit
  import opened LimiterRuns

  datatype Thread = ClockRead(hit: Hit) | Counted(position: nat, count: int)

  /** `order` lists the calls in the order in which they took the lock, and
      `verdicts` what each of them was told, by position in that order. */
  datatype State = State(counts: Counts, threads: map<nat, Thread>, order: seq<Hit>, verdicts: map<nat, Verdict>)

  datatype Event = ReadClock(thread: nat, hit: Hit) | LockedSection(thread: nat) | Decide(thread: nat)

  const INITIAL := State(map[], map[], [], map[])

  /** Every call under way is for a bucket with a rule. */
  predicate Enabled(cfg: Config, s: State) {
    && (forall t :: t in s.threads && s.threads[t].ClockRead? ==> s.threads[t].hit.bucket in cfg)
    && (forall t :: t in s.threads && s.threads[t].Counted? ==>
          s.threads[t].position < |s.order| && s.order[s.threads[t].position].bucket in cfg)
  }

  /** One step of one thread; a step that cannot be taken now changes nothing. */
  function Step(cfg: Config, s: State, e: Event): State
    requires Enabled(cfg, s)
  {
    match e
    case ReadClock(t, h) =>
      if t !in s.threads && h.bucket in cfg then s.(threads := s.threads[t := ClockRead(h)]) else s
    case LockedSection(t) =>
      if t in s.threads && s.threads[t].ClockRead? then
        var h := s.threads[t].hit;
        var k := KeyOf(cfg, h);
        s.(counts := Enter(s.counts, k),
           threads := s.threads[t := Counted(|s.order|, CountOf(s.counts, k) + 1)],
           order := s.order + [h])
      else s
    case Decide(t) =>
      if t in s.threads && s.threads[t].Counted? then
        var Counted(p, count) := s.threads[t];
        var verdict := if count > cfg[s.order[p].bucket].limit then RateLimited else Accepted;
        s.(threads := s.threads - {t}, verdicts := s.verdicts[p := verdict])
      else s
  }

  ghost predicate Holds(s: State, t: nat, p: nat) {
    t in s.threads && s.threads[t].Counted? && s.threads[t].position == p
  }

  /** The counts that the calls of a sequential run see, each its own hit included. */
  function Tickets(cfg: Config, order: seq<Hit>): (r: seq<int>)
    requires Legal(cfg, order)
    ensures |r| == |order|
  {
    if order == [] then []
    else
      var past, h := order[..|order| - 1], order[|order| - 1];
      Tickets(cfg, past) + [CountOf(After(cfg, past), KeyOf(cfg, h)) + 1]
  }

  lemma TicketsAppend(cfg: Config, order: seq<Hit>, h: Hit)
    requires Legal(cfg, order) && h.bucket in cfg
    ensures Legal(cfg, order + [h])
    ensures After(cfg, order + [h]) == Enter(After(cfg, order), KeyOf(cfg, h))
    ensures Tickets(cfg, order + [h]) == Tickets(cfg, order) + [CountOf(After(cfg, order), KeyOf(cfg, h)) + 1]
  {
    assert (order + [h])[..|order|] == order;
  }

  /** A ticket within the limit is an admission. */
  lemma {:induction false} TicketsDecide(cfg: Config, order: seq<Hit>, p: nat)
    requires Legal(cfg, order) && p < |order|
    ensures Tickets(cfg, order)[p] <= cfg[order[p].bucket].limit <==> Admits(cfg, order[..p], order[p])
  {
    var n := |order| - 1;
    var past := order[..n];
    if p < n {
      assert Tickets(cfg, order)[p] == Tickets(cfg, past)[p];
      assert past[..p] == order[..p] && past[p] == order[p];
      TicketsDecide(cfg, past, p);
    }
  }

  /** The counters, and everything handed out so far, are those of the
      sequential run of the calls in lock order. */
  ghost predicate ResultsOk(cfg: Config, s: State) {
    && Legal(cfg, s.order)
    && s.counts == After(cfg, s.order)
    && HandedOut(cfg, s, Tickets(cfg, s.order))
  }

  /** Threads and verdicts agree with the tickets. */
  ghost predicate HandedOut(cfg: Config, s: State, tickets: seq<int>)
    requires Legal(cfg, s.order) && |tickets| == |s.order|
  {
    && (forall t :: t in s.threads ==> ThreadOk(cfg, s.order, tickets, s.threads[t]))
    && (forall p :: p in s.verdicts ==> VerdictOk(cfg, s.order, tickets, p, s.verdicts[p]))
  }

  ghost predicate ThreadOk(cfg: Config, order: seq<Hit>, tickets: seq<int>, thread: Thread)
    requires |tickets| == |order|
  {
    match thread
    case ClockRead(h) => h.bucket in cfg
    case Counted(p, count) => p < |order| && count == tickets[p]
  }

  ghost predicate VerdictOk(cfg: Config, order: seq<Hit>, tickets: seq<int>, p: nat, verdict: Verdict)
    requires |tickets| == |order| && Legal(cfg, order)
  {
    p < |order| && (verdict == Accepted <==> tickets[p] <= cfg[order[p].bucket].limit)
  }

  /** Every call past its locked section has its verdict, or is held by exactly
      one thread still to decide. */
  ghost predicate OwnersOk(s: State) {
    && (forall t, p: nat :: Holds(s, t, p) ==> p < |s.order| && p !in s.verdicts)
    && (forall t, u, p :: Holds(s, t, p) && Holds(s, u, p) ==> t == u)
    && (forall p :: 0 <= p < |s.order| && p !in s.verdicts ==> exists t :: Holds(s, t, p))
  }

  /** The calls behave as if each had run alone, in lock order, and none is lost. */
  ghost predicate Linearized(cfg: Config, s: State) {
    ResultsOk(cfg, s) && OwnersOk(s)
  }

  lemma OneMoreTicket(cfg: Config, s: State, s': State, tickets: seq<int>, t: nat, h: Hit, count: int)
    requires Legal(cfg, s.order) && Legal(cfg, s'.order) && |tickets| == |s.order| && HandedOut(cfg, s, tickets)
    requires s'.order == s.order + [h] && s'.threads == s.threads[t := Counted(|s.order|, count)] && s'.verdicts == s.verdicts
    ensures HandedOut(cfg, s', tickets + [count])
  {
    forall u | u in s'.threads ensures ThreadOk(cfg, s'.order, tickets + [count], s'.threads[u]) {
      assert u != t ==> ThreadOk(cfg, s.order, tickets, s.threads[u]);
    }
    forall p | p in s'.verdicts ensures VerdictOk(cfg, s'.order, tickets + [count], p, s'.verdicts[p]) {
      assert VerdictOk(cfg, s.order, tickets, p, s.verdicts[p]);
    }
  }

  lemma LockedSectionResults(cfg: Config, s: State, s': State, t: nat, h: Hit)
    requires ResultsOk(cfg, s) && h.bucket in cfg
    requires s' == State(Enter(s.counts, KeyOf(cfg, h)), s.threads[t := Counted(|s.order|, CountOf(s.counts, KeyOf(cfg, h)) + 1)],
                         s.order + [h], s.verdicts)
    ensures ResultsOk(cfg, s')
  {
    TicketsAppend(cfg, s.order, h);
    OneMoreTicket(cfg, s, s', Tickets(cfg, s.order), t, h, CountOf(s.counts, KeyOf(cfg, h)) + 1);
  }

  lemma StepHandsOut(cfg: Config, s: State, e: Event, tickets: seq<int>)
    requires Legal(cfg, s.order) && |tickets| == |s.order| && HandedOut(cfg, s, tickets) && !e.LockedSection?
    ensures Step(cfg, s, e).order == s.order && Step(cfg, s, e).counts == s.counts && HandedOut(cfg, Step(cfg, s, e), tickets)
  {
    if e.thread in s.threads {
      assert ThreadOk(cfg, s.order, tickets, s.threads[e.thread]);
    }
  }

  lemma StepResults(cfg: Config, s: State, e: Event)
    requires ResultsOk(cfg, s)
    ensures ResultsOk(cfg, Step(cfg, s, e))
  {
    if e.LockedSection? {
      if e.thread in s.threads && s.threads[e.thread].ClockRead? {
        assert ThreadOk(cfg, s.order, Tickets(cfg, s.order), s.threads[e.thread]);
        LockedSectionResults(cfg, s, Step(cfg, s, e), e.thread, s.threads[e.thread].hit);
      }
    } else {
      StepHandsOut(cfg, s, e, Tickets(cfg, s.order));
    }
  }

  lemma LockedSectionOwners(s: State, s': State, t: nat, count: int, h: Hit)
    requires OwnersOk(s) && t in s.threads && s.threads[t].ClockRead?
    requires s'.threads == s.threads[t := Counted(|s.order|, count)] && s'.order == s.order + [h] && s'.verdicts == s.verdicts
    requires forall p :: p in s.verdicts ==> p < |s.order|
    ensures OwnersOk(s')
  {
    var n := |s.order|;
    forall u, p ensures Holds(s', u, p) <==> (if u == t then p == n else Holds(s, u, p)) {}
    forall p | 0 <= p < |s'.order| && p !in s'.verdicts ensures exists u :: Holds(s', u, p) {
      if p == n {
        assert Holds(s', t, p);
      } else {
        var u :| Holds(s, u, p);
        assert Holds(s', u, p);
      }
    }
  }

  lemma DecideOwners(s: State, s': State, t: nat, verdict: Verdict)
    requires OwnersOk(s) && t in s.threads && s.threads[t].Counted?
    requires s'.threads == s.threads - {t} && s'.order == s.order && s'.verdicts == s.verdicts[s.threads[t].position := verdict]
    ensures OwnersOk(s')
  {
    var n := s.threads[t].position;
    assert Holds(s, t, n);
    forall u, p ensures Holds(s', u, p) <==> u != t && Holds(s, u, p) {}
    forall p | 0 <= p < |s'.order| && p !in s'.verdicts ensures exists u :: Holds(s', u, p) {
      var u :| Holds(s, u, p);
      assert Holds(s', u, p);
    }
  }

  lemma ReadClockOwners(s: State, s': State, t: nat, h: Hit)
    requires OwnersOk(s) && t !in s.threads
    requires s'.threads == s.threads[t := ClockRead(h)] && s'.order == s.order && s'.verdicts == s.verdicts
    ensures OwnersOk(s')
  {
    forall u, p ensures Holds(s', u, p) <==> Holds(s, u, p) {}
    forall p | 0 <= p < |s'.order| && p !in s'.verdicts ensures exists u :: Holds(s', u, p) {
      var u :| Holds(s, u, p);
      assert Holds(s', u, p);
    }
  }

  lemma LinearizedEnabled(cfg: Config, s: State)
    requires Linearized(cfg, s)
    ensures Enabled(cfg, s)
  {
    assert forall t :: t in s.threads ==> ThreadOk(cfg, s.order, Tickets(cfg, s.order), s.threads[t]);
  }

  lemma StepLinearized(cfg: Config, s: State, e: Event)
    requires Linearized(cfg, s)
    ensures Linearized(cfg, Step(cfg, s, e))
  {
    var s' := Step(cfg, s, e);
    StepResults(cfg, s, e);
    match e
    case ReadClock(t, h) =>
      if t !in s.threads && h.bucket in cfg {
        ReadClockOwners(s, s', t, h);
      }
    case LockedSection(t) =>
      if t in s.threads && s.threads[t].ClockRead? {
        assert forall p :: p in s.verdicts ==> VerdictOk(cfg, s.order, Tickets(cfg, s.order), p, s.verdicts[p]);
        LockedSectionOwners(s, s', t, s'.threads[t].count, s.threads[t].hit);
      }
    case Decide(t) =>
      if t in s.threads && s.threads[t].Counted? {
        DecideOwners(s, s', t, s'.verdicts[s.threads[t].position]);
      }
  }

  /** The state after any interleaving of any number of threads under any clock. */
  ghost function Interleaved(cfg: Config, events: seq<Event>): (s: State)
    ensures Linearized(cfg, s)
  {
    if events == [] then INITIAL
    else
      var before := Interleaved(cfg, events[..|events| - 1]);
      LinearizedEnabled(cfg, before);
      StepLinearized(cfg, before, events[|events| - 1]);
      Step(cfg, before, events[|events| - 1])
  }

  /** In every interleaving, each verdict handed out is the one the sequential
      limiter gives to that call in lock order, the counters are those of the
      sequential run, and no call is lost or answered twice. */
  lemma InterleavedIsSequential(cfg: Config, events: seq<Event>)
    ensures var s := Interleaved(cfg, events);
            && s.counts == After(cfg, s.order)
            && (forall p :: p in s.verdicts ==>
                  p < |s.order| && (s.verdicts[p] == Accepted <==> Admits(cfg, s.order[..p], s.order[p])))
            && (forall p :: 0 <= p < |s.order| ==> (p !in s.verdicts <==> exists t :: Holds(s, t, p)))
  {
    var s := Interleaved(cfg, events);
    forall p | p in s.verdicts
      ensures p < |s.order| && (s.verdicts[p] == Accepted <==> Admits(cfg, s.order[..p], s.order[p]))
    {
      assert VerdictOk(cfg, s.order, Tickets(cfg, s.order), p, s.verdicts[p]);
      TicketsDecide(cfg, s.order, p);
    }
  }

  /** The calls on `k` that have been told they are admitted. */
  ghost function ToldAdmitted(cfg: Config, s: State, k: WindowKey): set<nat>
    requires Legal(cfg, s.order) && forall p :: p in s.verdicts ==> p < |s.order|
  {
    set p | p in s.verdicts && s.verdicts[p] == Accepted && KeyOf(cfg, s.order[p]) == k
  }

  /** They are the calls with a verdict of acceptance that fell on that window. */
  lemma ToldAdmittedAre(cfg: Config, s: State, k: WindowKey, p: nat)
    requires Legal(cfg, s.order) && (forall q :: q in s.verdicts ==> q < |s.order|) && k.bucket in cfg
    ensures p in ToldAdmitted(cfg, s, k) <==> p in s.verdicts && s.verdicts[p] == Accepted && FallsOn(cfg, s.order[p], k)
  {
    if p in s.verdicts {
      FallsOnIsKey(cfg, s.order[p], k);
    }
  }

  lemma {:induction false} AdmittedPositions(cfg: Config, hits: seq<Hit>, k: WindowKey, told: set<nat>)
    requires Legal(cfg, hits) && k.bucket in cfg
    requires forall p :: p in told ==>
               p < |hits| && KeyOf(cfg, hits[p]) == k && Tickets(cfg, hits)[p] <= cfg[k.bucket].limit
    ensures |told| <= Admitted(cfg, hits, k)
  {
    if hits == [] {
      assert told == {};
    } else {
      var n := |hits| - 1;
      var past, rest := hits[..n], told - {n};
      forall p | p in rest ensures p < n && KeyOf(cfg, past[p]) == k && Tickets(cfg, past)[p] <= cfg[k.bucket].limit {
        assert past[p] == hits[p] && Tickets(cfg, past)[p] == Tickets(cfg, hits)[p];
      }
      AdmittedPositions(cfg, past, k, rest);
      assert |told| == |rest| + if n in told then 1 else 0;
    }
  }

  lemma ToldAreAdmitted(cfg: Config, events: seq<Event>, k: WindowKey)
    requires k.bucket in cfg
    ensures var s := Interleaved(cfg, events);
            && (forall p :: p in s.verdicts ==> p < |s.order|)
            && |ToldAdmitted(cfg, s, k)| <= Admitted(cfg, s.order, k)
  {
    var s := Interleaved(cfg, events);
    assert forall p :: p in s.verdicts ==> VerdictOk(cfg, s.order, Tickets(cfg, s.order), p, s.verdicts[p]);
    AdmittedPositions(cfg, s.order, k, ToldAdmitted(cfg, s, k));
  }

  /** In every interleaving, a window lets through at most its limit, and its
      limit once more for every prune that deleted its counter. */
  lemma InterleavedBound(cfg: Config, events: seq<Event>, k: WindowKey)
    requires k.bucket in cfg
    ensures var s := Interleaved(cfg, events);
            && (forall p :: p in s.verdicts ==> p < |s.order|)
            && |ToldAdmitted(cfg, s, k)| <= Allowance(cfg, s.order, k)
  {
    ToldAreAdmitted(cfg, events, k);
    AdmittedBound(cfg, Interleaved(cfg, events).order, k);
  }

  lemma PrefixInOrder(cfg: Config, order: seq<Hit>, w: int, p: nat)
    requires Legal(cfg, order) && w > 0 && WindowsInOrder(order, w) && p < |order|
    ensures Legal(cfg, order[..p] + [order[p]]) && WindowsInOrder(order[..p] + [order[p]], w)
  {
    assert order[..p] + [order[p]] == order[..p + 1];
  }

  /** Callers may swap between reading the clock and taking the lock: as long
      as none takes the lock after a caller that read a later window, a bucket
      with the shortest window never lets through more than its limit per
      window, and every verdict handed out is the intended one. */
  lemma InterleavedAsIntended(cfg: Config, events: seq<Event>, k: WindowKey)
    requires ShortestWindow(cfg, k.bucket) && WindowsInOrder(Interleaved(cfg, events).order, cfg[k.bucket].windowSeconds)
    ensures var s := Interleaved(cfg, events);
            && (forall p :: p in s.verdicts ==> p < |s.order|)
            && |ToldAdmitted(cfg, s, k)| <= Cap(cfg[k.bucket].limit)
            && forall p :: p in s.verdicts && s.order[p].bucket == k.bucket ==>
                 (s.verdicts[p] == Accepted <==> ShouldAdmit(cfg, s.order[..p], s.order[p]))
  {
    var s := Interleaved(cfg, events);
    ToldAreAdmitted(cfg, events, k);
    AdmittedExact(cfg, s.order, k);
    InterleavedIsSequential(cfg, events);
    forall p | p in s.verdicts && s.order[p].bucket == k.bucket
      ensures s.verdicts[p] == Accepted <==> ShouldAdmit(cfg, s.order[..p], s.order[p])
    {
      PrefixInOrder(cfg, s.order, cfg[k.bucket].windowSeconds, p);
      PruningIsInvisible(cfg, s.order[..p], s.order[p]);
    }
  }
}
