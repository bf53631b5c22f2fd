/** Callers that read the clock before a prune and take the lock after it: why
    no condition on the clock alone makes the limiter exact. */
module LimiterLateEntry {
  import opened RateLimit
  import opened LimiterRuns
  import opened LimiterForgets
  import opened LimiterThreads

  /** The clock itself never runs backwards: the values come in order in which the threads read them. */
  ghost predicate ClockReadsInOrder(events: seq<Event>) {
    && (forall i :: 0 <= i < |events| && events[i].ReadClock? ==> events[i].hit.now >= 0.0)
    && (forall i, j :: 0 <= i <= j < |events| && events[i].ReadClock? && events[j].ReadClock? ==>
          events[i].hit.now <= events[j].hit.now)
  }

  /** Every verdict handed out on the bucket is the intended one. */
  ghost predicate JudgedAsIntended(cfg: Config, s: State, bucket: string)
    requires Legal(cfg, s.order)
  {
    forall p :: p in s.verdicts && p < |s.order| && s.order[p].bucket == bucket ==>
      (s.verdicts[p] == Accepted <==> ShouldAdmit(cfg, s.order[..p], s.order[p]))
  }

  /** One thread reads the clock first of all; then the `hits` are made one
      after the other, each by a thread of its own. */
  function Overtaken(late: Hit, hits: seq<Hit>): seq<Event> {
    if hits == [] then [ReadClock(0, late)]
    else Overtaken(late, hits[..|hits| - 1]) + [ReadClock(|hits|, hits[|hits| - 1]), LockedSection(|hits|)]
  }

  /** And then the first thread goes on. */
  function Schedule(late: Hit, hits: seq<Hit>): seq<Event> {
    Overtaken(late, hits) + [LockedSection(0), Decide(0)]
  }

  lemma InterleavedAppend(cfg: Config, events: seq<Event>, e: Event)
    ensures Enabled(cfg, Interleaved(cfg, events))
    ensures Interleaved(cfg, events + [e]) == Step(cfg, Interleaved(cfg, events), e)
  {
    assert (events + [e])[..|events|] == events;
    LinearizedEnabled(cfg, Interleaved(cfg, events));
  }

  lemma ReadClockLast(cfg: Config, events: seq<Event>, t: nat, h: Hit)
    ensures var s, s' := Interleaved(cfg, events), Interleaved(cfg, events + [ReadClock(t, h)]);
            t !in s.threads && h.bucket in cfg ==> s'.threads == s.threads[t := ClockRead(h)] && s'.order == s.order
  {
    InterleavedAppend(cfg, events, ReadClock(t, h));
  }

  lemma LockedSectionLast(cfg: Config, events: seq<Event>, t: nat, h: Hit) returns (count: int)
    ensures var s, s' := Interleaved(cfg, events), Interleaved(cfg, events + [LockedSection(t)]);
            t in s.threads && s.threads[t] == ClockRead(h) ==>
              s'.threads == s.threads[t := Counted(|s.order|, count)] && s'.order == s.order + [h]
  {
    InterleavedAppend(cfg, events, LockedSection(t));
    var s' := Interleaved(cfg, events + [LockedSection(t)]);
    count := if t in s'.threads && s'.threads[t].Counted? then s'.threads[t].count else 0;
  }

  lemma DecideLast(cfg: Config, events: seq<Event>, t: nat, p: nat, count: int)
    ensures var s, s' := Interleaved(cfg, events), Interleaved(cfg, events + [Decide(t)]);
            t in s.threads && s.threads[t] == Counted(p, count) ==> s'.order == s.order && p in s'.verdicts
  {
    InterleavedAppend(cfg, events, Decide(t));
  }

  /** The first thread still waits for the lock, the others have had it. */
  ghost predicate Waiting(s: State, late: Hit, hits: seq<Hit>) {
    s.order == hits && 0 in s.threads && s.threads[0] == ClockRead(late) && forall t :: t in s.threads ==> t <= |hits|
  }

  lemma FirstReads(cfg: Config, late: Hit)
    requires late.bucket in cfg
    ensures Waiting(Interleaved(cfg, [ReadClock(0, late)]), late, [])
  {
    ReadClockLast(cfg, [], 0, late);
    assert [] + [ReadClock(0, late)] == [ReadClock(0, late)];
  }

  lemma OneMoreOvertakes(cfg: Config, late: Hit, hits: seq<Hit>, events: seq<Event>, read: seq<Event>, locked: seq<Event>)
    requires Legal(cfg, hits) && hits != []
    requires read == events + [ReadClock(|hits|, hits[|hits| - 1])] && locked == read + [LockedSection(|hits|)]
    ensures Waiting(Interleaved(cfg, events), late, hits[..|hits| - 1]) ==> Waiting(Interleaved(cfg, locked), late, hits)
  {
    var past, h := hits[..|hits| - 1], hits[|hits| - 1];
    assert hits == past + [h];
    ReadClockLast(cfg, events, |hits|, h);
    var count := LockedSectionLast(cfg, read, |hits|, h);
  }

  lemma OvertakenUnfolds(late: Hit, hits: seq<Hit>) returns (read: seq<Event>)
    requires hits != []
    ensures read == Overtaken(late, hits[..|hits| - 1]) + [ReadClock(|hits|, hits[|hits| - 1])]
    ensures Overtaken(late, hits) == read + [LockedSection(|hits|)]
  {
    read := Overtaken(late, hits[..|hits| - 1]) + [ReadClock(|hits|, hits[|hits| - 1])];
  }

  lemma {:induction false} AfterOvertaken(cfg: Config, late: Hit, hits: seq<Hit>)
    requires Legal(cfg, hits) && late.bucket in cfg
    ensures Waiting(Interleaved(cfg, Overtaken(late, hits)), late, hits)
  {
    if hits == [] {
      FirstReads(cfg, late);
    } else {
      AfterOvertaken(cfg, late, hits[..|hits| - 1]);
      var read := OvertakenUnfolds(late, hits);
      OneMoreOvertakes(cfg, late, hits, Overtaken(late, hits[..|hits| - 1]), read, Overtaken(late, hits));
    }
  }

  lemma {:induction false} OvertakenInOrder(late: Hit, hits: seq<Hit>)
    requires late.now == 0.0 && ClockNondecreasing(hits)
    ensures ClockReadsInOrder(Overtaken(late, hits))
    ensures forall e :: e in Overtaken(late, hits) && e.ReadClock? ==> e.hit.now <= if hits == [] then 0.0 else hits[|hits| - 1].now
  {
    if hits != [] {
      OvertakenInOrder(late, hits[..|hits| - 1]);
    }
  }

  lemma GoesOn(cfg: Config, late: Hit, hits: seq<Hit>, events: seq<Event>, locked: seq<Event>) returns (count: int)
    requires locked == events + [LockedSection(0)]
    ensures var s, s' := Interleaved(cfg, events), Interleaved(cfg, locked);
            Waiting(s, late, hits) ==> 0 in s'.threads && s'.threads[0] == Counted(|hits|, count) && s'.order == hits + [late]
  {
    count := LockedSectionLast(cfg, events, 0, late);
  }

  lemma ScheduleUnfolds(late: Hit, hits: seq<Hit>) returns (locked: seq<Event>)
    ensures locked == Overtaken(late, hits) + [LockedSection(0)] && Schedule(late, hits) == locked + [Decide(0)]
  {
    locked := Overtaken(late, hits) + [LockedSection(0)];
  }

  lemma AfterSchedule(cfg: Config, late: Hit, hits: seq<Hit>)
    requires Legal(cfg, hits) && late.bucket in cfg
    ensures var s := Interleaved(cfg, Schedule(late, hits)); s.order == hits + [late] && |hits| in s.verdicts
  {
    AfterOvertaken(cfg, late, hits);
    var locked := ScheduleUnfolds(late, hits);
    var count := GoesOn(cfg, late, hits, Overtaken(late, hits), locked);
    DecideLast(cfg, locked, 0, |hits|, count);
  }

  /** The late caller is told what the sequential limiter says of it after the others. */
  lemma LateVerdict(cfg: Config, late: Hit, hits: seq<Hit>)
    requires Legal(cfg, hits) && late.bucket in cfg
    ensures var s := Interleaved(cfg, Schedule(late, hits));
            s.order == hits + [late] && |hits| in s.verdicts && (s.verdicts[|hits|] == Accepted <==> Admits(cfg, hits, late))
  {
    AfterSchedule(cfg, late, hits);
    InterleavedIsSequential(cfg, Schedule(late, hits));
    assert (hits + [late])[..|hits|] == hits;
  }

  lemma LateIsMisjudged(cfg: Config, late: Hit, hits: seq<Hit>)
    requires Legal(cfg, hits) && late.bucket in cfg && Admits(cfg, hits, late) && !ShouldAdmit(cfg, hits, late)
    ensures !JudgedAsIntended(cfg, Interleaved(cfg, Schedule(late, hits)), late.bucket)
  {
    var s := Interleaved(cfg, Schedule(late, hits));
    LateVerdict(cfg, late, hits);
    assert s.order[..|hits|] == hits && s.order[|hits|] == late;
  }

  /** A bucket that admits anything can be made to admit one hit too many by
      callers on a clock that never runs backwards, whatever the windows. */
  lemma LateEntryIsForgotten(cfg: Config, bucket: string) returns (events: seq<Event>)
    requires bucket in cfg && cfg[bucket].limit > 0
    ensures ClockReadsInOrder(events) && !JudgedAsIntended(cfg, Interleaved(cfg, events), bucket)
  {
    var hits, late := OldHitIsForgotten(cfg, bucket);
    events := Schedule(late, hits);
    assert ClockReadsInOrder(events) by { OvertakenInOrder(late, hits); }
    LateIsMisjudged(cfg, late, hits);
  }

  /** In every interleaving on a clock that never runs backwards, all verdicts on the bucket are as intended. */
  ghost predicate ExactOnAnyClock(cfg: Config, bucket: string) {
    forall events :: ClockReadsInOrder(events) ==> JudgedAsIntended(cfg, Interleaved(cfg, events), bucket)
  }

  /** That is so exactly for the buckets that admit nothing at all. */
  lemma ExactOnAnyClockIff(cfg: Config, bucket: string)
    requires bucket in cfg
    ensures ExactOnAnyClock(cfg, bucket) <==> cfg[bucket].limit <= 0
  {
    if cfg[bucket].limit > 0 {
      var events := LateEntryIsForgotten(cfg, bucket);
    } else {
      forall events | ClockReadsInOrder(events) ensures JudgedAsIntended(cfg, Interleaved(cfg, events), bucket) {
        var s := Interleaved(cfg, events);
        InterleavedIsSequential(cfg, events);
        forall p | p in s.verdicts && s.order[p].bucket == bucket
          ensures s.verdicts[p] == Accepted <==> ShouldAdmit(cfg, s.order[..p], s.order[p])
        {
          NothingAdmitted(cfg, s.order[..p], s.order[p]);
        }
      }
    }
  }
}
