/** The lifecycle policy registry: following inheritance links to the policy
    that applies, and the guards that depend on it. */
module LifecyclePolicy {
  import opened FleetDb
  import opened Text

  datatype Category =
    SOFT_DELETE_RESTORE | ARCHIVE_STATUS | RETENTION_PROTECTED | DEPENDENCY_CONTROLLED | UNRESOLVED | NOT_APPLICABLE

  datatype Mechanism = SOFT_DELETE | STATUS_TRANSITION | NONE | INHERITED

  datatype Policy = Policy(
    entityType: string, category: Category, mechanism: Mechanism,
    tenantDelete: bool, restore: bool, permanentDelete: bool, dependencyCheck: bool,
    retentionProtected: bool, implemented: bool, inheritsFrom: Option<string>)

  type Registry = map<string, Policy>

  function GetPolicy(reg: Registry, name: string): Option<Policy> {
    if Upper(name) in reg then Some(reg[Upper(name)]) else None
  }

  /** What following at most `hops` links leads to. */
  datatype Resolution = Resolved(policy: Policy) | NotRegistered | StillFollowing

  /** `resolve_policy`, cut off after `hops` recursive calls. */
  function Resolve(reg: Registry, name: string, hops: nat): Resolution
    decreases hops
  {
    match GetPolicy(reg, name)
    case None => NotRegistered
    case Some(p) =>
      if p.inheritsFrom.None? then Resolved(p)
      else if hops == 0 then StillFollowing
      else Resolve(reg, p.inheritsFrom.value, hops - 1)
  }

  // ---- the chase as a walk through the registry ----

  /** The policy has a link to follow. */
  predicate Live(reg: Registry, key: string) {
    key in reg && reg[key].inheritsFrom.Some?
  }

  function Next(reg: Registry, key: string): string
    requires Live(reg, key)
  {
    Upper(reg[key].inheritsFrom.value)
  }

  /** The keys of the first `n` policies met, if all of them have links. */
  ghost predicate Trail(reg: Registry, name: string, keys: seq<string>) {
    && (keys != [] ==> keys[0] == Upper(name))
    && (forall i :: 0 <= i < |keys| ==> Live(reg, keys[i]))
    && (forall i :: 0 <= i < |keys| - 1 ==> keys[i + 1] == Next(reg, keys[i]))
  }

  /** Being still under way after `hops` calls means a trail of that length. */
  lemma {:induction false} StillFollowingTrail(reg: Registry, name: string, hops: nat) returns (keys: seq<string>)
    requires Resolve(reg, name, hops) == StillFollowing
    ensures |keys| == hops + 1 && Trail(reg, name, keys)
    decreases hops
  {
    if hops == 0 {
      keys := [Upper(name)];
    } else {
      var rest := StillFollowingTrail(reg, reg[Upper(name)].inheritsFrom.value, hops - 1);
      keys := [Upper(name)] + rest;
    }
  }

  /** From anywhere on a trail that comes back to a key, the chase never ends. */
  lemma {:induction false} LoopNeverEnds(reg: Registry, start: string, keys: seq<string>, i: nat, j: nat, at: nat, name: string, hops: nat)
    requires Trail(reg, start, keys) && i < j < |keys| && keys[i] == keys[j] && i <= at < j && Upper(name) == keys[at]
    ensures Resolve(reg, name, hops) == StillFollowing
    decreases hops
  {
    if hops > 0 {
      var next := reg[keys[at]].inheritsFrom.value;
      assert Upper(next) == keys[at + 1];
      LoopNeverEnds(reg, start, keys, i, j, if at + 1 < j then at + 1 else i, next, hops - 1);
    }
  }

  lemma {:induction false} TrailReaches(reg: Registry, name: string, keys: seq<string>, at: nat, hops: nat)
    requires Trail(reg, name, keys) && at < |keys|
    requires forall h: nat, n: string :: Upper(n) == keys[at] ==> Resolve(reg, n, h) == StillFollowing
    ensures Resolve(reg, name, hops) == StillFollowing
    decreases at
  {
    if at > 0 {
      forall h: nat, n: string | Upper(n) == keys[at - 1] ensures Resolve(reg, n, h) == StillFollowing {
        assert Upper(reg[keys[at - 1]].inheritsFrom.value) == keys[at];
      }
      TrailReaches(reg, name, keys, at - 1, hops);
    }
  }

  /** More keys than policies: some key comes twice. */
  lemma {:induction false} Pigeonhole(keys: seq<string>, pool: set<string>) returns (i: nat, j: nat)
    requires (forall k :: 0 <= k < |keys| ==> keys[k] in pool) && |keys| > |pool|
    ensures i < j < |keys| && keys[i] == keys[j]
    decreases |keys|
  {
    var last := keys[|keys| - 1];
    if k :| 0 <= k < |keys| - 1 && keys[k] == last {
      i, j := k, |keys| - 1;
    } else {
      i, j := Pigeonhole(keys[..|keys| - 1], pool - {last});
    }
  }

  /** Some policy on the way inherits, through one or more links, from itself. */
  ghost predicate LeadsToCycle(reg: Registry, name: string) {
    exists keys: seq<string>, i, j :: Trail(reg, name, keys) && 0 <= i < j < |keys| && keys[i] == keys[j]
  }

  lemma CycleNeverResolves(reg: Registry, name: string, hops: nat)
    requires LeadsToCycle(reg, name)
    ensures Resolve(reg, name, hops) == StillFollowing
  {
    var keys: seq<string>, i, j :| Trail(reg, name, keys) && 0 <= i < j < |keys| && keys[i] == keys[j];
    forall h: nat, n: string | Upper(n) == keys[i] ensures Resolve(reg, n, h) == StillFollowing {
      LoopNeverEnds(reg, name, keys, i, j, i, n, h);
    }
    TrailReaches(reg, name, keys, i, hops);
  }

  /** The recursion ends exactly when no cycle is ahead, and then within as
      many calls as there are policies. */
  lemma ResolutionEndsIff(reg: Registry, name: string)
    ensures LeadsToCycle(reg, name) <==> Resolve(reg, name, |reg|) == StillFollowing
    ensures LeadsToCycle(reg, name) <==> forall hops: nat :: Resolve(reg, name, hops) == StillFollowing
  {
    if Resolve(reg, name, |reg|) == StillFollowing {
      var keys := StillFollowingTrail(reg, name, |reg|);
      var i, j := Pigeonhole(keys, reg.Keys);
    }
    if LeadsToCycle(reg, name) {
      forall hops: nat ensures Resolve(reg, name, hops) == StillFollowing {
        CycleNeverResolves(reg, name, hops);
      }
    }
  }

  // ---- what a resolution is ----

  lemma {:induction false} MoreHopsSameAnswer(reg: Registry, name: string, hops: nat, more: nat)
    requires Resolve(reg, name, hops) != StillFollowing && hops <= more
    ensures Resolve(reg, name, more) == Resolve(reg, name, hops)
    decreases hops
  {
    match GetPolicy(reg, name)
    case None =>
    case Some(p) =>
      if p.inheritsFrom.Some? {
        MoreHopsSameAnswer(reg, p.inheritsFrom.value, hops - 1, more - 1);
      }
  }

  /** `resolve_policy`, with as many calls as the registry can need. */
  function ResolvePolicy(reg: Registry, name: string): Resolution {
    Resolve(reg, name, |reg|)
  }

  /** Each link names a registered policy. */
  predicate Closed(reg: Registry) {
    forall k :: k in reg && reg[k].inheritsFrom.Some? ==> Upper(reg[k].inheritsFrom.value) in reg
  }

  /** Each policy is registered under its own name. */
  predicate KeyedByName(reg: Registry) {
    forall k :: k in reg ==> Upper(reg[k].entityType) == k
  }

  /** A resolved policy is a registered one that inherits from nothing. */
  lemma {:induction false} ResolvedIsRoot(reg: Registry, name: string, hops: nat)
    requires Resolve(reg, name, hops).Resolved?
    ensures var p := Resolve(reg, name, hops).policy; p in reg.Values && p.inheritsFrom == None
    decreases hops
  {
    var p := reg[Upper(name)];
    if p.inheritsFrom.Some? {
      ResolvedIsRoot(reg, p.inheritsFrom.value, hops - 1);
    }
  }

  lemma {:induction false} ClosedResolves(reg: Registry, name: string, hops: nat)
    requires Closed(reg) && Upper(name) in reg
    ensures Resolve(reg, name, hops) != NotRegistered
    decreases hops
  {
    var p := reg[Upper(name)];
    if p.inheritsFrom.Some? && hops > 0 {
      ClosedResolves(reg, p.inheritsFrom.value, hops - 1);
    }
  }

  /** A registered name, however spelled, resolves to its own entry if that
      inherits from nothing, and else to whatever its parent resolves to; any
      other name does not resolve. */
  lemma ResolvesByInheritance(reg: Registry, name: string, key: string)
    requires |name| == |key| && (forall i :: 0 <= i < |key| ==> SameLetter(name[i], key[i])) && Upper(key) == key
    ensures key !in reg ==> ResolvePolicy(reg, name) == NotRegistered
    ensures key in reg && reg[key].inheritsFrom.None? ==> ResolvePolicy(reg, name) == Resolved(reg[key])
    ensures key in reg && reg[key].inheritsFrom.Some? ==> ResolvePolicy(reg, name) == ResolvePolicy(reg, reg[key].inheritsFrom.value)
  {
    UpperIgnoresCase(name, key);
    if key in reg && reg[key].inheritsFrom.Some? {
      ParentResolvesAlike(reg, name, reg[key].inheritsFrom.value);
    }
  }

  lemma ParentResolvesAlike(reg: Registry, name: string, parent: string)
    requires GetPolicy(reg, name).Some? && GetPolicy(reg, name).value.inheritsFrom == Some(parent)
    ensures ResolvePolicy(reg, name) == ResolvePolicy(reg, parent)
  {
    var n := |reg|;
    assert Upper(name) in reg;
    assert Resolve(reg, name, n) == Resolve(reg, parent, n - 1);
    if Resolve(reg, parent, n - 1) != StillFollowing {
      MoreHopsSameAnswer(reg, parent, n - 1, n);
    } else {
      ResolutionEndsIff(reg, name);
      forall hops: nat ensures Resolve(reg, parent, hops) == StillFollowing {
        assert Resolve(reg, name, hops + 1) == StillFollowing;
      }
    }
  }

  /** In a closed registry without cycles every registered name, in any case,
      resolves to a root, and resolving that root's own name gives it again. */
  lemma ResolutionIsTotal(reg: Registry, name: string, spelled: string)
    requires Closed(reg) && KeyedByName(reg) && Upper(name) in reg && !LeadsToCycle(reg, name)
    requires Upper(spelled) == Upper(name)
    ensures ResolvePolicy(reg, name).Resolved?
    ensures var p := ResolvePolicy(reg, name).policy;
            && p.inheritsFrom == None && p in reg.Values
            && ResolvePolicy(reg, p.entityType) == Resolved(p)
            && ResolvePolicy(reg, spelled) == Resolved(p)
  {
    ResolutionEndsIff(reg, name);
    ClosedResolves(reg, name, |reg|);
    ResolvedIsRoot(reg, name, |reg|);
    var p := ResolvePolicy(reg, name).policy;
    var k :| k in reg && reg[k] == p;
    assert Upper(p.entityType) == k;
  }

  // ---- the guards ----

  datatype Guard = TenantDelete | RestoreRecord | PermanentDelete | DeletionQueue

  /** Returned policy or the error raised. */
  datatype Verdict = Permitted(policy: Policy) | Unknown | NotImplemented | Forbidden | NeverReturns

  function Judge(g: Guard, p: Policy): Verdict {
    match g
    case DeletionQueue => if p.retentionProtected || p.category == RETENTION_PROTECTED then Forbidden else Permitted(p)
    case TenantDelete => if !p.implemented then NotImplemented else if !p.tenantDelete then Forbidden else Permitted(p)
    case RestoreRecord => if !p.implemented then NotImplemented else if !p.restore then Forbidden else Permitted(p)
    case PermanentDelete => if !p.implemented then NotImplemented else if !p.permanentDelete then Forbidden else Permitted(p)
  }

  function Check(g: Guard, reg: Registry, name: string): Verdict {
    match ResolvePolicy(reg, name)
    case Resolved(p) => Judge(g, p)
    case NotRegistered => Unknown
    case StillFollowing => NeverReturns
  }

  /** What each guard says of a name, in terms of the policy it resolves to:
      unknown names first, then policies without an implemented path, then the
      flag that the guard is about. */
  lemma GuardVerdicts(reg: Registry, name: string)
    ensures forall g :: Check(g, reg, name) == Unknown <==> ResolvePolicy(reg, name) == NotRegistered
    ensures forall g :: Check(g, reg, name) == NeverReturns <==> LeadsToCycle(reg, name)
    ensures ResolvePolicy(reg, name).Resolved? ==>
              var p := ResolvePolicy(reg, name).policy;
              && Check(TenantDelete, reg, name) == (if !p.implemented then NotImplemented else if p.tenantDelete then Permitted(p) else Forbidden)
              && Check(RestoreRecord, reg, name) == (if !p.implemented then NotImplemented else if p.restore then Permitted(p) else Forbidden)
              && Check(PermanentDelete, reg, name)
                 == (if !p.implemented then NotImplemented else if p.permanentDelete then Permitted(p) else Forbidden)
              && Check(DeletionQueue, reg, name) == (if p.retentionProtected || p.category == RETENTION_PROTECTED then Forbidden else Permitted(p))
  {
    ResolutionEndsIff(reg, name);
  }

  /** Every guard gives a dependent the verdict of the policy it inherits from. */
  lemma GuardsFollowInheritance(g: Guard, reg: Registry, name: string, parent: string)
    requires GetPolicy(reg, name).Some? && GetPolicy(reg, name).value.inheritsFrom == Some(parent)
    ensures Check(g, reg, name) == Check(g, reg, parent)
  {
    ParentResolvesAlike(reg, name, parent);
  }

  lemma {:induction false} OwnFlagsIgnored(reg: Registry, k: string, p: Policy, name: string, hops: nat)
    requires k in reg && reg[k].inheritsFrom.Some? && p.inheritsFrom == reg[k].inheritsFrom
    ensures Resolve(reg[k := p], name, hops) == Resolve(reg, name, hops)
    decreases hops
  {
    match GetPolicy(reg, name)
    case None =>
    case Some(q) =>
      if q.inheritsFrom.Some? && hops > 0 {
        OwnFlagsIgnored(reg, k, p, q.inheritsFrom.value, hops - 1);
      }
  }

  /** Whatever a dependent's own entry says, no verdict on any name changes. */
  lemma DependentFlagsNeverMatter(g: Guard, reg: Registry, k: string, p: Policy, name: string)
    requires k in reg && reg[k].inheritsFrom.Some? && p.inheritsFrom == reg[k].inheritsFrom
    ensures Check(g, reg[k := p], name) == Check(g, reg, name)
  {
    assert reg[k := p].Keys == reg.Keys;
    assert |reg[k := p]| == |reg[k := p].Keys| == |reg.Keys| == |reg|;
    OwnFlagsIgnored(reg, k, p, name, |reg|);
  }

  /** Whatever some guard lets be deleted or restored can be seen in the
      deletion queue. */
  ghost predicate QueueShowsEverything(reg: Registry) {
    forall name: string, g :: Check(g, reg, name).Permitted? ==> Check(DeletionQueue, reg, name).Permitted?
  }

  /** No implemented root both permits something and is protected. */
  predicate RootConsistent(p: Policy) {
    p.inheritsFrom.None? && p.implemented && (p.tenantDelete || p.restore || p.permanentDelete) ==>
      !p.retentionProtected && p.category != RETENTION_PROTECTED
  }

  lemma ConsistentShowsEverything(reg: Registry)
    requires forall k :: k in reg ==> RootConsistent(reg[k])
    ensures QueueShowsEverything(reg)
  {
    forall name: string, g | Check(g, reg, name).Permitted?
      ensures Check(DeletionQueue, reg, name).Permitted?
    {
      ResolvedIsRoot(reg, name, |reg|);
      var k :| k in reg && reg[k] == ResolvePolicy(reg, name).policy;
    }
  }

  /** The exact condition on a registry for the queue to be complete. */
  lemma QueueShowsEverythingIff(reg: Registry)
    requires forall k :: k in reg ==> Upper(k) == k
    ensures QueueShowsEverything(reg) <==> forall k :: k in reg ==> RootConsistent(reg[k])
  {
    if forall k :: k in reg ==> RootConsistent(reg[k]) {
      ConsistentShowsEverything(reg);
    }
    if QueueShowsEverything(reg) {
      forall k | k in reg ensures RootConsistent(reg[k]) {
        var p := reg[k];
        if p.inheritsFrom.None? && p.implemented && (p.tenantDelete || p.restore || p.permanentDelete) {
          assert ResolvePolicy(reg, k) == Resolved(p);
          var g := if p.tenantDelete then TenantDelete else if p.restore then RestoreRecord else PermanentDelete;
          assert Check(g, reg, k).Permitted?;
        }
      }
    }
  }
}
