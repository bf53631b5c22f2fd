# Proofs about the AeroComply backend

A Dafny model of the stateful core of the backend, with proofs about whole
runs of it. `dafny verify dfyconfig.toml` checks everything.

| files | part of the system |
|---|---|
| `RateLimit`, `LimiterRuns`, `LimiterForgets`, `LimiterThreads`, `LimiterLateEntry` | the in-memory fixed-window rate limiter: one call, sequences of calls, which rules are safe, concurrent callers, callers overtaken on the way to the lock |
| `FleetDb`, `Text`, `Sets`, `AircraftService`, `AssetService`, `AogService` | the tables, helpers for strings and sets, and the aircraft, asset and AOG services that write them |
| `FleetCalls`, `FleetRuns`, `AssetDrift`, `TenantIsolation`, `AogHistory`, `AogRaces`, `FleetRaces` | what each call accepts and stores, what runs of the calls keep, what the generic asset update breaks, what tenants can see of each other, what the audit log tells, what concurrent requests keep and break |
| `AssetMigrations` | migrations 0027 and 0031, and the state they hand to the services |
| `AuditLog`, `AuditRuns` | filtered, ordered, paged reading of the audit log, and of the log that runs of the services write |
| `LifecyclePolicy`, `ShippedPolicies` | inheritance of deletion policies, the guards, and the registry as shipped |
| `PlanSeeder`, `CatalogSeeder` | the two idempotent seeders |

Objects and tables that the code changes in place are classes with methods
(`FixedWindowLimiter`, `Session` with the service methods over it,
`AssetFoundation`, `MroTables`, `PlanDatabase`, `CatalogDatabase`). Where a
method is specified by a function on values (`Enter`, `Create`, `Update`,
`Declare`, `ChangeStatus`, ...), the lemmas about runs are about that
function. A call that raises leaves the tables as they were: that is how
rollback reads. Inputs the code does not control are parameters: clock values,
generated keys, the resolved `max_assets` limit, the order in which SQL visits
rows, and the order in which threads or transactions take turns. The work orders
and facilities of all organizations are part of the state, by owner.

## What the code does not keep

The model keeps the code as it is. Where an expected property fails, there is
a lemma that says exactly when it holds.

- The prune at `backend/app/core/rate_limit.py:63` compares raw window indices
  across buckets of different window lengths. A bucket is exact under every
  clock that does not run backwards at the lock if and only if it admits
  nothing or has the shortest window (`TrustedBuckets`); of the shipped rules,
  only the one-minute buckets are, and the five-minute OTP ones are not
  (`ShippedTrustedBuckets`).
- The clock is read before the lock is taken, so a caller that others overtake
  can be counted afresh after a prune, on a clock that never runs backwards and
  even when all windows are equal (`LateEntryIsForgotten`). No bucket that
  admits anything is exact on every such schedule (`ExactOnAnyClockIff`); what
  suffices is that no caller takes the lock after one that read a later window
  (`InterleavedAsIntended`).
- `add_blocker` does not look at the event's status, so an event can be
  recovered and have an open blocker (`NoneOpenCanFail`). What holds is that
  such a blocker was added after the recovery (`RunKeepsLate`).
- Status changes do not lock the row they read. Two overlapping changes can
  record a disconnected path, and a blocker added while a recovery is being
  decided can be missed (`PathSurvivesRaceIff`, `LatenessSurvivesRaceIff`;
  reached in `PathCanBreak` and `BlockerSlipsIn`).
- A declaration may name any work order and a generic asset update any facility:
  the foreign keys look at the rows of all organizations. Such a call succeeds
  only while the other organization keeps its row, so its result is not the one
  the organization would get alone (`ForeignWorkOrderAccepted`). Isolation holds
  exactly for organizations whose calls name none (`TenantsAreIsolated`).
- The asset limit is counted without a lock. Overlapping creations can exceed it
  (`LimitSurvivesRaceIff`, reached in `LimitOfOneExceeded`).
- An aircraft update writes only the columns it changes. Two overlapping updates
  of a backfilled aircraft can leave its asset with another serial number or
  model (`UpdateRaceInStepIff`, reached in `CrossingUpdatesDrift`).
- A PATCH of an AOG event with a null severity, or with an owner, fails at
  commit: the first breaks NOT NULL, the second puts a UUID into the JSON
  metadata, for which no serializer is configured (`PatchCommitsIff`).
- The generic asset update writes the asset row alone, so it can take an
  aircraft's asset out of step with its aircraft row (`InStepSurvivesIff`,
  reached in `DriftReached`).
- `resolve_policy` has no guard against cycles; the recursion ends if and only
  if no cycle is ahead (`ResolutionEndsIff`).

## Model

| member | source | states |
|---|---|---|
| RateLimit.FixedWindowLimiter.Hit | backend/app/core/rate_limit.py:56-76 | A caller is refused exactly when the hits counted in its window, its own included, exceed the limit, whatever the prune then deletes; afterwards the table is within its size limit or holds no counter older than the caller's window |
| RateLimit.WindowIsInterval | backend/app/core/rate_limit.py:57 | Two clock values share a window exactly when they fall in one half-open interval of that many seconds that starts at a multiple of its length |
| RateLimit.EnterCounterByCounter | backend/app/core/rate_limit.py:59-65 | The caller's counter goes up by one or starts at one; if more than 20,000 are tracked then, exactly those of lower index go; every other counter stays as it was |
| RateLimit.IndexMonotone | backend/app/core/rate_limit.py:57 | A later clock value never gives a smaller window index |
| RateLimit.IndexShorterWindow | backend/app/core/rate_limit.py:57 | At one instant the bucket with the shorter window never has the smaller index |
| LimiterRuns.StepOn | backend/app/core/rate_limit.py:59-65 | A hit counts its own counter up by one and every other counter is either left alone or deleted, and only deleted ones read 0 afterwards |
| LimiterRuns.Serve | backend/app/core/rate_limit.py:56-76 | The limiter object, serving any sequence of calls, has the counters and gives the verdicts that the results about sequences speak of |
| LimiterRuns.NewWindowStartsAfresh | backend/app/core/rate_limit.py:57-67 | Under any clock, a hit in an interval that no earlier hit of the same client and bucket fell in is refused only by a limit below one |
| LimiterRuns.TotalIsNumber | backend/app/core/rate_limit.py:57-61 | What the reference limiter counts is the number of the client's hits on the bucket within the window's interval of time |
| LimiterRuns.AdmittedIsNumber | backend/app/core/rate_limit.py:57-67 | What the bounds call admitted is the number of those hits that were let through |
| LimiterRuns.AdmittedDuringIsNumber | backend/app/core/rate_limit.py:57-67 | Likewise for the hits made within any interval of time |
| LimiterRuns.WindowsTouchedIs | backend/app/core/rate_limit.py:57 | The number of windows an interval can touch is one more than the whole windows needed to cover its length |
| LimiterRuns.AdmittedInductive | backend/app/core/rate_limit.py:56-76 | Under any clock, the hits a window admitted are at most the limit per deletion of its counter plus the smaller of live count and limit |
| LimiterRuns.AdmittedBound | backend/app/core/rate_limit.py:56-76 | Under any clock, a window admits at most its limit times one plus the number of prunes that deleted its counter |
| LimiterRuns.LiveCountersExact | backend/app/core/rate_limit.py:57-65 | If no hit takes the lock after a hit of a later window, whatever swaps happen within a window, the live counters of a bucket with the shortest window hold the exact number of hits, prunes or no prunes |
| LimiterRuns.PruningIsInvisible | backend/app/core/rate_limit.py:43-47 | The pruning limiter refines one that remembers every hit: when the windows are entered in order, every verdict on such a bucket is the one the reference gives |
| LimiterRuns.ClockKeepsWindowsInOrder | backend/app/core/rate_limit.py:57 | A clock that does not run backwards at the lock enters every window in order, so the results below hold for it in particular |
| LimiterRuns.AdmittedExact | backend/app/core/rate_limit.py:56-76 | Such a bucket admits exactly the first `limit` hits of each window |
| LimiterRuns.IntervalBound | backend/app/core/rate_limit.py:56-76 | Any interval of time admits at most the limit once for each of the ceil(length / window) + 1 windows it can touch |
| LimiterRuns.OneWindowAdmitsTwice | backend/app/core/rate_limit.py:56-76 | No interval one window long admits more than twice the limit |
| LimiterRuns.TableSize | backend/app/core/rate_limit.py:62-65 | With one window for all buckets, entered in order, the table never holds more than the larger of 20,000 and the number of (bucket, client) pairs seen in the current window |
| LimiterForgets.PruneForgets | backend/app/core/rate_limit.py:63 | Whenever a hit can carry a larger raw index than a live counter's, there is a concrete run in which that counter is forgotten and one hit too many is admitted |
| LimiterForgets.TrustedBuckets | backend/app/core/rate_limit.py:57-67 | Under every clock that does not run backwards at the lock, and likewise whenever the windows are merely entered in order, all verdicts on a bucket are the intended ones, if and only if its limit is not positive or no bucket has a shorter window |
| LimiterForgets.ShippedRules | backend/app/api/v1/auth.py:29-49 | The shipped pairs of limit and window are 20 in 60 s, 5 in 300 s, 15 in 300 s and 60 in 60 s |
| LimiterForgets.ShippedTrustedBuckets | backend/app/api/v1/auth.py:29-49 | Of the shipped buckets exactly those with the one-minute window are always as intended |
| LimiterThreads.TicketsDecide | backend/app/core/rate_limit.py:60-67 | The count a caller takes out of the lock decides the same as the state it would see running alone at that place in lock order |
| LimiterThreads.StepLinearized | backend/app/core/rate_limit.py:57-76 | Every step of every thread keeps: counters are those of the sequential run in lock order, each count handed out is the right one, and every call has one owner or one verdict |
| LimiterThreads.InterleavedIsSequential | backend/app/core/rate_limit.py:57-76 | In every interleaving of clock reads, locked sections and decisions, each verdict is the sequential limiter's in lock order, and no call is lost or answered twice |
| LimiterThreads.InterleavedBound | backend/app/core/rate_limit.py:56-76 | In every interleaving under any clock, the callers told they are admitted to a window are at most its limit times one plus the deletions of its counter |
| LimiterThreads.ToldAdmittedAre | backend/app/core/rate_limit.py:67-76 | The callers it counts are those with a verdict of acceptance whose hit fell in the interval of the window |
| LimiterThreads.InterleavedAsIntended | backend/app/core/rate_limit.py:56-76 | In every interleaving in which no caller takes the lock after one that read a later window, a bucket with the shortest window stays within its limit per window and each verdict is the intended one, even if callers swap between reading the clock and taking the lock |
| LimiterLateEntry.LateVerdict | backend/app/core/rate_limit.py:57-67 | A caller that reads the clock first and takes the lock last is judged by the counters the others left, in the window it read |
| LimiterLateEntry.LateEntryIsForgotten | backend/app/core/rate_limit.py:57-65 | For any bucket that admits anything there is an interleaving on a clock that never runs backwards in which a caller overtaken between clock and lock is admitted although it should have been refused |
| LimiterLateEntry.ExactOnAnyClockIff | backend/app/core/rate_limit.py:56-76 | In every interleaving on a clock that never runs backwards all verdicts on a bucket are as intended, if and only if its limit is not positive |
| FleetDb.Session.RecordAuditEvent | backend/app/services/audit_service.py:17-36 | The log only grows at its end and no table changes |
| AircraftService.CreateAircraft | backend/app/services/aircraft_service.py:41-114 | The three inserts flushed one by one, each with its own constraints, leave all rows and the record, or exactly the committed tables after a rollback |
| AircraftService.UpdateAircraft | backend/app/services/aircraft_service.py:130-181 | The assignments made field by field on up to three rows add up to one patch of each, with one record if anything was asked for |
| AircraftService.SoftDeleteAsset | backend/app/services/deletion_service.py:60-89 | The row stays and is marked deleted, once, with who did it and the stripped reason, and the record names what was deleted; a second deletion and a foreign asset are refused without a trace |
| AogService.DeclareAog | backend/app/services/aog_service.py:37-63 | Only a visible aircraft of the organization can be declared AOG, and only with a work order that exists; the event starts DECLARED on that aircraft's asset, with one record, or nothing is stored |
| AogService.UpdateAogEvent | backend/app/services/aog_service.py:104-121 | The fields set before the commit are kept together with their record, or undone when the commit fails |
| AogService.AddBlockerToEvent | backend/app/services/aog_service.py:132-153 | An unresolved blocker and its record are added whatever the event's status |
| AogService.ResolveBlockerOnEvent | backend/app/services/aog_service.py:164-181 | Only a blocker of that very event is resolved, with its record, and nothing else changes |
| AogService.Transition | backend/app/services/aog_service.py:184-256 | A status change is made and recorded exactly where the transition table allows it, a recovery only with no unresolved blocker |
| FleetRuns.CreateKeepsInStep | backend/app/services/aircraft_service.py:43-98 | Creation keeps the three tables in step and both registration constraints true |
| FleetRuns.UpdateKeepsInStep | backend/app/services/aircraft_service.py:130-181 | So does a partial update |
| FleetRuns.IdentityIsImmutable | backend/app/services/aircraft_service.py:125-129 | No call ever changes an aircraft's organization, registration or asset link |
| FleetRuns.StepKeepsEventsLinked | backend/app/services/aog_service.py:37-50 | Every call keeps each AOG event on an aircraft of its own organization and on that aircraft's asset |
| FleetRuns.StepKeepsBlockersOwned | backend/app/services/aog_service.py:132-139 | Every call keeps each blocker in its event's organization |
| FleetRuns.RunKeepsEventsLinked | backend/app/services/aog_service.py:37-50 | Every run keeps each AOG event on an aircraft of its organization and on that aircraft's asset, NULL included, whether or not the aircraft tables are in step |
| FleetRuns.RunKeepsHome | backend/app/services/aircraft_service.py:152-168 | Every run of any calls keeps each aircraft linked to an asset of its own organization, each detail row with its asset, and each blocker in its event's organization, in step or not |
| FleetRuns.CreateSucceedsIff | backend/app/services/aircraft_service.py:41-114 | Within the limit and with new keys, in step or not, creation succeeds exactly when no aircraft and no asset of the organization, of any type and soft-deleted or not, has the registration; otherwise it is a conflict and nothing changes |
| FleetRuns.CreateAllOrNothing | backend/app/services/aircraft_service.py:30-35 | From any database, success adds one row per table, each holding the values of the request, and one record, under a link no other aircraft has; failure of any kind changes nothing |
| FleetCalls.CreateWritesRows | backend/app/services/aircraft_service.py:43-99 | The aircraft, asset and detail row and the record of a successful creation, column by column |
| FleetCalls.LimitRefusesIff | backend/app/services/limit_enforcement_service.py:57-73 | A creation is refused for the limit exactly when the organization has that many assets, of any type, that are not soft-deleted; without a limit never |
| FleetCalls.SoftDeleteMakesRoom | backend/app/services/limit_enforcement_service.py:61-68 | At the limit, soft-deleting one live asset lets the very creation through that was refused before |
| FleetCalls.LiveAssetTakesPlace | backend/app/services/limit_enforcement_service.py:61-68 | One below the limit, a further live asset of any type makes the same creation fail |
| FleetRuns.CreateRespectsLimit | backend/app/services/limit_enforcement_service.py:50-73 | Creation succeeds exactly when the organization's live assets grow by one and stay within the limit |
| FleetRuns.RunRespectsLimit | backend/app/services/limit_enforcement_service.py:50-73 | An organization that starts within a limit and creates under it stays within it over every run, whatever it and the others call |
| FleetRuns.SoftDeletedStillOccupies | backend/app/services/aircraft_service.py:184-208 | Once its asset is soft-deleted an aircraft can be neither seen, updated nor declared AOG, and its registration still cannot be used again |
| FleetCalls.SoftDeleteSucceedsIff | backend/app/services/deletion_service.py:61-89 | A soft deletion goes through exactly for a live asset of the organization, is not found for another's and a conflict for a deleted one; it stores who and the stripped reason, an empty one as none, and records registration, type and reason |
| FleetCalls.SecondDeletionConflicts | backend/app/services/deletion_service.py:66-67 | A second deletion by anyone is a conflict and changes nothing |
| FleetRuns.UpdateTakesEffectEverywhere | backend/app/services/aircraft_service.py:125-128 | Each field an update carries then reads the same in every table that has it, and each field it does not carry is as before |
| FleetCalls.UpdateSucceedsIff | backend/app/services/aircraft_service.py:193-208 | An update goes through exactly for an aircraft of the organization whose asset, if any, is not soft-deleted; else it is not found and nothing changes |
| FleetCalls.UpdateReachesEachRow | backend/app/services/aircraft_service.py:130-168 | It sets the carried fields in those of the three rows that exist, in step or not, and leaves their other columns |
| FleetRuns.UpdateTouchesThreeRows | backend/app/services/aircraft_service.py:145-181 | An update changes no row but the aircraft's own three, and is recorded once, on the asset, if it asked for anything |
| FleetRuns.UpdateWithoutAsset | backend/app/services/aircraft_service.py:148-178 | An aircraft with no asset is updated alone and recorded under its own name |
| TenantIsolation.OthersUntouched | backend/app/services/aog_service.py:66-74 | A call for one organization changes no row and no record of another, although two lookups are not scoped by organization and whether or not the aircraft tables are in step |
| TenantIsolation.OwnRowsSuffice | backend/app/services/aircraft_service.py:152-168 | The result of a call, and what it does to its organization's rows and records, depend on that organization's rows alone, exactly when the call does not get a foreign key satisfied by another organization's work order or facility |
| TenantIsolation.ForeignRowDecides | backend/app/services/aog_service.py:37-51 | A call that names another organization's work order or facility goes through, and on its own organization's rows alone would fail |
| TenantIsolation.ForeignWorkOrderAccepted | backend/app/services/aog_service.py:37-51 | One aircraft of one organization and one work order of another reach that |
| TenantIsolation.TenantsAreIsolated | backend/app/services/aog_service.py:133-169 | In an interleaving of the calls of all organizations an organization ends with the rows, and receives the results, it would have had alone, exactly when none of its calls names another organization's work order or facility |
| AogHistory.RecordTellsAll | backend/app/services/aog_service.py:52-60 | A call that changes anything appends exactly one record, and replaying that record on the old AOG tables gives the new ones |
| AogHistory.RunReplayable | backend/app/services/aog_service.py:105-205 | After every run the events' aircraft, severity, status and notes and the blockers' event, type and resolved flag are what a replay of the audit log alone yields |
| AogHistory.OnlyMovesChangeStatus | backend/app/services/aog_service.py:193-205 | A status changes exactly where a change is recorded for that event, from the status it had, along an allowed transition; general updates never touch it |
| AogHistory.RunRecordsPaths | backend/app/services/aog_service.py:17-27 | Over every run, the recorded changes of an event form a connected path of allowed transitions from DECLARED to its status, and their number plus the status's rank is at most two |
| AogHistory.FinalStatusIsAbsorbing | backend/app/services/aog_service.py:17-27 | A recovered or cancelled event keeps its status through every run |
| AogHistory.RunKeepsLate | backend/app/services/aog_service.py:124-242 | Over every run, each blocker still open on a recovered event was added after the step that recovered it |
| AogHistory.NoneOpenSurvivesIff | backend/app/services/aog_service.py:132-140 | A call keeps recovered events free of open blockers exactly when it does not add a blocker to a recovered event |
| AogHistory.NoneOpenCanFail | backend/app/services/aog_service.py:124-153 | Declaring, recovering and then adding a blocker reaches an open blocker on a recovered event |
| AogHistory.FreshDeployment | backend/app/services/aog_service.py:50-60 | A database without AOG rows, whatever its log tells of other things, is a state the run results start from |
| AogHistory.DeclareSucceedsIff | backend/app/services/aog_service.py:37-63 | A declaration goes through exactly for an aircraft the organization can see, a work order, if named, that exists, and a new key, and adds one DECLARED event on that aircraft and its asset |
| AogHistory.MoveSucceedsIff | backend/app/services/aog_service.py:193-256 | Recovery starts only from DECLARED, completes only from IN_RECOVERY with all blockers resolved, and cancelling works from both; the event changes its status and nothing else, to a lower rank |
| AogHistory.MoveIsRecorded | backend/app/services/aog_service.py:193-256 | Each status change leads to its own status and appends one record of its own action, actor and event with the statuses it came from and went to, which lengthens the recorded path by that pair |
| AogHistory.DeclareIsRecorded | backend/app/services/aog_service.py:52-60 | A declaration appends one record with the actor, the aircraft and the severity |
| AogHistory.PatchIsRecorded | backend/app/services/aog_service.py:109-118 | A general update appends one record of the values it carries, and one that carries nothing does nothing |
| AogHistory.BlockersAreRecorded | backend/app/services/aog_service.py:142-178 | Adding and resolving a blocker each append one record on the blocker with its event and actor |
| AogHistory.BlockerCallsSucceedIff | backend/app/services/aog_service.py:124-181 | A blocker can be added to any event of the organization and resolved only through its own event; nothing else changes and resolving twice is as good as once |
| AogHistory.PatchCommitsIff | backend/app/services/aog_service.py:104-121 | A general update commits exactly for an event of the organization and when it neither nulls the severity nor names an owner; then it sets the columns it carries and nothing else, otherwise nothing |
| AogRaces.NoRaceIsSequential | backend/app/services/aog_service.py:184-208 | A status change that commits on an event and blockers not changed since they were read is the plain call |
| AogRaces.PathSurvivesRaceIff | backend/app/services/aog_service.py:193-207 | Two overlapping changes leave a connected recorded path exactly when the status did not change between read and commit |
| AogRaces.CancelCrossesRecovery | backend/app/services/aog_service.py:193-256 | From any declared event, a cancellation decided before a recovery starts and committed after it breaks the recorded path |
| AogRaces.PathCanBreak | backend/app/services/aog_service.py:193-256 | One aircraft and one declaration reach such an event |
| AogRaces.ReplaySurvivesRace | backend/app/services/aog_service.py:193-207 | Whatever had been read and whatever was committed since, a replay of the log still reconstructs the AOG tables, even where the recorded path breaks |
| AogRaces.LatenessSurvivesRaceIff | backend/app/services/aog_service.py:228-242 | Open blockers stay later than the recovery exactly when no recovery commits over a blocker that is open by then |
| AogRaces.BlockerSlipsIn | backend/app/services/aog_service.py:229-235 | A blocker added between the check and the commit of a recovery breaks it |
| AssetService.UpdateAssetRow | backend/app/services/asset_service.py:190-222 | The generic update writes the stripped values to one asset row, with the status upper-cased, and its record, or nothing if the row is not there, deleted, or the facility does not exist |
| FleetCalls.UpdateAssetSucceedsIff | backend/app/services/asset_service.py:63-82 | A generic update goes through exactly for a live asset of the organization and, if it names a facility, one that exists |
| FleetCalls.UpdateAssetStores | backend/app/services/asset_service.py:190-222 | It writes the stripped values it carries, the status upper-cased, to that one row of whatever type, leaves the other columns, and records exactly those values once |
| FleetCalls.EmptyPatchStoresNothing | backend/app/services/asset_service.py:209-222 | One that carries nothing changes and records nothing |
| Text.StripIs | backend/app/services/asset_service.py:194-206 | What is stored is what was sent without the blanks at both ends, and nothing else is lost |
| Text.SpacesAre | backend/app/services/asset_service.py:194-206 | The characters taken for blanks are Python's 29 white-space characters |
| Text.UpperIgnoresCase | backend/app/core/lifecycle_policy.py:683 | Two spellings have one upper-case form exactly when they differ in ASCII case only, and that form has no lower-case letter |
| AssetDrift.InStepSurvivesIff | backend/app/services/asset_service.py:181-222 | The aircraft tables stay in step under a generic asset update exactly when the asset backs no aircraft or the stored values repeat what the aircraft row says |
| AssetDrift.StepInStepIff | backend/app/services/asset_service.py:181-222 | Whatever the call, the aircraft tables stay in step exactly if it is not a generic asset update that says something else of an aircraft than its own row |
| AssetDrift.RunKeepsInStep | backend/app/services/aircraft_service.py:43-181 | Every run in which the generic asset updates, if any, only repeat keeps the three tables in step (NULL or equal for serial number and model), whatever the AOG tables hold |
| AssetDrift.RunKeepsSound | backend/app/services/aog_service.py:124-139 | Such a run keeps this, the links of events and the ownership of blockers together |
| AssetDrift.DriftReached | backend/app/services/asset_service.py:205-207 | One created aircraft and a generic update of its asset's status take the tables out of step |
| FleetRaces.NoRaceIsCreate | backend/app/services/aircraft_service.py:41-114 | A creation that commits on the rows it had counted is the plain call |
| FleetRaces.CreateRaceKeepsInStep | backend/app/services/aircraft_service.py:100-108 | Overlapping creations keep the tables in step: the unique constraints hold at the commit |
| FleetRaces.LimitSurvivesRaceIff | backend/app/services/limit_enforcement_service.py:61-73 | After a creation the organization is within its limit exactly when the limit was not reached at the commit, whatever had been counted before |
| FleetRaces.CrossingCreatesExceed | backend/app/services/limit_enforcement_service.py:61-73 | From any database at one below the limit, two creations that both count before either commits both succeed and leave one asset too many |
| FleetRaces.LimitOfOneExceeded | backend/app/services/limit_enforcement_service.py:61-73 | Two such creations on an empty database exceed a limit of one |
| FleetRaces.NoRaceIsUpdate | backend/app/services/aircraft_service.py:130-168 | An update that commits on the rows it had read writes the rows of the plain call, although it writes only the columns it changed |
| FleetRaces.UpdateRaceInStepIff | backend/app/services/aircraft_service.py:130-168 | Two overlapping updates of one aircraft leave the tables in step exactly when neither serial number nor type was asked to be what it had been, while the asset had NULL there, and has changed since |
| FleetRaces.CrossingUpdatesDrift | backend/app/services/aircraft_service.py:130-168 | For any backfilled aircraft there are two such updates that take the tables out of step |
| AssetMigrations.AssetFoundation.InsertAssets | backend/alembic/versions/0027_asset_foundation.py:100-106 | In any row order, the insert goes through exactly when registrations are unique per organization, and then leaves one asset per aircraft and no other |
| AssetMigrations.AssetFoundation.LinkAircraft | backend/alembic/versions/0027_asset_foundation.py:107-116 | In any row order, matching by organization and registration links each aircraft to the very asset made for it and never meets the unique constraint |
| AssetMigrations.AssetFoundation.InsertDetails | backend/alembic/versions/0027_asset_foundation.py:117-124 | Each aircraft gets one detail row of its own |
| AssetMigrations.AssetFoundation.Upgrade | backend/alembic/versions/0027_asset_foundation.py:97-198 | The migration goes through exactly on tables that satisfy migration 0023's constraint, no integrity check raises then, every aircraft has its own matching asset and detail row, and a failure leaves all tables as they were |
| AssetMigrations.ChecksRefuseIff | backend/alembic/versions/0027_asset_foundation.py:132-197 | The integrity checks refuse exactly an aircraft without a link, a link without a detail row, a linked asset of another type or organization, and a detail row without an asset |
| AssetMigrations.MigratedColumns | backend/alembic/versions/0027_asset_foundation.py:100-124 | Each migrated aircraft's three rows, column by column: manufacturer, model, serial number, facility and deletion of the asset are NULL |
| AssetMigrations.MigratedVisible | backend/alembic/versions/0027_asset_foundation.py:100-116 | Every migrated aircraft is visible to its organization and to no other |
| AssetMigrations.AssetFoundation.Downgrade | backend/alembic/versions/0027_asset_foundation.py:201-207 | Both tables are gone and the aircraft rows lose their link and nothing else |
| AssetMigrations.UpgradeThenDowngrade | backend/alembic/versions/0027_asset_foundation.py:97-207 | Upgrade followed by downgrade returns the original aircraft table |
| AssetMigrations.MigratedInStep | backend/alembic/versions/0027_asset_foundation.py:15-36 | What the migration leaves is a state the services can start from: the three tables in step and both constraints true |
| AssetMigrations.MroTables.Upgrade | backend/alembic/versions/0031_mro_asset_repointing.py:84-102 | Every row of every table ends with the asset of its aircraft, or NULL where there is no aircraft or no asset |
| AssetMigrations.RepointedRow | backend/alembic/versions/0031_mro_asset_repointing.py:95-102 | A repointed row keeps its aircraft and has an asset exactly if that aircraft exists and has that asset |
| AssetMigrations.MigratedStaysInStep | backend/alembic/versions/0027_asset_foundation.py:97-198 | From the tables migration 0027 leaves, every run whose generic asset updates only repeat keeps the three aircraft tables in step |
| AssetMigrations.LinksNeverDrift | backend/app/services/asset_resolution.py:19-20 | Whatever the aircraft tables hold when migration 0031 runs, after it and any later run of calls every AOG event's asset is its aircraft's, or NULL where that has none |
| AuditLog.ListingIsExact | backend/app/services/audit_service.py:68-84 | The filtered result holds exactly the matching records, each once, in strict (created_at, id) descending order |
| AuditLog.EmptyFilterListsAll | backend/app/services/audit_service.py:80-93 | Without a filter the whole log is listed, later records first and, of one time, the larger key first |
| AuditLog.OrgNarrows | backend/app/services/audit_service.py:69-70 | An organization filter keeps exactly the listed records of that organization, in the same order |
| AuditLog.ActionNarrows | backend/app/services/audit_service.py:71-72 | An action filter keeps exactly those with that action |
| AuditLog.EntityTypeNarrows | backend/app/services/audit_service.py:73-74 | An entity type filter keeps exactly those with that entity type |
| AuditLog.DateFromNarrows | backend/app/services/audit_service.py:75-76 | A lower date keeps exactly those written at it or later |
| AuditLog.DateToNarrows | backend/app/services/audit_service.py:77-78 | An upper date keeps exactly those written before it |
| AuditLog.OrderedUnique | backend/app/services/audit_service.py:89 | That order leaves no freedom: the same records are listed one way only |
| AuditLog.ListAuditEvents | backend/app/services/audit_service.py:65-94 | The clause-by-clause query returns the clamped page of that one listing and a total equal to its length |
| AuditLog.PagesCoverEverything | backend/app/services/audit_service.py:88-93 | Reading pages at offsets 0, L, 2L, ... up to the total gives the whole listing, in order, with no gap and no repeat |
| AuditLog.NewRecordsInFront | backend/app/services/audit_service.py:88-93 | Newer matching records go in front of the old listing and change nothing behind, whatever else is added |
| AuditLog.PagesShift | backend/app/services/audit_service.py:88-93 | After k newer matching records, the page at offset o + k is the page that was at offset o |
| AuditLog.DateRangesSplit | backend/app/services/audit_service.py:59-60 | Two adjacent half-open date ranges split a listing exactly |
| AuditRuns.RunOnlyAppends | backend/app/services/audit_service.py:17-36 | Every run of service calls leaves the earlier log as a prefix of the later one |
| AuditRuns.CallsAreStoredByName | backend/app/services/aog_service.py:52-256 | Each call that changes anything is found by the action and entity type names of that call |
| AuditRuns.TotalCountsRecords | backend/app/services/audit_service.py:65-94 | The total reported for an organization is the number of its records in the log |
| AuditRuns.EveryChangeIsListedOnce | backend/app/services/audit_service.py:17-94 | Each call that changes anything is listed once more for its own organization and for no other, and one that changes nothing is not listed |
| AuditRuns.RunShiftsPages | backend/app/services/audit_service.py:88-93 | After any run of service calls whose records are written later, the page that was at an offset is found further on by the number of matching records the run wrote |
| LifecyclePolicy.ResolutionEndsIff | backend/app/core/lifecycle_policy.py:700-705 | Following inheritance links ends exactly when no cycle is ahead, and then within as many hops as there are policies |
| LifecyclePolicy.ResolutionIsTotal | backend/app/core/lifecycle_policy.py:679-705 | In a closed registry without cycles every registered name, in any case, resolves to a policy that inherits from nothing, and resolving again gives it back |
| LifecyclePolicy.ResolvesByInheritance | backend/app/core/lifecycle_policy.py:679-705 | A name in any case resolves to its own entry if that inherits from nothing, to what its parent resolves to otherwise, and not at all if it is not registered |
| LifecyclePolicy.GuardVerdicts | backend/app/core/lifecycle_policy.py:708-774 | Each guard answers for an unknown name first, then for a policy without an implemented path, then by its own flag; the queue guard by protection alone |
| LifecyclePolicy.GuardsFollowInheritance | backend/app/core/lifecycle_policy.py:708-774 | Every guard gives a dependent the verdict of the policy it inherits from |
| LifecyclePolicy.DependentFlagsNeverMatter | backend/app/core/lifecycle_policy.py:103-108 | Whatever a dependent's own flags say, no guard's verdict on any name changes |
| LifecyclePolicy.QueueShowsEverythingIff | backend/app/core/lifecycle_policy.py:760-774 | Whatever a guard permits is visible in the deletion queue, exactly when no implemented root both permits something and is protected |
| ShippedPolicies.ShippedRegistry | backend/app/core/lifecycle_policy.py:146-676 | The shipped registry is closed, every name in it resolves within one link, and whatever may be deleted or restored is visible in the deletion queue |
| ShippedPolicies.VerdictsByKind | backend/app/core/lifecycle_policy.py:708-774 | The kind of an entry alone decides every guard's verdict, and an entry without an implemented path is refused as such before anything else |
| ShippedPolicies.Deletable | backend/app/core/lifecycle_policy.py:146-757 | The entity types that may be deleted and restored today are these nine, in any spelling of case, and permanent deletion is open to two more and no others |
| ShippedPolicies.Refused | backend/app/core/lifecycle_policy.py:708-774 | The deletion queue refuses exactly these eighteen registered types, and tenant deletion answers not-implemented for exactly these twelve |
| ShippedPolicies.FlagsByName | backend/app/core/lifecycle_policy.py:146-676 | Which entries may be deleted, restored and permanently deleted, need a dependency check and are protected, entry by entry |
| ShippedPolicies.ParentsByName | backend/app/core/lifecycle_policy.py:113-676 | Which entries inherit, and from which |
| PlanSeeder.UpsertAll | backend/scripts/seed_initial_plans.py:153-190 | The inner loop leaves every listed key with the listed value and every other row as it was, keeps keys unique, and changes nothing if all is there already |
| PlanSeeder.SeededPersists | backend/scripts/seed_initial_plans.py:126-127 | Seeding one plan leaves what was seeded for another code |
| PlanSeeder.FramesCompose | backend/scripts/seed_initial_plans.py:126-190 | Rounds of the outer loop add up: what neither round lists neither round changes |
| PlanSeeder.PlanDatabase.UpsertPlan | backend/scripts/seed_initial_plans.py:128-150 | The plan with that code holds the spec's values, found with its suite kept or inserted without a suite, and no other plan changes |
| PlanSeeder.PlanDatabase.SeedPlan | backend/scripts/seed_initial_plans.py:128-190 | One round seeds the plan with its features and limits, changes nothing unlisted, and changes nothing at all if they are there |
| PlanSeeder.PlanDatabase.SeedPlans | backend/scripts/seed_initial_plans.py:126-192 | From any database that satisfies its keys: every listed plan, feature and limit holds the spec's values, keys stay unique, unlisted rows are untouched, and a database that already holds them is left as it is |
| PlanSeeder.SeededValues | backend/scripts/seed_initial_plans.py:133-190 | What a seeded plan holds: its five columns, each feature flag, each limit with unlimited exactly where no value is given |
| PlanSeeder.PlanDatabase.SeedPlansTwice | backend/scripts/seed_initial_plans.py:126-192 | A second run changes nothing |
| CatalogSeeder.SeedOnlyAdds | backend/scripts/seed_product_catalog.py:347-351 | From any catalog and for any entries: rows are never changed or removed, codes stay unique, parents exist, every entry's four rows are there, and each new row is one some entry asks for, below the parent it names |
| CatalogSeeder.SeedConcat | backend/scripts/seed_product_catalog.py:347-351 | Seeding a concatenated list is seeding its parts in order |
| CatalogSeeder.RerunIsNoOp | backend/scripts/seed_product_catalog.py:281-351 | Seeding again with any of the same entries is a no-op |
| CatalogSeeder.GetOrCreate | backend/scripts/seed_product_catalog.py:281-334 | The row with that code is returned untouched, or added under the given parent |
| CatalogSeeder.CatalogDatabase.SeedCatalog | backend/scripts/seed_product_catalog.py:347-352 | The loop leaves the catalog that the lemmas above are about |

## Left out

- RateLimit.FixedWindowLimiter.Hit: `time.time()` is a real number, not a float, so the rounding of `//` on floats is not modelled.
- LimiterThreads.Step: the lock is one atomic step; the interpreter's own thread switching inside it is not modelled.
- One process has one limiter; several processes with a limiter each, and `reset_rate_limits`, are not modelled.
- DeclareAog: the acting user is taken to exist; the foreign key to users is not modelled.
- UpdateAogEvent: of JSON encoding only the owner's UUID is modelled, because it decides whether the commit goes through.
- TenantsAreIsolated: generated keys are assumed new (`FreshRun`), since a key collision with another tenant's row would be visible; work orders and facilities stay as they are during a run.
- Upper: ASCII only; Python's `str.upper` on other characters is not modelled.
- Resolve: a cycle is an answer that never comes; Python's recursion limit, which turns it into an exception, is not modelled.
- CreateAircraft: the plan that yields `max_assets` is a parameter; entitlement resolution is not part of this model.
- CommitMove, CommitCreate, UpdateCommitted: a request reads one snapshot and commits once; other overlaps, such as of generic asset updates, are not modelled. Results about runs are about serial runs.
- Restoring and permanently deleting assets; the moment of a deletion.
- ListAuditEvents: the database answers both queries from one snapshot.
- `list_aircraft` and `list_aog_events`: plain filters; `Visible` is the only condition they share with the calls modelled.
- Drone, battery and component services, inventory, maintenance, entitlement and intelligence engines, HTTP wiring, authentication and the frontend.
- The 41 policies' `notes`, the plan and catalog texts, and timestamps the database fills in.
