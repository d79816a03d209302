# core-platform: verified models

Dafny models of three parts of core-platform and proofs about every run of them:

1. **The distributed rate limiter** (`traffic-redis`): replicas lease chunks of a fleet-wide window
   budget from one atomic counter script. Modelled twice: `LeaseFleet` is a step relation over any
   number of replicas, lock-guarded cells, in-flight claims and the counter store; `LeaseBook` is the
   object with its `check` and `prune`. `LeaseFleetCheck` shows that the first, undisturbed, is the second.
2. **The migration splitter and runner** (`migrator`, `test-support`): the lookahead lexer, the test
   harness's line-based splitter, and the resumable runner.
3. **The hot-reload configuration** (`infra-config`, `traffic`, `resilience`): profile objects updated
   in place by reloads, the value-level history they follow, and the coalescing watcher loop.

`dafny verify dfyconfig.toml` checks the project (Dafny 4.11).

## Layout

| file | content |
|---|---|
| `LeaseMath`, `LeaseCell`, `ClaimStore` | window arithmetic with explicit 64-bit wrap-around, the lease under its lock, the counter script |
| `LeaseBook` | the lease book as an object; refinement of the plain counter through outages; which keys are tracked; exactness of `retry_after` |
| `LeaseFleet`, `LeaseFleetSafety` | the protocol; conservation and the budget bound over all runs |
| `LeaseFleetTtl`, `LeaseFleetLimits` | counter expiry under clock skew and delay, and runs that show the bound is exact |
| `LeaseFleetTraffic`, `LeaseFleetCosts` | honest throttles; stranding and amortised claims, counted in cells |
| `LeaseFleetReplicas`, `LeaseFleetOrphans` | the same counted in replicas, when that is sound, and a run that shows when it is not |
| `LeaseFleetRates` | admitted rate over intervals |
| `LeaseFleetCheck`, `LeaseFleetProgress` | the protocol run without interference is the book's `check` and `prune`; freedom from deadlock |
| `SqlText`, `Splitter`, `SplitterLaws` | the migrator's splitter, its round trip and idempotence |
| `HarnessSplitter`, `SplittersAgree`, `SplittersDiffer`, `HarnessLoader` | the harness's splitter, where the two agree and where they must differ, and the loader |
| `Migrations`, `MigrationFiles`, `MigrationRunner` | the runner as a state machine, what a run does to the files, the runner as methods |
| `InfraSchema`, `ReloadHistory`, `InfraRegistry`, `ConfigWatcher` | the document, the reload history on values, the live objects, the watcher |
| `Sums`, `Wrappers` | sums over sequences, `Option` |

## Modelling decisions

- Clocks, the network, the telemetry sink's verdict and the cluster's replies are parameters or free
  choices of a step. A replica's clock reading is arbitrary at every request, so it may go backwards.
- `rps * lease_ms` and `lease_ms + 1_000` are unchecked in the source. They are modelled modulo 2^64,
  as a release build computes them, and the lemmas say exactly when the result is the intended one.
- A cell resets on *any* other window (`!=`), so a request that waited on the lock can roll a cell
  back; the comment in the source speaks only of rolling forward. The protocol follows the code.
- `claim.rs` says a claim refreshes the counter's lifetime; the script does so only when it grants.
  The model follows the script, and the lifetime lemmas count from the first grant.
- `redis.rs` says the hash tag puts a key's windows on one cluster slot; that fails for the empty key and for
  keys that begin with a closing brace, and `ColocatedExactlyWhen` says for no others.
- `infra.rs` promises an all-or-nothing reload. The telemetry sink is consulted after the other
  sections have been swapped, so the promise fails exactly in the case
  `ReloadHistory.AllOrNothingExactlyWhen` names; `PartialApplication` is such a reload.
- The document is read at boot before the watch begins (`service-runtime/src/lib.rs:144-160`). A change
  in between goes unnoticed until the next event; `LastWriteIsRead` states exactly that exception.
- A profile object stands for the original's shared `ArcSwap` handles: holding the object is holding a clone.
- Statements are additive DDL: each creates a set of schema objects, given as an arbitrary function of
  its text, and the cluster reports "already exists" only for objects that do.

## Model

| member | source | states |
|---|---|---|
| LeaseMath.BudgetIsCeilingIffNoOverflow | crates/platform/traffic-redis/src/lease.rs:109-112 | the window budget is the least positive count covering `rps * lease_ms / 1000` if and only if the product fits in 64 bits; it then exceeds the rate by less than one token |
| LeaseMath.TtlIsExactIffNoOverflow | crates/platform/traffic-redis/src/lease.rs:54 | the counter lifetime is `lease_ms + max(lease_ms, 1000)` if and only if doubling the window fits in 64 bits, and the largest 64-bit number otherwise |
| LeaseMath.PlanCoversNow | crates/platform/traffic-redis/src/lease.rs:50-54 | the window a request is charged to contains its clock reading; a chunk is the largest count within both the burst and the budget |
| LeaseMath.RetryLandsOnNextWindow | crates/platform/traffic-redis/src/lease.rs:119-121 | now plus `retry_after` is the first instant of the next window, and every earlier instant from now lies in the present one |
| ClaimStore.Claim | crates/platform/traffic-redis/src/redis.rs:14-24 | the grant is at most what was wanted, the live count grows by it and not past the budget, a short grant means the budget is spent, other counters are untouched |
| ClaimStore.WindowKeyInjective | crates/platform/traffic-redis/src/redis.rs:26-28 | two (key, window) pairs never share a counter name, whatever characters the keys contain |
| ClaimStore.ColocatedExactlyWhen | crates/platform/traffic-redis/src/redis.rs:12-28 | by the hash-tag rule of the Redis Cluster specification the windows of a key share a cluster slot if and only if the key is not empty and does not begin with a closing brace |
| LeaseBook.ClaimSource.Claim | crates/platform/traffic-redis/src/redis.rs:50-69 | one call, one atomic run of the script, or an error that changes nothing |
| LeaseBook.Book.Check | crates/platform/traffic-redis/src/lease.rs:43-91 | leases, counters, answer and whether the backend was called are those of the specification, error path included; no other key's lease is touched |
| LeaseBook.Book.Prune | crates/platform/traffic-redis/src/lease.rs:95-101 | a key survives if and only if its window is not before `now / max(lease_ms, 1)`, with its lease unchanged |
| LeaseBook.BackendNeededExactlyWhen | crates/platform/traffic-redis/src/lease.rs:70-82 | a leased token admits, a mark throttles; the backend is called if and only if there is neither, and the request fails if and only if it is then down, with nothing charged |
| LeaseBook.AskAgreesOn | crates/platform/traffic-redis/src/lease.rs:63-91 | one request gets the plain counter's answer, or none in an outage, and keeps book, store and counter in agreement on its slot |
| LeaseBook.AskLeavesOthers | crates/platform/traffic-redis/src/lease.rs:56-91 | it leaves every other present or future slot in agreement and every other slot covered by the store |
| LeaseBook.SweepAgrees | crates/platform/traffic-redis/src/lease.rs:95-101 | a prune with the same window length never loses a token that still counts |
| LeaseBook.BookRefinesCounter | crates/platform/traffic-redis/src/lease.rs:43-117 | on one replica with non-decreasing time every sequence of requests, prunes and outages is answered exactly as by "admit while fewer than the budget were admitted in this window", except that an outage may withhold an answer; admitted plus leased tokens of any slot stay within what the store counted, and that within the budget |
| LeaseBook.TracksExactly | crates/platform/traffic-redis/src/lease.rs:56-101 | whatever the clock does, a key is tracked if and only if it was asked for and no prune since its last request has passed that request's window |
| LeaseBook.PruneBoundsTheBook | crates/platform/traffic-redis/src/lease.rs:93-107 | right after a prune every tracked key was asked for in the current window or a later one |
| LeaseBook.MarkStays | crates/platform/traffic-redis/src/lease.rs:75-79 | a spent mark survives any traffic and prunes of its window |
| LeaseBook.CheckKeepsSound | crates/platform/traffic-redis/src/lease.rs:70-90 | a lease marked spent never holds tokens |
| LeaseBook.RetryAfterIsExact | crates/platform/traffic-redis/src/lease.rs:63-84 | after a throttle every earlier retry is throttled without a backend call and told the same instant; a retry at that instant is decided by the backend |
| LeaseFleetSafety.StepKeepsWf | crates/platform/traffic-redis/src/lease.rs:56-68 | in every interleaving a held cell has one holder, on that request's window and empty |
| LeaseFleetSafety.StepConserves | crates/platform/traffic-redis/src/lease.rs:56-101 | every step of the protocol conserves the tokens of every slot |
| LeaseFleetSafety.RunConserves | crates/platform/traffic-redis/src/lease.rs:43-101 | in every state of every run: counted plus forgotten tokens = admitted requests + tokens in all cells (orphans and in-flight grants included) + lost + discarded |
| LeaseFleetSafety.RunCountsWithin | crates/platform/traffic-redis/src/redis.rs:14-24 | no counter passes the largest budget used for it, and each expiry forgets at most one such budget |
| LeaseFleetSafety.NeverOverspent | crates/platform/traffic-redis/src/claim.rs:6-13 | admitted requests of a slot stay within one budget per life of its counter, and within the budget if no claim found it expired, under any interleaving, failure, prune or clock |
| LeaseFleetTtl.TimelyClaimsFindTheCounter | crates/platform/traffic-redis/src/redis.rs:18-23 | claims within the lifetime of the first grant never find the counter expired, although refused claims do not refresh it |
| LeaseFleetTtl.LatestGrantCounts | crates/platform/traffic-redis/src/redis.rs:18-23 | in every run, until the next grant a counter is expired if and only if the lifetime of the latest grant has passed |
| LeaseFleetTtl.SafeUnderSkew | crates/platform/traffic-redis/src/lease.rs:50-54 | with clocks within `skew` and claims within `delay`, every window of the key stays within its budget if `lease_ms + 2 * skew + delay` is at most the counter's lifetime plus one, that is `2 * skew + delay <= max(lease_ms, 1000) + 1` unless the lifetime saturates |
| LeaseFleetLimits.SkewBoundIsExact | crates/platform/traffic-redis/src/redis.rs:14-24 | beyond that bound, for every quota, skew, delay and window away from the ends of the clock's range, some run within the skew and delay admits one request more than the budget |
| LeaseFleetTraffic.RunHonest | crates/platform/traffic-redis/src/lease.rs:75-90 | under one quota a spent mark or a throttle implies the budget is spent, and the throttled cell holds none of it |
| LeaseFleetTraffic.ThrottleAccountsForBudget | crates/platform/traffic-redis/src/lease.rs:70-90 | once a request on a slot is throttled, served, stranded, lost and discarded tokens add up to the budget exactly |
| LeaseFleetCosts.RunVisited | crates/platform/traffic-redis/src/lease.rs:56-68 | a cell is on a slot only if a request on the slot looked it up |
| LeaseFleetCosts.BoundedStranding | crates/platform/traffic-redis/src/lease.rs:70-90 | with windows served in order, a throttle leaves at most a chunk less one per other cell of the slot unserved, beyond what was lost, even after other cells have moved on and discarded tokens |
| LeaseFleetCosts.ClaimsAmortised | crates/platform/traffic-redis/src/lease.rs:70-90 | with windows served in order, a window costs at most `ceil(budget / chunk)` granting claims, one refused claim per cell that its requests looked up, and the refusals nobody received |
| LeaseFleetReplicas.OneCellExactlyWhen | crates/platform/traffic-redis/src/lease.rs:95-101 | a replica uses one cell for a slot if and only if no prune takes a cell of the slot before another request on the slot arrives at that replica |
| LeaseFleetReplicas.ClaimsPerWindow | crates/platform/traffic-redis/src/lease.rs:24-26 | under that condition a window costs at most `ceil(budget / chunk)` claims plus one per replica that serves it, plus unheard refusals |
| LeaseFleetReplicas.StrandingPerReplica | crates/platform/traffic-redis/src/lease.rs:114-117 | under that condition a throttle with n replicas serving the slot leaves at most `(n - 1) * (chunk - 1)` tokens unserved, beyond what was lost |
| LeaseFleetOrphans.OrphansBreakCosts | crates/platform/traffic-redis/src/redis.rs:83-86 | without it both fail: a run with one replica, windows in order and nothing lost strands a token and costs a claim too many |
| LeaseFleetRates.RateBound | crates/platform/traffic-redis/src/lease.rs:50-53 | under the conditions of budget safety, any interval of length T admits at most `ceil(T / lease_ms) + 1` budgets |
| LeaseFleetCheck.UninterruptedCheck | crates/platform/traffic-redis/src/lease.rs:43-91 | the protocol's steps, run without interference, give the answer, or the error of a backend that is down, and the lease and counters of the sequential `check` |
| LeaseFleetCheck.PruneIsTheBooks | crates/platform/traffic-redis/src/lease.rs:95-101 | the protocol's prune of a cell is possible if and only if the cell is unlocked and the book would drop it, and leaves what the book leaves |
| LeaseFleetCheck.GivingUpIsCharged | crates/platform/traffic-redis/src/lease.rs:81-90 | a claim whose caller gives up is charged alike whether the script runs afterwards or its reply is lost: the store counts it and the request errs |
| LeaseFleetProgress.AtMostThreeSteps | crates/platform/traffic-redis/src/lease.rs:56-91 | in every run a request takes at most three steps, and an answer or error is final |
| LeaseFleetProgress.EveryRequestCanBeDecided | crates/platform/traffic-redis/src/lease.rs:38-61 | freedom from deadlock: a request waiting for a lock or a claim can be brought to a decision in at most five steps of its cell |
| Splitter.SplitStatements | crates/apps/migrator/src/main.rs:259-307 | the one-pass loop computes the recursive specification, and the printable characters of its statements, in order, are those of the input outside comments and splitting `;` |
| Splitter.SkipComment | crates/apps/migrator/src/main.rs:285-290 | a comment is skipped up to its line break or the end of the input |
| SplitterLaws.ScanCopies | crates/apps/migrator/src/main.rs:265-298 | a text with balanced quotes and no bare `;` or `--` is copied verbatim up to a splitting `;`, a comment or the end |
| SplitterLaws.ScanCutsWell | crates/apps/migrator/src/main.rs:265-298 | every piece cut from any input is such a text, all but the last with its literals closed |
| SplitterLaws.SplitIdempotent | crates/apps/migrator/src/main.rs:255-307 | on every input, joining the statements with `;` and splitting again changes nothing |
| SplitterLaws.PrintThenSplit | crates/apps/migrator/src/main.rs:255-307 | printing statements with `;`, blank statements, comments and white space, and a last statement or comment left open, then splitting, returns the statements |
| SqlText.WhiteSpaceIsUnicodes | crates/apps/migrator/src/main.rs:292-305 | white space is exactly the code points Unicode lists as such, so no printable ASCII character is |
| SqlText.TrimSplits | crates/apps/migrator/src/main.rs:292-305 | trimming removes white space at both ends and nothing else |
| HarnessSplitter.StripInlineComment | crates/platform/test-support/src/migrate.rs:127-142 | the index loop computes the recursive cut at the first `--` outside a literal |
| HarnessLoader.LoadStatements | crates/platform/test-support/src/migrate.rs:95-117 | the loops over lines and pieces report trimmed, non-empty statements without `;`, which are the migrator's, white space aside, if no literal contains `;` and no line is cut differently, and never are if a literal contains `;` |
| HarnessLoader.LinesCut | crates/platform/test-support/src/migrate.rs:104-105 | a line ends at a line feed, with or without a carriage return before it, and contains neither |
| HarnessLoader.JoinedLinesComeBack | crates/platform/test-support/src/migrate.rs:106-109 | joined code lines stay apart: reading the joined text gives them back |
| HarnessLoader.PlainSplitJoins | crates/platform/test-support/src/migrate.rs:111 | the pieces contain no `;`, and joining them with `;` gives the text back |
| SplittersAgree.ScanLine | crates/platform/test-support/src/migrate.rs:122-142 | up to a line's end the lexer, from inside a literal or outside, sees exactly what cutting the line at its comment keeps, unless a literal contains `;` |
| SplittersAgree.SplittersAgreeOn | crates/platform/test-support/src/migrate.rs:95-142 | both splitters report the same statements, white space aside, of every file whose literals contain no `;` and whose lines are cut at the same place whether or not they begin inside a literal |
| SplittersAgree.SemicolonsSeparate | crates/platform/test-support/src/migrate.rs:111-117 | they differ on every file with a `;` inside a literal |
| SplittersAgree.OnOneLineLiterals | crates/platform/test-support/src/migrate.rs:95-142 | on files whose literals contain no line break they agree if and only if no literal contains `;` |
| SplittersDiffer.SplittersAgreeExactlyWhen | crates/platform/test-support/src/migrate.rs:95-142 | on files where the harness never keeps more of a line than the lexer, or never less, they agree if and only if no literal contains `;` and no line is cut differently |
| SplittersDiffer.OppositeCutsMayCancel | crates/platform/test-support/src/migrate.rs:104-142 | a family of files on which the harness loses one mark and keeps another, and the reports still coincide |
| MigrationRunner.RunStatements | crates/apps/migrator/src/main.rs:153-170 | running a file's statements is a path of the machine, stopping at the first failure that is not "already exists" |
| Migrations.ToleratedMessages | crates/apps/migrator/src/main.rs:309-315 | a message is tolerated if and only if it contains one of the two phrases, in any ASCII case |
| MigrationFiles.WholeRunCarries | crates/apps/migrator/src/main.rs:148-180 | every run accepts the statements of the unrecorded files in order and records only files all of whose statements it had accepted; a finished one has accepted and recorded them all |
| MigrationRunner.MigrateService | crates/apps/migrator/src/main.rs:134-181 | every run of the loop, whatever the cluster answers, is a path of the state machine, ending in Finish exactly on success; the cluster gets the statements each unrecorded file's text splits into, in order, and a version is recorded only when all of its file's were taken and what they create exists |
| Migrations.StepResumes | crates/apps/migrator/src/main.rs:148-180 | every step keeps the recorded versions a prefix with all its statements accepted; a finished run has recorded all files |
| Migrations.MigrationsResume | crates/apps/migrator/src/main.rs:134-181 | after any sequence of runs stopped anywhere the record is a prefix of the file order and its statements were accepted; once a run finished the schema is complete |
| MigrationRunner.MigrateRepeatedly | crates/apps/migrator/src/main.rs:134-181 | after any number of stopped runs from distinct file names and an empty tracker, the recorded files are a prefix and every statement of each was taken; once one run has succeeded that is every file, and the schema is exactly what they create |
| Migrations.InterruptionsDoNotShow | crates/apps/migrator/src/main.rs:4-8 | an interrupted history and a clean one leave the same schema and the same record |
| Migrations.FinishedRunIsIdempotent | crates/apps/migrator/src/main.rs:149-152 | after a finished run, further runs send no statement, record nothing and change nothing |
| Migrations.CanBeCompleted | crates/apps/migrator/src/main.rs:134-181 | one more run can complete any interrupted history |
| InfraSchema.RefusedExactlyForFaults | crates/foundation/infra-config/src/schema.rs:53-137 | a document is refused if and only if it has one of the listed faults: an undefined reference, a zero timeout, threshold, TTL, rate or burst, backoff out of order, a missing window, a ratio outside 0 to 1 |
| InfraSchema.Catalog.ProfileFor | crates/foundation/infra-config/src/catalog.rs:70-77 | a lookup finds the profile the dependency is bound to if there is one, else the default one |
| InfraSchema.Catalog.Resolve | crates/foundation/infra-config/src/catalog.rs:90-109 | the name, bound-ness and profile reported are those the lookup uses |
| ReloadHistory.AllOrNothingExactlyWhen | crates/foundation/infra-config/src/infra.rs:16-20 | a failed reload leaves everything unchanged if and only if it is not the case that a sink refuses the telemetry of a valid document that changes another section |
| ReloadHistory.PartialApplication | crates/foundation/infra-config/src/infra.rs:109-121 | a concrete reload that reports an error after swapping a timeout |
| ReloadHistory.ReloadsTakeTheLastWord | crates/foundation/infra-config/src/registry.rs:83-101 | after any history the sections and profiles are exactly the boot ones, each holds the contents of the last effective document defining it, retry stays as at boot, the limiter matches and was replaced once per quota change |
| ReloadHistory.FoldTraffic | crates/foundation/traffic/src/profile.rs:155-164 | folding any specs into a profile gives the last one's settings and limiter quota, with one replacement per change of rate or burst |
| ReloadHistory.FoldResilience | crates/foundation/resilience/src/profile.rs:94-98 | folding any specs gives the last timeout and breaker and the first retry policy |
| ReloadHistory.LiveTrafficIsUsable | crates/foundation/infra-config/src/traffic.rs:62-87 | every traffic profile ever live is valid, its limiter unclamped, and a distributed one plans with its own window, the ceiling budget of its rate unless that overflows, and as large a chunk as burst and budget allow |
| ReloadHistory.LiveProfilesAreValid | crates/foundation/infra-config/src/schema.rs:94-137 | no zero timeout, threshold or TTL, no backoff out of order and no sampling ratio outside 0 to 1 is ever live, whatever is pushed |
| ReloadHistory.ValidationAllowsOverflow | crates/foundation/infra-config/src/traffic.rs:65-84 | validation accepts a distributed profile whose budget overflows |
| ReloadHistory.TelemetryTakesTheLastWord | crates/foundation/infra-config/src/telemetry.rs:108-127 | after any history the stored settings are those of the last effective document with a telemetry section that no attached sink refused, else the boot ones, and an attached sink holds the same |
| InfraRegistry.ResilienceProfile.Apply | crates/foundation/resilience/src/profile.rs:94-98 | timeout and breaker are swapped, retry is returned and not stored |
| InfraRegistry.TrafficProfile.Apply | crates/foundation/traffic/src/profile.rs:155-164 | the settings are swapped, and the limiter object is replaced, by a fresh one, exactly if the quota changed |
| InfraRegistry.ResilienceRegistry.constructor | crates/foundation/infra-config/src/registry.rs:40-54 | distinct fresh profiles with the spec's contents; every lookup succeeds |
| InfraRegistry.ResilienceRegistry.ApplySection | crates/foundation/infra-config/src/registry.rs:83-101 | an invalid section changes nothing; a valid one updates exactly the known profiles it defines |
| InfraRegistry.CacheRegistry.Apply | crates/foundation/infra-config/src/cache.rs:178-193 | likewise for cache profiles |
| InfraRegistry.TrafficRegistry.Apply | crates/foundation/infra-config/src/traffic.rs:149-164 | likewise, and exactly the limiters whose quota the section changes are replaced |
| InfraRegistry.TelemetryRegistry.Apply | crates/foundation/infra-config/src/telemetry.rs:119-127 | an accepted push is stored, and held by the sink if there is one; a refused or invalid one changes nothing |
| InfraRegistry.FromConfig | crates/foundation/infra-config/src/infra.rs:36-55 | a registry for every valid document and none for any other, on fresh objects with the document's contents, and in all three catalog sections its bindings and default |
| InfraRegistry.Registry.ApplySections | crates/foundation/infra-config/src/infra.rs:85-107 | after whole-document validation no section fails, sections added or removed at runtime are ignored, telemetry is untouched |
| InfraRegistry.Registry.Apply | crates/foundation/infra-config/src/infra.rs:82-124 | the live objects and the outcome are those of the value-level reload, and a limiter object survives exactly if no replacement is counted |
| InfraRegistry.Registry.Reload | crates/foundation/infra-config/src/infra.rs:127-131 | text that does not parse is rejected and changes nothing; other text has the effect and outcome of its document |
| InfraRegistry.DriveReloads | crates/foundation/infra-config/src/watcher.rs:57-75 | over any sequence of reloads the objects follow the value-level history, resilience, cache and traffic handles taken at the start read the contents at the end, and a limiter is the same object exactly if the history counts no replacement |
| ConfigWatcher.PathTracks | crates/foundation/infra-config/src/watcher.rs:44-75 | in every interleaving, when nothing is on its way the loop has read the current contents or nothing has happened; there are no more reads than reports |
| ConfigWatcher.LastWriteIsRead | crates/foundation/infra-config/src/watcher.rs:57-75 | when all is quiet the last read is the file's contents, if and only if it is not the case that the file changed between the boot-time read and the watch and nothing was reported since; any write or report has been followed by a read |
| ConfigWatcher.EveryScheduleRests | crates/foundation/infra-config/src/watcher.rs:58-74 | without new changes every schedule of the file system and the loop is bounded by the backlog, and one that cannot go on has left all quiet |
| ConfigWatcher.BurstCostsOneReload | crates/foundation/infra-config/src/watcher.rs:58-61 | however many reports wait in the channel, the loop reloads once for all of them |
| ConfigWatcher.QuietMeansApplied | crates/foundation/infra-config/src/watcher.rs:62-73 | when all is quiet after a write, every known profile the file's valid document defines has its contents, and so have the telemetry settings unless the sink refused them; a file that is unreadable or invalid has changed nothing |

## Left out

- Counter loss other than expiry (eviction, failover), and the precision of Lua numbers above 2^53.
- `governor`'s buckets inside a local limiter: a limiter is its quota and its identity.
- LeaseFleetLimits.SkewBoundIsExact: windows whose start is less than `skew` after the store's clock began, and the last window of the 64-bit range, are left out; there the bound is proved safe but not tight.
- The loop over several services in `migrate_scylla`: services have disjoint tracker rows, so one service is modelled; the record is a prefix of the given file order, and sorting the directory is the standard library's.
- Migrations.MigrationsResume: additive statements only; a `DROP` or a data change is not modelled.
- The Postgres migration path: it runs whole files with no tolerance for existing objects.
- `adapt_keyspace` and the harness's directory walk: one branch each.
- SplittersDiffer.SplittersAgreeExactlyWhen: covers files where the harness errs on one side only; where it both loses and keeps comment marks, agreement is one direction (`SplittersAgreeOn`), because such errors may cancel, as `OppositeCutsMayCancel` shows.
- Error message texts and the order in which validation reports faults: validity is a predicate, so only whether a document is rejected is modelled.
- The circuit breaker, retry and backoff services, the gRPC layers and the domain services.
