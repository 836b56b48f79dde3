# AutoStream Observability: verified core

A Dafny model of the stateful core of AutoStream Observability, the service that ingests signals, opens and
closes incidents, notifies channels and gates remediation. The model follows the code branch by branch; the
theorems are about whole runs: every interleaving of database transactions, every sequence of calls, every table a
migration may find.

Verify everything with `dafny verify dfyconfig.toml`.

| file | what it holds |
|---|---|
| `Text.dfy`, `Sums.dfy` | string primitives (trimming, letter case, decimals, order), the order by time and identifier, totals over tables and sizes of sets |
| `Incidents.dfy`, `IncidentRuns.dfy`, `MemoryStore.dfy`, `IncidentHistory.dfy` | the in-memory incident store, its runs, and history paging |
| `MariaIncidents.dfy`, `MariaProofs.dfy`, `MariaIdentity.dfy`, `MariaSerial.dfy` | the MariaDB incident store as interleaved transaction steps: what they keep, where upserts land, when they are serial in commit order |
| `Reorder.dfy`, `MariaOrder.dfy`, `MariaGaps.dfy` | moving operations within a run, the order that always explains the transactions, and their serial order under gap locks |
| `Detection.dfy`, `Ingest.dfy` | rule evaluation, and what ingesting one signal does to the incidents |
| `Dedupe.dfy`, `Attempts.dfy`, `Fanout.dfy`, `Lifetimes.dfy` | the notification deduper, its delivery attempts, the fan-out to destinations, and the lifetime of an entry |
| `SlidingLimiter.dfy`, `FixedWindowLimiter.dfy` | the two rate limiters |
| `LocalTransition.dfy`, `Remediation.dfy` | fenced local transitions, and the remediation approval machine |
| `SmtpMigration.dfy`, `IncidentMigration.dfy`, `MigratedStart.dfy` | the SMTP v2 migration and its restore, and the incident lifecycle migration with the table it leaves |
| `Metrics.dfy`, `CounterDelta.dfy`, `CounterRules.dfy` | metric history thinning, counter deltas, and what the rules make of the deltas |
| `DeliveryRedaction.dfy` | redaction of delivery metadata |

Conventions. Times are integers and float64 values are reals. A mutex-held body is one atomic step. The clock, generated
identifiers, network outcomes and callbacks are parameters. A class stands for an object whose fields the code
updates; its methods are proved against functions of the old state, and the theorems are about those functions.

Where the code does not meet an obvious reading of its purpose, the code is modelled as it is, a lemma shows
an input on which it fails, and the exact condition is proved:

- Under READ COMMITTED a resolve that read a rule before an incident of that rule was opened does not close it when it commits later, so whole
  calls in commit order do not always explain the table (`MariaSerial.BlindRunNotSerial`). They do exactly when no resolve commits while a row
  that others inserted behind its reading is still active (`MariaSerial.SerialIff`). Some order of the calls always does (`MariaOrder.SomeOrder`). The
  code sets no isolation level, and under MariaDB's default, REPEATABLE READ, gap locks make the insert wait: every run is then serial in
  commit order (`MariaGaps.GuardedSerial`).
- The unique key is built from trimmed identities and the lookup compares them as given, so an upsert for a stream can land on the row of
  a stream spelled with a blank, which no recovery for it ever closes (`MariaIdentity.BlankStreamMerges`). Every upsert lands on a row of its
  own identity exactly when trimming tells the identities apart (`MariaIdentity.AlwaysOwnIffTold`).
- The incident lifecycle migration says that an existing database can always converge. Its duplicate comparison tells a missing stream
  from an empty one and its key does not, so index creation fails exactly when one rule and service has active rows of
  both kinds (`IncidentMigration.ClashExample`, `IncidentMigration.IndexableIff`).
- The deduper matches a completion by its key alone. An attempt that outlives its entry ends the attempt of the next one and lets a third
  one start (`Attempts.StaleCompletionAdmits`), and then any destination can accept twice (`Lifetimes.StaleAcceptsTwice`). At most one attempt of an
  event is under way exactly when no attempt outlives its entry into the next (`Attempts.OneAtATimeIff`).
- Receipts are stored trimmed and looked up as given. Without late completions, no destination accepts twice exactly for lists with distinct
  identifiers that are, from two destinations on, trimmed and not empty; with late completions only for the empty list (`Lifetimes.AtMostOnceIff`).
  The server generates channel identifiers and refuses duplicate recipients, and such lists are sound (`Lifetimes.TidyChannelsSound`); only a direct
  caller of the store can make another one.
- A remediation outcome that cannot be stored leaves the action executable, so it is dispatched again
  (`Remediation.LostOutcomeDispatchesAgain`). With every outcome stored from some moment on, an action is dispatched at most once in all exactly
  when no outcome was lost before, or the only dispatch was lost and the action has ended (`Remediation.OnceFromIff`).
- A counter's lookup and its store are two steps. Two overlapping requests of one counter may count one climb twice
  (`CounterDeltas.OvertakenExample`). A schedule keeps the account balanced whatever the values exactly when no signal of the counter is stored
  after another one overtook it (`CounterDeltas.BalancedForAllValuesIff`).
- The MariaDB limiter compares a nanosecond window start with a column that keeps whole seconds, so its bound
  holds exactly for windows of whole seconds (`FixedWindowLimiter.BoundedIffWholeSeconds`). The configuration gives whole seconds; only a
  direct caller of `AllowRateLimit` can pass another window.
- Restoring an SMTP migration undoes it exactly when the backups present beforehand agree with the channels
  (`SmtpMigration.EditLostExample`, `SmtpMigration.RestoreInvertsIff`).
- Go's remainder makes the window start differ from the aligned one exactly for negative times off a boundary (`FixedWindowLimiter.WindowStartIsAligned`).

Some branches turn out never to be taken: those of the memory store that drop a stale index entry, and the one of downsampling that
skips an empty bucket.

## Model

| member | source | states |
|---|---|---|
| `Incidents.TransitionIsClimb` | internal/store/memory.go:657-676 | the transition table is exactly equality or a strict climb by level among the listed statuses |
| `Incidents.RankOrder` | internal/store/memory.go:283-300 | the rank sorts by the order of the names: critical, error, warning, info, any other text |
| `Incidents.KeyInjective` | internal/store/memory.go:640-642 | NUL-joined keys of NUL-free identifiers are equal only for equal rule, service and stream |
| `Incidents.UniqueNonEmpty` | internal/store/memory.go:678-693 | the result has exactly the trimmed non-empty values, each once |
| `IncidentRuns.ResolveOneSound` | internal/store/memory.go:256-279 | resolving a key leaves no active row under it, touches no row of another key, and changes no count or severity |
| `IncidentRuns.StepSound` | internal/store/memory.go:101-324 | every store operation keeps at most one active row per key and terminal iff resolved-at set, and moves rows only upwards |
| `IncidentRuns.ResolveTogether` | internal/store/memory.go:248-281 | resolving rule after rule closes exactly the active rows under their keys |
| `IncidentRuns.RunSound` | internal/store/memory.go:101-324 | over every run no row disappears, status climbs, severity rank and count never fall, and a terminal row is frozen except for report and update time |
| `IncidentRuns.RunSoundFrom` | internal/store/memory.go:101-324 | the same between any moment of a run and its end |
| `IncidentRuns.RunAccounts` | internal/store/memory.go:101-144 | from the empty store each row's count is the number of upserts that landed on it, its severity rank is the greatest reported on it, and all counts add up to the upserts |
| `IncidentRuns.SeverityNamed` | internal/store/memory.go:101-144 | from the empty store a row is critical iff that was ever reported on it, error iff that was and critical was not, warning iff that was and neither of those, info iff that was and none of those |
| `MemoryStores.IndexIsScan` | internal/store/memory.go:101-144 | looking a key up in an exact index gives what a scan for the active row gives, and such a table has one active row per key |
| `MemoryStores.UpsertByIndex` | internal/store/memory.go:101-144 | the indexed upsert is the scanning upsert and keeps the index exact |
| `MemoryStores.ResolveByIndex` | internal/store/memory.go:248-281 | the indexed resolve is the scanning resolve and removes only its own index entry |
| `MemoryStores.UniqueNonEmptyStrings` | internal/store/memory.go:678-693 | the loop computes the distinct trimmed values in first-occurrence order |
| `MemoryStores.MemoryStore.UpsertIncident` | internal/store/memory.go:101-144 | keeps index and rows in agreement; the new rows are those of the scanning upsert; `created` iff no active row had the key; the severity changes iff the report is more severe by name, and the row has the reported signal, summary and report; the stale-entry branch is dead |
| `MemoryStores.MemoryStore.UpdateIncidentStatus` | internal/store/memory.go:208-246 | each error exactly in its case; deleting by key alone keeps the index exact |
| `MemoryStores.MemoryStore.ResolveKey` | internal/store/memory.go:256-279 | one turn of the resolve loop is the scanning resolve of one key |
| `MemoryStores.MemoryStore.ResolveActiveIncidents` | internal/store/memory.go:248-281 | the rows are those of resolving the distinct rules in order, and the returned list names exactly the rows that changed |
| `MemoryStores.MemoryStore.UpdateIncidentDiagnostic` | internal/store/memory.go:302-324 | only report and update time of the row whose signal still matches change; the index stays exact |
| `IncidentHistory.ListIncidentHistory` | internal/store/memory.go:165-194 | the selection, sort and cut return the newest part of the rows below the cursor, complete up to the limit |
| `IncidentHistory.WalkReadsDown` | internal/store/memory.go:165-194 | with non-zero update times a walk by the last row's cursor has always read exactly an upper part of the filtered history |
| `IncidentHistory.WalkIsComplete` | internal/store/memory.go:165-194 | a finished walk is the whole filtered history in strictly descending order, each incident once, and no walk has more than one page beyond the number of rows |
| `IncidentHistory.ListingUnique` | internal/store/memory.go:165-194 | there is one such listing, so the walk's result depends on neither limit nor cuts |
| `IncidentHistory.WalkReturns` | internal/store/memory.go:165-194 | a finished walk returns exactly the rows with the asked status, or all of them when none is asked for, the later update first and of two at one time the greater identifier |
| `IncidentHistory.PageSize` | internal/store/memory.go:165-194 | a page has at most the asked number of rows if that is between 1 and 1000 and at most 200 otherwise, and a shorter one reaches the end |
| `IncidentHistory.ZeroCursorRestarts` | internal/store/memory.go:165-194 | a cursor at the zero time lists from the start, whatever its identifier |
| `MariaProofs.StepKeeps` | internal/store/mariadb.go:173-438 | every transaction step, waiting, refusal and rollback keeps the invariant of rows, locks, pending writes and counts |
| `MariaProofs.ExecKeeps` | internal/store/mariadb.go:173-438 | the invariant holds after every interleaving over any sound table |
| `MariaProofs.EveryInterleaving` | internal/store/mariadb.go:173-258 | after every interleaving over any sound table a row's key is its own iff it is active and NULL otherwise, one active row per key, counts grow by exactly the successful upserts, and each new row was reported created exactly once |
| `MariaProofs.CommittedRowsEvolve` | internal/store/mariadb.go:173-438 | between any two moments of a run no committed row is lost and none moves downwards, whatever the identities |
| `MariaIdentity.MergesTwo` | internal/store/mariadb.go:225-250 | of two identities under one key the second upsert, refused by the key, bumps the first one's row and leaves none of its own |
| `MariaIdentity.BlankStreamMerges` | internal/store/mariadb.go:769-791 | stream "t" after stream " t": one row of stream " t" counts both, and nothing matches a recovery for "t" |
| `MariaIdentity.ToldAllLand` | internal/store/mariadb.go:173-258 | over identities that trimming tells apart every committed upsert lands on a row of its own rule, service and stream |
| `MariaIdentity.AlwaysOwnIffTold` | internal/store/mariadb.go:769-791 | for all runs over a set of identities that is so iff the trimmed key is injective on the set |
| `MariaSerial.UpsertSerial` | internal/store/mariadb.go:173-258 | committing an upsert, including one that lost the insert race, is the memory store's upsert, for identities that trimming tells apart |
| `MariaSerial.StatusSerial` | internal/store/mariadb.go:328-370 | committing a status change is the memory store's status change, also for an identifier with white space around it, which changes nothing in either |
| `MariaSerial.ResolveSerialIff` | internal/store/mariadb.go:372-406 | committing a resolve is the memory store's resolve of the same rules iff no active row of a rule slipped by it |
| `MariaSerial.ArrivedCovers` | internal/store/mariadb.go:372-406 | the rows that can slip by are exactly those inserted by others under a rule after it was read |
| `MariaSerial.SerialIff` | internal/store/mariadb.go:173-438 | after every event of a run the table is the memory store's after the same whole calls in commit order, iff no resolve commits while a row that arrived behind its reading is active; for identities that are NUL-free and that trimming tells apart |
| `MariaSerial.Serializable` | internal/store/mariadb.go:173-438 | such a run is an admissible run of the memory store |
| `MariaSerial.BlindRunNotSerial` | internal/store/mariadb.go:372-406 | a recovery that reads nothing, an opening that commits, then the recovery's commit: the incident stays open, and is resolved when the calls run in commit order |
| `MariaOrder.SomeOrder` | internal/store/mariadb.go:173-438 | after every interleaving, blind commits included, some order of the whole committed calls gives the committed table and is an admissible run of the memory store |
| `Reorder.PutBefore` | internal/store/memory.go:101-324 | a resolve put before the operations on rows that stay active acts on the others, and those operations then add exactly their rows |
| `MariaGaps.GuardedUndisturbed` | internal/store/mariadb.go:173-438 | where an insert waits for a gap that a resolve has read, and a locking read for an uncommitted insert in its range, no resolve commits blindly |
| `MariaGaps.GuardedSerial` | internal/store/mariadb.go:173-438 | such runs are serial in commit order throughout |
| `Detection.RuleNameInjective` | internal/detection/rules.go:64-163 | different rules have different names |
| `Detection.CounterNamed` | internal/detection/rules.go:108-152 | a name is read as one of the nine counters only if it is the name of that counter |
| `Detection.CounterFound` | internal/detection/rules.go:108-152 | each of the nine counters is read under its name |
| `Detection.ServiceNamed` | internal/detection/rules.go:68-88 | a name is read as a metric of services, recorder, disk or packaging only if it is the name of that metric |
| `Detection.ServiceFound` | internal/detection/rules.go:68-88 | each of those metrics is read under its name |
| `Detection.MediaNamed` | internal/detection/rules.go:89-116 | the same for archive, upload, packet loss and encoder output |
| `Detection.MediaFound` | internal/detection/rules.go:89-116 | each of those metrics is read under its name |
| `Detection.StreamNamed` | internal/detection/rules.go:120-160 | the same for audio, forwarding, media input and the stream itself |
| `Detection.StreamFound` | internal/detection/rules.go:120-160 | each of those metrics is read under its name |
| `Detection.EvaluateIncidents` | internal/detection/rules.go:64-176 | the guard sequence yields at most one incident, the one read off the metric |
| `Detection.AddedAllLaws` | internal/detection/rules.go:178-190 | adding rules lists each one that was not listed with its reason, leaves the others, and lists none twice |
| `Detection.Add` | internal/detection/rules.go:182-189 | the closure's scan computes the list with the rule added |
| `Detection.EvaluateRecoveries` | internal/detection/rules.go:178-279 | the list has each rule at most once and exactly the rules the signal recovers, each with its reason |
| `Detection.CounterDecides` | internal/detection/rules.go:281-289 | a counter with a threshold detects its rule iff the stream is live and its delta, cut off at zero, reaches the threshold, and recovers it iff not; the total counts only where there is no delta |
| `Detection.DeliveryCounterDecides` | internal/detection/rules.go:281-289 | a count of failed deliveries detects iff it climbed, and recovers iff it did not |
| `Detection.ForwardCounterDecides` | internal/detection/rules.go:165-176 | forwarding errors detect iff they climbed on a live stream without a recent forward, as an error from the threshold on or when the last forward is stale; a recent forward recovers both forwarding rules, no climb the first |
| `Detection.DetectExcludesRecovery` | internal/detection/rules.go:64-289 | no signal, under any thresholds, both detects and recovers one rule |
| `Ingest.RuleKeyInjective` | internal/httpapi/server.go:1382-1422 | for one service and stream different rules have different keys |
| `Ingest.DetectedNotRecovered` | internal/httpapi/server.go:1382-1422 | the key a signal detects is never one it recovers |
| `Ingest.CloseRecovered` | internal/httpapi/server.go:1382-1392 | each active row under a recovered key is resolved by this signal for the first reason listed for the key and otherwise unchanged, and every other row stays as it was |
| `Ingest.EvaluateAndStoreIncidents` | internal/httpapi/server.go:1382-1422 | row by row: the active row of the detected rule counts once more, with this signal, summary and report, at the worse severity by name, or one new open row is made from the detection iff there was none; the active rows of the healed rules are resolved by this signal for their reasons; every other row stays as it was |
| `Ingest.IngestedByKey` | internal/httpapi/server.go:1382-1422 | after any signal the detected rule has exactly one active incident, every recovered rule has none, and every other key's active incident is unchanged |
| `Dedupe.WithoutKeeps` | internal/httpapi/notification_dedupe.go:161-179 | eviction leaves fewer entries than the cap, keeps the rest as they are, and every evicted entry expires no later than every kept one |
| `Dedupe.RunBounded` | internal/httpapi/notification_dedupe.go:50-100 | no run leaves more entries than the cap |
| `Dedupe.RunTells` | internal/httpapi/notification_dedupe.go:50-126 | in every run an entry's expiry is its creation plus one window, its counter the denials since then, exactly one of which asked for a record, each before the expiry |
| `Dedupe.EntryMoves` | internal/httpapi/notification_dedupe.go:50-126 | while an entry lives each call moves it in one of four ways and calls for other keys leave it alone |
| `Attempts.OneAtATimeIff` | internal/httpapi/notification_dedupe.go:50-126 | at every moment of a run at most one attempt of an event is under way iff its entry is never created anew (after expiry, eviction or purge) while an earlier attempt is under way |
| `Attempts.StaleCompletionAdmits` | internal/httpapi/notification_dedupe.go:102-126 | the entry expires, a second attempt starts, the first one's completion arrives, and a third attempt is admitted while the second is under way |
| `Dedupe.ResolvedClears` | internal/httpapi/notification_dedupe.go:62-70 | after a resolution no opening of the same lifecycle is in the table until it is reserved again |
| `Dedupe.OpeningAfterResolution` | internal/httpapi/notification_dedupe.go:50-100 | after a resolution the next opening of the same lifecycle is allowed |
| `Dedupe.NotificationDeduper.PruneLocked` | internal/httpapi/notification_dedupe.go:153-159 | exactly the expired entries go |
| `Dedupe.NotificationDeduper.Oldest` | internal/httpapi/notification_dedupe.go:163-174 | the scan finds an entry with the least expiry |
| `Dedupe.NotificationDeduper.EvictForInsertLocked` | internal/httpapi/notification_dedupe.go:161-179 | the loop ends and evicts a least-expiry entry each time while the table is full |
| `Dedupe.NotificationDeduper.Reserve` | internal/httpapi/notification_dedupe.go:50-100 | the new table and the answer (allowed, count, record, receipts) are those of the specification |
| `Dedupe.NotificationDeduper.Complete` | internal/httpapi/notification_dedupe.go:102-126 | ends the attempt, adds the receipts, and marks full delivery iff every result succeeded |
| `Fanout.NotifyIncidentEvent` | internal/notifications/webhook.go:218-282 | one result for each destination of the selected channels that is not excluded, in order; an identifier has a result iff it is not excluded and names an enabled channel, or a recipient of one, that asks for the event: an audit event, or one whose severity and type each trims and folds to an entry of the channel's list, where that is not empty; the fallback iff no enabled channel asks |
| `Fanout.DestinationIff` | internal/notifications/webhook.go:1499-1516 | the destinations are exactly those of the enabled channels that ask for the event |
| `Fanout.SendChannel` | internal/notifications/webhook.go:240-275 | the same for one channel |
| `Fanout.DeliverSucceeds` | internal/httpapi/server.go:1716-1730 | an attempt succeeds iff it sends something and every destination it sends to accepts |
| `Lifetimes.StepBalanced` | internal/httpapi/server.go:1679-1730 | while no completion is late, receipts only grow, and once fully delivered nothing more is sent |
| `Lifetimes.LifetimeBalanced` | internal/httpapi/server.go:1679-1730 | over any happenings in an entry's lifetime but late completions, receipts are exactly the acceptances, each counted once, at most one attempt is under way, and an idle entry is fully delivered iff every destination has a receipt |
| `Lifetimes.DuplicateAcceptedTwice` | internal/notifications/webhook.go:218-282 | two destinations under one identifier both accept |
| `Lifetimes.ForgottenAcceptedTwice` | internal/httpapi/notification_dedupe.go:117-124 | with two destinations or more, one with an untrimmed or empty identifier can accept twice |
| `Lifetimes.LateAcceptedTwice` | internal/httpapi/notification_dedupe.go:102-126 | after a late completion two attempts are under way and any destination can accept twice |
| `Lifetimes.AtMostOnceIff` | internal/httpapi/server.go:1679-1730 | at most one acceptance per destination in an entry's lifetime: without late completions iff the identifiers are distinct and, from two on, trimmed and not empty; with late completions iff there is no destination |
| `Lifetimes.EntryLives` | internal/httpapi/notification_dedupe.go:50-126 | along any run of the deduper a key's entry, from creation to removal, its attempts and their acceptances are those of the lifetime told by the events since |
| `Lifetimes.RunAcceptsOnce` | internal/httpapi/notification_dedupe.go:50-126 | over any run in which no attempt outlives its entry, no destination of a sound list accepts twice in an entry's lifetime, and an idle entry is fully delivered iff all receipts are there |
| `Lifetimes.StaleAcceptsTwice` | internal/httpapi/notification_dedupe.go:102-126 | a run of the deduper in which an attempt outlives its entry has any destination accept twice |
| `Fanout.EmailExcludable` | internal/notifications/webhook.go:284-287 | the identifier of an email destination is always found again |
| `Fanout.TidyDestinations` | internal/notifications/webhook.go:218-287 | channels with distinct, trimmed, non-empty identifiers without "/", recipients listed once, and an injective digest reach distinct destinations whose receipts are all found again |
| `Lifetimes.TidyChannelsSound` | internal/httpapi/server.go:1145-1164 | such a list is sound, so that no destination accepts twice while no completion is late |
| `SlidingLimiter.WindowBound` | internal/httpapi/server.go:2144-2180 | any half-open interval one window long contains at most `burst` grants to a key |
| `SlidingLimiter.GrantedIff` | internal/httpapi/server.go:2144-2180 | a request is granted iff its key has fewer than `burst` grants in the last window, and at least one or fewer than `maxBuckets` other keys have one |
| `SlidingLimiter.CompactInPlace` | internal/httpapi/server.go:2149-2155 | writing over the front of the array while reading it keeps exactly the recent hits in order |
| `SlidingLimiter.RateLimiter.CompactAll` | internal/httpapi/server.go:2149-2161 | every bucket holds its recent hits and no bucket is empty |
| `SlidingLimiter.RateLimiter.Refresh` | internal/httpapi/server.go:2149-2169 | the second compaction of the caller's bucket changes nothing; the buckets are the keys with a recent grant |
| `SlidingLimiter.RateLimiter.AllowMemory` | internal/httpapi/server.go:2144-2180 | the answer is the one told from the grant history, the buckets are exactly the grants later than now minus window, and there are never more than the maximum |
| `FixedWindowLimiter.WindowStartIsAligned` | internal/store/mariadb.go:67-76 | the window start is the greatest multiple of the window not exceeding now, iff now is not negative or falls on a boundary |
| `FixedWindowLimiter.MariaLimiter.AllowRateLimit` | internal/store/mariadb.go:18-65 | the rows and the answer are those of the specification |
| `FixedWindowLimiter.CleanupUnobservable` | internal/store/mariadb.go:18-65 | under a clock that does not run backwards the limiter answers as one that never deletes a row |
| `FixedWindowLimiter.RunTells` | internal/store/mariadb.go:18-65 | a key's row holds the grants of its window, and no aligned window has more than `burst` grants to a key |
| `FixedWindowLimiter.GrantedIff` | internal/store/mariadb.go:18-65 | for windows of whole seconds a request is granted iff it has a key and its aligned window has had fewer than `burst` grants to it |
| `FixedWindowLimiter.BoundedIffWholeSeconds` | internal/database/migrations/003_rate_limit_buckets.sql:1-7 | at most `burst` grants per aligned window in every run, iff the window is a whole number of seconds |
| `FixedWindowLimiter.IntervalBound` | internal/store/mariadb.go:18-76 | any interval one window long contains at most twice `burst` grants to a key |
| `SmtpMigration.RunPasses` | internal/store/v2migration/migration.go:61-141 | from any state meeting the constraints a run that proceeds fails no count check, and verification then reports the same counts |
| `SmtpMigration.NoSettingLeft` | internal/store/v2migration/migration.go:61-113 | after a run no email channel has a host, port, sender, user name or any of the three password columns |
| `SmtpMigration.VerifyIff` | internal/store/v2migration/migration.go:115-141 | verification passes iff no email channel has a setting left, every channel with a backup is bare and refers to the global relay, the replacement is ready, and there is a backup if one is expected |
| `SmtpMigration.FailureChangesNothing` | internal/store/v2migration/migration.go:61-113 | a run or restore that does not pass leaves the tables as they were |
| `SmtpMigration.MigratedIdempotent` | internal/store/v2migration/migration.go:61-113 | a second run changes nothing |
| `SmtpMigration.ManyRunsAreOne` | internal/store/v2migration/migration.go:61-113 | any positive number of runs is one run |
| `SmtpMigration.RestorePasses` | internal/store/v2migration/migration.go:143-179 | with sound backups a restore fails no check |
| `SmtpMigration.RestorePassesIff` | internal/store/v2migration/migration.go:143-179 | a restore passes iff the replacement is ready, there is a backup if one is expected, and every backup still has its fingerprint |
| `SmtpMigration.RestoreInvertsIff` | internal/store/v2migration/migration.go:143-179 | restoring after a run gives every channel back iff the earlier backups agree with the channels |
| `SmtpMigration.RestoreAfterRuns` | internal/store/v2migration/migration.go:143-179 | from an empty backup table, restoring after any n ≥ 1 runs gives every channel back |
| `SmtpMigration.EditLostExample` | internal/store/v2migration/migration.go:230-331 | an edit made after a backup was taken is lost by migrating and restoring |
| `SmtpMigration.Migrator.RunMigration` | internal/store/v2migration/migration.go:61-113 | the statements with their checks and rollbacks compute the specified run |
| `SmtpMigration.Migrator.RestoreMigration` | internal/store/v2migration/migration.go:143-179 | the statements with their checks and rollbacks compute the specified restore |
| `LocalTransitions.CanonicalInjective` | internal/remediation/local_transition.go:140-149 | the newline-joined canonical form of two valid requests is equal only for equal requests |
| `LocalTransitions.RunTells` | internal/remediation/local_transition.go:74-111 | over any requests the revision is the first one plus the applied keys, each revision is consumed once, accepted fences strictly increase, and the applied map is exactly the effective requests |
| `LocalTransitions.RunActs` | internal/remediation/local_transition.go:92-105 | over any requests the status revision is the first one plus the effective refreshes, the diagnostics revision the first one plus the effective reruns, each with the 64-bit wrap, and the stale warning stands iff it stood at the start and no effective request cleared it |
| `LocalTransitions.CountedIsSum` | internal/remediation/local_transition.go:92-105 | up to the greatest 64-bit number such a count is the sum |
| `LocalTransitions.EffectiveChecked` | internal/remediation/local_transition.go:54-69 | what takes effect was requested and passed every check, field by field |
| `LocalTransitions.ReplayOrConflict` | internal/remediation/local_transition.go:74-111 | at any later point repeating an applied request is a replay that changes nothing, and any other valid request under its key conflicts |
| `LocalTransitions.TakesEffectIff` | internal/remediation/local_transition.go:54-111 | a request takes effect iff it is valid, its key is new, it names the current revision, and its fence exceeds the last accepted one |
| `LocalTransitions.NoEffectNoChange` | internal/remediation/local_transition.go:74-111 | a request that does not take effect leaves the state as it was |
| `Remediation.PickedLaws` | internal/remediation/policy.go:35-71 | a name is picked iff some candidate trims to it, it is known and not forbidden and not yet seen; never twice; in order of first occurrence |
| `Remediation.ClassNamed` | internal/remediation/v2.go:290-307 | the class of an action by the names on the four lists, which do not overlap |
| `Remediation.ModeNamed` | internal/remediation/policy.go:22-33 | a mode is disabled, automatic or manual iff its trimmed, lower-cased text says so |
| `Remediation.BuildList` | internal/remediation/policy.go:38-53 | one of the two loops makes one action for each pick, in order |
| `Remediation.BuildActions` | internal/remediation/policy.go:35-71 | the actions are those of the safe candidates and then of the approval candidates that are not also safe ones |
| `Remediation.StepKept` | internal/httpapi/server.go:1283-1361 | each approve or execute request keeps what a run keeps |
| `Remediation.RunKept` | internal/remediation/policy.go:73-142 | over any requests: what needs approval runs or is dispatched only after an approval; nothing does in the disabled and suggest-only modes; only application proposals are dispatched; dispatches are at most the lost outcomes plus one; status disabled implies mode disabled |
| `Remediation.BeforeFirst` | internal/remediation/policy.go:73-78 | until its first stored execution a built action is disabled, suggested, pending or, once an approval it needs is stored, approved |
| `Remediation.FirstExecuteIff` | internal/remediation/policy.go:80-142 | the first stored execution ends executed iff the mode is automatic or manual, the name is on the local, retry or host list, it is marked safe or requires approval, an approval was stored before where one is needed, and a retry found incident and stream and was accepted; the recorded outcome by list |
| `Remediation.FirstDispatchIff` | internal/httpapi/server.go:1305-1361 | the first execution calls the Control Panel iff the action is a retry that would run and has an incident and a stream, whether or not it is accepted and stored |
| `Remediation.DispatchedAtMostOnce` | internal/httpapi/server.go:1305-1361 | with every outcome stored each action is dispatched at most once |
| `Remediation.DispatchedIsLostPlusOne` | internal/httpapi/server.go:1305-1361 | the dispatches are those whose outcome was lost plus at most one that was stored, after which the action is terminal |
| `Remediation.OnceFromIff` | internal/httpapi/server.go:1305-1361 | however a run goes on with every outcome stored, at most one dispatch in all, iff no outcome was lost so far or the only dispatch was lost and the action has ended |
| `Remediation.LostOutcomeDispatchesAgain` | internal/httpapi/server.go:1342-1346 | an outcome that is not stored leads to a second dispatch |
| `Remediation.ExecuteEndsTerminal` | internal/httpapi/server.go:1305-1346 | every stored execute ends terminal and no request changes or dispatches a terminal action |
| `Remediation.ContextAgreesIff` | internal/httpapi/server.go:1266-1281 | the dispatch context agrees with what executing would do iff the action is not a safe, disabled proposal under the automatic mode |
| `Remediation.ContextAgreesOnRuns` | internal/httpapi/server.go:1266-1281 | such an action is never reached from a built one, so along every run the two agree |
| `IncidentMigration.TopExists` | internal/database/migrations/005_incident_lifecycle.sql:16-25 | above every active row there is one of its group that nothing supersedes |
| `IncidentMigration.StaleNow` | internal/database/migrations/005_incident_lifecycle.sql:16-31 | in a half-updated table a row is superseded iff it was in the snapshot |
| `IncidentMigration.IncidentTable.CloseDuplicates` | internal/database/migrations/005_incident_lifecycle.sql:16-31 | updating row by row in any order, with repetitions, gives what the snapshot reading gives |
| `IncidentMigration.IncidentTable.Migrate` | internal/database/migrations/005_incident_lifecycle.sql:8-40 | the statements compute the specified table, and the index is created iff the keys are unique |
| `IncidentMigration.RowAfter` | internal/database/migrations/005_incident_lifecycle.sql:8-37 | a row stays active iff no active row of its group is newer, and has a key iff active; column by column, counts are raised to one, a missing last sighting is filled in, a row closed here gets its resolution, and everything else stays |
| `IncidentMigration.OneSurvivor` | internal/database/migrations/005_incident_lifecycle.sql:16-31 | exactly the row newest by update time, then identifier, of each group with an active row stays active |
| `IncidentMigration.IndexableIff` | internal/database/migrations/005_incident_lifecycle.sql:33-40 | with NUL-free rules and services the keys are unique iff no rule and service had active rows under both the missing and the empty stream |
| `IncidentMigration.ClashExample` | internal/database/migrations/005_incident_lifecycle.sql:33-40 | two such rows make index creation fail |
| `IncidentMigration.MigratedTwice` | internal/database/migrations/005_incident_lifecycle.sql:8-37 | migrating again changes nothing |
| `MigratedStart.MigratedIsSound` | internal/database/migrations/005_incident_lifecycle.sql:8-40 | wherever the index can be created, rows as the store writes them, with trimmed identities, become a sound starting table for the transactions |
| `Metrics.BucketSize` | internal/store/metrics.go:116-118 | every bucket has the floor or the ceiling of n/m points, the first starts at 0 and the last ends at n |
| `Metrics.Downsample` | internal/store/metrics.go:111-127 | for n > m > 0 exactly m points at climbing positions, no gap above the ceiling of n/m, ending with the newest; otherwise the points unchanged; the skip branch is dead |
| `Metrics.SeriesKeyInjective` | internal/store/metrics.go:87 | points share a key only within one service, type, stream and name, for NUL-free identifiers |
| `Metrics.GroupSeries` | internal/store/metrics.go:75-93 | each series holds exactly its eligible points in arrival order |
| `Metrics.ThinnedLaws` | internal/store/metrics.go:95-101 | a series keeps the smaller of its size and the cap, only points of its own, and one of its newest |
| `Metrics.MetricSnapshots` | internal/store/metrics.go:70-109 | the answer is in time order, at one time by service and name joined, and of every series holds exactly a thinning of a time-sorted arrangement, to 360 points unless a positive number is asked for |
| `Metrics.SnapshotLaws` | internal/store/metrics.go:70-109 | no point occurs more often than reported, every series has the smaller of its size and the cap, and no eligible point is newer than what is kept of its series |
| `CounterDeltas.SignalStore.LatestMetricValue` | internal/store/memory.go:51-64 | the backward scan finds the value of the last matching signal, or none iff there is none |
| `CounterDeltas.SignalStore.WithCumulativeCounterDelta` | internal/httpapi/server.go:398-428 | the signal is marked against the latest stored value of its series |
| `CounterDeltas.SignalStore.IngestSignal` | internal/httpapi/server.go:366-371 | a request handled alone stores its signal marked against the value stored last before it |
| `CounterDeltas.AccountOffByMissed` | internal/httpapi/server.go:409-417 | for any stored signals the last value is the first plus the deltas minus the drops plus what the deltas miss |
| `CounterDeltas.BalancedIffExact` | internal/httpapi/server.go:409-417 | the account balances after every signal iff every delta is the climb over the value stored just before it |
| `CounterDeltas.BalancedForAllValuesIff` | internal/httpapi/server.go:366-371 | a schedule of lookups and stores keeps a counter's account balanced for every choice of values iff no signal of the counter is stored after another one overtook it |
| `CounterDeltas.EveryInterleaving` | internal/httpapi/server.go:366-371 | in every interleaving of lookups and stores every counter signal has a delta that is not negative, and the first of a series is zero |
| `CounterDeltas.UndisturbedBalances` | internal/httpapi/server.go:366-371 | where no signal of a counter is overtaken between lookup and store, its account balances after every signal, whatever else interleaves |
| `CounterDeltas.OneByOneBalances` | internal/httpapi/server.go:366-371 | with requests handled one at a time every counter's account balances, for any mixture of signals |
| `CounterDeltas.OvertakenExample` | internal/httpapi/server.go:366-371 | two overlapping requests count one climb twice |
| `CounterRules.CumulativeIff` | internal/httpapi/server.go:386-396 | the counters that are marked are exactly the counters that the rules read |
| `CounterRules.ReadsClimb` | internal/httpapi/server.go:398-428 | what the rules read of a stored counter is its climb over the value found for it, and nothing for the first value or a reset |
| `CounterRules.NoClimbNoIncident` | internal/httpapi/server.go:398-428 | under positive thresholds a counter that did not climb, or is stored for the first time, detects nothing |
| `CounterRules.ClimbDecides` | internal/httpapi/server.go:398-428 | a counter with a threshold detects its rule iff, on a live stream, it climbed that far over the value found for it, and recovers it iff not |
| `DeliveryRedaction.ValueClean` | internal/store/delivery_redaction.go:83-103 | after sanitising, at every depth no string looks like a secret and a secret-named key holds the marker only |
| `DeliveryRedaction.ValueFixedIffClean` | internal/store/delivery_redaction.go:83-103 | sanitising changes nothing iff the value is safe already |
| `DeliveryRedaction.SanitizedSafe` | internal/store/delivery_redaction.go:61-119 | the keys stay, the result is safe except for top-level allowed audit actions, which are trimmed, and the fixed points are exactly the safe metadata |
| `DeliveryRedaction.SecretKeyIff` | internal/store/delivery_redaction.go:121-129 | a key counts as secret iff between white space it spells a listed part, letter by letter, in whatever case |
| `DeliveryRedaction.SecretValueIff` | internal/store/delivery_redaction.go:131-162 | the same for values, apart from the masks and URLs with user information |
| `DeliveryRedaction.SecretsHidden` | internal/store/delivery_redaction.go:61-119 | told by spelling: every key that names a secret holds the marker, at every depth and without exception, and every other string looks like none or, at the top level where asked for, is an allowed audit action |
| `DeliveryRedaction.SanitizedTwice` | internal/store/mariadb.go:453-484 | sanitising when saving and again when listing gives what was saved |
| `DeliveryRedaction.SanitizeDeliveryMetadata` | internal/store/delivery_redaction.go:61-81 | the loop over the keys, in any order, computes the sanitised metadata |
| `DeliveryRedaction.SanitizeDeliveryMetadataValue` | internal/store/delivery_redaction.go:83-103 | the recursion with its loops computes the sanitised value |

## Left out

- HTTP routing, JSON decoding, authorisation, configuration, host metrics, installers: plumbing without runs to reason about.
- Message rendering, label tables and diagnostic reports: summaries and reports are opaque values.
- Sending itself: each destination attempt is one unknown outcome; a provider that accepts and then reports a failure is outside the model.
- Cryptography: a digest is represented by what it is computed from. The text under the transition digest is proved injective (`LocalTransitions.CanonicalInjective`); the dedupe key's JSON text is represented by its record of fields, without a proof that the text determines them; the SMTP fingerprint likewise stands for a record, although the "|"-joined text it hashes does not determine its fields; the digest prefix of an email destination is a function parameter.
- Context cancellation and database errors of single reads: an operation that returns an error before it changes anything is not a step, except that a MariaDB transaction may be rolled back at any moment.
- MariaDB collations: identifiers are compared exactly, without case folding or trailing-space padding.
- Float64 rounding, NaN and infinities: values are reals.
- Case folding is exact where the result is compared with ASCII text, and not meant otherwise.
- Concurrent approve and execute requests on one remediation action: the handlers read and then write without a guard, and are modelled one at a time.
- `url.Parse`: whether a string is a URL with user information is a function parameter; sanitising of the delivery target rests on it and is left out.
- MemoryStores.MemoryStore.UpsertIncident: takes incidents as the server hands them over, open and without an identifier; a caller-chosen identifier or status is not modelled, and severities are already trimmed and lower-cased.
- MariaSerial.SerialIff: asks for NUL-free rules and services, without which the memory store's own key does not determine the row, and for identities that trimming tells apart, which MariaIdentity.AlwaysOwnIffTold shows to be needed; MariaProofs.EveryInterleaving and MariaProofs.CommittedRowsEvolve have no such condition.
- Gap locks are not part of the transaction steps, which are those of READ COMMITTED; `MariaGaps.Guarded` picks the runs that respect them, as far as resolves and inserts go. That gap locks of two upserts can deadlock shows in the model only as a rollback.
- SlidingLimiter.RateLimiter.CompactAll: each bucket is a value that is compacted through an array of its own; that no two keys share a backing array is not modelled.
- SlidingLimiter.RateLimiter.AllowMemory: asks for a clock that does not run backwards between calls, and the constructor for a positive window, which the configuration enforces; SlidingLimiter.WindowBound does without the first.
- FixedWindowLimiter.MariaLimiter.AllowRateLimit: one request is one step, as the row lock makes it; two first requests of a key that race for the insert are not modelled.
- CounterDeltas.EveryInterleaving: is about the memory store's lookup; the MariaDB lookup orders by the time a signal claims to have occurred and is not modelled.
- Metrics.MetricSnapshots: is the in-memory form; the row limit of the MariaDB query is not modelled.
- IncidentMigration.IndexableIff: asks for NUL-free rules and services, without which the joined key does not determine the row.
