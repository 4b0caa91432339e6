# VYOMM: a verified model of its incident and telemetry core

VYOMM ingests device telemetry, detects anomalies, correlates faults into incidents with
recurrence, lets operators decide them, and keeps everything in SQLite so that a restart can
pick up where the process stopped. This project models that core in Dafny and proves what the
program's own documentation promises of it, over every input, run and interleaving. Where the
code falls short of a promise, the model keeps the code and a lemma says exactly when the
promise holds.

Run `dafny verify dfyconfig.toml` to check everything.

## How it is organised

| file | content |
|---|---|
| `Sequences`, `StableSort`, `Decimal` | filtering, windows, deduplication; stable sorting; decimal text |
| `Rfc3339` | instants, the Gregorian calendar, fixed-width UTC text, its order and its parsing |
| `Telemetry`, `Incidents` | samples and validation; incident records and identifiers |
| `Neighbors`, `ActionTexts`, `Correlation`, `PythonNeighbors`, `PythonCascade` | the correlation engine and the Python original it ports |
| `IncidentStore`, `Lifecycle`, `IncidentContent`, `Collisions` | the in-memory store as a class over its specification functions; its invariant over runs; what its incidents report; identifiers that clash |
| `IncidentTables`, `WriteThrough`, `WriteOrder`, `WriteFaults`, `Agreement`, `Restart` | tables, statements and recovery; the interleaved write-through protocol with crashes; statements out of order; statements that fail; when memory and tables agree; restart bisimulation |
| `TelemetryCache`, `TelemetryRuns` | bounded cache, retention and recovery; ingestion as interleaved commits and cache steps with crashes |
| `Anomalies`, `PythonDetection`, `Forecast`, `Runbooks`, `ResponseText` | detection windows and anomaly buffer; the Python original of detection; extrapolation; retrieval; the response printer |
| `Pipeline`, `MetricSteps`, `StoredWork`, `PersistentStore`, `Server` | effect of a batch and metric laws of serial requests; the metrics of requests that interleave; what a batch leaves in the tables; the durable store and the handlers as classes |

Classes update their fields as the Go objects do, and every method's contract equates the new
state with a specification function of the old one; the lemmas are about those functions.

## Main results

* **Lifecycle.** Over every run, histories are dense and linked, only the last occurrence of a
  key can be active, the audit trail determines status and update time, and nothing recorded is
  lost, exactly when no created identifier is already in use and no decision reactivates
  (`Lifecycle.RunKeepsInv`). Identifiers keep 24 digest bits, so freshness is the condition, not
  an assumption; a clash can only be with another key at the same sequence number, and every
  digest has one (`Collisions.EveryDigestCollides`).
* **Content.** Each incident stored in any run reports, field by field, a candidate of that run, and
  each one an ingest creates the first candidate with its key (`IncidentContent.RunContent`,
  `IncidentContent.BatchReports`). A decision leaves status and trail spelled as the request spelled
  them and counts accordingly (`Server.Handlers.HandleDecide`).
* **Write-through.** Memory steps, database steps and crashes interleave freely. If the database
  steps of one occurrence key keep their order, the tables plus the pending writes are memory
  cut to seconds in every state (`WriteThrough.RunSynchronized`), and a crash anywhere leaves
  prefixes of all histories and trails (`WriteThrough.CrashSafety`). The code enforces neither
  that order, since the lock is released before the statement runs, nor that statements succeed.
  Without either, in any interleaving, a restart is consistent in itself throughout exactly when
  every statement that succeeds is next for its key in the tables (`WriteFaults.RunStaysConsistent`),
  and in such a run it recovers memory at a quiescent moment exactly when, since the last crash, no
  statement has failed and each incident's decisions were stored in the order of their issue, up to
  equal ones (`Agreement.QuiescentAgreementIff`). `WriteOrder.OvertakingIsSafe` says which write may
  overtake which, and `WriteFaults.FailedStatement` which losses the writes still waiting survive.
* **Restart.** A store rebuilt at a quiescent moment and the live one answer every later
  sequence of operations alike (`Restart.RestartBisimulation`).
* **Telemetry.** A batch is committed first and reaches the cache later, outside the transaction.
  Over every interleaved run of commits, failures, cache steps, prunes and crashes, a crash
  recovers the live histories, completed by the batches still pending, cut to the window
  (`TelemetryRuns.RunRecovers`), and pruning never shows (`TelemetryCache.PruningIsInvisible`).
  `TelemetryCache.OrderMatters` is the exact condition for samples committed out of time order, and
  `TelemetryRuns.OvertakingRecoversIff`, over runs, for batches that reach the cache out of turn.
* **Metrics.** A request counts what it did only after its statement has returned, so counts wait
  like writes do. Over every interleaving, failures included, the gauge plus what waits keeps its
  distance from the active incidents (`MetricSteps.InterleavedGauge`); from an exact start and
  without failures it is negative exactly while more closures have overtaken the count of their
  creation than incidents are open (`MetricSteps.NegativeIff`), and can be trusted throughout
  exactly when none does (`MetricSteps.TrustedIffInTurn`). For requests that run one at a time,
  `Pipeline.GaugeLaw`, `Pipeline.RecurrenceLaw` and `Pipeline.ResolvedLaw` are the conservation
  laws of the gauge and the counters.
* **Detection.** A breach is left out of the buffer exactly when the buffer shows one of the same
  device, signal and 20-second window, while digests do not collide (`Anomalies.RecordNothingIff`),
  and the Python original detects the same breaches (`PythonDetection.DetectionAgrees`).
* **Retrieval.** The terms are the words of the query, and a document that contains one never stands
  behind one that contains none (`Runbooks.TermsAreWords`, `Runbooks.Retrieve`).
* **Port.** The Go table and the Python cascade report the same findings, exactly on plain hosts:
  those whose number Python reads as the one their ASCII digits spell, it and its successor fitting
  in 64 bits (`PythonCascade.PortOfPrograms`).

## Where the code and its comments disagree

* `internal/api/handlers.go:276-280` says the gauge never goes negative. Without any failure or
  restart, a decision that completes between the memory step and the count of the creation it is
  about takes it to -1 (`MetricSteps.RaceDrivesGaugeNegative`). A new process starts with fresh
  metrics over the incidents it restores, so a restart and one decision are enough
  (`Pipeline.RestartDrivesGaugeNegative`), and so are a failed insert and its decision
  (`Pipeline.FailedInsertDrivesGaugeNegative`). The exact conditions are
  `MetricSteps.TrustedIffInTurn`, `MetricSteps.TrustedAfterRestart` and `MetricSteps.TrustedAfterRun`.
* `internal/persistence/store.go:436-438` says memory is kept consistent with SQLite. A failed
  statement is never repeated, and statements of concurrent operations may change places: two
  decisions on one incident that arrive in the other order contradict each other after a restart
  (`WriteOrder.DecisionAfterLater`), a recurrence whose predecessor was lost leaves a gap
  (`WriteOrder.OutOfSequence`). `WriteFaults.RunStaysConsistent` is the exact condition for tables
  a restart can use at all, and `Agreement.QuiescentAgreementIff` for tables that agree with memory.
* `internal/incidents/incidents.go:272-278` reads a host's number from its ASCII digits, wrapping at
  64 bits; `backend/app/analytics.py:137-140` reads digits of every script, without wrapping,
  and raises on some and on more than 4300. `PythonNeighbors.NeighborsAgreeIff` says where the two meet, and
  `PythonNeighbors.OneForeignDigit` is the smallest case in which they do not.
* `internal/incidents/incidents.go:286` calls the identifier globally unique; with 24 digest bits
  that holds only while no two keys clash at one sequence number, and some always can
  (`Collisions.EveryDigestCollides`).
* `internal/api/dto.go:116-136` prints the minimum 64-bit integer as a bare minus sign.
* `internal/api/handlers.go:268-272` answers every failed decision with "not found", also when
  the incident exists, memory has changed and only the write failed.

## Assumptions

* Instants are nanoseconds from 0000-01-01T00:00:00Z to the end of 9999, the years RFC 3339
  (section 5.6) can write; the retention window does not reach before the year 0000.
* ORDER BY is a stable sort over insertion order; text columns compare byte by byte; the foreign
  key of `incident_decisions` is not enforced (SQLite's default), and a duplicate primary key is.
* JSON payloads and columns other than timestamps read back as written.
* The clock passed to incident operations does not go back, in the order of their memory steps,
  for `WriteThrough` and `Restart`; the clock is read before the lock is taken, so this is an
  assumption about requests that race. `Lifecycle`, `Pipeline`, `MetricSteps`, `WriteFaults` and
  `Agreement` do not need it.
* The cutoffs of prunes and restarts do not go back (`TelemetryRuns.Admissible`); they are the clock
  less the fixed retention window.
* Digests (incident and anomaly identifiers) are arbitrary functions; `Collisions` alone uses that
  those of incidents are printed in hexadecimal.
* Measurements are real numbers.
* What Python's `isdigit` and `int` make of a character outside ASCII is an arbitrary function, and
  `int` converts texts of up to 4300 digits, the default of the Python release the backend runs on.
* Whether a database statement succeeds is a parameter of each operation.

## Model

| member | source | states |
|---|---|---|
| `Rfc3339.TextOrderIsChronological` | internal/persistence/store.go:129-133 | comparing two stored RFC 3339 texts gives exactly the order (and equality) of the instants cut to seconds, for every pair of instants of the years 0000-9999 |
| `Rfc3339.ParseFormat` | internal/persistence/store.go:180-187 | a timestamp written as text reads back as the same instant with the fraction of a second gone |
| `Rfc3339.CivilOf` | internal/persistence/store.go:277 | the calendar fields of an instant are valid and denote exactly that second |
| `Rfc3339.UnixEpochIs1970` | internal/detection/anomaly.go:64 | the offset used for Unix seconds is the instant 1970-01-01T00:00:00Z |
| `Incidents.IdsEqual` | internal/incidents/incidents.go:286-292 | two identifiers coincide exactly when sequence number and 24-bit digest both do |
| `IncidentStore.Store.constructor` | internal/incidents/store.go:20-26 | a new store is empty |
| `IncidentStore.Store.UpsertCandidate` | internal/incidents/store.go:38-69 | the whole new state, incident and created flag are those of the specification function Upsert; a created incident is active and has the candidate's key, root cause, severity, affected hosts, confidence, breach time and action |
| `IncidentStore.Store.RecordDecision` | internal/incidents/store.go:81-99 | the whole new state, incident and wasActive flag are those of Decide; an unknown incident changes nothing |
| `IncidentStore.Store.RestoreRows` | internal/incidents/store.go:171-186 | rows are added one by one in order, then the trails installed |
| `IncidentStore.Store.LatestActive` | internal/incidents/store.go:112-128 | whatever order the map is walked in, an active incident that none is created after, or none when none is active |
| `IncidentStore.Store.List` | internal/incidents/store.go:132-148 | each stored incident exactly once, newest first, whatever order the map is walked in |
| `IncidentStore.SortNewestFirst` | internal/incidents/store.go:142-146 | the in-place swap loop leaves the array equal to the stable sort by creation time descending |
| `IncidentStore.SiftLeft` | internal/incidents/store.go:143-145 | the inner loop inserts the element at its place in the sorted front and touches nothing behind it |
| `IncidentStore.ListingAgreesWithActive` | internal/incidents/store.go:110-148 | the first active entry of a listing was created when the answer of Active was, and is itself such an answer |
| `Lifecycle.UpsertKeepsInv` | internal/incidents/store.go:28-69 | an upsert keeps histories dense, earlier occurrences closed and the audit trail truthful exactly when it creates nothing or its identifier is unused; it creates exactly when no occurrence of the key is ongoing; and it only ever adds |
| `Lifecycle.DecideKeepsInv` | internal/incidents/store.go:71-99 | a decision keeps the invariant exactly when it does not set the status back to active, loses nothing, and reports wasActive exactly when it is the first on its incident |
| `Lifecycle.RunKeepsInv` | internal/incidents/store.go:38-99 | over every run from a consistent store, all states along the way are consistent exactly when no step reuses an identifier or reactivates; and nothing recorded is lost or rewritten |
| `Lifecycle.AtMostOneActive` | internal/incidents/store.go:28-37 | a key has at most one active occurrence and it is the last of its history |
| `Lifecycle.CollisionBreaksLinks` | internal/incidents/incidents.go:286-292 | creating an incident under a used identifier always breaks the link between histories and incidents |
| `Lifecycle.CollisionIsAcrossKeys` | internal/incidents/incidents.go:286-292 | a colliding identifier can only belong to another key with the same sequence number |
| `Collisions.CollidingKeys` | internal/incidents/incidents.go:286-292 | for every hexadecimal digest function two keys of any root cause get equal digests for their first occurrence |
| `Collisions.EveryDigestCollides` | internal/incidents/incidents.go:286-292 | for every hexadecimal digest function there is a run of two upserts from an empty store that leaves the invariant |
| `Collisions.CollidingRun` | internal/incidents/store.go:50-67 | two first occurrences with equal digests leave one incident and break the histories |
| `Lifecycle.StepKeepsGenerated` | internal/incidents/store.go:50-51 | every stored identifier was generated for its own key and sequence number, at every step |
| `IncidentContent.RunContent` | internal/incidents/store.go:38-99 | over every run from the empty store, colliding identifiers included, each stored incident has key, root cause, severity, affected hosts, confidence, breach time and action of a candidate the run upserted, and was created at the time of that upsert |
| `IncidentContent.BatchReports` | internal/api/handlers.go:146-173 | an ingest changes no stored incident but by creating one, and each one it creates is active and reports, field by field, the first of its candidates with that key |
| `IncidentContent.KeysNameIncidents` | internal/incidents/incidents.go:192-207 | over every run of correlated candidates and decisions the key of each stored incident is its root cause, a colon and its first affected host |
| `IncidentTables.IncidentRoundTrip` | internal/persistence/store.go:166-188 | an incident row reads back as the incident with both timestamps cut to seconds and nothing else changed |
| `IncidentTables.DecisionRoundTrip` | internal/persistence/store.go:200-212 | a decision row reads back as the decision cut to the second |
| `IncidentTables.RebuildRepresented` | internal/persistence/store.go:154-219 | recovery with its two ORDER BY queries returns exactly the state the tables represent, although rows come back grouped by key and by time and not in insertion order |
| `IncidentTables.RebuildFailsIff` | internal/persistence/store.go:180-210 | recovery of the incidents fails exactly when some stored timestamp cannot be read |
| `IncidentTables.CommitRepresents` | internal/persistence/store.go:392-433 | a write that is next for its key succeeds, and the tables then represent its effect |
| `IncidentTables.UpdateKeepsIds` | internal/persistence/store.go:420-421 | the status update keeps every key's rows, in order |
| `WriteThrough.CommitOutOfOrder` | internal/persistence/store.go:383-434 | a pending write that is the first of its key may reach the tables before all others: the rest stays executable and the final state is the same |
| `WriteThrough.StepKeepsSynchronized` | internal/persistence/store.go:383-434 | every admissible memory step, database step or crash is possible and keeps 'tables plus pending writes is memory, cut to seconds' |
| `WriteThrough.RunSynchronized` | internal/persistence/store.go:383-438 | the same in every state of every interleaved run |
| `WriteThrough.QuiescentAgreement` | internal/persistence/store.go:436-438 | with nothing pending a restart recovers memory exactly, up to truncation to seconds |
| `WriteThrough.CrashSafety` | internal/persistence/store.go:123-219 | a crash at any moment of any run leaves a consistent store whose histories and trails are prefixes of those before the crash |
| `WriteThrough.TruncApply` | internal/persistence/store.go:397-421 | cutting to seconds commutes with every write |
| `WriteThrough.SwapWrites` | internal/persistence/store.go:383-434 | writes of different occurrence keys may change places without changing the outcome or what is possible |
| `WriteThrough.SerialOperation` | internal/persistence/store.go:383-434 | an operation whose database half is finished before the next one starts keeps the tables durable, and its statement succeeds |
| `WriteOrder.CommitIsConsistent` | internal/persistence/store.go:383-434 | storing a write leaves tables from which a restart is consistent exactly when an insert continues the stored history, whose last occurrence is closed, or a decision finds its incident and is not earlier than the stored ones |
| `WriteOrder.OvertakingIsSafe` | internal/persistence/store.go:383-434 | of two writes issued in order, the second may reach the tables first, with a consistent prefix of memory in between and memory at the end, exactly when it does not depend on the first and they are not different decisions on one incident |
| `WriteOrder.LostWriteIsSafe` | internal/persistence/store.go:396-404 | when the first of two writes is lost, the second leaves tables a restart can use exactly when it does not depend on it |
| `WriteOrder.DecisionWithoutIncident` | internal/persistence/store.go:420-428 | a decision stored while its incident has no row (late or failed insert) leaves an orphan trail after a restart |
| `WriteOrder.DecisionAfterLater` | internal/persistence/store.go:420-428 | a decision stored after a later one on the same incident leaves a row whose time the restored trail contradicts |
| `WriteOrder.RecurrenceBesideActive` | internal/persistence/store.go:392-421 | a recurrence stored while its predecessor is active in the tables leaves two active occurrences after a restart |
| `WriteOrder.OutOfSequence` | internal/persistence/store.go:392-404 | an occurrence stored without its predecessor, or under a number in use, leaves a history that is not dense after a restart |
| `WriteFaults.LossIsHarmless` | internal/persistence/store.go:396-434 | the writes issued after a lost one stay next for their keys exactly when, for a lost insert, none decides its incident or continues its key, and for a lost closing decision, another decision on the incident comes before the next occurrence |
| `WriteFaults.RunStaysConsistent` | internal/persistence/store.go:154-219 | over every run with statements in any order, failures and crashes, what a restart would rebuild is consistent in itself at every moment exactly when every statement that succeeded found its write next for its key in the tables |
| `Agreement.QuiescentAgreementIff` | internal/persistence/store.go:383-438 | over every run with statements in any order, failures and crashes that stays in step, a restart with nothing pending recovers memory, cut to seconds, exactly when since the last crash no statement failed and each incident's decisions were stored in the order of their issue, up to equal ones |
| `Agreement.RunBalances` | internal/persistence/store.go:383-434 | conservation behind it: in every state of such a run each stored trail is the trail at the last restart plus the rulings stored since, memory's is that trail plus the rulings issued since, each incident has as many rulings issued as stored, lost and pending, an incident of memory without a row has its insert pending or lost, and stored rows match memory up to status and update time |
| `Agreement.StateFollows` | internal/incidents/store.go:38-99 | a consistent store is determined by its incidents, up to status and update time, and its trails |
| `WriteFaults.OrderedRunIsInStep` | internal/persistence/store.go:383-434 | runs that keep the order of each key and in which nothing fails are such runs |
| `WriteFaults.StoresCleanlyIffRuns` | internal/persistence/store.go:383-434 | storing waiting writes in order keeps restarts consistent exactly when each is next for its key in its turn |
| `WriteFaults.FailedStatement` | internal/persistence/store.go:396-434 | when one statement fails in a run that was ordered until then, the writes still waiting are stored cleanly exactly when the loss is harmless to them |
| `Restart.AlikeForever` | internal/incidents/store.go:38-99 | two stores equal up to seconds answer every later sequence of operations with the same identifiers, sequence numbers, created and wasActive flags, and stay equal up to seconds |
| `Restart.RestartBisimulation` | internal/persistence/store.go:154-219 | a restart at any quiescent moment of any run is invisible to every later sequence of operations |
| `Restart.TrailOrderMatters` | internal/persistence/store.go:194-212 | a restart gives an incident its recorded trail, cut to seconds, exactly when its decisions were recorded in non-decreasing seconds |
| `TelemetryCache.CacheIsLast` | internal/persistence/store.go:221-228 | appending to the bounded history yields the last 90 samples of each host of the unbounded log |
| `TelemetryCache.AppendKeepsLatest` | internal/persistence/store.go:221-228 | a host's latest sample is always the last of its history |
| `TelemetryCache.PruningIsInvisible` | internal/persistence/store.go:368-379 | for any rows and any prune cutoff not after the restart cutoff, recovery gives the same cache with or without the pruning |
| `TelemetryCache.PruneBounds` | internal/persistence/store.go:369-370 | no sample inside the window is deleted and none a second or more outside it is kept |
| `TelemetryCache.OrderMatters` | internal/persistence/store.go:130-133 | for every log, recovery returns the live history of the window exactly when its samples were committed in non-decreasing seconds and, if the window holds samples that have left the cache, the live ones fill it and none of them is earlier |
| `TelemetryRuns.StepKeepsInv` | internal/persistence/store.go:245-298 | every commit, failed commit, cache step, prune and crash keeps 'table and cache hold the committed samples of the window', if a host's batches do not overtake each other on the way to the cache |
| `TelemetryRuns.RecoveryIsLiveHistory` | internal/persistence/store.go:128-152 | in every reachable state the recovered history of every host is the last 90 committed samples of the window, and its live history, completed by the pending batches, cut to the window |
| `TelemetryRuns.RunRecovers` | internal/persistence/store.go:128-152 | the same over every interleaved run of commits, failures, cache steps, prunes and crashes |
| `TelemetryRuns.QuiescentRecovery` | internal/persistence/store.go:128-152 | with no batch pending, recovery gives exactly the live histories cut to the window |
| `TelemetryRuns.LiveHistory` | internal/persistence/store.go:245-298 | until the first restart each host's history, completed by the pending batches, is the last 90 of its committed samples, whatever commits fail and in whatever order samples arrive |
| `TelemetryRuns.CacheStepSettles` | internal/persistence/store.go:290-294 | a batch that reaches the cache in turn does not change what any host's history will be |
| `TelemetryRuns.OvertakingShows` | internal/persistence/store.go:285-294 | two batches reaching the cache in the other order leave a host the same live history exactly when its samples read alike in both orders, as far as the cache reaches |
| `TelemetryRuns.OvertakingRecoversIff` | internal/persistence/store.go:128-298 | over every run in which batches reach the cache in any order, recovery gives the live history, completed by the pending batches, cut to the window, exactly when the host's samples since the last restart, in the order they reach the cache and in the order of their commits, leave the same cut history |
| `TelemetryRuns.SerialIngest` | internal/persistence/store.go:245-298 | commit and cache step with nothing in between are the ingest of the store |
| `PersistentStore.Store.constructor` | internal/persistence/store.go:85-96 | a store over existing tables starts with nothing in memory |
| `PersistentStore.Store.AppendHistory` | internal/persistence/store.go:221-228 | the new cache is that of Append: latest replaced, history extended and cut to 90 |
| `PersistentStore.Store.RecoverTelemetry` | internal/persistence/store.go:128-152 | loads the window's rows in text order into the cache |
| `PersistentStore.Store.RecoverIncidents` | internal/persistence/store.go:154-219 | loads the recovered incident state, or nothing when a timestamp cannot be read |
| `PersistentStore.Store.Ingest` | internal/persistence/store.go:245-298 | counts, errors and valid devices; a failed transaction leaves table and cache unchanged, a committed one appends the valid devices to both |
| `PersistentStore.IngestAccounting` | internal/persistence/store.go:249-257 | accepted plus rejected is the batch size, with one error per rejection |
| `PersistentStore.RejectionsAre` | internal/persistence/store.go:249-257 | the errors are those of the invalid devices, in batch order, each with the host and its fault |
| `Telemetry.ValidateFindsFirst` | internal/telemetry/model.go:124-153 | a sample is valid exactly when it has none of the nine faults, and otherwise the first one in the order of the checks is reported |
| `Telemetry.ByHostKeepsLast` | internal/incidents/incidents.go:181-184 | of several samples of one host in a batch the last one stays |
| `PersistentStore.Store.RecordAnomalies` | internal/persistence/store.go:306-331 | the new buffer is Record of the old one and the batch |
| `PersistentStore.Store.Prune` | internal/persistence/store.go:368-379 | keeps exactly the rows not older than the cutoff and returns how many went |
| `PersistentStore.Store.UpsertIncident` | internal/persistence/store.go:383-404 | memory changes first; the row is inserted when the database executes the statement; otherwise an error is returned and memory keeps the incident |
| `PersistentStore.Store.DecideIncident` | internal/persistence/store.go:411-434 | memory changes first; status and trail row are written together or not at all; an unknown incident changes nothing |
| `PersistentStore.Store.LatestDevices` | internal/persistence/store.go:343-352 | one sample per known host, ordered by host name |
| `PersistentStore.ListingUnique` | internal/persistence/store.go:346-351 | that listing does not depend on the order the map is walked in |
| `PersistentStore.RiskiestDevice` | internal/api/handlers.go:201-214 | the first device in the listing among those with the highest score; empty for no devices |
| `PersistentStore.RiskWeights` | internal/api/handlers.go:216-218 | a point of packet loss weighs as much as 32 ms of latency or 40 points of memory, seven points of latency as much as five of CPU, and nothing else counts |
| `Pipeline.BatchEffect` | internal/api/handlers.go:146-173 | after a batch every candidate key has an active occurrence, new exactly where there was none; created counts the distinct silent keys; every other history, all existing incidents and all trails are untouched |
| `Pipeline.BatchIsIdempotent` | internal/api/handlers.go:142-173 | replaying a batch at any later time creates nothing and changes nothing |
| `Pipeline.BatchIsProcess` | internal/api/handlers.go:151-171 | a batch has the same effect on memory whichever of its inserts fail |
| `Pipeline.GaugeLaw` | internal/api/handlers.go:160-171 | for requests that run one at a time, with arbitrary database failures: the active gauge moves by the change in active incidents less the unnoticed changes, and the recurrence counter by the incidents beyond the first of their key, likewise |
| `Pipeline.ResolvedLaw` | internal/api/handlers.go:284-286 | for requests that run one at a time: the resolved counter moves by the resolutions in the audit trails, repeated ones included, less those whose write failed |
| `Pipeline.GaugeIsExact` | internal/api/handlers.go:268-287 | for requests that run one at a time, without failures and from an empty start, the gauge is the number of active incidents, the recurrence counter counts incidents beyond the first of their key and the resolved counter the resolutions on record |
| `MetricSteps.StepKeepsSurplus` | internal/api/handlers.go:151-171 | each memory step and each count, in any interleaving, keeps the gauge's distance from the open incidents less the overtaken ones; only a failed request changes it, by what it would have counted |
| `MetricSteps.InterleavedGauge` | internal/api/handlers.go:151-171 | over every interleaving of requests, failed ones included: the gauge is the number of incidents counted as created and not as closed, less those counted as closed and not as created, plus what it was off by at the start, less what failed requests would have counted |
| `MetricSteps.QuiescentGauge` | internal/api/handlers.go:268-287 | once no request is outstanding and none has failed, the gauge has moved by the change in active incidents, however the requests interleaved |
| `MetricSteps.NegativeIff` | internal/api/handlers.go:276-283 | from an exact start and without failures the gauge is below zero exactly while more incidents have their closure counted before their creation than are open |
| `MetricSteps.TrustedIff` | internal/api/handlers.go:276-283 | no continuation without failures, in which closures are counted after their creations, takes the gauge below zero exactly when it shows at least the open incidents |
| `MetricSteps.TrustedIffInTurn` | internal/api/handlers.go:276-283 | from an exact start and without failures the gauge can be trusted throughout a run exactly when every closure is counted after the creation of its incident, and is then at or above zero |
| `MetricSteps.RaceDrivesGaugeNegative` | internal/api/handlers.go:276-283 | a decision that completes between the memory step and the count of the creation takes a fresh gauge to -1, with no failure and no restart |
| `MetricSteps.SerialWork` | internal/api/handlers.go:151-171 | a request that nothing comes in between of does what one unit of serial work does |
| `MetricSteps.CountersKeepUp` | internal/api/handlers.go:166-171 | the recurrence and resolved counters, with the counts that wait, keep their distance from the recurrences and resolutions on record over every interleaving without failures |
| `MetricSteps.TrustedAfterRestart` | internal/api/handlers.go:276-283 | with the fresh metrics of a new process the gauge can be trusted exactly when no active incident of the severity was restored |
| `Pipeline.RestartDrivesGaugeNegative` | internal/api/handlers.go:276-283 | a restart with an active incident and the decision that resolves it take the gauge to -1 without any failure |
| `MetricSteps.TrustedAfterRun` | internal/api/handlers.go:151-171 | after any interleaved run with failures the gauge can be trusted exactly when what it was off by at the start covers what the failed requests would have counted and the overtaken incidents |
| `Pipeline.RecurrenceLaw` | internal/api/handlers.go:166-169 | for requests that run one at a time: the recurrence counter moves by the sum over all keys of max(0, n - max(1, n at the start)), n the length of the key's history, less the recurrences whose insert failed |
| `Pipeline.FailedInsertDrivesGaugeNegative` | internal/api/handlers.go:152-162 | one failed insert followed by a decision drives the gauge to -1, contrary to the comment at lines 276-280 |
| `Server.Handlers.UpsertOne` | internal/api/handlers.go:151-170 | one candidate: memory as Upsert, metrics as Count, tables with its row when the insert succeeds; the flag says whether it did, and a failed insert moves no metric |
| `Server.Handlers.UpsertAll` | internal/api/handlers.go:150-171 | all candidates in order, failures skipped; memory, counters, tables and created count as specified, each flag telling whether the insert of that candidate succeeded |
| `Server.Handlers.CorrelateIncidents` | internal/api/handlers.go:146-173 | correlates the valid batch and processes exactly its candidates |
| `Server.Handlers.HandleDecide` | internal/api/handlers.go:249-289 | the answer is 400, with nothing changed, exactly when the request text is neither 'resolved' nor 'ignored', and 200 exactly when it is one of them, the incident is known and the write succeeds; for a known incident the stored status and the newest trail entry are then spelled as the text, whatever the write does; a successful request counts a resolution exactly for 'resolved' and takes one from the active gauge exactly when the incident was active; a failed one changes no metric and no table and answers 404 |
| `Server.Handlers.HandleIngest` | internal/api/handlers.go:89-130 | a failed commit answers 500 with nothing changed; otherwise telemetry table, cache, anomaly buffer, incidents, incident tables and counters all become what their specifications say |
| `StoredWork.WorkStaysDurable` | internal/persistence/store.go:383-434 | a unit of work the database executes keeps the tables durable |
| `StoredWork.BatchStaysDurable` | internal/api/handlers.go:150-171 | when the database executes every statement of a batch, every insert succeeds and a restart after the batch recovers memory, cut to seconds |
| `Correlation.MaxOf` | internal/incidents/incidents.go:82-106 | the loop computes the largest neighbour signal, or the fallback |
| `Correlation.MaxSignalOfSameMembers` | internal/incidents/incidents.go:82-106 | that maximum depends only on which devices are neighbours |
| `Correlation.FirstRule` | internal/incidents/incidents.go:189-211 | the loop stops at the first matching rule |
| `Correlation.DedupeHosts` | internal/incidents/incidents.go:217-227 | keeps each host at its first position |
| `Correlation.Correlate` | internal/incidents/incidents.go:180-215 | one candidate per device that meets a rule, in device order; CongestionMeans and PortEquivalence say what the rules mean in the measurements |
| `Correlation.CongestionMeans` | internal/incidents/incidents.go:82-117 | a device is reported as 'Congestion Incident' exactly when it is a router above 95 % CPU with some neighbour above 100 ms and some neighbour above 5 % loss, or without neighbours exceeds both itself |
| `Correlation.AffectedDistinct` | internal/incidents/incidents.go:193-200 | deduplicating the affected hosts never drops one |
| `Correlation.KeyInjective` | internal/incidents/incidents.go:282-284 | an occurrence key determines root cause and host, since no root cause holds a colon |
| `Correlation.RootCausesHaveNoColon` | internal/incidents/incidents.go:108-163 | none of the six root causes holds a colon |
| `Correlation.CandidateKeys` | internal/incidents/incidents.go:203-207 | two candidates of a batch share a key exactly when they share root cause and host |
| `Correlation.ConfidenceBounds` | internal/incidents/incidents.go:201-207 | the confidence of a valid sample lies in [0.78, 0.96] |
| `Neighbors.NumericSuffix` | internal/incidents/incidents.go:267-280 | the loop computes the digits of the name in wrapping 64-bit arithmetic, 1 without digits |
| `Neighbors.SuffixAgrees` | internal/incidents/incidents.go:267-280 | the 64-bit reading is the number the ASCII digits spell exactly when that fits |
| `Neighbors.ResolveNeighbors` | internal/incidents/incidents.go:243-265 | the nested loop with its seen set computes the neighbour list |
| `PythonNeighbors.PyNamesAre` | backend/app/analytics.py:130-139 | both programs look up the same twelve names, prefix by prefix and offset by offset, where the index does not wrap |
| `PythonNeighbors.NeighborsAgree` | backend/app/analytics.py:130-140 | Go's neighbours are Python's with repetitions dropped for every plain host: one whose number Python reads as its ASCII digits spell it, below the largest 64-bit integer |
| `PythonNeighbors.NeighborsAgreeIff` | backend/app/analytics.py:130-140 | the two languages find the same neighbours in every batch exactly when the host is plain; where Python's int raises, they do not |
| `PythonNeighbors.AsciiIsReadAlike` | backend/app/analytics.py:137-140 | a name that holds no digit of another script is read as its ASCII digits spell it, exactly when int accepts a text of that length |
| `PythonNeighbors.OneForeignDigit` | backend/app/analytics.py:137-140 | a name without ASCII digits that ends in one digit of another script is plain exactly when that digit is a 1; a superscript, on which int raises, never is |
| `Neighbors.NeighborsDistinct` | internal/incidents/incidents.go:247-263 | a neighbour list repeats no host and never holds the host itself |
| `Neighbors.SuffixOfHostName` | internal/incidents/incidents.go:254-280 | reading a printed host name gives its index back |
| `Neighbors.NeighborIffAdjacent` | internal/incidents/incidents.go:240-265 | on canonical hosts 'neighbour' means a different host whose index differs by at most one, and is symmetric |
| `PythonCascade.CorrelateIncidents` | backend/app/analytics.py:74-127 | the loop returns the first four findings of the cascade, or raises when some host's number cannot be read |
| `PythonCascade.TableIsCascade` | backend/app/analytics.py:78-109 | the first-match rule table over the largest neighbour signals and the if/elif chain over Python's own maxima decide alike in the same surroundings |
| `PythonCascade.PyByHostIs` | backend/app/analytics.py:75 | the dictionary built entry by entry keeps, like Go's map, the last sample of each host |
| `PythonCascade.TextsAgree` | backend/app/analytics.py:82-109 | given the same action sentences, the two programs attach the same root cause, severity, action and breach time to corresponding rules |
| `ActionTexts.SentencesAgree` | backend/app/analytics.py:84-109 | the six action sentences are spelled alike in both programs |
| `PythonCascade.PortEquivalence` | backend/app/analytics.py:74-127 | for every batch of plain hosts the Python result, by its own maxima, confidence formula, affected list, name list and dictionary, is the first four Go candidates: same root cause, severity, action and breach time, Go's confidence Python's unrounded one to two decimals, Python's deduplicated affected list a prefix of Go's |
| `PythonCascade.PortEquivalenceIff` | backend/app/analytics.py:74-140 | with the same texts, a host may stand among plain hosts in every valid batch without the two programs differing exactly when it is plain itself |
| `PythonCascade.PortOfPrograms` | backend/app/analytics.py:82-109 | the same for the programs as they are, each with the texts it carries |
| `Anomalies.Detect` | internal/detection/anomaly.go:62-94 | the nested loops report the breaches of every device, check by check; DetectionAgrees and BucketIff say what checks and buckets are |
| `PythonDetection.DetectionAgrees` | backend/app/analytics.py:45-71 | the Python detection, with its own table of checks, finds the same breaches in the same order, with the same device, signal and severity, its score Go's to three decimals |
| `PythonDetection.DetectAnomalies` | backend/app/analytics.py:45-71 | the nested Python loops compute that detection |
| `PythonDetection.BucketsAgreeIff` | backend/app/analytics.py:60 | both programs digest the same bucket number exactly from 1970 on and, before, in the first second of each twenty |
| `Anomalies.BucketIff` | internal/detection/anomaly.go:64 | two times share a bucket exactly when no window start lies between them: a multiple of 20 seconds since 1970 or, before 1970, the second after one |
| `Anomalies.TwentySecondsApart` | internal/detection/anomaly.go:53-64 | times at least 20 seconds apart, from 1970 on, are never in one window |
| `Anomalies.SameIdIff` | internal/detection/anomaly.go:82-99 | while digests do not collide two anomalies share an identifier exactly when they share device, signal and window |
| `Anomalies.DetectedAre` | internal/detection/anomaly.go:62-94 | an anomaly is reported exactly when some check of some device is breached |
| `Anomalies.BreachScore` | internal/detection/anomaly.go:71-81 | scores lie in (0, 1] and reach 1 exactly at critical severity |
| `Anomalies.SameWindowSameIds` | internal/detection/anomaly.go:53-99 | within one 20-second window the same devices are reported under the same identifiers |
| `Anomalies.RecordBatch` | internal/persistence/store.go:316-331 | the loop computes Record |
| `Anomalies.BufferIsLogHead` | internal/persistence/store.go:316-331 | after any batches the buffer is the first hundred entries of the newest-first log and repeats no identifier |
| `Anomalies.RecordNoOp` | internal/persistence/store.go:321-327 | recording changes nothing exactly when every identifier is already shown |
| `Anomalies.RecordNothingIff` | internal/persistence/store.go:312-331 | while digests do not collide, recording a detection leaves the buffer alone exactly when each of its breaches is shown already for the same device, signal and window |
| `Anomalies.LaterBreachRecorded` | internal/persistence/store.go:312-331 | a detection with a breach 20 seconds or more after everything shown always changes the buffer |
| `Anomalies.BufferStamped` | internal/persistence/store.go:312-331 | every buffer of detected batches meets the assumption of the two laws above: identifiers are those of device, signal and window |
| `Anomalies.DetectTwiceIff` | internal/persistence/store.go:312-331 | recording the detections of the same devices again within one window changes nothing exactly when every identifier of the first detection survived the cut to 100 |
| `Anomalies.DetectTwice` | internal/persistence/store.go:312-331 | in particular when buffer and batch hold at most 100 identifiers |
| `Forecast.Build` | internal/forecast/forecast.go:56-95 | the loops compute the specified forecast |
| `Forecast.ForecastFromCache` | internal/forecast/forecast.go:61-64 | a forecast from the 90 cached samples is the forecast from the full log |
| `Forecast.PendingForecast` | internal/forecast/forecast.go:57-59 | without a device or a sample the forecast is flat at zero and says that it waits |
| `Forecast.PointsFollowTrend` | internal/forecast/forecast.go:70-78 | each signal moves monotonically along the points in the direction of the recent samples and stays in range |
| `Forecast.LinearIsContinued` | internal/forecast/forecast.go:124-134 | a series that lies on a line is continued along it exactly |
| `Forecast.CpuContinues` | internal/forecast/forecast.go:66-78 | where the recent CPU samples lie on a line the point lies on it, as far as 0 to 100 goes |
| `Forecast.LatencyContinues` | internal/forecast/forecast.go:66-78 | the same for latency, from 0 on |
| `Forecast.LossContinues` | internal/forecast/forecast.go:66-78 | the same for packet loss, from 0 on |
| `Forecast.PointIs` | internal/forecast/forecast.go:70-78 | point k of a forecast is the one k + 1 steps of five minutes ahead of the recent samples |
| `Forecast.RiskLevels` | internal/forecast/forecast.go:80-98 | risk and trend of a forecast are decided by 8 CPU + 5 latency + 160 loss of its last point against 1080, 1440 and 1800 |
| `Forecast.RiskMonotone` | internal/forecast/forecast.go:80-83 | raising the newest sample's CPU, latency or loss never lowers the risk |
| `Forecast.ConfidenceRange` | internal/forecast/forecast.go:84-91 | confidence is 60 plus 1.5 per recent sample, in [61.5, 87] |
| `ResponseText.Itoa` | internal/api/dto.go:116-136 | the loop over the 20-byte buffer never runs out of room and leaves the decimal text |
| `ResponseText.ItoaRoundTrip` | internal/api/dto.go:116-136 | parsing the text gives the number back exactly for every 64-bit integer but the minimum, whose text is a bare minus sign |
| `ResponseText.ItoaCanonical` | internal/api/dto.go:116-136 | the text is at most 20 characters and has no leading zero |
| `Runbooks.Retrieve` | internal/runbooks/runbooks.go:83-123 | the loops return the top of the ranking, as many documents as the limit allows; none that contains a word of the query stands behind one that contains none, or is cut off while such a one is returned |
| `Runbooks.TermsAreWords` | internal/runbooks/runbooks.go:125-128 | the terms of a query are its maximal runs of characters that are neither white space nor underscore, lower-cased, one for each place, in order |
| `Runbooks.WhiteSpace` | internal/runbooks/runbooks.go:127 | the characters that separate words are those with Unicode's White_Space property |
| `Runbooks.LowerCasePairs` | internal/runbooks/runbooks.go:126 | capital letters become the small letters of the same place in the alphabet and nothing else changes |
| `Runbooks.ScoresIff` | internal/runbooks/runbooks.go:90-99 | a document scores exactly when its text or name contains a word of the query |
| `Runbooks.TermsAreProper` | internal/runbooks/runbooks.go:125-128 | every query term is a non-empty word without spaces, underscores or capitals, so skipping empty terms never applies |
| `Runbooks.ScoreCountsTerms` | internal/runbooks/runbooks.go:90-99 | the score is the number of query terms found in content or name |
| `Runbooks.RankingIsOrdered` | internal/runbooks/runbooks.go:102-113 | the ranking is a permutation of the library ordered by score then source, and a smaller limit gives a prefix |
| `Runbooks.RetrievalIgnoresStoredOrder` | internal/runbooks/runbooks.go:80-123 | with distinct sources the result does not depend on the stored order |

## Left out

- HTTP routing, JSON decoding, tracing, logging, health checks and the scenario stubs: no state of the core.
- SQLite, goose and Prometheus internals: tables are row sequences, metrics are integer maps.
- Floating-point rounding and NaN: measurements are reals, and Python's confidence and score are compared before its own rounding (half to even).
- Incident objects behind pointers: the store's map holds incident values, so the model does not show the shared pointer that `Decide` writes through; no pointer leaves the Go store either.
- The lock itself: each method of the in-memory store is one atomic step, and interleaving is modelled between memory and database steps.
- PersistentStore.Store.constructor: stops before the recovery that `NewStore` goes on to; `PersistentStore.Store.RecoverTelemetry` and `PersistentStore.Store.RecoverIncidents` are its two halves.
- Rfc3339.ParseFormat: parses the UTC form without a fraction, the only one the program writes; offsets and fractions are not accepted.
- Runbooks.LowerCasePairs: lower-casing covers ASCII; loading files and title-casing are not part of this model.
- Counters of received samples, ingestion errors and detected anomalies: sums of the counts in `PersistentStore.IngestAccounting` and of detected anomalies.
- PythonCascade.PortEquivalence: the Python incident's identifier and timestamp are not compared, since the port changes identifiers on purpose.
- The Python store, LLM client, retrieval and forecast with its sine term; both frontends, the simulators, configuration and deployment.
- The pruning ticker: pruning is a step that may happen at any time.
- Converters of the response layer other than the decimal printer: field copies.
- The read accessors of the incident store that return one trail, one history or one incident: map lookups in `TrailOf` and `HistoryOf`.
