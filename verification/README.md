# A verified model of the PostgreSQL-backed List/Watch controller backend

The repository rebuilds the Kubernetes List/Watch contract on two PostgreSQL tables. There is no log and
no sequence counter: every row carries the transaction id that last wrote it, and readers advance a
watermark to `xmin - 1`, below which every transaction has ended. This project models that design in
Dafny and proves what it relies on.

## What is modelled

`Protocol.dfy` is the shared database as a state machine. A state holds the next transaction id, the
transactions in progress with their uncommitted work, the committed rows, the compaction horizon and the
commit log. A step takes an xid, runs one INSERT, UPDATE or revival, hits a unique violation, lets a
compactor delete one row, commits, aborts, crashes or lets time pass. A *run* is any finite interleaving
of such steps from the empty database; transactions that hold an xid and never write are included,
because they pin `xmin`. Results "over all runs" quantify over all of them.

PostgreSQL itself is the trusted base: READ COMMITTED statements see the latest committed row once they
hold its lock, row locks are exclusive until the transaction ends, commits are atomic, REPEATABLE READ
queries share one snapshot, a unique violation is reported only against a committed row, NOT NULL columns
are checked before the unique index, and a failover keeps what is committed and the xid counter.

Code that the repository writes as objects and loops keeps that form, and each method is proved against a
function or relation the theorems are about:

| file | what it models | form |
|---|---|---|
| `Json.dfy`, `Model.dfy`, `Wrappers.dfy` | JSON values, rows, requests | datatypes |
| `Tombstone.dfy` | the tombstone test, four times in SQL's three-valued logic and once in Go | predicates |
| `WritePath.dfy` | `pgctl_write` and the multi-statement writer as functions of what each statement sees | functions |
| `Compaction.dfy` | retention arithmetic, the DELETE condition, the horizon | functions |
| `Database.dfy` | the same statements changing the tables in place; `Compact`; `ReadBack` | class `Tables` |
| `Protocol.dfy` | every interleaving, and the invariant of every reachable state | state machine |
| `History.dfy` | version chains, incarnations, read-back, ambiguous commits | lemmas |
| `Snapshots.dfy` | snapshots and `xmin`; the sealed prefix | lemmas |
| `ResourceVersion.dfy` | printing and parsing of resource versions, digit by digit | functions |
| `Watch.dfy` | one poll, the relay to the informer, the cache fold | classes `Watcher`, `PgWatcher` |
| `Agreement.dfy` | cache/table agreement, 410 Gone, redelivery | lemmas over runs |
| `Continuation.dfy` | what a watcher that goes on from any cache and watermark can rely on | lemmas over continuations |
| `Resume.dfy` | restarting a watch from the version on its last event | lemmas over runs |
| `Retention.dfy` | progress of relisting under timed runs | lemmas over runs |
| `Client.dfy` | read-then-write client operations with other writers in between and lost replies | class `PgClient` |
| `ClientRuns.dfy`, `Incarnations.dfy` | runs whose writes are all client operations | lemmas over runs |
| `Scheduler.dfy` | `Run`'s loop, timer and one-slot wake-up channel | method and state machine |
| `Doorbell.dfy` | the debouncer, each critical section one step of a machine | class and state machine |
| `Shard.dfy` | sharding and the informer map | class `PgCache` |
| `FieldSelector.dfy`, `Paging.dfy` | field selectors, query building, `List`, continue tokens | methods and functions |

An *incarnation* is the life of one uid under a key, from its creation or revival on.

## What was found

The properties below hold of the code only under a condition; each is proved exact, or has a concrete
witness beside it.

- The relay stamps each object with the highest transaction id relayed so far, not with the safe
  watermark `xmin - 1` that sections 3.2 and 3.5 of DESIGN.md describe. `Resume.ResumeIsSafeExactly` says
  when resuming from it is safe at every later poll however the run goes on: if and only if the mark is
  Gone already, so that the watcher relists; or every event of the interrupted poll at or below the mark
  that was not sent is a redelivery of what the cache has, and every transaction at or below the mark
  still in progress is a sweep, is confined to a key that is not watched, or is about to commit what List
  and the cache show of its key already. Each way to fail has its own continuation in `Continuation.dfy`,
  and `Resume.LostEventIsReachable` is one complete run from the empty database.
- DESIGN.md (section 3.3) resolves ambiguous commits by reading back the returned transaction id. The
  stored-procedure path has no such id and passes 0, which no row carries, so it always reports a conflict
  (`History.AmbiguousCommitResolution`).
- `Write` with a nil status is suppressed by the procedure and not by the multi-statement path
  (`WritePath.PathsAgreeExactly`).
- Retentions are truncated to whole seconds, so one below a second is none
  (`Compaction.RetentionTruncates`), and relisting makes progress exactly when the effective retention is
  at least twice the longest transaction (`Retention.RetentionBoundIsExact`).
- The Go and the SQL tombstone tests disagree on some metadata, `"finalizers": null` being the smallest
  (`Tombstone.GoAgreesExactly`). In runs of client operations no row ever holds such metadata, so there
  the cache agrees with the table without a condition (`ClientRuns.CacheAgreesForClients`).
- Versions restart at 1 when a tombstone is revived, so an `Update` can land on another incarnation than
  the one it was meant for and take its deletion timestamp away: if and only if it names version 2 or
  higher and the row it read had no deletion timestamp (`Incarnations.UpdateUndoesDeletionExactly`).
  Within one incarnation it cannot (`ClientRuns.DeletionIsFinal`).

## Model

| member | source | states |
|---|---|---|
| `Agreement.CacheAgreesWithTable` | internal/reader/watcher.go:345-464 | Over all runs: a cache seeded by List and changed by one relayed event after the other equals, after every completed non-Gone poll, exactly the rows List would return from that poll's snapshot, as long as the polled rows read alike in Go and SQL. |
| `Agreement.CacheAgreesForReadableWrites` | internal/reader/watcher.go:385-464 | The same with no condition on what is polled, for runs whose writes all stored metadata that both languages read alike. |
| `Agreement.PollAgreesExactly` | pkg/pgruntime/pgwatch.go:81-99 | One non-Gone poll takes the List cache of its starting snapshot to the List cache of its own snapshot if and only if the polled rows read alike. |
| `Agreement.RowsReadAlike` | pkg/pgruntime/convert.go:117-126 | If every write in the log stored metadata both languages read alike, so is the metadata of every committed row, status writes and revivals included. |
| `Agreement.NoSilentGap` | pkg/compaction/compactor.go:31-45 | If a compaction after a watcher's snapshot removes a row state that snapshot did not show, every later poll from that snapshot's watermark is Gone. |
| `Agreement.GoneExactly` | internal/reader/watcher.go:393-404 | In every reachable state a watermark is Gone if and only if some row with a higher stamp has been compacted; a watermark equal to `compacted_xid` is good. |
| `Agreement.RedeliveryIsBounded` | internal/reader/watcher.go:412-422 | A row state is sent again by a later poll only if at every poll in between the watermark was below its stamp and a lower xid was still in progress. |
| `Agreement.EventsAscendStrictly` | internal/reader/watcher.go:422 | In every reachable state the events of one poll ascend strictly in stamp: no two rows share one. |
| `Agreement.AnswerExists` | internal/reader/watcher.go:412-428 | Every query over every table has an answer in ascending stamp order, so no theorem is about an impossible poll. |
| `Agreement.AnswerIsUnique` | internal/reader/list.go:52-77 | In every reachable state a query has only one ordered answer. |
| `Agreement.DeliveryAbsorbs` | pkg/pgruntime/pgwatch.go:55-111 | Every poll delivers, and what its relayed events make of any cache is one absorption of the snapshot, and nothing else. |
| `Agreement.MarksAreXmin` | internal/reader/watcher.go:456-461 | The watermark handed from List through its version string, and after every poll, is `xmin - 1` of the snapshot last read. |
| `Snapshots.SealedPrefix` | internal/reader/watcher.go:386-391 | Over all runs: `xmin` never falls; a row that differs from an earlier snapshot has a stamp at or above its `xmin`, even when a low xid revives a tombstone stamped by a higher one; a row that is gone raised the horizon past it. |
| `Snapshots.XminNeverFalls` | internal/reader/list.go:40-50 | No step, abort or crash lowers the least xid in progress. |
| `Snapshots.SweptRowRaisesHorizon` | pkg/compaction/compactor.go:39-44 | A row a compaction removed was a tombstone, and the horizon of its GVK is at or above the stamp it had. |
| `Watch.Watcher.PollAll` | internal/reader/watcher.go:385-464 | A poll is Gone exactly when its watermark is below the horizon and then leaves it alone; otherwise it returns one event per answer row in order, Deleted exactly for rows with a deletion timestamp and Added exactly for others at version 1, and moves the watermark to `xmin - 1`, never back. |
| `Agreement.AddedMeansOneChange` | internal/reader/watcher.go:441-448 | In every reachable state the informer is told Added exactly of rows that are not deleted and whose incarnation has gone through exactly one change. |
| `Watch.PgWatcher.Relay` | pkg/pgruntime/pgwatch.go:55-111 | The relay forwards events once, in order, Added as Added and deleted ones as Deleted exactly without finalizers, each stamped with its object version and the highest txid so far, until the informer stops it or an event does not convert, which it reports. |
| `Watch.SentKinds` | pkg/pgruntime/pgwatch.go:87-99 | From row to watch event: Added exactly for undeleted rows at version 1, Deleted exactly for deleted rows without finalizers, Modified for all others, dying rows included. |
| `Watch.RelayedIsHighest` | pkg/pgruntime/pgwatch.go:81-85 | The stamped watermark is the maximum of the start watermark and the stamps relayed, and is attained. |
| `Watch.RelayAllAt` | pkg/pgruntime/pgwatch.go:65-101 | What is sent for the i-th event depends on the events up to it only. |
| `Watch.SentAt` | pkg/pgruntime/pgwatch.go:87-99 | The i-th event sent is about the i-th row polled and is a deletion if and only if Go sees that row as fully deleted. |
| `Watch.PollThenRelayAbsorbs` | pkg/pgruntime/pgwatch.go:55-111 | Applying the sent events one by one does to any cache exactly what the one-step description of a poll says. |
| `Continuation.NextPollAgreesExactly` | internal/reader/watcher.go:385-464 | For every reachable state, cache and watermark: the next poll completes the cache, or is Gone, in every continuation, if and only if the mark is Gone already, or the cache has every selected row at or below the mark as List shows it and no transaction at or below the mark is idle, refused on a selected key, or about to write a selected row that List would show otherwise than the cache has it. |
| `Continuation.EveryPollAgreesExactly` | internal/reader/watcher.go:385-464 | The same for every later poll of the watch: if and only if, besides, no pending write at or below the mark changes what List shows of a selected key. |
| `Continuation.UncoveredDisagrees` | internal/reader/watcher.go:412-417 | A selected row at or below the mark that the cache has otherwise is never corrected. |
| `Continuation.IdleDisagrees` | internal/reader/watcher.go:412-417 | A transaction at or below the mark that has written nothing can write any selected key, and no poll reports it. |
| `Continuation.RefusedDisagrees` | internal/schema/migrations/001_initial.sql:133-151 | A create at or below the mark that met another row can revive its key, and no poll reports it. |
| `Continuation.PutDisagrees` | internal/reader/watcher.go:412-417 | A pending write at or below the mark of a row the cache has otherwise commits unreported. |
| `Continuation.FutureDisagrees` | internal/reader/watcher.go:412-417 | A mark above transaction ids not yet handed out loses what they write. |
| `Continuation.UnsettledCommit` | internal/reader/watcher.go:412-417 | A pending write at or below the mark that the cache has already, but List does not show yet, breaks the second poll. |
| `Resume.ResumeIsSafeExactly` | pkg/pgruntime/pgwatch.go:81-85 | Resuming from the version on the last event sent, in the middle of a poll or after it, keeps cache/table agreement at every later poll of every continuation if and only if the mark is Gone already, or the unsent events at or below it were redeliveries and no transaction at or below it is still to change what List shows. |
| `Resume.PartCacheCoversExactly` | internal/reader/watcher.go:364-376 | The cache after n events of a poll has everything at or below the mark as List shows it if and only if the unsent events at or below the mark were redeliveries. |
| `Resume.ResumeIsSafe` | pkg/pgruntime/pgwatch.go:81-85 | In particular every later poll agrees, along the same run, when all events at or below the mark were sent and no transaction at or below it is in progress. |
| `Resume.ResumeVersionCarriesMark` | pkg/pgruntime/pgwatch.go:84-85 | The version string on an event parses back to its object version and the mark the watch would resume from. |
| `Resume.LostEventIsReachable` | pkg/pgruntime/pgcache.go:253-261 | A complete run from the empty database in which a resumed watch misses an object. |
| `Retention.RetentionBoundIsExact` | pkg/compaction/compactor.go:23-45 | Over all runs whose transactions live at most D, every List returns a watermark at or above every `compacted_xid` if and only if the effective retention is at least 2D. |
| `Retention.RelistMakesProgress` | internal/reader/list.go:40-50 | The sufficient half, for every state of every such run. |
| `Retention.MarkStaysGood` | internal/reader/watcher.go:393-404 | A poll that comes within the retention, less twice the longest transaction, of the snapshot its mark came from is not Gone. |
| `Retention.DueIsSettled` | pkg/compaction/compactor.go:35 | With that retention every transaction in progress has a higher xid than any row old enough to be deleted. |
| `Compaction.RetentionTruncates` | pkg/compaction/compactor.go:24-28 | A retention of zero means 24 hours; any other is truncated toward zero to whole seconds, and vanishes exactly below one second. |
| `Compaction.MergeIsRaised` | pkg/compaction/compactor.go:40-43 | The merged horizon is, per GVK, the least bound of the old horizon and the deleted stamps: an upper bound that is attained. |
| `Database.Tables.Compact` | pkg/compaction/compactor.go:23-51 | Deletes exactly the rows that are due, counts them, and raises the horizon to exactly the highest deleted stamp per GVK. |
| `Database.Tables.PgctlWrite` | internal/schema/migrations/001_initial.sql:64-180 | The procedure, statement by statement, against its functional specification, whatever other sessions commit between its statements; what it returns are the uid, version and transaction id of the row it leaves, it changes no other key, and a suppressed or failed call changes none. |
| `Database.Tables.UpdateStatus` | internal/schema/migrations/001_initial.sql:107-123 | The status branch in place: all its errors, and the stored row. |
| `Database.Tables.Create` | internal/schema/migrations/001_initial.sql:125-156 | The INSERT and, on a unique violation, the revival in place: all its errors, and the stored row. |
| `Database.Tables.UpdateObject` | internal/schema/migrations/001_initial.sql:159-174 | The object update in place, keeping the status when none is given. |
| `Database.Tables.Upsert` | internal/writer/writer.go:224-375 | The three upsert closures in place, statement by statement. |
| `Database.Tables.ExecWriteInner` | internal/writer/writer.go:454-536 | The multi-statement transaction in place, with its rollback on every error and its COMMIT: result and whole table. A lost reply to the COMMIT of a write is ambiguous under the transaction's own id, and reading that id back from the table finds the written row exactly if it landed; a lost reply to a suppressed call is a plain error. |
| `Database.DueExactly` | pkg/compaction/compactor.go:33-36 | A row is deleted exactly if its deletion and its last update both lie before the cutoff and its finalizers are missing or empty. |
| `WritePath.PathsAgreeExactly` | internal/writer/writer.go:210-375 | For every request, and whatever each statement sees, the two implementations give the same result, error class and row if and only if the request is not a nil-status `Write` whose other content is already stored. |
| `WritePath.WriteOutcomesExactly` | internal/schema/migrations/001_initial.sql:69-174 | Exactly which requests are suppressed, and exactly which fail as a conflict, as already existing, for want of a version or of a required column, in terms of the request and the row each statement finds. |
| `WritePath.EveryWriteCreatesOrAdvances` | internal/schema/migrations/001_initial.sql:107-174 | Every row written opens an incarnation over nothing or over a tombstone, whose revival drops the supplied deletion timestamp, or moves the one it finds from the named version to the next, with the supplied values and all others as they were. |
| `WritePath.ReplayIsSuppressedExactly` | internal/schema/migrations/001_initial.sql:69-97 | The row a changed write left suppresses the same request again if and only if that request did not revive a tombstone with a deletion timestamp. |
| `Protocol.RunInv` | internal/schema/migrations/001_initial.sql:64-180 | Every reachable state satisfies the invariant: distinct stamps of ended transactions, exclusive locks, uncommitted work still valid, rows equal to the replay of the log, every log entry a legal continuation. |
| `Protocol.StepKeepsInv` | internal/writer/writer.go:454-536 | Every step of a writer, compactor, commit, abort or crash keeps that invariant. |
| `Protocol.NextPublishes` | pkg/compaction/compactor.go:31-45 | A step changes committed rows, horizon or log only by committing exactly one write or one whole sweep. |
| `Protocol.CommitSweepKeepsInv` | pkg/compaction/compactor.go:31-45 | Deletions and horizon become visible together, and every row deleted was still the tombstone the sweep saw. |
| `History.VersionChain` | internal/schema/migrations/001_initial.sql:107-174 | Within one incarnation the committed changes carry versions 1, 2, 3, ... without a gap, each applied to exactly the version its writer named, across spec, status and full writes. |
| `History.VersionsCountChanges` | internal/schema/migrations/001_initial.sql:112-119 | A row's version is the number of changes its incarnation has gone through, and no two keys hold the same incarnation. |
| `History.NextChange` | internal/schema/migrations/001_initial.sql:160-170 | A committed write names exactly the number of changes before it and stores the next version. |
| `History.AtMostOneWinner` | internal/schema/migrations/001_initial.sql:117-123 | Of all writers naming the same version of one incarnation at most one ever commits a change. |
| `History.ChangesStrictlyGrow` | internal/schema/migrations/001_initial.sql:114 | A later change of an incarnation has a higher version. |
| `History.IncarnationNeverReturns` | internal/schema/migrations/001_initial.sql:138-147 | A used uid that no longer sits under its key never does again. |
| `History.IncarnationAdvances` | internal/schema/migrations/001_initial.sql:159-170 | While an incarnation lasts its version never falls, its creation time never changes and the same version means the same row. |
| `History.SameVersionSameRow` | internal/schema/migrations/001_initial.sql:168-169 | If a key holds the same version of an incarnation at two points of a run, it holds that very row there and throughout in between. |
| `History.UidChangesOnlyThroughDeath` | internal/schema/migrations/001_initial.sql:138-150 | Over all runs: a key's uid changes, or its row disappears, only through a state in which it is absent or a tombstone. |
| `History.LiveRowStep` | pkg/compaction/compactor.go:32-36 | No step compacts or revives a live or dying row. |
| `History.LogGrows` | internal/writer/writer.go:519-529 | What has committed stays committed, in order, through aborts and crashes. |
| `History.ReadBackExactly` | internal/writer/writer.go:85-105 | In every reachable state, reading back xid x returns a row if and only if x committed that very row and nothing has overwritten or compacted it since; 0 never matches. |
| `History.AmbiguousCommitResolution` | pkg/pgruntime/errors.go:70-79 | A lost COMMIT reply is resolved as a success if and only if the write landed, still stands, and its xid is known, which it is on the multi-statement path only. |
| `Tombstone.SqlTestsAreComplements` | internal/reader/list.go:58 | For all metadata, list visibility and the current-row read are exactly the negation of the compaction and revival filter under three-valued logic. |
| `Tombstone.GoAgreesExactly` | pkg/pgruntime/convert.go:67-80 | The Go test agrees with the SQL test on a row if and only if it is not deleted or its metadata reads alike. |
| `Tombstone.HasFinalizersExactly` | pkg/pgruntime/convert.go:67-76 | The Go test sees finalizers exactly if they are a non-empty array of strings and every other field of the metadata decodes. |
| `Tombstone.ClientMetadataReadsAlike` | pkg/pgruntime/convert.go:117-126 | Whatever the client encodes reads alike, with the finalizers and generation it put in. |
| `Client.UpdateKeepsStatusAndDeletion` | pkg/pgruntime/pgclient.go:204-250 | Over all runs: an Update landing on the incarnation its object was read from changes neither status nor deletion timestamp, and raises the generation by exactly one if it changed the spec and not otherwise, whatever was written in between. |
| `Client.DeleteMakesTombstoneExactly` | pkg/pgruntime/pgclient.go:311-337 | A Delete that names a version makes a tombstone if and only if its object has no finalizers, and the watch and the SQL tests agree on it. |
| `Client.ClientWritesReadAlike` | pkg/pgruntime/convert.go:117-126 | What an operation stores as metadata reads alike in both languages, given that for what a version-less Delete copies; the next row discharges that. |
| `ClientRuns.ClientLogReadsAlike` | pkg/pgruntime/pgclient.go:297-337 | Over every run of client operations, every write stored metadata both languages read alike, version-less Deletes included. |
| `ClientRuns.CacheAgreesForClients` | internal/reader/watcher.go:345-464 | Over every run of client operations the cache equals the table after every completed poll, with no further condition. |
| `ClientRuns.VersionOneIsUnmarked` | pkg/pgruntime/pgclient.go:162-170 | Over every run of client operations, a row at version 1 has no deletion timestamp. |
| `ClientRuns.DeletionIsFinal` | pkg/pgruntime/pgclient.go:218-250 | Over all runs of client operations: within one incarnation a deletion timestamp never returns to NULL, if every Update naming version 2 or higher lands on its object's incarnation; one naming version 1 may land anywhere. |
| `Incarnations.UpdateUndoesDeletionExactly` | internal/schema/migrations/001_initial.sql:138-147 | In every run of client operations and for every version v: an Update that has read its row can be overtaken by client operations so that it takes another incarnation's deletion timestamp away, if and only if v is at least 2 and the row it read had none. |
| `Client.PgClient.Call` | internal/writer/writer.go:47-81 | The writer's three entry points on the procedure path: result and whole table left, suppressed, failed, changed, or ambiguous with no transaction id when the reply is lost. |
| `Client.PgClient.HandleError` | pkg/pgruntime/errors.go:62-83 | Conflict and AlreadyExists become the API errors of the same name, an ambiguous commit becomes the row a read-back finds under its transaction id or else a conflict, and anything else stays an error. |
| `Client.ReadCurrentExactly` | pkg/pgruntime/pgclient.go:507-531 | The current-row read returns the row under the key exactly unless it is a tombstone. |
| `Client.PgClient.Create` | pkg/pgruntime/pgclient.go:123-187 | A success leaves the object as given, at generation 1 and not deleted, under the returned uid and version: new at version 1 over nothing or over a tombstone, or there already. |
| `Client.PgClient.UpdateStatus` | pkg/pgruntime/pgclient.go:403-458 | A success stores the status and nothing else, at the version named plus one, and returns an object that names the row just written. |
| `Client.PgClient.Update` | pkg/pgruntime/pgclient.go:189-264 | Reads, then writes with any other sessions in between: not found exactly for a missing row or a tombstone; a success stores exactly the object's spec, labels, annotations, owner references and finalizers, at the generation it is due, with the deletion timestamp read and the status found, and returns what it stored under a version that names the row just written; every other error and the read-back after a lost reply. |
| `Client.PgClient.Delete` | pkg/pgruntime/pgclient.go:266-344 | Without a version it stores the row it read, at the version it read, keeping an earlier deletion time; with one it stores its own content with a new deletion time; with any other sessions in between, every error, and the read-back after a lost reply. |
| `ResourceVersion.RoundTripsExactly` | internal/resourceversion/rv.go:17-58 | For all values of the two fields, Parse inverts String if and only if the object version is not negative; the watermark always survives. |
| `ResourceVersion.EitherFormNamesTheVersion` | pkg/pgruntime/convert.go:128-143 | The bare and the composite form name the same object version; a list's own version is taken for an object version when it fits int64 and refused otherwise. |
| `ResourceVersion.FormatThenValue` | internal/resourceversion/rv.go:17-22 | A decimal numeral is all digits and has the value it was printed from. |
| `ResourceVersion.ParseAcceptsExactly` | internal/resourceversion/rv.go:24-58 | For every string: it parses, and to what, exactly if it is empty, a watermark, or an object version and a watermark with the separator in between. |
| `ResourceVersion.ParseIntExactly` | internal/resourceversion/rv.go:38-45 | Digits behind an optional sign parse to their signed value exactly if an int64 holds it. |
| `ResourceVersion.ObjectVersionExactly` | pkg/pgruntime/convert.go:128-143 | No resource version is version 0, an integer is itself, and a composite form names its object version exactly if that is not 0. |
| `Scheduler.Run` | internal/reader/watcher.go:110-223 | Run from its first poll on, with the configured intervals and their defaults of 5 s and 100 ms: the select loop against its specification, and what `RunEndsAt` says of it. |
| `Scheduler.RunEndsAt` | internal/reader/watcher.go:137-217 | Run ends with the first cancellation, stop or poll that fails, and with the exit that belongs to it; up to there lastPoll is the end of the last poll, a doorbell is pending exactly if one came inside the floor and no poll has followed, the timer stands at lastPoll plus the floor or the baseline accordingly, and each poll is counted under its cause; nothing after it changes anything. |
| `Scheduler.ScheduleHolds` | internal/reader/watcher.go:137-217 | Under every doorbell sequence: the armed deadline is at most lastPoll + max(Baseline, Floor); a waiting doorbell is kept; while idle the time is at most max(doorbell, lastPoll + Floor); polls are at least min(Baseline, Floor) apart. |
| `Scheduler.NotificationIsServed` | internal/reader/watcher.go:325-328 | A notification stays waiting in the one-slot channel or the timer until a poll that begins no earlier than it. |
| `Scheduler.LoopIsComputedByRun` | internal/reader/watcher.go:137-217 | Every state of the loop among passing time and notifications has exactly the timer state and poll count that `Run` computes from the select branches completed so far, so what holds of the loop holds of `Run`. |
| `Scheduler.CountersAddUp` | internal/reader/watcher.go:146-215 | Doorbell polls and baseline polls add up to all polls, except that a timer poll that fails is counted by neither. |
| `Doorbell.EveryRingIsNotified` | internal/doorbell/doorbell.go:41-90 | Once the loop has ended, every Ring that completed before Close is followed by a notify attempt of its GVK in the next flush. |
| `Doorbell.NotificationsAreCoalesced` | internal/doorbell/doorbell.go:63-84 | A flush attempts at most one notify per GVK, only for GVKs rung since the previous flush, and for all of those. |
| `Doorbell.Debouncer.TakeDirty` | internal/doorbell/doorbell.go:63-74 | Takes each dirty GVK exactly once and leaves the set empty: the step of the machine that begins a flush. |
| `Doorbell.Debouncer.FlushAll` | internal/doorbell/doorbell.go:63-84 | Attempts one notification for each GVK that was dirty, none twice, and leaves the machine waiting, or done after Close. |
| `Shard.Validate` | internal/reader/shard.go:14-32 | Accepts exactly the well-formed specs, and an error names a fault the spec has. |
| `Shard.WellFormedExactly` | internal/reader/shard.go:9-12 | Well-formed are the specs with a positive modulus that own at least one of its residues, each once. |
| `Shard.ResidueExactly` | internal/reader/shard.go:34-39 | The residue ignores the sign, is the hash itself below the modulus, and does not change by a modulus more. |
| `Shard.ResidueInRange` | internal/reader/shard.go:34-39 | For every 32-bit hash, the least included, the residue is in [0, Mod) and the magnitude fits the bigint cast. |
| `Shard.OneOwnerPerNamespace` | internal/reader/shard.go:34-55 | If the owned residues of the replicas partition [0, Mod), every namespace has exactly one replica. |
| `Shard.ShardsPartitionTheCache` | internal/reader/shard.go:34-55 | The sharded caches are pairwise disjoint and their union is the unsharded cache of the same snapshot. |
| `Shard.ShardedCachesCover` | pkg/pgruntime/pgcache.go:206-223 | The same of the caches of whole sharded watches that have polled the same snapshot. |
| `Shard.PgCache.GetOrCreateInformer` | pkg/pgruntime/pgcache.go:191-223 | One informer per GVK, created once, whose List and Watch select the same shard: none for the GVKs marked unsharded, the cache's for all others. |
| `Paging.BuildListFilter` | pkg/pgruntime/pgclient.go:589-623 | The built clauses, with their numbered arguments, hold of exactly the rows the options ask for; fails exactly on a field requirement that has no SQL or, under a limit, on an undecodable token. |
| `Paging.BuildFieldSelectorFilter` | pkg/pgruntime/fieldselector.go:14-43 | One clause and one argument per requirement, numbered from the start parameter; fails exactly if one of them has no SQL. |
| `FieldSelector.TraverseExactly` | pkg/pgruntime/fieldselector.go:20-29 | A selector is translated if and only if each of its requirements is, and then to the translations in order. |
| `FieldSelector.TranslatedExactly` | pkg/pgruntime/fieldselector.go:32-98 | A requirement is translated if and only if its operator is =, == or != and its field is metadata, spec or status and a dotted path of identifiers. |
| `FieldSelector.RequirementMeans` | pkg/pgruntime/fieldselector.go:43-110 | A translated requirement keeps exactly the rows whose name, namespace or JSON text at that path is the value, or for != is present and another. |
| `Paging.ListQueryIsBound` | internal/reader/list.go:52-75 | Every placeholder of the final query is bound to its own argument: it keeps exactly the rows of the GVK that List shows and the options ask for, with their limit and offset. |
| `Paging.InformerQueriesSelectTheShard` | internal/reader/shard.go:43-55 | List and poll of one informer, built with different placeholder numbers, select by the same shard. |
| `Paging.List` | pkg/pgruntime/pgclient.go:89-119 | The selected rows of the page, the version `xmin - 1`, and a token for the next offset exactly when the unfiltered page is full. |
| `Paging.FilteredIsSelection` | pkg/pgruntime/pgclient.go:100-109 | What the label selector leaves are the rows at some rising positions of the page, exactly those it matches. |
| `Paging.SelectionHas` | pkg/pgruntime/pgclient.go:105-108 | A row is among them if and only if it is on the page and the selector matches it. |
| `Paging.SliceExactly` | internal/reader/list.go:68-75 | A page has the rows from the offset on, in order, as many as there are up to the limit. |
| `Paging.PagingIsComplete` | pkg/pgruntime/pgclient.go:99-119 | Over one ordered answer, following tokens with limit L ends after exactly n/L + 1 pages whose concatenation is the unpaged list, also with the label filter applied page by page. |
| `Paging.TablePagingIsComplete` | internal/reader/list.go:52-75 | The same over an unchanging table of any reachable state, every page being computed from its own query's answer. |

## Left out

- PostgreSQL internals, pgx, connection pools and network faults: assumed as stated above.
- Errors of the database inside a poll or List other than Gone: a poll counts when it completes. What was
  sent before a stop is covered by `Resume.ResumeIsSafeExactly`.
- Database.Tables.ExecWriteInner: the errors of the hooks and of BEGIN are not among its results; the hooks
  exist for tests and run between its statements.
- JSON text. Values are compared structurally, so JSONEqual and jsonb equality coincide; non-integer
  numbers, number formatting, duplicate and differently-cased keys and invalid text are not modelled.
- The inner fields of owner references: any JSON object is taken to decode as one.
- UUID generation: identifiers are supplied by the caller and assumed never drawn before.
- The COALESCE of a missing status in the revival UPDATE: modelled, but no request reaches it, because the
  INSERT before it fails on the NOT NULL column first.
- The base64 and JSON coding of continue tokens: taken as one to one. SQL text: clauses are modelled as
  conditions with numbered placeholders, and PostgreSQL's text of a JSON value that is not a string is a
  parameter.
- `listenLoop`'s reconnect and back-off, and the channel names GVKs hash to: latency only.
- `Get`, filling in an object from a row, Create's timestamp on the returned object, unsupported client
  methods, and the manager: no state of their own.
- `hashtext`, the informer's own threads and `Start`/`WaitForCacheSync`: PostgreSQL and client-go code.
- Metrics, tracing, the invariant verifier, timings returned by the procedure: observation only.
- Transaction ids and versions as 64-bit values are bounded only where they are printed, parsed or
  returned; neither counter wraps in any run considered.
- Client.UpdateKeepsStatusAndDeletion: takes the object's version as read earlier in the run and its
  generation as unchanged since; a caller that edits either is on its own.
