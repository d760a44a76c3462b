# MeshMonday: a verified model

MeshMonday listens to MeshCore packets, stores each distinct packet once with everyone who
observed it, recognises `#meshmonday` check-ins made on a Monday, keeps one check-in per user and
week, prunes old packets, and ranks users by check-ins and by streaks of consecutive Mondays.

This project models that core in Dafny and proves what it promises. `dafny verify dfyconfig.toml`
checks it.

| module | models |
|---|---|
| `Store`, `Migration` | the four tables with their keys, cascades and ids; the statements on them; `Migrate` |
| `Ingest` | `HandleMessage` as four separately failing inserts, `RestoreCheckinPacketsFromRaw`, `withBusyRetry` |
| `Retention` | `PruneRawPackets`: snapshot, paged scans, chunked deletes |
| `Protocol` | handlers, a prune, crashes, migrations and restores as one transition system |
| `Safety`, `PruneRuns` | what holds in every run whatever; prune steps by themselves |
| `Grounding` | what holds as long as the rows under check-ins in flight stay, and exactly what else can happen |
| `Invariant`, `Runs` | what every step keeps, and whole runs guarantee, when no check-in is late for a running prune |
| `Stale`, `Displaced`, `LateRuns` | exactly what can be lost, orphaned or missed when one is, and schedules in which it is |
| `Badges` | the two `LEFT JOIN`s with `COUNT(DISTINCT)`, `parseObserverNames` |
| `Sorting`, `Streak`, `Leaderboard`, `EndToEnd` | the in-place dedup and streak scan, `Compute`, and the bounds on a board computed after any run |
| `Calendar`, `MeshWeeks`, `IsoDates` | week arithmetic with an arbitrary zone, `CountMeshMondayWeeksInclusive`, dates as text |
| `MeshCore`, `Hex`, `Text` | the packet decoder and its inverse, `HashPacket` |
| `Extraction`, `Reading` | check-in extraction, and what it reads of what a sender wrote |

Code that works by changing state is a method (`SQLiteStore` and `Service` are classes; the prune,
delete, restore, retry, dedup, streak, decode and grouping loops are loops) proved against a
function of its inputs or of the old state; the theorems are about those functions. What the main
methods leave is also said without them, in terms of rows, days and bytes alone: `Retention.PrunedExactly`,
`Ingest.HandledPlainly`, `Ingest.Counted`, `Leaderboard.Describes`, `MeshCore.DecodedFields`, and all of
`Reading`.

## How the pieces fit

`Ingest.Handled` is what one undisturbed `HandleMessage` does to the tables; the method is proved
to do exactly that, for some choice of failing inserts. `Protocol.Next` cuts the same work into
single statements that any number of handlers and one prune take in any order;
`Runs.HandledIsRun` shows that the steps in sequence are `Handled` again, and
`PruneRuns.PruneIsRun` that those of a prune by itself leave what the method does.

The results about whole runs come in three layers.

- `Safety` needs no assumption on messages: keys, references and uniqueness, ids that are never reused,
  and that a prune deletes only what it scanned and rejected.
- `Grounding` needs the row under each check-in in flight to be there still: then the last insert of a
  handler lands, and links and check-ins are those that stored rows yield. For links the condition is
  exact (`Grounding.LinksStayDerivedIff`).
- `Runs` needs that no check-in in flight is late for the running prune, late meaning that the
  prune's snapshot lacks its packet and its week lies before the cutoff: then no check-in is ever lost,
  and runs without faults are complete. Being late is exactly what makes each failure possible. The
  prune can pull the row (`Stale.InFlightRowIsLostIff`), cascade away the link and the check-in
  (`Stale.InFlightCheckinIsLostIff`), or leave an orphan (`Stale.InFlightIsOrphanedIff`). In runs
  without faults the late handler's own last insert can conflict (`Displaced.HashConflictIff`) and
  its user go without a check-in (`Displaced.CheckinIsMissedIff`), or the late handler's check-in can
  make that of a later one of the same packet, not late itself, be ignored
  (`Displaced.LinkIsLeftAloneIff`).

## Assumptions

- A statement is atomic, a failed one changed nothing, and foreign keys are on. Any statement may
  fail at any time, and the process may crash between any two. The store counts the statements that
  failed, those on a busy database apart (`trouble`), and a context tells whether it has expired, so that
  a method can promise not to give up by itself (`Excused`).
- An instant is a number of seconds (nanoseconds where a fraction matters), a zone any function from
  instants to UTC offsets. Lemmas state what more they need: that a local midnight exists
  (`HasMidnight`), that local days follow instants (`MonotoneDays`), or one offset change by at most
  half a day (`SingleShift`). The theorems of `Safety`, `Invariant` and `Runs` need nothing of the zone;
  some of `Grounding` and `Stale` need an instant that is not on a Monday, or is on another one.
- The theorems of `Runs` require `RecentThroughout`: while a prune runs, no check-in in flight is late
  for it. By `Stale.RecentIffNoRowIsLost` that says no more than that the prune cannot pull a row from
  under one, and by `Stale.RecentIffInWindow` it is so exactly when each that the snapshot lacks was
  observed no earlier than the Monday the configured number of weeks (never negative,
  internal/config/config.go:149-151) before the current one. A message is stamped on arrival
  (internal/mqtt/consumer.go:132), so only a handler still in flight once its week has left that
  window, or a direct call with an old instant, is late.
- Handlers may run at the same time. Messages come in through a subscription callback
  (internal/mqtt/consumer.go:102-107), and whether the library that calls it does so concurrently is
  not part of this model; the schedules of `LateRuns.LinkIsOrphaned` and `LateRuns.LinkHasNoCheckin`
  need two handlers at once.
- There is one prune at a time (the retention loop), and a restore or migration runs with neither
  handlers nor a prune beside it.
- The theorems of `EndToEnd` about a board cover every run whose messages were observed no later than
  the instant the board is computed for, on days whose midnight the zone has (`Observed`).
- SHA-256 is injective where a lemma says `Injective`; the lower-case map agrees with ASCII and
  yields no ASCII capital (`LowerMap`).

## Where the code and its documentation differ

- `CountMeshMondayWeeksInclusive` is documented as the number of week buckets. It divides elapsed
  hours, so it gives one too few exactly when the UTC offset at the later Monday is greater than at
  the earlier one, and a constant once the span exceeds `time.Duration` (`MeshWeeks.CountWeeksExact`).
  The default settings run into the first case every summer (`MeshWeeks.SpringForwardLosesAWeek`), and then
  a board shows more check-ins than season weeks for exactly the users who never missed a Monday
  (`EndToEnd.ExceedsSeasonIff`, `EndToEnd.FullAttendanceExceedsSeason`).
- `WeekStartMonday` misses Monday's midnight exactly when the zone skipped that midnight or the
  current day's (`Calendar.WeekStartIsMondayMidnightIff`, `Calendar.SkippedSundayStartsOnSunday`).
- A retention of 0 weeks is documented to keep only packets linked to check-ins
  (internal/storage/retention.go:22-24). It also keeps all traffic of the current week's Monday
  (`Retention.RetentionWindow` with `weeks` equal to 0, `Retention.ZeroWeeksKeepThisMonday`).
- Once a raw row is stored, later copies of the packet return before the check-in is inserted, so a
  check-in whose insert failed or was cut off by a crash is never made up for by retransmission
  (`Safety.NeverCheckedInLater`), and the restore command rebuilds links, not check-ins.
- Observer names are joined with commas and split again, so the names shown are the observers
  counted exactly when every observer key is non-empty, trimmed and free of commas
  (`Badges.NamesSurviveIffClean`, `Badges.NorthSouthIsTwoNames`).
- The link table is an index of the raw packets, and the restore command is documented to rebuild it. A
  check-in late for a running prune can leave a link that no stored packet yields, which a restore
  keeps (`LateRuns.LinkIsOrphaned`), and a link whose user has no check-in of the week although no
  statement failed (`LateRuns.LinkHasNoCheckin`). `Grounding.LinksStayDerivedIff` and
  `Stale.InFlightIsOrphanedIff` say exactly when the first can happen, `Displaced.LinkIsLeftAloneIff`
  when the second can.
- A prune that ends with an error reports fewer rows than it removed exactly when the delete call
  that failed had completed a chunk: the rows of its completed chunks are missing from the total
  (`Retention.PruneRawPackets`).

## Model

| member | source | states |
|---|---|---|
| `Runs.NothingIsLost` | internal/storage/retention.go:25-79 | From any reachable state, under every further schedule of handlers, prune steps, crashes, restores and migrations in which no check-in in flight is late, no check-in, no link and no observation of a linked packet is removed |
| `Runs.ReachableIsRooted` | internal/ingest/service.go:74-142 | In such runs no row is ever pulled from under its handler, so that all results of `Grounding` apply |
| `Safety.RunConsistent` | internal/storage/sqlite.go:79-134 | In every run whatever, ids are unique and ordered, there is at most one check-in per packet and per week and user, and every link, check-in and observation refers to a stored packet |
| `Safety.IdsNeverReused` | internal/storage/sqlite.go:64 | Over every run from every state the id counter never falls, and a row with an id given out before is the row that had it |
| `Safety.RunSafe` | internal/storage/retention.go:36-75 | Every run keeps, besides the keys: rows up to lastID are retained, and a pending id names a rejected row or none |
| `Grounding.InFlightCheckinLands` | internal/ingest/service.go:113-141 | In a run in which no row was pulled from under its handler, one about to insert its check-in finds no check-in with its hash, so the insert neither violates a reference nor conflicts on the hash: afterwards the user is checked in for the week |
| `Grounding.LinksComeFromRows` | internal/ingest/service.go:109-125 | In a run in which every handler's link was always one that a stored row yields, so is every link, and so is that of every check-in |
| `Grounding.CheckinsComeFromRows` | internal/ingest/service.go:113-141 | In a run in which no row was pulled from under its handler, every check-in comes from a stored row with its date and week |
| `Grounding.LinksStayDerivedIff` | internal/ingest/service.go:119-125 | From a state whose links are derived they stay so, in every continuation without a delete, if and only if each handler's link is one a stored row yields or only an ignored check-in is left to insert |
| `Grounding.NextGrounded` | internal/ingest/service.go:74-142 | With every owner's row stored, every step of every participant keeps links and check-ins derived and packets with one owner and no check-in yet |
| `Grounding.RestoreMakesLinksExact` | internal/ingest/service.go:144-184 | In a quiet state of such a run, a restore without errors makes the link table equal to the links computed from the stored rows |
| `Grounding.RestoreAfterCrash` | internal/ingest/service.go:144-184 | From wherever a crash hits such a run, the restore run next makes the links exact |
| `Runs.FaultFreeRunsAreComplete` | internal/ingest/service.go:74-142 | With no failed link or check-in insert and no crash, once no handler runs the links are exactly the derived ones and each link's user and week has a check-in |
| `Safety.PruneLeavesOnlyRetained` | internal/storage/retention.go:36-47 | In every run, when a prune ends while ingest went on beside it, every stored row, those inserted meanwhile included, satisfies its retain predicate |
| `Safety.DeletesOnlyScanned` | internal/storage/retention.go:45-75 | In every run, a row that a delete step removes was in the table, in the scanned batch and rejected, at the scan step that selected it |
| `Safety.PendingWasScanned` | internal/storage/retention.go:49-63 | In every run there is one scan step that selected all pending ids, and every row now having one of them is the very row it read |
| `Safety.ScanCovered` | internal/storage/retention.go:41-61 | A scan step keeps "all rows up to lastID are retained" and "pending ids name only rejected rows" |
| `Stale.RowIsLostIff` | internal/storage/retention.go:141-150 | From any safe state with a prune running, some continuation without a new prune removes a row if and only if the prune's predicate rejects it |
| `Stale.CheckinIsLostIff` | internal/storage/sqlite.go:79-109 | The same for a stored link and a stored check-in of that row's packet, which go by cascade |
| `Stale.InFlightRowIsLostIff` | internal/storage/retention.go:45-75 | The raw row under a check-in in flight can be removed if and only if the snapshot lacks its hash and its week lies before the cutoff |
| `Stale.InFlightCheckinIsLostIff` | internal/ingest/service.go:119-141 | The link and the check-in a handler inserts while a prune runs can be cascaded away if and only if the snapshot lacks the hash and the week lies before the cutoff |
| `Stale.InFlightIsOrphanedIff` | internal/ingest/service.go:119-141 | A check-in in flight can end up as a link or check-in that no stored row yields if and only if it is late for the running prune |
| `Displaced.HashConflictIff` | internal/storage/sqlite.go:180-205 | From a fault-free state, while a handler waits to check in, its packet can get another check-in, no statement failing, so that its insert conflicts on the hash, if and only if it is late |
| `Displaced.CheckinIsMissedIff` | internal/ingest/service.go:126-141 | From a fault-free state, a handler's last insert can go through, no statement ever failing, and leave its user without a check-in of the week, if and only if it is late |
| `Displaced.LinkIsLeftAloneIff` | internal/ingest/service.go:119-141 | From a fault-free state, a check-in in flight can bring it about, no statement failing, that a link of its packet for another week has no check-in of its user and no handler left to insert one, if and only if it is late |
| `LateRuns.LateHandlerMayMiss` | internal/ingest/service.go:126-141 | A fault-free schedule of five steps to a state from which all three of these can happen |
| `Stale.RecentIffNoRowIsLost` | internal/storage/retention.go:45-75 | While a prune runs, no check-in in flight is late if and only if no continuation without a new prune removes the row under one |
| `Stale.RecentIffInWindow` | internal/storage/retention.go:26 | While the prune of an instant runs, no check-in in flight is late if and only if each that the snapshot lacks was observed no earlier than the Monday that many weeks before it |
| `Stale.LiveIsInWindow` | internal/config/config.go:149-151 | A message observed in the week of the prune, or after its instant, is in that window, whatever the number of weeks, as it is never negative |
| `Retention.NotBeforeCutoffIff` | internal/storage/retention.go:26-149 | A message's week is not before the cutoff if and only if its local day is not before the cutoff's Monday |
| `LateRuns.StaleCheckinIsCascadedAway` | internal/storage/retention.go:118-150 | A schedule in which an old check-in, handled after the snapshot, is inserted and then removed by the cascade |
| `LateRuns.LinkIsOrphaned` | internal/ingest/service.go:119-125 | A schedule without failures after which the only link is one no stored row yields, and a restore keeps it |
| `LateRuns.LinkHasNoCheckin` | internal/storage/sqlite.go:180-205 | Its continuation, in which the check-in insert of another link conflicts on the packet hash, and with no handler left and no failure that link has no check-in |
| `Runs.HandledIsRun` | internal/ingest/service.go:74-142 | A handler's steps taken one after the other have the effect of one undisturbed call, for every choice of failing inserts, and note a fault only for a failing link or check-in insert |
| `PruneRuns.PruneIsRun` | internal/storage/retention.go:25-79 | From any state the protocol's prune steps, with nothing in between, come to an end and leave exactly what `PruneRawPackets` leaves |
| `PruneRuns.ScanFinishes` | internal/storage/retention.go:36-78 | The same from wherever a scan stands and however stale its snapshot: every rejected row is gone at the end, and no other |
| `Invariant.NextKeeps` | internal/ingest/service.go:74-142 | Every step of every participant keeps the invariant, all check-ins, all links and the observations of linked packets |
| `Invariant.RunKeeps` | internal/storage/retention.go:25-79 | The same over every sequence of steps |
| `Invariant.DeleteMissesCheckins` | internal/storage/retention.go:152-195 | A delete step decided on a stale snapshot cascades to no link and no check-in, and removes exactly the rows of its chunk's ids |
| `Invariant.AdvanceRawKeeps` | internal/ingest/service.go:74-96 | Inserting a raw row while a prune runs keeps the invariant: its id lies beyond lastID and every pending id |
| `Invariant.AdvanceLinkKeeps` | internal/ingest/service.go:119-125 | Inserting a link keeps the invariant although the snapshot does not know its hash |
| `Invariant.AdvanceCheckinKeeps` | internal/ingest/service.go:126-141 | The same for a check-in |
| `Invariant.CrashKeeps` | internal/ingest/service.go:50-142 | A crash at any point keeps the invariant |
| `Retention.PruneRawPackets` | internal/storage/retention.go:25-79 | With nothing else running it ends, although lastID stays put after a deleting batch. Without an error, in a zone that has the midnights concerned, a stored row is left if and only if a check-in or a link has its hash or it was seen on a Monday no earlier than that of the given number of weeks ago, an observation if its packet is, and the count is the number of the other rows. An error takes an expired context, a failed statement, or one that found the database busy nine times; with one, only doomed rows are gone, and the count falls short by exactly the rows of the failing delete call's completed chunks |
| `Retention.PruneMeaning` | internal/storage/retention.go:118-150 | Which rows `Pruned` leaves and how many it deletes, in terms of check-ins, links and local Mondays alone |
| `Retention.RetainedIff` | internal/storage/retention.go:141-150 | Whatever the snapshot, a row is retained if and only if the snapshot has its hash or it was seen on a Monday of the window |
| `Retention.PrunedIsRetained` | internal/storage/retention.go:22-24 | What is left is exactly the rows the retain predicate accepts, in order, with their observations; links and check-ins are untouched |
| `Retention.PruneIdempotent` | internal/storage/retention.go:25-79 | A second prune with the same cutoff deletes nothing |
| `Retention.RetentionWindow` | internal/storage/retention.go:141-150 | The date rule keeps a packet if and only if it was observed on a Monday not before that of the given number of weeks ago |
| `Retention.ZeroWeeksKeepThisMonday` | internal/storage/retention.go:22-26 | With a retention of 0 weeks an unlinked packet of the current Monday is kept |
| `Retention.ScanCovers` | internal/storage/retention.go:87-116 | A batch is empty only when no row lies beyond afterID, and otherwise holds every row from there to its last id |
| `Retention.ScanIsFull` | internal/storage/retention.go:14-43 | A batch has at most 400 rows, and fewer only when there are no more |
| `Retention.ChunksOfFifty` | internal/storage/retention.go:15-159 | The first k chunks are the first 50k ids, or all of them |
| `Retention.ToDeleteIds` | internal/storage/retention.go:49-56 | The selected ids are exactly those of rejected rows |
| `Retention.SelectToDelete` | internal/storage/retention.go:49-56 | The selection loop computes `ToDelete` |
| `Retention.DeleteRawPacketIDs` | internal/storage/retention.go:152-195 | A number of whole chunks of the ids (all of them without an error) is deleted as by one statement, and the total is the number of rows gone |
| `Retention.RemovedCount` | internal/storage/retention.go:183-187 | Deleting stored ids removes one row for each |
| `Retention.DeleteChunk` | internal/storage/retention.go:167-187 | However often a busy chunk is retried, it takes effect once or not at all, and it is given up only when the context has expired, the failure is another one, or nine tries found the database busy |
| `Retention.AdvanceProgress` | internal/storage/retention.go:45-61 | A batch with nothing to delete either ends the prune with the whole result or leaves strictly fewer rows beyond lastID |
| `Retention.DeleteProgress` | internal/storage/retention.go:63-75 | A deleting batch removes only doomed rows and leaves strictly fewer rows beyond the unchanged lastID |
| `Store.ApplyConsistent` | internal/storage/sqlite.go:63-134 | No insert breaks id order, uniqueness of hashes and of (week, username), or a reference |
| `Store.ApplyAdds` | internal/storage/sqlite.go:150-242 | Inserts only add: the first successful one for a key stays |
| `Store.DeleteConsistent` | internal/storage/sqlite.go:79-109 | Deleting raw rows with the cascade keeps keys and references |
| `Store.DeleteMeaning` | internal/storage/sqlite.go:79-109 | Deleting ids leaves exactly the rows of other ids and what refers to no deleted row, and hands no id out again |
| `Store.DeleteTwice` | internal/storage/retention.go:152-195 | Two deletes with cascade are one delete of both id sets |
| `Store.UnlinkedDeleteKeepsCheckins` | internal/storage/sqlite.go:79-109 | Deleting rows whose hashes no link or check-in mentions leaves both tables as they were |
| `Store.SQLiteStore.InsertRawPacket` | internal/storage/sqlite.go:150-178 | Stores a new packet under the next id, ignores a known hash, or fails without effect |
| `Store.SQLiteStore.InsertPacketObservation` | internal/storage/sqlite.go:207-220 | Adds an observer of a stored packet once, or fails without effect |
| `Store.SQLiteStore.InsertCheckinPacket` | internal/storage/sqlite.go:222-242 | Adds a link to a stored packet once, or fails without effect |
| `Store.SQLiteStore.InsertCheckin` | internal/storage/sqlite.go:180-205 | Adds a check-in unless its packet or its (week, username) has one already, or fails without effect |
| `Store.SQLiteStore.DeleteRawPackets` | internal/storage/retention.go:162-187 | Deletes the rows of these ids with everything that references them and returns how many raw rows went |
| `Migration.Migrate` | internal/storage/sqlite.go:122-145 | Without an error the tables are `Migrated`, and from a database of the older schema the index holds and every check-in is linked; an error means that a statement failed, and then nothing or only the removal of duplicates has happened |
| `Migration.MigrateResumes` | internal/storage/sqlite.go:122-145 | Migrating again after only the removal of duplicates went through gives the same tables as one undisturbed migration |
| `Migration.MigrateEstablishesIndex` | internal/storage/sqlite.go:122-145 | From any database of the older schema, each (week, username) keeps exactly its check-in of least id, every survivor gets a link, no other link appears or goes, keys and references hold, raw packets and observations stay |
| `Migration.MigrateIdempotent` | internal/storage/sqlite.go:122-145 | Migrating again changes nothing |
| `Migration.MigrateKeepsUnique` | internal/storage/sqlite.go:122-134 | Where the index already holds, no check-in is deleted |
| `Ingest.Service.HandleMessage` | internal/ingest/service.go:67-142 | An undecodable packet changes nothing. Any other, for some choice of failing inserts, and none unless the context expired, a statement failed for good or one found the database busy sixteen times: if its hash is new it is stored with the payload, the region and the second given; the observer is noted under its hash; and if it is new, holds a check-in and the local day is a Monday, its user is linked for that week and checked in with the region, names, message, day, week and clock, unless the packet or the user's week has a check-in; nothing else changes |
| `Ingest.HandledMeaning` | internal/ingest/service.go:67-142 | The same of `Handled`, on which the results about whole runs rest |
| `Ingest.Service.HandlePacket` | internal/ingest/service.go:74-142 | The four inserts have exactly the effect of `Handled`, without a fault unless it is so excused |
| `Ingest.Service.Observe` | internal/ingest/service.go:74-103 | Stores the packet and notes its observer, and tells whether the packet is new |
| `Ingest.Service.CheckIn` | internal/ingest/service.go:117-141 | Links the user, and checks them in even if that failed |
| `Ingest.DerivedMeaning` | internal/ingest/service.go:148-171 | A link is derived if and only if some stored payload decodes and holds that user's check-in, observed on a local Monday of that week |
| `Ingest.Service.WithBusyRetry` | internal/ingest/service.go:211-229 | However often a statement is tried, it takes effect once or not at all, and it is given up only when the context has expired, the failure is another one, or sixteen tries found the database busy |
| `Ingest.Service.RestoreCheckinPacketsFromRaw` | internal/ingest/service.go:144-184 | Only links are added, only ones that stored rows yield, and all of those when nothing fails, which an error or a counted failure implies a statement did; scanned, decoded, undecodable, check-ins and Monday check-ins are the numbers of rows of that kind, and the inserted links are counted |
| `Ingest.RestoredMeaning` | internal/ingest/service.go:144-184 | After a restore without errors a link is there if and only if it was or some stored row yields it |
| `Ingest.CountedCoherent` | internal/ingest/service.go:24-32 | Counts by kind of row fit together: links tried, Monday check-ins, check-ins, decodable and scanned rows each include the one before |
| `Ingest.Service.RestoreRow` | internal/ingest/service.go:148-179 | One row yields its derived link or none, and its outcome tells whether it decodes, holds a check-in, and holds one made on a Monday |
| `Ingest.HandledChecksIn` | internal/ingest/service.go:103-141 | Without faults a message is observed; it is linked, and its user checked in unless the week already has a check-in, exactly when its packet is new and holds a Monday check-in; otherwise links and check-ins are unchanged |
| `Ingest.DuplicateOnlyObserves` | internal/ingest/service.go:97-107 | A message whose packet is stored adds at most its observer |
| `Ingest.ReplayChangesNothing` | internal/ingest/service.go:97-107 | Handling the same message again changes nothing |
| `Ingest.RetransmissionsNeverCheckIn` | internal/ingest/service.go:104-107 | No number of retransmissions adds a link or a check-in once the raw row is stored, whatever failed the first time |
| `Safety.NeverCheckedInLater` | internal/ingest/service.go:104-107 | In every schedule, once a packet is stored and no handler owns it, no check-in of it is added as long as it stays stored |
| `Ingest.CheckinLands` | internal/storage/sqlite.go:180-205 | With the row stored and no check-in of that packet, the insert does not fail and leaves the user checked in for the week |
| `Ingest.RowLinkIsMsgLink` | internal/ingest/service.go:109-121 | The link derived from the stored whole-second instant is the one the handler derived from the full instant |
| `Ingest.RestoreIdempotent` | internal/ingest/service.go:144-184 | Restoring twice is restoring once |
| `Ingest.RestoreMendsIff` | internal/ingest/service.go:144-184 | A restore makes the link table equal to its source if and only if the table held only derived links |
| `Ingest.Service.ForEachRow` | internal/storage/sqlite.go:424-452 | However many rows it gets through before an error, only their links were added, all of them unless an insert failed, and the counters are the numbers of rows that decode, hold a check-in, and hold one made on a Monday |
| `Ingest.RestoreStep` | internal/ingest/service.go:148-179 | Each row keeps the account of what was restored and counted so far |
| `Ingest.HandledKeepsRowsHashed` | internal/ingest/service.go:67-96 | Every stored row stays decodable and under its own hash |
| `Ingest.DuplicateIsSamePacket` | internal/ingest/service.go:67-107 | A message dropped as a duplicate carries the packet, and the check-in, of the stored row |
| `Runs.DropsOnlyTheSamePacket` | internal/ingest/service.go:67-107 | The same after every schedule of handlers, prunes, crashes, restores and migrations |
| `Badges.QueryCountsObservers` | internal/storage/sqlite.go:244-288 | In whatever order the tables are read and however the joins fan out, a check-in's count ranges over exactly the observers of the packets linked to its week and user |
| `Badges.QueryGroupsAreCheckins` | internal/storage/sqlite.go:258-264 | The groups are exactly the check-ins, those without a link or an observation included |
| `Badges.LeftJoinMembers` | internal/storage/sqlite.go:258-263 | A left join holds the matching pairs, and a row with NULL exactly when it matches nothing |
| `Badges.BadgeNeverShrinks` | internal/storage/sqlite.go:244-288 | Along every run from a reachable state a check-in stays and its observers and their number only grow |
| `Badges.ParseObserverNames` | internal/storage/sqlite.go:454-470 | The loop computes `ParseNames`: split, trimmed, without empty parts; and the result is in text order |
| `Badges.NamesSurviveIffClean` | internal/storage/sqlite.go:454-470 | The parsed names are the joined observers if and only if each is non-empty, trimmed and free of commas |
| `Badges.CommaMakesTwoNames` | internal/storage/sqlite.go:454-470 | One observer whose key is two clean names with a comma between them is shown as the two |
| `Badges.NorthSouthIsTwoNames` | internal/storage/sqlite.go:454-470 | So it is for the one key `north,south` |
| `Streak.LongestMondayStreak` | internal/leaderboard/service.go:63-94 | For week starts in any order with duplicates the result is the greatest k for which k consecutive weeks occur, and the earliest start attaining it; no weeks give 0 and the zero time; and the array ends up as the deduplicated weeks followed by the sorted tail |
| `Streak.DedupInPlace` | internal/leaderboard/service.go:70-75 | Although it writes to the array it reads, the prefix equals a fresh-copy dedup and the rest is untouched |
| `Streak.ScanWeeks` | internal/leaderboard/service.go:77-93 | The scan loop computes `Scan` of the prefix |
| `Streak.StreakIsLongestRun` | internal/leaderboard/service.go:63-94 | For week starts in any order with duplicates, the result is the greatest k for which k consecutive weeks occur, and the earliest start attaining it |
| `Streak.ScanLongest` | internal/leaderboard/service.go:77-93 | On distinct ascending weeks the best tally is the longest run with the earliest start, and the current one the run still open |
| `Streak.DedupKeepsWeeks` | internal/leaderboard/service.go:70-75 | On sorted week starts, dedup leaves the same weeks, each once |
| `Streak.SortWeeks` | internal/leaderboard/service.go:67-69 | The array becomes its ascending arrangement |
| `Streak.SortedAscending` | internal/leaderboard/service.go:67-69 | That arrangement is ascending |
| `Sorting.SortOrdered` | internal/leaderboard/service.go:51-69 | Sorting by a strict weak order leaves no element after one that it comes before |
| `Streak.UnalignedWeekHidesRun` | internal/leaderboard/service.go:82-87 | A date between two consecutive weeks hides their run: the inputs must be week starts |
| `Leaderboard.Compute` | internal/leaderboard/service.go:11-61 | Returns a board: one entry per user with a row, in rank order with no ties left open. In terms of the rows alone: the check-ins are the number of the user's rows, the name is that of the first row that has one, else the username, and when the user's weeks are whole weeks apart the streak is the largest number of weeks on end with a row, and its start the day on which the earliest such run begins |
| `Leaderboard.EntryDescribes` | internal/leaderboard/service.go:39-48 | `EntryOf` has these numbers, this name and this streak |
| `Leaderboard.BoardDescribes` | internal/leaderboard/service.go:37-49 | So has every entry of a board; every user with a row is on it, once, and nobody else |
| `Leaderboard.SeasonMeaning` | internal/leaderboard/service.go:12-21 | The season is the counted weeks, or one week if fewer, and begins on the tracked local day |
| `Leaderboard.BoardUnique` | internal/leaderboard/service.go:38-60 | There is only one board, so the order of walking the map cannot show |
| `Leaderboard.RankedUnique` | internal/leaderboard/service.go:51-59 | A ranked sequence is determined by its members |
| `Leaderboard.LessIsStrictTotalOrder` | internal/leaderboard/service.go:51-59 | The comparator is irreflexive, transitive, and total on distinct usernames |
| `Leaderboard.RankRanked` | internal/leaderboard/service.go:51-59 | Entries of distinct users end up strictly ranked |
| `Leaderboard.TotalsAddUp` | internal/leaderboard/service.go:23-49 | The check-in totals on a board add up to the number of input rows |
| `Leaderboard.BoardIgnoresRowOrder` | internal/leaderboard/service.go:11-61 | Permuting the rows changes no rank, total, streak or streak start |
| `Leaderboard.NameIsFirstNonEmpty` | internal/leaderboard/service.go:27-32 | A user's display name is that of the first row that has one |
| `Leaderboard.GroupByUser` | internal/leaderboard/service.go:23-35 | The grouping loop leaves one fresh state per username that agrees with all rows |
| `Leaderboard.CollectEntries` | internal/leaderboard/service.go:37-49 | Walking the map in any order yields one entry per user |
| `Leaderboard.ComputeEntry` | internal/leaderboard/service.go:39-48 | A user's entry is `EntryOf` the rows, and so what `EntryDescribes` says |
| `EndToEnd.BoardWithinMondays` | internal/leaderboard/service.go:24-50 | After every run, for every choice of regions and every entry: 1 <= longest streak <= check-ins <= Mondays from the tracked week to now |
| `EndToEnd.CheckinOnMonday` | internal/ingest/service.go:113-118 | After every run every stored check-in's date is its week's Monday and not after today |
| `EndToEnd.OwnRegionIsListed` | internal/storage/sqlite.go:335-352 | After a fault-free run a check-in whose packet was stored for a listed region passes the region filter |
| `EndToEnd.ListedIff` | internal/storage/sqlite.go:329-355 | After a fault-free run a check-in is listed if and only if it is stored, dated from the given day on, and, if regions are given, a packet of its user and week was stored for one of them |
| `EndToEnd.UserTotal` | internal/storage/sqlite.go:329-352 | A user's listed weeks, the regions filtered for whatever they are, are whole weeks apart and no more than the Mondays there are |
| `EndToEnd.MondaysBound` | internal/leaderboard/service.go:24-35 | A set of Mondays in a span is no larger than the number of Mondays in it |
| `EndToEnd.SeasonCountsMondays` | internal/leaderboard/service.go:17-21 | The season length is the number of Mondays of the span when the offset did not grow, one less when it did, and a constant past the range of a duration |
| `EndToEnd.ExceedsSeasonIff` | internal/leaderboard/service.go:17-50 | An entry's total exceeds the season length beside it if and only if the offset grew and the user never missed a Monday (past the range of a duration, if and only if it exceeds the constant) |
| `EndToEnd.FullAttendanceExceedsSeason` | internal/leaderboard/service.go:17-50 | With the default settings a user with ten check-ins is shown with nine season weeks |
| `MeshWeeks.CountWeeksExact` | internal/checkins/mesh_weeks.go:5-22 | For all instants: 0 out of order, the documented number when the later Monday's offset is not greater, one less when it is, a constant past the range of a duration |
| `MeshWeeks.ElapsedDays` | internal/checkins/mesh_weeks.go:20 | Elapsed hours divided by 24 give the days between two midnights when the offset did not grow, one less when it did |
| `MeshWeeks.SpringForwardLosesAWeek` | internal/checkins/mesh_weeks.go:18-21 | In Pacific time from 5 January to 9 March 2026 nine of ten buckets are counted |
| `Calendar.WeekStartMeaning` | internal/checkins/service.go:86-95 | The week start is local midnight of a Monday, and the instant's day is one of the seven from there |
| `Calendar.DayMeaning` | internal/checkins/service.go:78-95 | A local day is the shifted instant in whole days since 1970-01-01, Mondays are those that leave 4 modulo 7, and a week goes back to the last one |
| `Calendar.WeekStartIdempotent` | internal/checkins/service.go:86-95 | A week start is its own week start |
| `Calendar.WeekStartMonotone` | internal/checkins/service.go:86-95 | A later instant has no earlier week start |
| `Calendar.SameWeekStart` | internal/checkins/service.go:86-95 | Two instants share a week start if and only if their local days lie in one block of seven beginning on a Monday |
| `Calendar.WeekStartIsMondayMidnightIff` | internal/checkins/service.go:86-95 | Around one offset change the week start is Monday's midnight if and only if neither today's nor Monday's midnight was skipped |
| `Calendar.DateFindsWall` | internal/checkins/service.go:93-94 | The date construction finds a wall-clock reading if and only if it was not skipped |
| `Calendar.SkippedSundayStartsOnSunday` | internal/checkins/service.go:86-95 | In a zone that skipped Sunday's midnight, that Sunday's week starts on a Sunday and the week start is not idempotent |
| `Calendar.FractionKeepsBucket` | internal/storage/sqlite.go:150-178 | Storing an instant at whole seconds changes neither its local day nor its week |
| `IsoDates.TextOrderIsDayOrder` | internal/storage/sqlite.go:329-335 | Comparing date texts is comparing days, and equal texts are equal days |
| `IsoDates.TextOrderIsDateOrder` | internal/storage/sqlite.go:329-335 | On years of four digits, text order is calendar order |
| `IsoDates.IsoWrites` | internal/storage/sqlite.go:329-335 | A date is written as four digits of year, two of month and two of day, with dashes between |
| `IsoDates.DayNumber` | internal/storage/sqlite.go:329-335 | Stepping from day to day gives the dates that the leap year rule counts |
| `MeshCore.DecodePacket` | internal/meshcore/decode.go:68-80 | Decodes a payload text as `DecodeText` says, each error included; which text that is, and which fields or error it gives, is said by the eight rows that follow |
| `MeshCore.DecodedFields` | internal/meshcore/decode.go:81-144 | Where each field of accepted bytes is: type, route, both transport codes with the low byte first, hop count and size, path and payload |
| `MeshCore.RejectedFor` | internal/meshcore/decode.go:77-115 | Which of the errors bytes that are not accepted give |
| `MeshCore.TextDecodes` | internal/meshcore/decode.go:68-76 | Space around the text and a lower-case 0x do not count; the rest are hex digits of either case, two a byte |
| `MeshCore.BlankFails` | internal/meshcore/decode.go:69-72 | Nothing but space, or 0x alone, is an empty payload |
| `MeshCore.OtherTextFails` | internal/meshcore/decode.go:69-76 | Any text that is not hex after an optional 0x fails as such |
| `MeshCore.CapitalPrefixFails` | internal/meshcore/decode.go:69-76 | So does any text beginning with 0X: only the lower-case prefix goes |
| `Hex.DecodesTo` | internal/meshcore/decode.go:73 | Exactly the texts of two digits a byte, of either case, decode to given bytes |
| `Hex.EncodedDigit` | internal/meshcore/decode.go:124 | Bytes are written in lower case, the more significant digit first |
| `MeshCore.ReadPacket` | internal/meshcore/decode.go:77-102 | The moving-offset code decodes as `DecodeBytes` says |
| `MeshCore.ReadRest` | internal/meshcore/decode.go:103-144 | The same from the path-length byte on |
| `MeshCore.GroupPath` | internal/meshcore/decode.go:120-125 | The hop loop cuts the path into `Hops` |
| `MeshCore.EncodeDecode` | internal/meshcore/decode.go:68-144 | Encoding a decoded packet gives back the very bytes, for every accepted byte string |
| `MeshCore.DecodeEncodePacket` | internal/meshcore/decode.go:68-144 | Decoding an encoded packet gives back the packet, for every well-formed one |
| `MeshCore.DecodeEncodeText` | internal/meshcore/decode.go:68-144 | The same through the hex text |
| `MeshCore.DecodesIffAccepted` | internal/meshcore/decode.go:77-115 | Bytes decode if and only if the top two bits of the first are 0, the hop-size code in the path-length byte, at offset 5 for route types 0 and 3 and 1 for the others, is not 3, and the length suffices |
| `MeshCore.HopsArePath` | internal/meshcore/decode.go:117-125 | The hops of whatever decodes concatenate to its path, as many as announced, each of the announced size |
| `MeshCore.WellFormedIsPacketOf` | internal/meshcore/decode.go:127-143 | The header, the hop sizes and the texts of a well-formed packet leave it only one path |
| `MeshCore.HopsUnique` | internal/meshcore/decode.go:117-125 | Hops of one size that concatenate to a path are its hops |
| `MeshCore.HopsConcatenate` | internal/meshcore/decode.go:120-125 | Cutting bytes into hops loses and shares none |
| `MeshCore.PathLenByteRoundTrip` | internal/meshcore/decode.go:58-66 | The packed byte decodes if and only if its size code is not 3, and then packs back to itself |
| `MeshCore.SameHashSamePacket` | internal/meshcore/decode.go:146-149 | Two decodable payloads with equal hashes decode to equal packets, an upper-case prefix or digit notwithstanding |
| `MeshCore.SameTextSameHash` | internal/meshcore/decode.go:146-149 | Payloads equal up to the case of ASCII letters and space around them have equal hashes, so such copies are dropped |
| `MeshCore.SameHashSameText` | internal/meshcore/decode.go:146-149 | With an injective digest, hashes are equal if and only if the trimmed texts in lower case are |
| `Text.TrimPadding` | internal/meshcore/decode.go:69 | Trimming takes the space around a text and nothing else |
| `Extraction.CandidateIsAcceptable` | internal/checkins/service.go:28-48 | Whatever path accepts a candidate, its name is non-empty and trimmed, its message carries the tag, and its username is the normal form of its name and a fixed point |
| `Reading.EncryptedCheckinIsRead` | internal/checkins/service.go:28-48 | Under the first listed key that says anything, five bytes, `sender: message` in UTF-8 and then a zero byte or the end are read as that sender's check-in, the sender and message being as in `SenderRoundTrip` |
| `Reading.GroupTextIsRead` | internal/checkins/service.go:149-190 | The text of the first key that says anything, whatever it is, is read as sender and message, and nothing else is |
| `Reading.TryKeyIff` | internal/checkins/service.go:164-182 | A key says a text if and only if it has sixteen bytes, its hash byte and MAC match, and the content after five bytes up to a zero byte is UTF-8 and not blank |
| `Reading.MisfitIsSilent` | internal/checkins/service.go:164-175 | Keys none of which fits say nothing |
| `Reading.OtherwiseInTheOpen` | internal/checkins/service.go:29-47 | A packet of another type, one that is no hash byte, MAC and whole blocks, and one on which all keys are silent are read as JSON or plain text |
| `Reading.JsonIsRead` | internal/checkins/service.go:56-69 | A JSON object with a name and a tagged message gives the check-in of the first keys, of three each, that hold a text |
| `Reading.PlainTextIsRead` | internal/checkins/service.go:71-76 | Any other payload is read as its text, trimmed and cut to 280 characters |
| `Reading.UnreadableIsNothing` | internal/checkins/service.go:51-54 | A payload that is not hex holds no check-in |
| `Reading.HasTagIff` | internal/checkins/service.go:130-132 | The tag is eleven characters anywhere, whatever their case |
| `Reading.SenderIs` | internal/checkins/service.go:234-246 | A text is split at its first colon and blank if what comes before is shorter than 80 bytes and, trimmed, something without brackets and colons |
| `Reading.NoSender` | internal/checkins/service.go:234-246 | A text without a colon and a blank is all message |
| `Reading.NamelessIsAnonymous` | internal/checkins/service.go:97-102 | A name without a word character is anonymous |
| `Reading.NameIsJoined` | internal/checkins/service.go:97-104 | The words of a name are joined with underscores, whatever stood between them |
| `Extraction.PayloadCandidateIsAcceptable` | internal/checkins/service.go:50-76 | The same for the JSON and the plain-text path |
| `Extraction.ParsedIsAcceptable` | internal/checkins/service.go:134-147 | The same for a "sender: message" text |
| `Extraction.NormalizedIsUsername` | internal/checkins/service.go:97-104 | A normalised name is non-empty over [a-z0-9_] |
| `Extraction.UsernameIsFixed` | internal/checkins/service.go:97-104 | Normalising changes nothing if and only if the name already is such a name |
| `Extraction.SenderRoundTrip` | internal/checkins/service.go:234-246 | A short trimmed sender without brackets or colons and a trimmed message are read back as written |
| `Extraction.TryKeys` | internal/checkins/service.go:164-187 | The key loop returns what the first key with a text gives |
| `Extraction.FirstKeyWins` | internal/checkins/service.go:164-187 | The result is that of the first key that has any, and none exactly when no key has |
| `Extraction.NullTerminated` | internal/checkins/service.go:219-227 | The scan loop finds the bytes before the first zero |
| `Extraction.StringValue` | internal/checkins/service.go:118-128 | The first key holding a string with something in it decides |

## Left out

- parseTopic, decodeIncomingEnvelope: splitting a topic and reading the envelope are branch-only and
  independent of the tables; a model message starts as packet text, region, observer and instant.
- Restores and migrations beside running handlers or a prune: in `Protocol` each is one step of a quiet
  system. The rows a restore reads are the stored rows in any order. A migration that stops halfway
  matters only before the index exists, and is covered in `Migration`.
- ForEachRawPacketForRestore and the prune's scan: a stored instant always parses, so their parse
  errors are only the errors any step may have.
- ListCheckinsByWeek: its region filter, and the ORDER BY and final assembly of result rows in both
  queries; `EndToEnd.Listing` has the region filter of ListCheckinsSince and allows any order.
- Columns that no modelled query reads: topic, device key, packet and route type, received_at, and
  the ids and times of observations and links.
- Dates are day numbers in the tables; `IsoDates` covers how their texts compare, for years of four
  digits.
- AES, HMAC, SHA-256, JSON, UTF-8 decoding and case mapping are functions nothing is known about
  beyond what a lemma assumes; the block loop of decryptAES128ECB is inside one of them.
- Texts are sequences of characters, so bytes that are not UTF-8 are not told apart beyond what the
  library functions return; the 80-byte limit on a sender is measured in UTF-8 length.
- sort.Slice and sort.Strings are one insertion sort: only the order of the result is used.
- CountWeeksInclusive: the floating-point division by 24 is taken as truncation on whole seconds, on
  which it is exact in range.
- Delays, jitter and the logger are not part of this model. A context may expire at any time: a prune
  asks it where the source does, and a retried statement may be given up after any failed try.
- Packet type and route type display names.
- Leaderboard snapshots, space reporting, configuration, MQTT, HTTP and the web interface.
