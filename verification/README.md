# SimpleCache engine: a verified model

SimpleCache puts a read-through cache in front of a versioned PostgreSQL table. A cache process
keeps entries, a bounded table of version floors and 256 epoch stripes. A load captures a fence
(epoch and minimum version), reads the source without a lock, and is checked against the shared
state before it may fill the cache. Every write to the table advances the row's generation and
appends one event to an outbox in the same statement. A relay in each process claims events under
a lease, notifies its own cache, captures one membership snapshot, notifies every member of it,
and finishes the event only when that snapshot was not empty and all of it acknowledged.

The central question is whether forgetting floors is safe: the table is bounded, so a floor that
held back an old load can be retired while the load is still running. The answer proved here is
yes, for every interleaving, restarts included, and the exact condition under which a notification
is a lasting promise is stated as an equivalence (`Theorems.NotificationLastsExactly`). A forced
invalidation, which follows every write with an unknown outcome, is shown to promise the most there
is: from then on nothing older than what readers could get at that moment is held or returned.

## How it is built

- `Store`, `Outbox`, `Relay`, `Postgres`, `Maintenance`: the tables, one function per SQL statement
  (`Store.Execute`, `Outbox.Step`), their histories over whole runs, the store object whose methods
  execute those statements, and the purge loop.
- `Floors`, `FloorTable`, `Fencing`, `Recency`, `Lists`, `Lru`, `Group`: the cache group. `Floors`,
  `Fencing` and `Recency` say what the state means; the classes `FloorTable.VersionFloors`,
  `Lru.Cache`, `Group.LocalCache` and `Group.CacheGroup` update map, list, byte count, cursor and
  array in place and are proved to compute those functions.
- `Node`, `NodeProofs`, `Cluster`, `ClusterProofs`, `Theorems`: one process, and then the whole
  system, as transition systems (`Node.Next`, `Cluster.SysNext`), an invariant every step keeps, and
  the guarantees for every state of every run.
- `Reads` and `Delivering`: what a Get answers and that an event can be delivered, as runs built with `Runs`.
- `Provenance`: which steps of a run stand behind a finished delivery. `Forgetting`: runs that break a
  promise beyond the horizon, through a restart and by retiring the floor.
- `Refinement`: the critical sections of the cache object are steps of the process model.
- `Notifier`: one notification over the wire, and the verdict with which a relay finishes.
- `Limiter`, `Fanout`, `Mutation`, `Protocol`, `KeyCodec`, `Membership`, `Bloom`, with `Decimal`,
  `Keys` and `Types`: the smaller exact pieces.

Reading the model:

- A critical section under `epochMu` or the cache mutex is one atomic step. A source read is the
  instant of its snapshot. Each SQL statement is one atomic step with one clock reading. A lookup
  takes only the cache mutex, so a hit during a notification is a hit before it.
- The clock, the hash that picks an epoch stripe, the two Bloom hashes, address syntax, the set of
  rows locked by other transactions, what eviction keeps (`kept` in `Node.Fill`), lost requests and
  lost responses, and when a time budget runs out are parameters or free choices of a step. Times are
  natural numbers of milliseconds.
- History variables are written and never read by a step: `log` and `journal` in the tables, `ledger`
  in the system, `notified`, `since`, `asked`, `born`, `observed` and `loads` in a process.
- `Horizon(db, k)` is the least version a reader of `k` can be given from now on: the generation of a
  live row, one more than the generation of a tombstone or of an unknown key.
- Restart of a process empties its cache, floors, epochs and flights at any point. `notified` is a
  history variable and outlives it.
- `InvalidateVersion` is documented as accepting committed generations, and nothing checks that. For a
  version beyond the horizon the promise is false: module `Forgetting` gives the runs.
- A relay that stops waiting for its Finish statement goes on to other events while the statement may
  still commit; such statements are kept in `late`. A claim whose answer got lost is a claim that no
  relay knows of.

## Model

| member | source | states |
|---|---|---|
| `Theorems.NeverStaleAgain` | geecache-engine/internal/cache/versions.go:53-121 | Once a process has handled a notification, no later state of any run holds an entry of that key there older than its version, if that is within the horizon, nor, if it was applied or forced, older than the horizon at that moment; whatever loads, retries, evictions, other notifications, retired floors or restarts happen in between. |
| `Theorems.NotificationLastsExactly` | geecache-engine/internal/cache/versions.go:86-115 | The promise of its own version lasts in every continuation if and only if that version is not beyond the horizon of the key; an applied or forced notification promises a bound in every continuation if and only if the bound is not beyond the horizon. |
| `Forgetting.BeyondHorizonFails` | geecache-engine/internal/cache/versions.go:86-115 | From every consistent state, for every notification and every bound beyond the horizon, a run that notifies and later holds an entry below the bound. |
| `Forgetting.BeyondHorizonFailsByRetirement` | geecache-engine/internal/cache/versions.go:70-79 | The same for the notified version without any restart, given as many other valid keys as the table has records: notifying them retires the floor, and a load brings back the older row. |
| `Theorems.GetAfterNotification` | geecache-engine/internal/cache/read.go:55-91 | A Get that starts after a notification fails or returns at least what it promised (its version within the horizon, the horizon itself when applied or forced), whether it hits, starts a flight or joins one. |
| `Theorems.GetHonoursItsFence` | geecache-engine/internal/cache/read.go:28-36 | A value handed to a caller reaches the minimum that caller captured, even if the floor was retired since. |
| `Reads.GetAlone` | geecache-engine/internal/cache/read.go:55-91 | A Get that misses and runs undisturbed is answered with the bytes and version of the live row, which it leaves in the cache; with not found for a tombstone or an unknown key; and with stale, after exactly one retry, only if the row is older than the floor retained for the key. |
| `Reads.GetInRun` | geecache-engine/internal/cache/read.go:55-91 | Every run of the system in which a process has neither entry nor flight for a valid key goes on to exactly that answer. |
| `Reads.GetHits` | geecache-engine/internal/cache/read.go:11-26 | A resident key is answered at once with its entry, without a load. |
| `Reads.DeliverAnswers` | geecache-engine/internal/cache/read.go:38-51 | Exactly the waiters of a finished flight are answered, with exactly what it finished with; every other call is unchanged. |
| `Reads.FlightHits` | geecache-engine/internal/cache/read.go:70-75 | A flight whose key has become resident in a version reaching its minimum ends with that entry and loads nothing; otherwise it goes on to load under its fence. |
| `Reads.FillStep` | geecache-engine/internal/cache/load.go:68-88 | With nothing new known since the fence, a load that reaches the minimum is cached and returned; otherwise the first attempt is rejected and the second given up as stale. |
| `Reads.RetryFence` | geecache-engine/internal/cache/read.go:77-84 | After a rejection the flight goes on with the current epoch and the greater of the rejected minimum and what is known now. |
| `Theorems.FlightMinimumRises` | geecache-engine/internal/cache/read.go:76-88 | In every run, the minimum of a running flight never falls from any state to any later one. |
| `Theorems.FlightMinimumNeverFalls` | geecache-engine/internal/cache/versions.go:16-19 | The same for one step of the process, for every step there is; the captured fence does not change. |
| `Theorems.FlightDiscipline` | geecache-engine/internal/cache/load.go:14-88 | In every state of every run a flight has made at most two loads, and a value it returns is a committed row that reaches its fence and every floor any of its attempts observed. |
| `Theorems.EventsAreNotLost` | geecache-engine/internal/app/bootstrap.go:156-172 | In every state of every run each event ever appended is either pending and not on record, or there are steps of the run that finished it under an unexpired lease, before that notified the sender, then captured its whole non-empty view, and then had every other member handle and acknowledge that very event; and then neither the sender nor any member of the snapshot holds an older version in that or any later state; purging changes nothing. |
| `Delivering.EventCanBeDelivered` | geecache-engine/internal/outbox/worker.go:62-96 | From every consistent state with an idle relay that knows a non-empty view of running processes, a run of the relay delivers the event a claim would take: the row is marked delivered at that time and the whole view is on record. |
| `Provenance.RunTraced` | geecache-engine/internal/cluster/invalidation.go:36-87 | In every state of every run from the start, every announcement, handling, acknowledgement and completion that relays, outstanding completions and the ledger rely on is a step that has happened, in order and for that event. |
| `Provenance.ConcludeTraced` | geecache-engine/internal/app/bootstrap.go:163-170 | A relay concludes with success only over a captured non-empty snapshot all of whose other members handled and acknowledged the event. |
| `Theorems.EntriesAreCommitted` | geecache-engine/internal/cache/load.go:43-78 | Every cached entry is, byte for byte, the row the store committed under that key and version, and is at or above its retained floor. |
| `Theorems.ConditionalWriteReplacesWhatWasRead` | geecache-engine/internal/source/postgres/postgres.go:91-140 | A conditional write that succeeds with the version of a value read from any cache at any earlier time overwrites exactly the bytes that were read. |
| `Theorems.OneWinnerPerVersion` | geecache-engine/internal/source/postgres/postgres.go:93-140 | In every run of the system at most one conditional write or delete with a given positive expected version succeeds per key. |
| `Theorems.StoreProjects` | geecache-engine/internal/source/postgres/outbox.go:28-84 | The store inside any system run is a run of the store alone, so the queue's results hold in the system. |
| `NodeProofs.NodeStepKeeps` | geecache-engine/internal/cache/read.go:55-91 | Every step of a process keeps the fencing invariant: each running load's epoch is over or a floor still covers what was notified, and each waiter is owed no more than its flight guarantees. |
| `NodeProofs.FillIsCurrent` | geecache-engine/internal/cache/load.go:68-79 | A load that passes the fill check carries a version at least as new as everything notified for the key. |
| `NodeProofs.NotifyHarmless` | geecache-engine/internal/cache/versions.go:70-79 | A notification keeps every running piece of work harmless, also when it retires the very floor that work depended on. |
| `NodeProofs.ReadKeeps` | geecache-engine/internal/source/postgres/postgres.go:61-77 | A source read after the fence returns a committed row no older than anything notified before the read. |
| `NodeProofs.DeliverCaller` | geecache-engine/internal/cache/read.go:38-51 | If a waiter is handed a value, it is committed and reaches both what was notified when its Get began and the minimum it captured. |
| `NodeProofs.StoreGrowthKeeps` | geecache-engine/internal/cache/load.go:43-55 | The store moving on never invalidates what a process holds or owes. |
| `Node.FlightKeyInjective` | geecache-engine/internal/cache/read.go:93-95 | Different fences or keys never share a flight, whatever bytes the key contains, colons included. |
| `ClusterProofs.SysStepKeeps` | geecache-engine/internal/outbox/worker.go:62-123 | Every step of the system, crash and lost response included, keeps store, processes, relays and ledger consistent. |
| `ClusterProofs.FinishAccounts` | geecache-engine/internal/outbox/worker.go:83-95 | Completing an order, at once or late, keeps every event pending or accounted for by a snapshot; a lost lease records nothing. |
| `ClusterProofs.RunOk` | geecache-engine/internal/outbox/worker.go:62-96 | The invariant holds in every state of every run of claims, sends and completions. |
| `ClusterProofs.RunProgress` | geecache-engine/internal/cache/versions.go:86-115 | What each process has been notified of never goes back, over any stretch of a run. |
| `Refinement.InvalidationIsSteps` | geecache-engine/internal/cache/versions.go:89-115 | Whatever the cache object holds after InvalidateVersion is what the process model reaches by shedding at most this key, notifying, and shedding at most this key. |
| `Refinement.InvalidationKeepsPromises` | geecache-engine/internal/cache/versions.go:89-115 | So the object stays consistent, with its flights and callers, and a notification within the horizon counts as received. |
| `Refinement.FillIsSteps` | geecache-engine/internal/cache/load.go:68-88 | The check and fill on the object is a shed of at most this key followed by the flight's own fill step, and the reported verdict and minimum are the stage the flight goes on with: value, retry from that minimum, or stale. |
| `Refinement.MaintenanceIsShed` | geecache-engine/internal/cache/cache.go:163-186 | A maintenance pass from any cursor position is a shed of keys whose entries have expired. |
| `Refinement.TouchIsInvisible` | geecache-engine/internal/cache/lru/lru.go:42-50 | Refreshing recency changes nothing that lookups, fences or fills can see. |
| `Fencing.InvalidateEffect` | geecache-engine/internal/cache/versions.go:89-115 | The key's floor becomes the maximum of known and notified, an applied notification moves its epoch, no epoch falls, and any other key keeps its floor or loses it together with its epoch. |
| `Fencing.InvalidateStripes` | geecache-engine/internal/cache/versions.go:96-108 | Stripe by stripe: one more for that of a retired record, one more for the key's own if and only if the version is zero or newer than what is known, every other one as it was. |
| `Fencing.RememberStripes` | geecache-engine/internal/cache/versions.go:70-79 | Only the stripe of a retired record moves, by exactly one; without a retirement none does. |
| `Fencing.OtherStripesUnaffected` | geecache-engine/internal/cache/versions.go:96-108 | A notification leaves barriers and fills of every key in another stripe as they were. |
| `Fencing.InvalidateKeeps` | geecache-engine/internal/cache/versions.go:89-115 | Residents stay at or above their retained floors. |
| `Fencing.FillKeeps` | geecache-engine/internal/cache/load.go:71-79 | A fill keeps residents at or above their floors and never lowers a resident version. |
| `Fencing.InvalidateAllClosedForm` | geecache-engine/internal/cache/versions.go:89-115 | A series of positive notifications leaves the maximum as the known version and the entry exactly if it reaches that maximum. |
| `Fencing.NotificationsCommute` | geecache-engine/internal/cache/versions.go:89-115 | Any two orders of the same notifications leave the same known version and the same decision about the entry. |
| `Floors.RememberEffect` | geecache-engine/internal/cache/versions.go:53-84 | A remembered floor becomes the maximum; exactly the record inserted or advanced longest ago can disappear, and is reported; every other floor is unchanged. |
| `Floors.RememberOrder` | geecache-engine/internal/cache/versions.go:53-84 | Which record goes where: a replay leaves the order alone, news moves only its record to the front, a new key goes to the front, only a full table loses its last record. |
| `FloorTable.VersionFloors.Remember` | geecache-engine/internal/cache/versions.go:53-84 | The in-place map and list stay in bijection within capacity and compute the advance-ordered table, with replays leaving the order alone and one eviction counted per retired record. |
| `FloorTable.VersionFloors.Lookup` | geecache-engine/internal/cache/versions.go:38-45 | The index returns the table's floor, zero when there is none. |
| `FloorTable.VersionFloors.Represents` | geecache-engine/internal/cache/versions.go:30-35 | A key is in the index exactly when it is in the list, and points to its own record. |
| `FloorTable.VersionFloors.RetireOldest` | geecache-engine/internal/cache/versions.go:70-75 | The retired record is the last of the list, and nothing else changes. |
| `Group.CacheGroup.InvalidateVersion` | geecache-engine/internal/cache/versions.go:86-115 | Refused exactly for an invalid key or a negative version, then without effect; otherwise floors, epochs and entries are those of the notification step, up to an entry that lapses between the two looks at it; on the array, exactly the stripes of a retired record and, on news, of the key move, by one each. |
| `Group.CacheGroup.RememberVersion` | geecache-engine/internal/cache/versions.go:53-84 | The table of the remembering step; on the array, exactly the stripe of the record retired from the old table moves, by one. |
| `Group.CacheGroup.ReadBarrier` | geecache-engine/internal/cache/versions.go:117-121 | The fence is the key's current epoch and the maximum of its floor and resident version. |
| `Group.CacheGroup.KnownVersion` | geecache-engine/internal/cache/versions.go:38-45 | The maximum of floor and unexpired resident version; looking removes an expired entry. |
| `Group.KnownExact` | geecache-engine/internal/cache/versions.go:38-45 | In the fields of record and entry: the greater of the retained floor and the version of the key's entry if it has no deadline or one still ahead. |
| `Group.CacheGroup.CheckAndFill` | geecache-engine/internal/cache/load.go:68-88 | Stale exactly below the maximum of fence and known version, filled exactly when not stale in an unchanged epoch, and a value that fills and fits stands in front of the order from then on; the minimum is reported on every outcome and nothing but the cache changes. |
| `Group.LocalCache.Add` | geecache-engine/internal/cache/cache.go:78-107 | Oversized and already expired values are not stored and displace their predecessor, leaving all else in place; otherwise the entry is first in the order with the earlier of its own deadline and the TTL; the expiry of the returned view in each case. |
| `Group.LocalCache.Get` | geecache-engine/internal/cache/cache.go:131-143 | Finds the view of the entry of that key if and only if it has no deadline or one still ahead; a hit refreshes its recency, an expired entry is dropped. |
| `Group.LocalCache.Version` | geecache-engine/internal/cache/cache.go:145-155 | The resident version without touching recency. |
| `Group.LocalCache.Remove` | geecache-engine/internal/cache/cache.go:70-76 | Exactly this key is dropped. |
| `Group.LocalCache.CleanExpired` | geecache-engine/internal/cache/cache.go:177-186 | A busy lock changes nothing; otherwise a bounded sweep from the kept cursor. |
| `Group.CacheAddKeepsItsOwn` | geecache-engine/internal/cache/cache.go:80-107 | An admitted entry is never its own victim: it ends up at the front. |
| `Group.CacheAddResident` | geecache-engine/internal/cache/cache.go:80-107 | Insertion with eviction is plain insertion restricted to what was kept. |
| `Lru.Cache.AddUntil` | geecache-engine/internal/cache/lru/lru.go:135-154 | List, index and byte count stay exact, and the order is the entry in front of the rest, trimmed from the back. |
| `Recency.TrimIsLongestFit` | geecache-engine/internal/cache/lru/lru.go:151-153 | Eviction keeps a prefix that fits and could not have kept one entry more. |
| `Recency.ExpireKeyExact` | geecache-engine/internal/cache/lru/lru.go:53-63 | A look at a key cuts out its entry exactly if its time has come and leaves everything else in place. |
| `Recency.TouchExact` | geecache-engine/internal/cache/lru/lru.go:44-50 | A hit ends up in front of the order, the others keep theirs. |
| `Recency.TotalCons` | geecache-engine/internal/cache/lru/lru.go:147-149 | The byte count of an entry is the length of its key plus the length of its value. |
| `Lru.Cache.RemoveElement` | geecache-engine/internal/cache/lru/lru.go:81-92 | Exactly that element goes, the byte count follows, and a cursor on it steps to its predecessor, so the cursor stays nil or a list element. |
| `Lru.Cache.Get` | geecache-engine/internal/cache/lru/lru.go:42-50 | An entry without a deadline or with one still ahead is found and comes to the front of the others, which keep their order; an expired one is cut out; otherwise nothing changes. |
| `Lru.Cache.Peek` | geecache-engine/internal/cache/lru/lru.go:52-63 | An entry without a deadline or with one still ahead is found and everything stays in place; an expired one is cut out and missed; otherwise nothing changes. |
| `Lru.Cache.Remove` | geecache-engine/internal/cache/lru/lru.go:74-79 | Idempotent removal of one key. |
| `Lru.Cache.RemoveOldest` | geecache-engine/internal/cache/lru/lru.go:65-72 | Removes the last element of the list; an empty list stays as it is. |
| `Lru.Cache.PruneExpired` | geecache-engine/internal/cache/lru/lru.go:94-120 | Performs exactly the stated number of checks of the cursor sweep, leaves the cursor where the sweep stops, and counts what it removed. |
| `Recency.PassesClean` | geecache-engine/internal/cache/lru/lru.go:94-120 | From any cursor position, ceil(n / limit) passes remove exactly the entries expired at that time and keep the survivors in order. |
| `Recency.SweepAll` | geecache-engine/internal/cache/lru/lru.go:103-118 | As many checks as there are entries visit every entry, across the wrap at the front. |
| `Recency.SweepKeepsAlive` | geecache-engine/internal/cache/lru/lru.go:103-118 | A sweep of any length neither loses nor reorders an unexpired entry. |
| `Recency.AliveExact` | geecache-engine/internal/cache/lru/lru.go:114-117 | Exactly the entries without a deadline or with one still ahead survive. |
| `Store.WriteKeeps` | geecache-engine/internal/source/postgres/postgres.go:79-140 | Every applied write advances the generation by one and appends exactly its event; a write that is not applied changes nothing; histories and horizons only move forward. |
| `Store.WriteStores` | geecache-engine/internal/source/postgres/postgres.go:79-140 | An applied put leaves the caller's bytes in a live row of the next generation, an applied delete an empty tombstone; every other row is unchanged, and one event available at once is queued. |
| `Store.HistoryFromEmpty` | geecache-engine/internal/source/postgres/postgres.go:79-140 | After any sequence of writes from empty tables, the events of each key are exactly versions 1..n once each in order, n being its generation. |
| `Store.NoticeCommitted` | geecache-engine/internal/source/postgres/postgres.go:85-87 | Every event ever appended names a committed generation, so relayed notifications are within the horizon. |
| `Postgres.ProductStore.PutIfVersion` | geecache-engine/internal/source/postgres/postgres.go:91-113 | In row fields: zero creates an absent or deleted key, a positive version replaces exactly that live generation, with the caller's bytes and one queued event; anything else changes nothing; invalid arguments are refused first. |
| `Postgres.ProductStore.DeleteIfVersion` | geecache-engine/internal/source/postgres/postgres.go:128-140 | In row fields: only the live row of exactly that generation becomes an empty tombstone of the next generation, with one queued event. |
| `Postgres.ProductStore.Put` | geecache-engine/internal/source/postgres/postgres.go:79-89 | In row fields: a live row with the caller's bytes and the next generation, after a deletion too, and one queued event. |
| `Postgres.ProductStore.Delete` | geecache-engine/internal/source/postgres/postgres.go:115-126 | A live row becomes a tombstone of the next generation; otherwise nothing happens. |
| `Postgres.ProductStore.GetVersioned` | geecache-engine/internal/source/postgres/postgres.go:61-77 | The live row, or not found for tombstones and unknown keys, or an error for an invalid key. |
| `Postgres.ProductStore.Claim` | geecache-engine/internal/source/postgres/outbox.go:28-45 | In row fields: of the rows undelivered, due, without a running lease and not locked, takes the one available first, the lower id deciding, under the next attempt and a lease from now; none exactly when there is no such row, however often it was tried; an error exactly for an invalid lease. |
| `Postgres.ProductStore.Finish` | geecache-engine/internal/source/postgres/outbox.go:46-58 | In row fields: succeeds exactly for the token that still holds an unexpired lease on an undelivered row; a success marks it delivered now and keeps its due time, a failure makes it due after the delay; an error exactly for invalid arguments; otherwise no effect. |
| `Postgres.ProductStore.PurgeDelivered` | geecache-engine/internal/source/postgres/outbox.go:73-84 | Removes the oldest unlocked rows past retention, as many as the limit allows, and reports how many. |
| `Maintenance.Maintain` | geecache-engine/internal/outbox/worker.go:109-122 | Only rows past retention are removed. If some batch comes back short, every row still overdue was locked during it; otherwise the deadline was filled with full batches. |
| `Outbox.LeaseExcludes` | geecache-engine/internal/source/postgres/outbox.go:33-37 | In every run, two claims of a row without a completion between them are at least one lease apart. |
| `Outbox.LeaseHeld` | geecache-engine/internal/source/postgres/outbox.go:33-53 | Until somebody finishes it, a lease keeps its row to its token or has run out. |
| `Outbox.TokensIncrease` | geecache-engine/internal/source/postgres/outbox.go:36-37 | Attempt tokens of a row strictly increase from claim to claim. |
| `Outbox.FinishNeedsNewestToken` | geecache-engine/internal/source/postgres/outbox.go:50-53 | Only the newest token of a row can finish it. |
| `Outbox.FinishOnce` | geecache-engine/internal/source/postgres/outbox.go:50-53 | A token finishes at most once. |
| `Outbox.DeliveredIsFinal` | geecache-engine/internal/source/postgres/outbox.go:46-58 | After delivery the row keeps its delivery time or is purged; no later statement claims or finishes it. |
| `Outbox.PendingIsKept` | geecache-engine/internal/source/postgres/outbox.go:73-84 | An event that was never finished as delivered is still queued. |
| `Outbox.RetryWaits` | geecache-engine/internal/source/postgres/outbox.go:50-53 | Over every run, no claim of a failed row wins before the delay given with the failure is over. |
| `Outbox.FailedComesBack` | geecache-engine/internal/source/postgres/outbox.go:33-35 | Once its delay is over, a failed row that nobody touched can be taken again, however often it failed. |
| `Outbox.AbandonedComesBack` | geecache-engine/internal/source/postgres/outbox.go:33-37 | Once its lease is over, a claimed row that nobody finished can be taken again. |
| `Outbox.ClaimExact` | geecache-engine/internal/source/postgres/outbox.go:33-37 | In row fields, exactly which row a claim wins; attempts play no part. |
| `Outbox.ExpectedVersionWinsOnce` | geecache-engine/internal/source/postgres/postgres.go:91-140 | One expected version succeeds at most once per key over any run of statements, across deletion and recreation. |
| `Relay.ComputeRetryDelay` | geecache-engine/internal/outbox/worker.go:54-60 | The doubling loop yields min(2^(a-1), 60) seconds for every attempt a >= 1. |
| `Relay.RetryDelay` | geecache-engine/internal/source/postgres/outbox.go:47-49 | The delay always lies between one second and the minute Finish accepts. |
| `Mutation.ExecuteMutation` | geecache-engine/internal/app/mutations.go:65-129 | Committed is reported exactly when the store applied the write and said so, and then the store's own version is broadcast; not committed exactly when the store refused, with no change and no broadcast; everything else is unknown and broadcasts the command's version. |
| `Mutation.ServeWrite` | geecache-engine/internal/app/mutations_http.go:16-133 | A write request end to end: a success replaced exactly the row its precondition described, stored the request's body, returns the new row's tag, and broadcast that version; a conflict or a rejected request changes nothing and notifies nobody; an unknown outcome is always followed by a forced invalidation. |
| `Mutation.WriteMeets` | geecache-engine/internal/app/mutations_http.go:80-97 | An admitted write names the key of its query and is applied only to a row its precondition describes: absent for If-None-Match: *, live with exactly the tag for If-Match; and to every such row with an int64 generation. |
| `Mutation.DecideExact` | geecache-engine/internal/app/mutations_http.go:22-97 | Exactly which requests get through, and with which key, bytes, expected version and notification version. |
| `Mutation.CallStore` | geecache-engine/internal/app/mutations.go:80-88 | The store's answer, or an error that leaves open whether the statement ran. |
| `Limiter.EveryScheduleIsBounded` | geecache-engine/internal/cache/admission.go:50-73 | Under every schedule running and queued loads respect their limits, occupancy equals what the loads hold, no holder is blocked from giving back, and nothing is occupied once all have left by whatever exit. |
| `Limiter.DoKeeps` | geecache-engine/internal/cache/admission.go:50-73 | Every action takes and gives back exactly what the load it moves holds. |
| `Limiter.GrantedWhenFree` | geecache-engine/internal/cache/admission.go:54-70 | A free slot is granted at once, a free queue place too, and a waiting load gets a slot that becomes free. |
| `Limiter.OverloadedWhenFull` | geecache-engine/internal/cache/admission.go:54-64 | Over every schedule, a load is refused as overloaded only after it found all slots taken and then all queue places taken. |
| `Fanout.EveryTargetHandledOnce` | geecache-engine/internal/cluster/invalidation.go:54-80 | Every schedule of the up to eight workers ends within two steps per target, with each target called exactly once and no status left empty. |
| `Fanout.PoolNeverStuck` | geecache-engine/internal/cluster/invalidation.go:54-80 | Until it is drained the pool can take a step. |
| `Fanout.StatusIsTheOutcome` | geecache-engine/internal/cluster/invalidation.go:61-73 | The status on record for a target is the outcome of the request some worker made for that very target. |
| `Fanout.AtMostEightAtOnce` | geecache-engine/internal/cluster/invalidation.go:54-57 | No more than eight requests are under way at once. |
| `Fanout.Report` | geecache-engine/internal/cluster/invalidation.go:40-86 | After any drained schedule there is a line for the sender and for every target, each with the status its request ended in, and complete holds exactly when all of them are acknowledged. |
| `Fanout.CompleteExact` | geecache-engine/internal/cluster/invalidation.go:45-86 | For a snapshot without repeated identities, complete holds exactly when every member other than the sender acknowledged. |
| `Fanout.CollectTargets` | geecache-engine/internal/cluster/invalidation.go:45-51 | The targets are the members other than the sender, in snapshot order. |
| `Fanout.Verdict` | geecache-engine/internal/cluster/invalidation.go:81-85 | Complete exactly if every status is ok. |
| `Group.CacheGroup.HandleInvalidation` | geecache-engine/internal/cluster/server.go:63-76 | The member answers 204, echoing the version, exactly for a canonical header and a valid key, and then its cache has performed that invalidation; any other answer leaves the cache as it was. |
| `Notifier.InvalidateMember` | geecache-engine/internal/cluster/invalidation.go:103-133 | An answer of the member counts exactly if its cache performed the invalidation with that version; a foreign answer counts only with status 204 and, for a positive version, its canonical echo; a lost request leaves the cache as it was. |
| `Notifier.Send` | geecache-engine/internal/app/bootstrap.go:156-172 | The sender succeeds exactly when discovery is ready, the key is valid, its own cache has performed the invalidation, and the relay's broadcast of the captured snapshot is complete and not empty. |
| `Protocol.HeaderExact` | geecache-engine/internal/cluster/protocol.go:21-34 | The header parses to a version exactly when it is that version's one canonical spelling, and no header means zero. |
| `Protocol.PreconditionExact` | geecache-engine/internal/app/mutations_http.go:137-161 | A positive expectation comes from exactly one If-Match value, the tag of that version, and nothing else (section 13.1.1 of RFC 9110); absence is expected exactly for a PUT with one If-None-Match: * and no If-Match. |
| `Protocol.TagRoundTrip` | geecache-engine/internal/app/mutations_http.go:135-161 | The tag of each version 1..2^63-1 is accepted back as that version, and versions have different tags. |
| `Protocol.TrimExact` | geecache-engine/internal/app/mutations_http.go:146-152 | Trimming a field value takes white space, and only white space, off both ends, until there is none left there. |
| `KeyCodec.RequestKeyExact` | geecache-engine/internal/app/api.go:128-146 | A query is accepted for a key exactly when the key is valid and the query is its canonical encoding (sections 2.1 and 2.3 of RFC 3986). |
| `KeyCodec.RequestKeyBijective` | geecache-engine/internal/app/api.go:128-146 | Each valid key has exactly one accepted query, and distinct keys have distinct queries. |
| `KeyCodec.WireSpelling` | geecache-engine/internal/app/api.go:128-146 | The canonical encoding byte by byte: unreserved characters stand for themselves, every other byte is a percent sign and two upper-case hexadecimal digits. |
| `Keys.KeyExact` | geecache-engine/internal/cache/errors.go:41-46 | A key is valid exactly if it is 1 to 256 bytes long, has no zero byte, and is the UTF-8 encoding of some sequence of Unicode scalar values (section 3 of RFC 3629). |
| `Membership.Directory.Update` | geecache-engine/internal/cluster/directory.go:43-74 | Publishes strictly increasing identities with the least address of each, or leaves the snapshot alone exactly when some input is invalid. |
| `Membership.SnapshotUnique` | geecache-engine/internal/cluster/directory.go:43-74 | The snapshot depends only on the set of members given. |
| `Bloom.ForKeys` | geecache-engine/internal/cache/bloomfilter.go:26-43 | The filter admits exactly the keys all of whose probes some listed key shares, hence every listed key. |
| `Bloom.Filter.Add` | geecache-engine/internal/cache/bloomfilter.go:52-62 | Sets the bits of the key's probes and no others, within bounds under wrapping 64-bit arithmetic. |
| `Bloom.Filter.Contains` | geecache-engine/internal/cache/bloomfilter.go:64-78 | True exactly if every probe of the key finds its bit set. |
| `Bloom.Filter.constructor` | geecache-engine/internal/cache/bloomfilter.go:14-24 | A new filter has exactly the words its bits need, all clear. |
| `Bloom.SetInWord` | geecache-engine/internal/cache/bloomfilter.go:58-60 | Setting a bit of a 64-bit word sets that bit and no other. |

## Left out

- Unversioned sources (`Getter` without versions): every stated guarantee is about versions.
- Wrap-around of epochs (uint64) and of versions and attempts (int64): numbers are unbounded; the int64 limits of the wire formats are modelled.
- The FNV-1a values in `epochBucket` and the Bloom hashes: the hashes are parameters, so every result holds for any of them, and for any number of stripes up to 256.
- The floating-point sizing in `newBloomForKeys`: size and number of hashes are any positive numbers.
- Concurrency inside a critical section: the mutexes are taken to make them atomic; `container/list`, `singleflight` and channels are used by their contracts (a list is a sequence of distinct elements, a flight key has at most one running function and all its waiters get its result).
- In the relay, the calls of Worker.Step are separate steps of the system rather than one method, because other processes act between them; Worker.Run's polling and the statistics of maintain are not modelled.
- The API waiter slots of Get (`admit`) are not modelled; a refused caller is an aborted one.
- Limiter.EveryScheduleIsBounded: channel occupancy is a value moved by actions of a schedule, not an object updated in place, because its operations interleave.
- Fanout.EveryTargetHandledOnce: the report slots that workers write by index are a sequence in the pool state, for the same reason.
- Group.CacheGroup.HandleInvalidation: the bearer token, the path encoding and the group lookup are left out; a request that fails there is a failed delivery.
- Mutation.ServeWrite: authorisation, the JSON syntax check (a flag of the request) and the status codes of source errors are left out.
- Row ids: a serial column may leave gaps after a rollback; here ids are consecutive.
- Liveness: that an event is eventually delivered, or that a caller eventually gets an answer, is not claimed by the design and not proved.
- HTTP serving, authorisation, configuration, shutdown, telemetry, Kubernetes discovery, the operator, benchmarks and tooling.
- Memory ownership of keys and values (`strings.Clone`, `cloneBytes`): values are immutable here.
