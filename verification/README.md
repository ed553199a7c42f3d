# OpenRails, verified

A Dafny model of the self-contained logic of OpenRails, a payment-stream stack, and proofs of what that logic keeps
over whole runs. Check it with `dafny verify dfyconfig.toml`.

## What is modelled

| module | part of OpenRails |
|---|---|
| `NonceEngine`, `NonceLateWrites` | the per-key asynchronous lock and the nonces issued under it, as a small-step system with any number of callers, and the engine object whose methods are the synchronous segments of a call; and what late writes of the adapter do to nonces |
| `Collections`, `Text` | insertion-ordered maps and sets, decimal keys, lower-casing |
| `StateStore`, `StoreOrder` | the in-memory stream store with its workflow index, and what each operation leaves in it and in which order |
| `TerminationQueue` | the expiry queue: binary-search insertion, draining from the front |
| `PersistentStore` | the durable store: snapshot file, event file, loading, event table, and the read-side view |
| `Gateway`, `StreamGateway` | the log handler split at its `await`, the event handlers, ticks, sweeps, bindings, crashes and restarts: first as a transition function, then as the object that mutates its fields |
| `GatewayRuns`, `GatewayDelivery`, `GatewayBalances`, `GatewayExpiry`, `GatewayEffects` | what every run of the gateway keeps, and what each step of a run does to every stream |
| `RateLimiter` | the token bucket and the per-key map of buckets, over reals |
| `Timer` | the drift-compensating timer loop |
| `ProviderPool` | the rotating provider pool and its health flags |
| `LogRecovery`, `LogScan` | the backward chunked log scan: what it is to return, and its loops |
| `Base64Url`, `Base64Texts`, `Wire`, `WireReads`, `AddressText`, `LinkCodec`, `LinkObjects`, `LinkRoundTrip` | compact links: the text layer (RFC 4648, section 5, without padding as section 3.2 allows) and which texts it reads, field readers and writers and what each reader takes from bytes nobody wrote, which texts are addresses, whole artifacts, the writer and reader objects, and the round trip |
| `WalletHandoff`, `WalletHandoffRuns`, `WalletHandoffEffects` | the wallet handoff record, its six operations, its verification, whole runs, and what each operation leaves in a run |

Conventions. Code that updates fields in place is a class whose methods are proved against a transition function; the
theorems are about that function, over sequences of steps of any length. The operations on a wallet handoff clone
their input and return the clone, so they are functions on values. Throwing is an `Err` result. Clock readings, block
timestamps, the registry, the JSON-schema validators, the address checksum, the bank-account (ICAP) texts that denote
addresses and a library's base64 decoder are parameters and may be anything; where a theorem needs more (a clock that
does not go back, a decoder that reads what the encoder writes), it says so. The nonce adapter answers `get` with what
its store holds, a fulfilled `set` has stored, and a rejected one may have stored and may store later, perhaps more
than once. A crash loses everything but the two files, and each write of a file happens or does not.

## Where the code and its documentation part

- Nonces are gap-free only as far as the adapter is honest: a `set` that stores and then rejects loses the nonce it
  stored, and while writes land no later than their answers this is the only way to lose one
  (`NonceEngine.NoncesInOrder`, `NonceLateWrites.StoredRejectionLosesNonce`). A `set` that rejects and stores later can
  make a nonce be issued twice (`NonceLateWrites.LateWriteRepeatsNonce`); such a late write does harm exactly if its
  value is at or below a nonce already written or issued on its key, which an adapter can test before it stores
  (`NonceLateWrites.LandingHarmsIff`).
- `handleLog` marks a key before it looks the block up, so a failed lookup drops the log, and every later delivery of
  it is ignored until a new process takes over. `stop` is documented to clear internal state, but it keeps the marked
  keys, so stopping and starting the gateway does not help (`GatewayDelivery.DroppedStaysDropped`).
- The timer compensates for a first tick that is not due yet: the first delay is two intervals, and tick k aims at
  start + (k + 2) * interval, not (k + 1) (`Timer.NeverEarly`).
- `getProvider` is documented to throw when every provider is unhealthy; it resets the pool and returns the first one
  (`ProviderPool.PickIsNearest`).
- A comment in the loader says that replaying events can rebuild a corrupt snapshot. Nothing replays them, and
  deduplication keeps later deliveries out (`GatewayExpiry.LostSnapshotStaysLost`).
- `getExpired` lists streams of lifespan 0 at their genesis; they are never queued, so a sweep never flips them
  (`GatewayExpiry.SweepMatchesScan`).
- Provisioning an id again leaves the queue entry of its first provisioning behind, even if that stream has ended: no
  settlement or reclaim removes it (`GatewayExpiry.ReprovisionFlipsEarly`, `GatewayExpiry.SettlementKeepsEntry`).
- Link validation compares an address with the one usual text of the zero address, so it lets through any other text
  that stands for it: forty zeros without the prefix, or its ICAP form. The token is then rejected on reading
  (`LinkRoundTrip.LinkRoundTrips`, `LinkRoundTrip.UnreadableTokenExists`). A claim hint on a signed RailsFlow is
  written but never read back.
- An authorization is checked against the clock reading of the call, and against its own `signedAt` only if none is
  given (`WalletHandoffRuns.SignedInTime`, `WalletHandoffRuns.LateSignatureRecorded`).
- The read-side view does not drop repeated events (`PersistentStore.ReaderSeesTable`).

## Model

| member | source | states |
|---|---|---|
| NonceEngine.CacheKeySeparates | sdk/src/nonce.ts:111-113 | two calls share a lock and a counter exactly when the accounts agree up to letter case and the channels agree |
| Text.LowerIsCaseOnly | sdk/src/nonce.ts:111-113 | two texts have the same lower case exactly if they differ in nothing but the case of ASCII letters |
| NonceEngine.AlwaysOrdered | sdk/src/nonce.ts:115-133 | after every interleaving of any number of calls, whatever the adapter does: each caller awaits the previous caller on its key, callers leave in turn, and the map holds the last pending caller of each key |
| NonceEngine.Invariant | sdk/src/nonce.ts:115-150 | while writes land no later than their answers, after every interleaving of any number of calls the lock is in order and the stored counters and the values held by callers count the increments before them |
| NonceEngine.MutualExclusion | sdk/src/nonce.ts:124-126 | in every reachable state at most one call per key is inside its section |
| NonceEngine.ArrivalOrder | sdk/src/nonce.ts:115-126 | a call that has left the waiting room was preceded by released calls on its key only |
| NonceEngine.NonceValue | sdk/src/nonce.ts:143-150 | while writes land no later than their answers, a fulfilled call returned the initial value plus the number of earlier fulfilled calls plus the number of earlier stored-then-rejected writes |
| NonceEngine.NoncesInOrder | sdk/src/nonce.ts:143-150 | while writes land no later than their answers, nonces on a key strictly increase in arrival order; they are consecutive if and only if no call was fulfilled after a write that was stored and then rejected |
| NonceLateWrites.LandingHarmsIff | sdk/src/nonce.ts:143-150 | in every run whose late writes so far were harmless, one more late write makes it possible that nonces on its key repeat or go back, without any further one, if and only if its value is at or below a nonce already written or issued on the key |
| NonceLateWrites.HarmlessIsIncreasing | sdk/src/nonce.ts:143-150 | as long as every late write is above the nonces written or issued on its key, the nonces on each key strictly increase |
| NonceLateWrites.BehindGoesBack | sdk/src/nonce.ts:115-150 | from every state whose counter has not passed a nonce written or issued, a continuation without late writes makes the nonces on the key repeat or go back |
| NonceLateWrites.StoredRejectionLosesNonce | sdk/src/nonce.ts:146-148 | a run without late writes that issues 1 but never 0 |
| NonceLateWrites.LateWriteRepeatsNonce | sdk/src/nonce.ts:146-148 | a run with a late write that issues 0, 1, 1 |
| NonceEngine.LockedIffPending | sdk/src/nonce.ts:122-132 | a key is in the lock map exactly while some call on it has entered and not released |
| NonceEngine.QuiescentIsClean | sdk/src/nonce.ts:127-132 | once all calls have released, the lock map is empty; and while writes land no later than their answers each counter has grown by the fulfilled calls and the losses |
| NonceEngine.AlwaysDrains | sdk/src/nonce.ts:115-133 | no reachable state with pending calls is stuck: some continuation without arrivals releases all and empties the map |
| NonceEngine.RunsAreFinite | sdk/src/nonce.ts:115-133 | whatever the order of steps, a run without arrivals is no longer than the work left |
| NonceEngine.Engine.Enter | sdk/src/nonce.ts:115-124 | the segment up to the await: takes the place of the key's last caller and keeps the lock in order |
| NonceEngine.Engine.AnswerSet | sdk/src/nonce.ts:147 | the adapter's answer to `set`, storing or not, fulfilled or rejected, is the step of the transition function and keeps the lock in order; what a rejection did not store may land later |
| NonceEngine.Engine.Release | sdk/src/nonce.ts:127-132 | the `finally` block is the release step: the entry is dropped only if no later call has replaced it |
| NonceEngine.SelectChannel | sdk/src/nonce.ts:95-102 | wrapping to 32 bits at every character gives the unbounded hash polynomial reduced once modulo 2^32, its distance from zero taken modulo 256 |
| StateStore.IndexMatchesScan | stream-gateway/state-store.ts:170-184 | in a store whose index agrees, reading a workflow through the index gives the same streams, each as often, as filtering all of them |
| StateStore.SetKeepsIndex | stream-gateway/state-store.ts:106-117 | storing a state keeps: an id is in the set of workflow w exactly when its stored state has that non-empty workflow id |
| StateStore.DeleteKeepsIndex | stream-gateway/state-store.ts:125-133 | so does deleting one, which prunes an emptied set |
| StateStore.BindKeepsIndex | stream-gateway/state-store.ts:136-151 | so does binding a stream to a workflow, or to none |
| StateStore.MemoryCacheStateStore.Set | stream-gateway/state-store.ts:106-117 | the object's new map and index are those of the transition function, and agree |
| StateStore.MemoryCacheStateStore.Delete | stream-gateway/state-store.ts:125-133 | likewise, with the answer whether the id was present |
| StateStore.MemoryCacheStateStore.BindWorkflow | stream-gateway/state-store.ts:136-151 | likewise, with the rebound state or nothing |
| StateStore.MemoryCacheStateStore.GetActiveByWorkflow | stream-gateway/state-store.ts:182-184 | the loop through the index returns the Active streams of the workflow, as filtering the whole store would |
| StateStore.MemoryCacheStateStore.GetExpired | stream-gateway/state-store.ts:190-201 | the loop returns, in store order, exactly the streams of the store that are Active and whose genesis plus lifespan is at or before the time |
| StateStore.MemoryCacheStateStore.GetAll | stream-gateway/state-store.ts:154-156 | lists the stored states in the store's order |
| StoreOrder.OperationWrites | stream-gateway/state-store.ts:106-151 | storing leaves the state given, deleting none, binding changes the workflow id alone, a tick's assignment the projection alone, and no operation changes another id |
| StoreOrder.OperationOrders | stream-gateway/state-store.ts:106-151 | an id that is present keeps its place, a new one comes last, a deletion drops its own id alone |
| StoreOrder.ListedByBirth | stream-gateway/state-store.ts:106-156 | after any run of operations the streams are listed in the order in which they were first stored since they were last absent |
| TerminationQueue.InsertedAt | stream-gateway/state-store.ts:239-252 | splicing at the point a binary search finds is linear insertion behind all entries that do not expire later |
| TerminationQueue.StreamTerminationQueue.Schedule | stream-gateway/state-store.ts:239-252 | the binary search with splice is linear insertion and keeps the queue sorted |
| TerminationQueue.StreamTerminationQueue.CheckExpired | stream-gateway/state-store.ts:260-268 | shifting from the front returns exactly the due ids in queue order and leaves exactly the later entries |
| TerminationQueue.QueueHistory | stream-gateway/state-store.ts:239-268 | after any operations the queue is the stable sort of what is pending, a check reports the stable sort of what is due, and each scheduled entry is queued or has been reported, exactly once |
| TerminationQueue.StableSortUnique | stream-gateway/state-store.ts:239-252 | sortedness and first-in-first-out on ties determine the queue |
| PersistentStore.RestartRefinement | stream-gateway/state-store.ts:302-363 | whatever the files held at first, after any operations that store each state under its own id, reading the files again gives the same states in the same order, projections aside, the same workflow membership, the same events and event keys |
| PersistentStore.ReloadExact | stream-gateway/state-store.ts:313-342 | a snapshot reads back as the store if and only if every state is stored under its own paycard id |
| PersistentStore.ForeignIdLost | stream-gateway/state-store.ts:318 | storing a state under any other id breaks the refinement |
| PersistentStore.TableUnique | stream-gateway/state-store.ts:389-401 | over all operations and reloads the event table holds each key once, and the key set is that of the table |
| PersistentStore.EventKeySeparates | stream-gateway/state-store.ts:309-311 | two events share a key exactly when transaction hash and log index both agree |
| PersistentStore.ReaderSeesTable | stream-gateway/state-store.ts:453-465 | the read-side view equals the writer's table if and only if no key is repeated in the file; it never misses a key |
| PersistentStore.PersistentFileStateStore.RecordEvent | stream-gateway/state-store.ts:394-401 | appends to table, keys and file exactly when the key is new, and says so |
| PersistentStore.PersistentFileStateStore.constructor | stream-gateway/state-store.ts:302-338 | the loading loops build the loaded store of the specification from any two files |
| GatewayExpiry.RescheduleMembers | stream-gateway/index.ts:151-155 | the queue that the rescheduling loop builds is sorted and holds exactly the entries, at genesis plus lifespan, of the Active streams of positive lifespan it went through |
| GatewayRuns.AlwaysSound | stream-gateway/index.ts:264-466 | in every reachable state, across crashes and restarts, index, files and event table agree with the streams |
| GatewayRuns.AppliedAtMostOnce | stream-gateway/index.ts:264-301 | over every interleaving of deliveries, lookups, ticks, crashes and restarts, from any files: no key is applied twice, none already on disk is applied, the table holds each key once, and it holds exactly the initial keys, the applied ones and those a crash caught between recording and applying |
| GatewayRuns.ResumingIsFresh | stream-gateway/index.ts:268-301 | a handler that resumes holds a key that nobody else handles, has applied or has recorded |
| GatewayDelivery.AppliedExactlyOnce | stream-gateway/index.ts:264-301 | over every interleaving in which no block lookup fails and the process stops, if at all, only while no handler waits: once no handler waits, each delivered log whose key was not on file at the start has been applied exactly once |
| GatewayDelivery.FailedLookupDrops | stream-gateway/index.ts:277-283 | a failed block lookup leaves the key seen, not handled and not recorded |
| GatewayDelivery.DroppedStaysDropped | stream-gateway/index.ts:264-301 | over every continuation in which the process keeps running, however often the log is delivered again, it is neither recorded nor applied |
| GatewayDelivery.DroppedAppliedAfterRestart | stream-gateway/index.ts:264-301 | after a restart one delivery has it applied |
| GatewayBalances.AlwaysBalanced | stream-gateway/index.ts:354-416 | whatever files the first process finds, in every reachable state a stream exists exactly if its account does; its balance is max(0, opening - settled), or 0 after a reclaim, and it is Terminated exactly when it was loaded so, a reclaim occurred or a settlement found the total at the opening balance |
| GatewayBalances.LedgerTotals | stream-gateway/index.ts:354-416 | the account after a provisioning is the sum of the settlements and whether some reclaim occurred |
| GatewayBalances.OrderIndependent | stream-gateway/index.ts:384-416 | two runs, on any files and with any traffic of other paycards, that provision a paycard by the same log and then apply the same events to it in any two orders end with the same balance and the same answer to Terminated |
| GatewayBalances.StandsAfter | stream-gateway/index.ts:354-416 | in every run a stream stands where its events since its last provisioning put it: max(0, pool - settled), or 0 after a reclaim; Terminated exactly after a reclaim or a settlement that found the total at the pool |
| GatewayEffects.ProvisioningStores | stream-gateway/index.ts:354-378 | in every run a resuming provisioning event stores a stream with the event's terms: the whole pool available, its genesis as checkpoint, Active, in no workflow, nothing shown |
| GatewayEffects.SettlementTakes | stream-gateway/index.ts:384-401 | a settlement takes its amount, down to 0 at the least, moves the checkpoint to the block's time if there is one, ends the stream if nothing is left, and changes nothing else |
| GatewayEffects.ReclaimEmpties | stream-gateway/index.ts:407-416 | a reclaim empties and ends the stream and changes nothing else; other events change no stream, and none changes that of another id |
| GatewayEffects.ResumeAppendsRow | stream-gateway/index.ts:282-318 | a resuming handler appends one row: the log's fields, the block's time, the clock, the workflow of the stream as it stood, the event's metadata hash or else the stream's |
| GatewayEffects.StandsAsProvisioned | stream-gateway/index.ts:354-378 | in every run, as long as no later event of its id has been applied, a stream has the terms of its provisioning event, the whole pool and its genesis as checkpoint |
| GatewayEffects.TickShowsPool | stream-gateway/index.ts:430-443 | while such a stream is Active, a tick n whole seconds after its genesis shows max(0, pool - velocity * n) |
| GatewayEffects.TickShows | stream-gateway/index.ts:430-443 | in every run a tick n whole seconds after the checkpoint of an Active stream of positive lifespan shows max(0, balance - velocity * n); every other stream keeps what it showed |
| GatewayEffects.TickChanges | stream-gateway/index.ts:430-466 | a tick changes what a stream shows and, from Active to PendingSettlement, its status, and nothing else |
| GatewayEffects.BindChanges | stream-gateway/index.ts:241-250 | a binding changes the workflow id of its stream, to none if it is empty, and nothing else |
| GatewayExpiry.AlwaysFits | stream-gateway/index.ts:151-155 | on a chain that provisions each id once, and from files whose streams have their provisioning events on file, in every reachable state each Active stream of positive lifespan is queued at genesis plus lifespan and each entry is some stream's expiry |
| GatewayExpiry.BootFits | stream-gateway/index.ts:137-193 | the rescheduling at the start of a process makes the queue fit whatever streams were loaded |
| GatewayExpiry.RescheduleFits | stream-gateway/index.ts:150-155 | so it does for every store whose index agrees and whose states are stored under their own ids, as when a gateway is stopped and started again |
| GatewayExpiry.ProvisionedFresh | stream-gateway/index.ts:354-378 | on such a chain and from such files a resuming provisioning event finds no stream under its id |
| GatewayExpiry.DueIsExpired | stream-gateway/index.ts:449-466 | in a queue that fits, the due ids that are still Active are exactly what the linear scan finds, lifespan 0 aside |
| GatewayExpiry.SweepMatchesScan | stream-gateway/index.ts:449-466 | on such a chain and from such files, in every reachable state a tick moves to PendingSettlement exactly the streams of positive lifespan that `getExpired` finds, and changes no other status |
| GatewayExpiry.ReprovisionFlipsEarly | stream-gateway/index.ts:374-376 | while the queue fits the streams, after a second provisioning of any stream a sweep flips the new stream before the scan finds it, or although it never expires, if and only if the entry of the first is still queued and due and the new stream has lifespan 0 or is not due |
| GatewayExpiry.SettlementKeepsEntry | stream-gateway/index.ts:384-401 | a settlement, even one that ends the stream, leaves its entry queued |
| GatewayExpiry.StatusOnlyAdvances | stream-gateway/index.ts:354-466 | on a chain that provisions each id once, and from files whose streams have their provisioning events on file, no step of any run drops a stream, changes its terms, raises its balance or takes its status back; a Terminated stream is empty, if it was so on file |
| GatewayExpiry.LostStreamReturnsIff | stream-gateway/state-store.ts:313-338 | a stream missing from the snapshot can come back if and only if some provisioning event of it on the chain is not in the event file |
| GatewayExpiry.LostSnapshotStaysLost | stream-gateway/state-store.ts:313-338 | if all of them are, no run brings it back |
| GatewayExpiry.AccrueShows | stream-gateway/index.ts:430-443 | a tick's assignments, made one by one, are those of one pass over the streams as they stood |
| GatewayExpiry.TickShowsWholeSeconds | stream-gateway/index.ts:430-443 | the accruals of any store count whole seconds, rounded down, and leave streams that are not Active, have lifespan 0 or have no time elapsed as they are |
| GatewayExpiry.ProjectionBounded | stream-gateway/index.ts:430-443 | what a tick shows lies between 0 and the available balance and falls with time |
| GatewayExpiry.CheckpointTransparent | stream-gateway/index.ts:384-443 | a settlement at t that withdraws exactly what has accrued, and leaves something, is invisible to every later tick |
| StreamGateway.StreamGateway.constructor | stream-gateway/index.ts:137-193 | starting the object on any two files gives the booted state of the transition function |
| StreamGateway.StreamGateway.StopAndStart | stream-gateway/index.ts:137-207 | stopping and starting again keeps store, seen keys and waiting handlers, and makes the queue anew |
| StreamGateway.StreamGateway.DeliverLog | stream-gateway/index.ts:264-281 | the synchronous gate of `handleLog` is the delivery step |
| StreamGateway.StreamGateway.ResumeLog | stream-gateway/index.ts:282-301 | the part behind the await is the resumption step: first the table, then the state |
| StreamGateway.StreamGateway.OnPaycardProvisioned | stream-gateway/index.ts:354-378 | stores the new stream and queues it when its lifespan is positive |
| StreamGateway.StreamGateway.OnSettlementFlushed | stream-gateway/index.ts:384-401 | debits, checkpoints and terminates as the handler function says, or changes nothing for an unknown id |
| StreamGateway.StreamGateway.OnResidualDeltaReclaimed | stream-gateway/index.ts:407-416 | empties and terminates the stream, or changes nothing for an unknown id |
| StreamGateway.StreamGateway.ProcessAccruals | stream-gateway/index.ts:430-443 | the loop over Active streams makes the accrual assignments and writes no file |
| StreamGateway.StreamGateway.SweepExpired | stream-gateway/index.ts:449-466 | drains the queue and flips the streams that are still Active |
| StreamGateway.StreamGateway.OnTick | stream-gateway/index.ts:430-466 | accruals and then the sweep are the tick step |
| RateLimiter.WindowBound | server/rate-limiter.ts:24-101 | over every run and for every key the requests admitted in a window [s, t] number at most maxTokens + refillRate * (t - s) |
| RateLimiter.AdmitsIffEveryWindowAllows | server/rate-limiter.ts:37-44 | a request is admitted if and only if admitting it keeps every window ending with it within its allowance |
| RateLimiter.TokensBounded | server/rate-limiter.ts:47-55 | a bucket holds between 0 and maxTokens after every request |
| RateLimiter.RefillSplits | server/rate-limiter.ts:47-55 | two refills in a row are one |
| RateLimiter.DeniedIsFree | server/rate-limiter.ts:37-55 | a denied request changes no later answer |
| RateLimiter.KeysAreIsolated | server/rate-limiter.ts:79-101 | a request is answered as if its key's requests were the only ones |
| RateLimiter.TokenBucket.Consume | server/rate-limiter.ts:37-44 | the object's new fields and answer are those of the specification |
| RateLimiter.Limiter.Handle | server/rate-limiter.ts:85-100 | the map of bucket objects, filled on demand, behaves as the map of bucket values; no other bucket is touched |
| Timer.NeverEarly | stream-gateway/timer.ts:45-96 | no tick fires before its target, which is start + (k + 2) * interval |
| Timer.NoAccumulatedDrift | stream-gateway/timer.ts:73-96 | if timeouts are at most `late` late and callbacks take at most `busy`, together at most the interval, every tick fires within `late` of its target, for all k |
| Timer.BacklogShrinks | stream-gateway/timer.ts:73-96 | a backlog shrinks by the slack of every later cycle, down to the lateness of one timeout |
| Timer.Drive | stream-gateway/timer.ts:45-96 | driving the object in any environment gives exactly the runs that the bounds are about; no tick of it fires early, and in a punctual environment every tick fires within the lateness of one timeout of its target |
| Timer.FollowingRuns | stream-gateway/timer.ts:73-96 | such a loop never fires a timeout early and sets the next one after the callback |
| Timer.FollowingOnTime | stream-gateway/timer.ts:45-96 | both bounds for every loop that the object can be driven through, in every environment |
| ProviderPool.PickIsNearest | stream-gateway/provider-pool.ts:69-88 | the choice is the healthy entry nearest to the cursor; a pool that is wholly down is reset and its first entry returned |
| ProviderPool.ResetStartsAfresh | stream-gateway/provider-pool.ts:81-87 | a reset makes every entry healthy with no failure on record and goes on with the second entry |
| ProviderPool.HealthyPoolRotates | stream-gateway/provider-pool.ts:69-79 | in a wholly healthy pool the k-th of any number of picks returns entry (cursor + k) modulo the number of entries |
| ProviderPool.NoStarvation | stream-gateway/provider-pool.ts:69-88 | whatever the probes do to the others, as many picks as there are entries return each entry that stays healthy |
| ProviderPool.AlwaysFlagsAgree | stream-gateway/provider-pool.ts:151-170 | in every run an entry is healthy exactly while fewer than three failures in a row are on record |
| ProviderPool.DownIffThreeFailedInARow | stream-gateway/provider-pool.ts:151-170 | in every run an entry is down if and only if its last three or more probes since the last reset all failed |
| ProviderPool.ProviderPool.GetProvider | stream-gateway/provider-pool.ts:69-88 | the two loops return the entry and leave the pool of the specification |
| LogScan.RecoverPaycards | sdk/src/wallet.ts:212-306 | rejects exactly the bad arguments, with the error of the first check that fails, and otherwise returns, for every chunk size, the specified recovery with the registry rows read |
| LogRecovery.RecoveryIsExact | sdk/src/wallet.ts:250-305 | a recovery holds only logs of the range asked for, with the payer, recipient and metadata hash asked for and a registry row, at most the limit; and if it is shorter than the limit, it holds every such paycard |
| LogRecovery.RecoveryIsNewestFirst | sdk/src/wallet.ts:255-264 | the places of its logs on the chain fall from one to the next |
| LogScan.ScanBackwards | sdk/src/wallet.ts:255-303 | the chunked loop with its early exits gives an answer that does not depend on the chunk size |
| LogRecovery.AnswerIsComplete | sdk/src/wallet.ts:255-303 | an answer shorter than the limit contains every qualifying paycard of the range |
| LogRecovery.AnswerIsSound | sdk/src/wallet.ts:255-303 | each result is a qualifying log of the range with no newer qualifying log of its paycard |
| LogRecovery.NewestSplits | sdk/src/wallet.ts:255-262 | consecutive chunks partition the newest-first range |
| LogRecovery.FirstsMeaning | sdk/src/wallet.ts:264-300 | no paycard is returned twice, up to letter case, and none is missed |
| Base64Url.RoundTrip | sdk/src/serialization.ts:49-61 | decoding the encoding of any bytes by the fallback decoder gives them back |
| Base64Url.PaddingRecovered | sdk/src/serialization.ts:49-61 | the dropped padding is (4 - length % 4) % 4 signs |
| Base64Url.SafeAlphabet | sdk/src/serialization.ts:49-54 | the text never contains ':', '.', '/', '+' or '=' |
| Base64Url.EncodeInjective | sdk/src/serialization.ts:49-54 | different bytes have different texts |
| Base64Url.EncodeSpellsBytes | sdk/src/serialization.ts:49-54 | the text spells the bits of the bytes as one number, six bits to a character, filled up with zero bits to the next whole character |
| Base64Url.TestVectors | sdk/src/serialization.ts:49-54 | the first four test vectors of RFC 4648, section 10, without their padding, and the digits 62 and 63 of section 5 |
| Base64Texts.TokenDecodesIff | sdk/src/serialization.ts:56-61 | a text without '=' and white space is decoded if and only if its letters are of the standard or the URL-safe alphabet and its length is not 1 modulo 4 |
| Base64Texts.TokenSpells | sdk/src/serialization.ts:56-61 | what is decoded from any such text is as many whole bytes as its digits fill, and they are the bits that the digits spell; left-over bits are dropped |
| Base64Texts.SpacesAreDropped | sdk/src/serialization.ts:133-142 | the fallback decoder skips tabs, line feeds, form feeds, carriage returns and spaces, and nothing else |
| Base64Texts.PaddingIsStripped | sdk/src/serialization.ts:133-142 | one or two '=' are taken off a text whose length is a multiple of four, and nothing off any other text |
| LinkRoundTrip.LinkRoundTrips | sdk/src/links.ts:70-164 | whenever serialization succeeds, the token reads back as the normal form of the artifact, by every decoder that reads what the encoder writes; or it is rejected, exactly when some address text stands for the zero address without being its usual text |
| LinkRoundTrip.DecodeInverts | sdk/src/serialization.ts:56-61 | the fallback decoder is such a decoder |
| LinkRoundTrip.HiddenZeros | sdk/src/links.ts:421-426 | forty zeros without the prefix, and every ICAP text that stands for the zero address, pass validation and hide it |
| LinkRoundTrip.UnreadableTokenExists | sdk/src/links.ts:70-164 | for each such text there is an artifact with that vault that serializes to a token nobody can read back |
| LinkRoundTrip.SerializesIff | sdk/src/links.ts:70-96 | serialization succeeds if and only if the artifact is valid and each field fits its width: addresses, ICAP texts included, twenty bytes, chain id 32 bits, times 64 bits, texts 65535 bytes, a present description hash 32 bytes of hex |
| LinkRoundTrip.FirstFailureReported | sdk/src/links.ts:414-457 | validation reports the first check that fails, in the source's order |
| LinkRoundTrip.SplitIff | sdk/src/links.ts:98-109 | a token is split into profile and text exactly if it is 'orc1:', the letter of the profile, a dot and the text |
| LinkRoundTrip.SplitFails | sdk/src/links.ts:98-109 | any other token is refused for its prefix, for want of a dot behind something, or for its profile, in that order |
| LinkRoundTrip.ReadIsValid | sdk/src/links.ts:98-164 | whatever is read, from any token by any decoder, is a valid artifact of the profile that the token names |
| LinkRoundTrip.ClaimModes | sdk/src/links.ts:135-158 | a claim payload is read only if its mode byte is 0, 1 or 2, and the byte decides between a signed RailsFlow, a bearer and a recipient-bound card |
| LinkRoundTrip.MistypedVaultRefused | sdk/src/links.ts:421-423 | a valid artifact stops serializing when one letter of a mixed-case vault changes case and both cases still occur |
| AddressText.IsAddressIff | sdk/src/links.ts:421-435 | a text of forty hex digits is an address exactly if its letters are all of one case or each is upper case exactly where the checksum says so; any other text is one exactly if ICAP knows it |
| AddressText.DenotedIs | sdk/src/links.ts:329-331 | what an address stands for: the bytes that its digits spell, or what ICAP says |
| AddressText.OneLetterBreaksChecksum | sdk/src/links.ts:421-435 | changing the case of one letter of a mixed-case address, so that both cases still occur, makes it none |
| AddressText.DigitsSpellBytes | sdk/src/links.ts:288-298 | reading hex text gives the bytes that its digits spell and fails exactly on other texts |
| LinkRoundTrip.EqualTokensEqualNormals | sdk/src/links.ts:70-164 | two artifacts have the same token if and only if they have the same normal form and the same claim hint |
| LinkRoundTrip.SelfDelimiting | sdk/src/links.ts:110-161 | every strict prefix of a written payload is rejected, and every extension is rejected for its trailing bytes |
| LinkRoundTrip.ArtifactReads | sdk/src/links.ts:110-158 | reading what was written, with anything behind it, gives the normal form and exactly what was behind it |
| LinkRoundTrip.ArtifactExtends | sdk/src/links.ts:349-412 | a successful read does not look at what follows it |
| LinkRoundTrip.NormalIsValid | sdk/src/links.ts:414-457 | the normal form of a valid artifact whose addresses fit is valid exactly when no address hides the zero address |
| LinkRoundTrip.TokensAreUnambiguous | sdk/src/links.ts:56-63 | a legacy token never looks compact, and no token is taken for a URL |
| LinkObjects.SerializeLink | sdk/src/links.ts:70-96 | the writer object, appending field by field, produces the token of the specification or its first error |
| LinkObjects.DeserializeLink | sdk/src/links.ts:98-164 | the reader object, advancing its offset, gives the result of the specification on every token, with any base64 decoder |
| LinkObjects.CompactWriter.WriteUint64 | sdk/src/links.ts:318-323 | the loop appends the eight big-endian bytes, or throws out of range |
| LinkObjects.CompactWriter.WriteOptionalString | sdk/src/links.ts:261-264 | appends the tag and, when the text is present and not empty, the text |
| LinkObjects.CompactReader.Take | sdk/src/links.ts:400-411 | returns the next bytes and advances past them, or throws; the offset never passes the end |
| LinkObjects.CompactReader.ReadUint64 | sdk/src/links.ts:375-383 | the loop reads the big-endian number of eight bytes |
| LinkObjects.FillFromHex | sdk/src/links.ts:288-298 | fills an array with the bytes of a hex text of the expected length, or throws |
| Wire.UintRoundTrip | sdk/src/links.ts:304-383 | an integer written in k bytes reads back, leaving what follows |
| Wire.OptionalBytes32RoundTrip | sdk/src/links.ts:270-277 | a tagged optional hash reads back in lower case, leaving what follows |
| Wire.AddressRoundTrip | sdk/src/links.ts:329-387 | every address that is written, in hex or in ICAP form, reads back checksummed, whatever the checksum is |
| Wire.AddressWritesIff | sdk/src/links.ts:329-331 | an address text is written as the bytes it stands for, and exactly when it is accepted and stands for twenty |
| WireReads.ReadUintIff | sdk/src/links.ts:359-383 | of any bytes, a number is read exactly from its k big-endian bytes, leaving what follows |
| WireReads.ReadStrIff | sdk/src/links.ts:393-398 | of any bytes, a text is read exactly from its two length bytes and itself |
| WireReads.ReadAddressIs | sdk/src/links.ts:385-387 | any twenty bytes are read, as the checksummed text of that address; fewer are refused |
| WireReads.ReadOptionalStrIff | sdk/src/links.ts:266-268 | an optional text is read behind the tag 1 only; behind any other tag there is none and nothing more is taken |
| WireReads.ReadOptionalBytes32Iff | sdk/src/links.ts:275-277 | the same for an optional hash, which takes 32 bytes |
| WireReads.ReadOptionalUint64Iff | sdk/src/links.ts:284-286 | the same for an optional time, which takes eight bytes |
| WalletHandoffRuns.SuccessHistory | sdk/src/wallet-handoff.ts:303-559 | behind financial success, whatever the validators accept: the prepared sender signed strictly before expiry by the call's clock reading, or its own time if none was given; later a CONFIRMED submission with a hash on the handoff's network, the last one recorded; later the last step that changed the record, a verified, reconciled, matched receipt for the same hash |
| WalletHandoffRuns.SuccessIffEarned | sdk/src/wallet-handoff.ts:424-559 | success is reported if and only if the network asked about is the handoff's and such a receipt step was the last to change the record |
| WalletHandoffRuns.RejectionIsFinal | sdk/src/wallet-handoff.ts:270-502 | along every run the terms never change, the transaction stays on the handoff's network, errors only grow and repeat no code; a rejected or expired authorization stays so, FAILED and never SIGNED or SETTLED |
| WalletHandoffEffects.RejectionRecorded | sdk/src/wallet-handoff.ts:330-360 | in a run every rejection, direct or by a submission, whatever was signed before, leaves REJECTED with its reason, WALLET_REJECTED, FAILED and no verification |
| WalletHandoffEffects.NothingAfterRejection | sdk/src/wallet-handoff.ts:303-559 | from then on nothing can be authorized, submitted or verified, and no report is valid |
| WalletHandoffEffects.RejectSucceedsIff | sdk/src/wallet-handoff.ts:330-360 | a direct rejection succeeds on every record that the schema accepts, unless it refuses what would be left |
| WalletHandoffEffects.PrepareIff | sdk/src/wallet-handoff.ts:201-256 | when preparation succeeds, and the record it returns |
| WalletHandoffEffects.AuthorizeIff | sdk/src/wallet-handoff.ts:303-326 | an authorization succeeds exactly on a record that its schema accepts and that awaits it, before expiry, by the prepared sender, if the schema accepts the signed record, which it returns |
| WalletHandoffEffects.ExpireIs | sdk/src/wallet-handoff.ts:270-301 | expiring kills the handoff exactly from expiry on, before a transaction is submitted or rejected and once; otherwise it returns the record, or throws if a time does not parse |
| WalletHandoffEffects.SubmitIff | sdk/src/wallet-handoff.ts:362-422 | a submission that the wallet did not reject is recorded exactly if it is admitted and the schema accepts the record, whose status fields follow from the transaction's |
| WalletHandoffEffects.SubmitRejectedIff | sdk/src/wallet-handoff.ts:362-422 | and one that it rejected exactly if it is admitted and the schema accepts both the record with the transaction and that of the rejection |
| WalletHandoffEffects.ReceiptIff | sdk/src/wallet-handoff.ts:424-502 | a receipt is recorded exactly if it fits the handoff, the confirmed transaction and its hash, and the schema accepts the record, whose status fields follow from the receipt's |
| WalletHandoffEffects.ReportIs | sdk/src/wallet-handoff.ts:504-559 | every field of the report on any record, and when it throws |
| WalletHandoffRuns.SignOrExpire | sdk/src/wallet-handoff.ts:270-326 | wherever a run awaits the signature, whatever the validators accept, with the signing time as clock if none is given: before expiry the prepared sender's signature is recorded unless the schema refuses that record, and expiring changes nothing; from expiry on signing is refused and expiring kills the handoff unless the schema refuses; an unparsable clock reading makes both throw |
| WalletHandoffRuns.AwaitingIsUntouched | sdk/src/wallet-handoff.ts:201-502 | a handoff still awaiting its signature is exactly as prepared |
| WalletHandoffRuns.RunKeeps | sdk/src/wallet-handoff.ts:186-502 | in every state of every run the four status fields are consistent, the record passes its schema, and network, prepared request and expiry are those prepared |
| WalletHandoffRuns.StepErrors | sdk/src/wallet-handoff.ts:171-173 | each operation extends the error list without repeating a code |
| WalletHandoffRuns.FindSubmission | sdk/src/wallet-handoff.ts:362-422 | a CONFIRMED record goes back to a submission of the same hash after which no submission was recorded |
| WalletHandoffRuns.FindSignature | sdk/src/wallet-handoff.ts:303-326 | what a signed record says goes back to an authorization by the prepared sender whose clock reading, or signing time if none was given, was strictly before expiry |
| WalletHandoffRuns.SignedInTime | sdk/src/wallet-handoff.ts:303-326 | in a run without explicit clock readings for authorizations, the recorded signing time is strictly before expiry |
| WalletHandoffRuns.LateSignatureRecorded | sdk/src/wallet-handoff.ts:303-326 | with a clock reading before expiry, a signature dated after expiry is recorded; without one it is refused |

## Left out

- Exactly once across a crash: an event recorded but not applied is lost, as in the code; `AppliedAtMostOnce` accounts for it. `AppliedExactlyOnce` is about runs in which no handler is dropped.
- Settlements handled before their provisioning event: they change nothing, and no convergence is claimed for them.
- Aliasing of stream objects: states in the store are values; a tick's assignment to a stored object is its own operation, and changing `workflowId` through an alias is not modelled.
- The memory-only store: the gateway is modelled on the durable one; without files nothing survives a restart.
- Enumeration order of a workflow's set: queries through the index are compared with scans as multisets.
- Backfill's query and sort: any sequence of deliveries is covered, whatever order they come in.
- Getters that filter and sort the event table, and the read-side filters: plain filtering of a table whose contents are proved.
- Network, RPC transport, webhooks, Ed25519, EIP-712, contract addresses and ABI coding, Express and HTTP: library code and I/O.
- Partial file writes: each write of the snapshot and each appended line happens or does not.
- Address checksums and keccak, the check digits and base-36 arithmetic of ICAP: which letters are upper case, which texts are ICAP addresses and what bytes they stand for are arbitrary functions.
- JSON-schema validators and the operation registry: arbitrary predicates and an arbitrary lookup result.
- The canonical-record checks and the request-building wrappers around the wallet handoff: field copying.
- Version and kind strings of links: they are types here, so their checks cannot fail.
- UTF-8 in link texts: strings in payloads are byte sequences.
- Numbers above 2^53 in links: integers are exact, so the rounding of a 64-bit number to a floating-point one is not modelled.
- The base64 decoder of Node: any decoder that reads what the encoder writes; the one modelled is `atob` of the browser fallback, white space included.
- Legacy JSON tokens and the parsing of URLs: only which texts are taken for which kind of token is modelled.
- Letter case: lower-casing is that of ASCII letters.
- Floating point: the rate limiter and the gateway's clock are over reals, the timer over integers.
- RateLimiter.WindowBound: needs non-negative settings and a clock that does not go back, as does every bound on the bucket.
- Timer: stopping and starting again inside a callback is not modelled, and the constructor's rejection of a non-positive interval is a precondition.
- In recovery, the provider's log decoding and the order of its asynchronous reads: a chain is fixed during the scan. A hub address in ICAP form that stands for more than twenty bytes is passed on to the provider.
- The saturating allowance of a RailsCard, `MemoryNonceCacheAdapter` beyond its map, `currentNonce`, and the provider pool's subscriptions and shutdown: single expressions, or calls into the RPC library.
- The vault contracts and the delegated runtime package are not part of this model.
