# Verified model of komon

A Dafny model of the stateful parts of the Go library `komon`: the distributed lock (`dlock`), claim-once
(`idempotency`), the Redis cache (`cache`), log masking (`logger`) and offset pagination (`pagination`).
`dafny verify dfyconfig.toml` checks the whole project.

Redis is one linearizable key-value store with a clock (`Redis.dfy`): each command is one atomic function of
the database, generic in the stored values, and an item whose expiry is reached is absent for every command.
On top of it:

| file | what it holds |
|---|---|
| `LockProtocol.dfy` | the lock as a state machine: every atomic action of `acquire`, `Unlock` and `Close` is a step, a run is any sequence of steps of any number of lockers |
| `LockSafety.dfy` | theorems about all runs: exclusion, no lost update, foreign entries, when `Unlock` returns nil |
| `LockDelays.dfy` | the lock when commands arrive late: for how many attempts exclusion survives |
| `LockSlots.dfy` | the locker's own map: the discipline under which it tells the truth, where exactly that ends, and `Close` under races |
| `Locker.dfy` | the Go object: mutable map and flag, methods action by action with interference in between, proved to perform runs of the state machine |
| `Idempotency.dfy` | claims over time, the key layout, the `Store` object |
| `CacheOptions.dfy` | ttl options and jitter over the reals, the `Options` object |
| `CacheCommands.dfy`, `Pipelines.dfy` | the pipelines of the writers, and "no immortal key" over every interleaving of them |
| `Counters.dfy` | fixed and sliding window counters over timed runs, the rate limit |
| `Lifetimes.dfy` | what each writer leaves in Redis, and until when |
| `Bulk.dfy`, `Hashes.dfy` | aligned decoding into the heap, round trips, hash overlay and sorted reads |
| `CacheClient.dfy` | the cache's methods with their loops, on a mutable server with open network outcomes |
| `PatternDelete.dfy` | SCAN and batched DEL with other clients running in between |
| `Masking.dfy`, `GoValues.dfy`, `Logger.dfy` | masking as a tree transformation and its laws; the maps and slices on the heap that hold the trees; the logger object, its masking loops and its builder chain |
| `Pagination.dfy` | page arithmetic and the partition of the data |

## How interleavings are modelled

In the lock, a step that is not enabled changes nothing, so every sequence of steps is a run and a theorem
about `Replay(w, run)` for all `run` speaks of every interleaving. The methods of `Locker.RedisLocker` log the
step they perform; `Interfere`, whose contract allows any number of steps of other operations, stands between
any two of them. Their contracts then say that the code and its environment together performed a run in which
this call ended with the outcome it returns. Any number of lockers on one `Cluster` stay valid together.
`Idempotency.Store` and `PatternDelete` use the same pattern.

What is assumed of the libraries: redsync draws a fresh value per acquire (modelled by the identity of the
acquire), sets it with one SET NX PX per attempt, takes it back by compare-and-delete after a failed attempt,
makes at most `tries` attempts, and reports an unlock of an absent key as expired and of a foreign one as an
error or as not done. Any command may not reach Redis, or be applied and lose its reply;
`LockDelays` adds commands that arrive late. SCAN returns matching
keys, ends, and by then has returned every matching key that was present at every moment of the iteration.
MULTI/EXEC is atomic, a plain pipeline is not. Decoding undoes encoding. Range of a sync.Map visits every entry
that stays from its beginning to its end.

## Where the code does not meet what its documentation suggests

- An `Unlock` of an id whose acquire is still in flight on the same instance removes the placeholder
  (dlock/redis.go:118-126). A second acquire then gets in, loses in Redis, and deletes the first one's mutex
  (dlock/redis.go:101). `UnlockBoundary` shows that this is exactly when `Unlock` breaks the map;
  `UnlockInFlightLosesTheLock` is a run that ends with a held lock that cannot be released.
- With an empty prefix and an empty id the real mutex has an empty name and is taken for a placeholder
  (dlock/redis.go:123): `UnlockAfterWin`, `EmptyKeyLosesTheLock`.
- `ApplyJitter` truncates, so 1ns can become 0, and SET with 0 has no expiry at all: `SetMultiple` is safe for
  all draws exactly from 2ns on (`SetMultipleIsSafe`). `WithTTLJitter` of 1ns can become the 24h default, so
  the ±10% promise holds exactly from 2ns on (`JitterComposition`).
- The default key layout of `idempotency` is ambiguous when a topic contains a colon: `TopicsCollide` says
  exactly which topics can collide, `KeyCollisions` which messages.
- `HMGetPipelined` ignores a miss reported by `Exec` (cache/redis.go:391), and `Exec` reports the first failing
  command. With a key of another type and a miss in one request the outcome depends on map iteration order
  (`HMGetOrderMatters`).
- `SkipSource` does not remove a source that an earlier log call wrote into the logger (logger/logger.go:278-284):
  `SkipKeepsOldSource`.
- `WithContext`, `WithStack`, the service name and the source are not masked, and the frames of a stack are no
  container that masking recognises, so their keys (tracer/stack.go:8-10) never are. Redacted fields stay redacted
  exactly if none of these eight keys is among them: `RawKeysAreNotRedacted`.
- redsync uses one value for all attempts of a call. A release that arrives late can delete the entry of a later
  attempt, and then exclusion fails; it holds exactly for acquires of one attempt: `DelayBoundary`.
- An acquire that was already past the closed check can store its mutex after `Close` emptied the map:
  `EntryStoredAfterClose`; `MapAfterClose` says exactly when.
- Two full windows could admit 2L calls within one ttl, but the bound is 2L - 1: the call that opens a window
  is a full ttl before the next window (`RateLimit`, `RateLimitIsTight`).

## Model

| member | source | states |
|---|---|---|
| LockSafety.Exclusion | dlock/redis.go:70-139 | over any run of any number of lockers, whatever callers do, two critical sections on one Redis key never overlap; a section ends at an Unlock of its id on its instance or ttl after the acquire began |
| LockDelays.ExclusionWithOneAttempt | dlock/redis.go:94-111 | exclusion holds also when commands given up by their callers arrive at any later time, if every acquire makes one attempt, as TryLock does |
| LockDelays.DelayBoundary | dlock/redis.go:94-115 | with late commands and two lockers on one prefix, exclusion holds in all runs whose acquires make at most T attempts if and only if T is at most 1 |
| LockDelays.TwoAttemptsFail | dlock/redis.go:94-115 | a run in which the late release of a first attempt deletes the entry of the second, and two acquires are inside their sections at once |
| LockSafety.NoLostUpdate | dlock/redis_test.go:267-305 | workers that read and write a shared counter only inside their sections lose no update: the counter equals the number of completed sections after every run |
| LockSafety.ForeignEntriesSafe | dlock/redis.go:94-139 | an entry disappears or changes only when its own expiry passes or by a step acting for the acquire that wrote it, even under undisciplined Unlock and Close |
| LockSafety.UnlockReportsTheTruth | dlock/redis.go:128-138 | an Unlock that reached redsync returns nil exactly when its own entry was still there and Redis answered, ErrLockExpired exactly when the key was gone, and otherwise not held or an error; it deletes its own entry exactly if it reached Redis, and nothing else |
| LockSafety.UnlockInTimeSucceeds | dlock/redis.go:117-139 | an Unlock that found its mutex and is answered before ttl after the acquire began returns nil and frees the key, in any run |
| LockSafety.LockFreesItself | dlock/redis.go:86-99 | what blocks a key belongs to an acquire of that key and is gone once that acquire's ttl has passed |
| LockSafety.SectionBegins | dlock/redis.go:94-106 | a section begins exactly when an acquire that won returns within its ttl |
| LockSafety.SectionEnds | dlock/redis.go:117-139 | a section ends exactly by an Unlock of its id on its locker or when ttl has passed since the acquire began |
| LockSafety.ReadThenWrite | dlock/redis_test.go:267-305 | a worker that reads and writes inside its section adds one to the counter and one, itself, to the completed sections |
| LockSafety.InvNext | dlock/redis.go:70-155 | every step of the protocol keeps: entries carry the token of an acquire of that key and outlive its ttl, named mutexes belong to successful acquires, owners have their entry in Redis |
| LockSlots.SlotTellsTheTruth | dlock/redis.go:81-105 | in every polite run an id of an open locker is free, or has exactly one acquire in flight, or is held by exactly one acquire, and the map says which |
| LockSlots.UnlockReachesTheToken | dlock/redis.go:117-128 | in a polite run an Unlock of a held id goes to Redis with the token of the acquire that holds it |
| LockSlots.FailedAcquireRestoresSlot | dlock/redis.go:100-103 | a failed acquire leaves its slot free, as it found it, and touches no other |
| LockSlots.UnlockAfterSuccessIsPolite | dlock/port.go:30-33 | unlocking only what was acquired and not unlocked yet is polite |
| LockSlots.SlotInvNext | dlock/redis.go:70-155 | every polite step keeps the map truthful |
| LockSlots.UnlockBoundary | dlock/redis.go:118-126 | an Unlock keeps the map truthful if and only if no acquire has the id reserved on the locker |
| LockSlots.UnlockAfterWin | dlock/redis.go:122-126 | a lock just acquired can be released if and only if its Redis key is not empty |
| LockSlots.EmptyKeyLosesTheLock | dlock/redis.go:66-126 | a run in which an acquire with an empty key wins and no Unlock reaches its lock |
| LockSlots.UnlockInFlightLosesTheLock | dlock/redis.go:101-126 | a concrete run after which a held lock can no longer be unlocked |
| LockSlots.EntriesAfterClose | dlock/redis.go:141-155 | an entry still in the map when a Close that won has returned belongs to an acquire that was past the closed check and not back at its compare-and-swap |
| LockSlots.ClosedMapBoundary | dlock/redis.go:81-105 | the map of a closed locker holds an entry now or in some continuation if and only if it holds one now or has an acquire that is before its reservation, can still win or has won |
| LockSlots.MapAfterClose | dlock/redis.go:141-155 | after a Close that won has returned this is the only way to an entry, all such acquires were in flight at its compare-and-swap, and if none was, the map is empty for ever |
| LockSlots.EntryStoredAfterClose | dlock/redis.go:71-105 | a run in which an acquire stores its mutex after Close emptied the map and returned |
| LockSlots.AcquireAfterClose | dlock/redis.go:71-73 | an acquire that starts on a closed locker returns ErrClosed and none of its steps touches Redis or the map |
| LockSlots.ClientClosedAtMostOnce | dlock/redis.go:141-155 | over any run, with any number of Close calls on a locker in any interleaving, at most one gets past the compare-and-swap; the client is closed at most once, when that one returns and only if owned |
| LockSlots.LosingClose | dlock/redis.go:142-144 | a Close of a closed locker returns at once and changes no locker, client or Redis; no step of it does after any continuation |
| Locker.RedisLocker.Acquire | dlock/redis.go:70-107 | with any interference, the call ends as an acquire of a run of the protocol with the outcome it returns; on success its mutex is in the map, after a failure in Redis the slot is free and the error is the context's if the context is done, otherwise ErrNotAcquired for a taken key or exhausted tries, otherwise redsync's; its section counts from the beginning of the call; closed or a ttl of 0 or less is refused without touching anything, and otherwise it is refused, with ErrNotAcquired, exactly if LoadOrStore found the slot occupied |
| Locker.RedisLocker.TryLock | dlock/redis.go:109-111 | all that Acquire states, with one attempt whatever the configured tries |
| Locker.RedisLocker.Lock | dlock/redis.go:113-115 | all that Acquire states, with at most the configured attempts |
| Locker.RedisLocker.Redsync | dlock/redis.go:94-99 | at most `tries` attempts, each lost one followed by a release, sent over the network in that order; it gives up no earlier than told to and ends won or lost with the reason of its last attempt |
| Locker.RedisLocker.Unlock | dlock/redis.go:117-139 | with any interference, the call ends as an unlock of a run of the protocol with the outcome it returns: nothing or a placeholder in the slot is ErrLockNotHeld and leaves Redis alone, otherwise nil, ErrLockExpired, ErrLockNotHeld or an error by what Redis holds when the release arrives |
| Locker.RedisLocker.Close | dlock/redis.go:141-155 | with any interference, the one Close that flips the flag drops entries one at a time, leaves only those of acquires in flight at the flip, and closes an owned client once; any other changes nothing |
| Locker.OthersKeep | dlock/redis.go:70-155 | no number of steps of other operations moves an acquire, an unlock or a close in progress |
| Locker.ObjectsExclude | dlock/redis.go:70-139 | exclusion holds of the objects, whatever their methods and environment did |
| Idempotency.WinsApart | idempotency/redis.go:63-71 | successive wins on a key are at least the earlier claim's ttl apart, also when the earlier one was applied and its reply lost |
| Idempotency.AtMostOneWinPerTtl | idempotency/redis.go:63-71 | with all ttls on a key at least T, a span D of any run contains at most D/T + 1 wins on it |
| Idempotency.ClaimWins | idempotency/redis.go:63-71 | an answered claim wins if and only if the ttl of every earlier claim that set the key has passed |
| Idempotency.Store.TryClaim | idempotency/redis.go:63-71 | a claim is reported exactly if its own SET NX found the key free and was answered, an error exactly if it was not answered; the key then holds for the ttl, and no other key changes; closed and bad ttl are refused before Redis |
| Idempotency.Store.Close | idempotency/redis.go:74-82 | the client is closed once |
| Idempotency.KeyCollisions | idempotency/redis.go:54-59 | two messages share a key exactly if they are equal or one topic continues with the colon and the beginning of the other's message ID |
| Idempotency.TopicsCollide | idempotency/redis.go:54-59 | two different topics never collide, on any message IDs, if and only if neither begins with the other and a colon |
| Idempotency.CollidingPair | idempotency/redis.go:54-59 | two messages of different topics with one key |
| Idempotency.DistinctMessagesHaveDistinctKeys | idempotency/redis.go:54-59 | topics without a colon never collide, nor do two topics of one message ID |
| Idempotency.KeyHasPrefix | idempotency/redis.go:54-59 | every key of a store begins with its prefix |
| Idempotency.StoresApart | idempotency/redis.go:54-59 | messages of two stores never share a key unless one prefix begins with the other |
| Idempotency.StoresCollide | idempotency/redis.go:54-59 | if one does, they share a key exactly if the messages would collide with the rest of the longer prefix as part of the topic |
| Idempotency.SameMessageTwoStores | idempotency/redis.go:54-59 | one message has the same key in two stores if and only if their prefixes are equal |
| Idempotency.OtherKeysUntouched | idempotency/redis.go:63-71 | a claim of one key never decides a claim of another |
| CacheOptions.LastTtlDecides | cache/options.go:73-101 | in any list of options the last one with a positive ttl decides the ttl, as given or jittered, whatever stands around it |
| CacheOptions.LastSerializerDecides | cache/options.go:103-116 | the last serializer option decides the serializer |
| CacheOptions.DefaultsStay | cache/options.go:73-116 | without such an option the cache's own ttl or serializer stays; a ttl of 0 or less is no such option |
| CacheOptions.ApplyOptions | cache/redis.go:96-104 | the call's options are all options applied in order to a copy; nil options are skipped |
| CacheOptions.GetExpire | cache/options.go:125-130 | the ttl set if it is positive and 24 hours otherwise, so positive whatever options ran |
| CacheOptions.JitterLaw | cache/options.go:83-101 | the jittered ttl is, cut off toward zero, the ttl plus its percentage times 2u - 1 for a draw u, with the given percentage if positive and 10% otherwise |
| CacheOptions.ApplyJitterLaw | cache/options.go:134-142 | the same for ApplyJitter with 10%; a ttl of 0 or less is left alone |
| CacheOptions.JitterNeverFallsBack | cache/options.go:83-101 | the jittered ttl is used as drawn for every draw if and only if its lower end is at least 1ns |
| CacheOptions.JitterKeepsPositive | cache/options.go:134-142 | ApplyJitter keeps a positive ttl positive for every draw if and only if it is at least 2ns |
| CacheOptions.JitterComposition | cache/options.go:83-153 | under the high-traffic preset, WithTTLJitter followed by ApplyJitter, a ttl stays within truncation error of 0.81 to 1.21 of the ttl for all draws if and only if the ttl is at least 2ns |
| Pipelines.NoImmortalKey | cache/redis.go:257-279 | on any database and for any key not immortal in it: after any interleaving of pipelines safe for the key, if it has no expiry it has one pending or lost it with a cut connection |
| Pipelines.EveryKeyExpires | cache/redis.go:408-434 | once all pipelines ran to their end there is a time after which no key is left but those immortal to begin with, those that lost their expiry with a connection and those written unsafely by others |
| Pipelines.HMSetIsSafe | cache/redis.go:415-432 | every key HMSetPipelined may create is given an expiry later in the pipeline |
| Pipelines.HSetIsSafe | cache/redis.go:474-478 | the same for HSet |
| Pipelines.SetMemberIsSafe | cache/redis.go:269-273 | the same for SetMember |
| Pipelines.CountersAreSafe | cache/redis.go:513-538 | the same for both counters |
| Pipelines.SetIsSafe | cache/redis.go:240-253 | Set always writes with an expiry |
| Pipelines.SetMultipleIsSafe | cache/redis.go:321-338 | SetMultiple writes with an expiry for all draws if and only if the ttl is at least 2ns |
| Pipelines.ZeroTtl | cache/redis.go:324-334 | a ttl truncated to 0 makes SET store an immortal key and EXPIRE delete the key |
| Pipelines.CutPipelineLeavesImmortalKey | cache/redis.go:474-478 | a connection cut between HSET and EXPIRE leaves an immortal key |
| Pipelines.ImmortalAfterCut | cache/redis.go:415-432 | after HMSetPipelined, cut anywhere or not at all, a key of it is immortal if and only if just its HSET ran and it was absent or immortal, or none of its commands ran and it was immortal |
| Pipelines.HSetImmortalAfterCut | cache/redis.go:474-478 | the same for HSet |
| Lifetimes.SetLasts | cache/redis.go:240-253 | after Set the key answers with the bytes until the ttl has passed, and not after; other keys are as before |
| Lifetimes.SetMultipleLasts | cache/redis.go:321-338 | after SetMultiple each key answers with its last value until the ttl jittered for that value has passed, and not after |
| Lifetimes.SetMemberLasts | cache/redis.go:266-273 | after SetMember the set holds the old and the new members until the jittered ttl has passed, and not after |
| Lifetimes.HMSetLasts | cache/redis.go:415-432 | after HMSetPipelined each hash holds its fields overlaid until the ttl jittered for it has passed, and not after |
| Lifetimes.HSetLasts | cache/redis.go:465-478 | the same after HSet; other keys are as before |
| CacheCommands.PipedMeans | cache/redis.go:321-338 | a pipeline that arrives runs as a whole, of a cut one the commands sent run |
| Counters.FixedReplyIsRank | cache/redis.go:528-538 | IncrementFixed returns the rank of the call in its window, which ends at its first call plus that call's ttl |
| Counters.SlidingReplyIsChain | cache/redis.go:513-523 | Increment returns the length of the longest suffix of calls whose gaps are shorter than the previous call's ttl |
| Counters.RateLimit | cache/redis.go:525-538 | with a constant ttl, calls less than one ttl apart are admitted at most 2L - 1 times at limit L |
| Counters.RateLimitIsTight | cache/redis.go:525-538 | for every limit, every ttl from 2ns on and every database without the key there is a run that reaches the bound |
| Counters.CountersAreIndependent | cache/redis.go:513-538 | calls on one key do not change another |
| Bulk.DecodeAlignedBulk | cache/redis.go:168-219 | it succeeds if and only if the destination is good and every value is a miss or decodes; then one element per value, zero or nil for a miss and otherwise its decoding, pointers fresh and distinct; otherwise the error is that of the first bad value and the destination is unchanged |
| Bulk.DecodeAllMeans | cache/redis.go:193-217 | reading a reply succeeds if and only if every element is a miss or decodes, and the error names the first that does not |
| Bulk.MGetMeans | cache/redis.go:142-153 | MGET answers nil exactly for a key that is absent or is no string, the bytes of a string and the digits of a counter |
| Bulk.DecimalReadsBack | cache/redis.go:513-523 | the digits of a counter read back as its number |
| Bulk.SetMultipleThenGet | cache/redis.go:314-344 | after SetMultiple a key answers the bytes of the last value written to it, any other key what it did |
| Bulk.SetMultipleRoundTrip | cache/redis.go:142-153 | MGet after SetMultiple gives, in request order, the last value of each key written as an object and a miss for each key absent before and not written |
| Bulk.SetRoundTrip | cache/redis.go:235-253 | an object written by Set decodes to itself, strings and bytes come back raw |
| Hashes.LastFieldWins | cache/redis.go:465-472 | the hash holds the last value of each field and no other field, and nothing is written if a value fails to marshal |
| Hashes.OwnCommands | cache/redis.go:415-432 | at every moment of the pipeline a key of it holds what its own HSET and EXPIRE, as far as they ran, leave in it |
| Hashes.HMSetEffect | cache/redis.go:415-432 | after the pipeline each key holds its fields overlaid, or its value of another type, with a new expiry; nothing if the ttl was truncated to 0 |
| Hashes.HMSetAnyOrder | cache/redis.go:416-430 | the iteration order of the map of writes does not matter, for any key, ttl and draw |
| Hashes.HSetRoundTrip | cache/redis.go:439-481 | a written field reads back as its last value, other fields as before; a key of another type stays one |
| Hashes.HSetThenHGetAll | cache/redis.go:346-368 | HGetAll after HSet on any hash reads the fields written or there before: a written one as its last value, another as its old bytes decode; it succeeds if and only if those decode |
| CacheClient.HMSetThenHGetAll | cache/redis.go:346-434 | the same after HMSetPipelined, for every key it writes |
| CacheClient.HMSetThenHMGet | cache/redis.go:373-434 | after HMSetPipelined every pair asked for by HMGetPipelined is answered with the last value written to it, or as before if it was not written |
| Hashes.IncreasingIsUnique | cache/redis.go:360 | there is only one increasing order of the fields |
| Hashes.LessMeans | cache/redis.go:360 | the order of the fields is decided by the smaller character at the first difference, and a proper beginning comes first |
| Hashes.HMGetOrderMatters | cache/redis.go:384-393 | for any database and request: some order of its HGETs fails if and only if a key is not a hash; every order does if and only if moreover nothing is missing |
| Hashes.TwoOrders | cache/redis.go:384-393 | a request of which one order fails and another succeeds |
| CacheClient.Client.Set | cache/redis.go:240-253 | the key is written with the call's ttl exactly if the command reached Redis, nothing on a marshalling error, and the error is exact |
| CacheClient.Client.SetMultiple | cache/redis.go:314-344 | all values marshalled with the call's serializer and sent in order, each with the jitter drawn for it; nothing is sent if one fails to marshal; a cut connection leaves a prefix |
| CacheClient.Client.MGet | cache/redis.go:142-153 | the destination holds, per key in order, zero or nil for a miss and otherwise the decoded bytes; it fails exactly if the request is not empty and is not answered, the destination is bad or some bytes do not decode, and then the destination is unchanged |
| CacheClient.HighTrafficRoundTrip | cache/options.go:144-153 | with the preset on both sides MGet gives back what SetMultiple wrote, whatever serializers the two caches default to |
| CacheClient.Client.HSet | cache/redis.go:458-481 | the marshalled fields and a jittered expiry are sent, an error if and only if the connection is cut or the key is not a hash; nothing is sent if one fails to marshal |
| CacheClient.Client.HMSetPipelined | cache/redis.go:408-434 | each key with fields is written once, in some order; nothing is sent if any value fails to marshal; otherwise an error if and only if the connection is cut or one of the keys is not a hash |
| CacheClient.HMSetIsRejected | cache/redis.go:415-433 | a pipeline of hash writes reports a wrong type if and only if one of its keys held something else before it |
| CacheClient.Client.HGetAll | cache/redis.go:346-368 | the destination holds the decoded fields in increasing order; an absent hash is not found; the error is exact |
| CacheClient.Client.HMGetPipelined | cache/redis.go:373-404 | the result has exactly the pairs that are there; it fails if and only if, in the order sent, a key that is no hash comes before every miss |
| CacheClient.Client.SetMember | cache/redis.go:257-279 | the key names are added and the expiry set in one transaction, all or nothing; it fails exactly if it is not answered or the key is no set |
| CacheClient.Client.Increment | cache/redis.go:513-523 | count, database and error are those of the sliding counter for every fate of the command; an error returns 0 |
| CacheClient.Client.IncrementFixed | cache/redis.go:528-538 | count, database and error are those of the fixed-window counter for every fate of the command; an error returns 0 |
| PatternDelete.DeleteWithPattern | cache/redis.go:281-309 | with others writing: success means every matching key present throughout the scan was removed by one of the DELs after it; no other key is touched; a scan error deletes nothing; a DEL error leaves exactly the batches before it, and its own if only the reply was lost |
| PatternDelete.ScanAll | cache/redis.go:284-294 | the collected keys match and include every matching key present throughout; it stops at the first page that fails |
| PatternDelete.DeleteAll | cache/redis.go:295-303 | the batches are sent in order until the first that is not answered; those answered are deleted, and that one if only its reply was lost |
| PatternDelete.BatchesCover | cache/redis.go:295-299 | batches are consecutive, cover the list and are full except the last |
| PatternDelete.DeletionEffect | cache/redis.go:300-302 | each DEL removes its keys and leaves every other key as it was |
| Masking.MaskTwice | logger/logger.go:140-203 | masking with one field list and then another is masking once with both |
| Masking.MaskCommutes | logger/logger.go:140-203 | the order of two maskings does not matter and masking is idempotent |
| Masking.MaskDependsOnClasses | logger/logger.go:158-163 | two field lists mask alike if and only if they name the same keys up to case folding |
| Masking.MaskByFolding | logger/logger.go:153-167 | a value is redacted if and only if its key folds to what some field folds to, character by character; otherwise it is only masked inside |
| Masking.CaseIsIgnored | logger/logger.go:158-163 | writing a key in another case never changes what becomes of its value |
| Masking.PasswordInAnyCase | logger/logger.go:158-163 | the field "password" redacts the key "Password" |
| Masking.MaskCharacterised | logger/logger.go:140-203 | a value is the masked one if and only if every reachable sensitive key is redacted and everything else is kept |
| Masking.MaskKeepsTypes | logger/logger.go:193-198 | the type assertion on elements of a slice of maps never fails |
| Masking.MaskParamsIsMask | logger/logger.go:140-150 | parameters are masked like a nested Params value |
| Logger.Log.MaskParams | logger/logger.go:140-150 | the loop in any key order computes the masked parameters in fresh maps and slices; without redacted fields it returns its argument; the caller's objects are not written |
| Logger.Log.MaskValue | logger/logger.go:153-167 | the search over the fields and the recursion compute the masked value, in fresh objects; a key that folds to a field gives "[REDACTED]" |
| Logger.Log.MaskRecursive | logger/logger.go:170-203 | the loops in any order compute the masked value; every map and slice masking looks into is a fresh one in the result, and the caller's are not written |
| Logger.Log.WithParam | logger/logger.go:123-126 | a new logger with the value added under its key, redacted if the key folds to a field and otherwise masked inside, and all else as it was; it shares no map or slice with the caller unless there are no redacted fields; the receiver is unchanged |
| Logger.Log.WithParams | logger/logger.go:129-132 | a new logger with every parameter added in the same way, and all else as it was; the receiver is unchanged |
| Logger.Log.WithContext | logger/logger.go:97-113 | a new logger with the non-empty ids added; the receiver is unchanged |
| Logger.Log.SkipSource | logger/logger.go:135-137 | a new logger that adds no source; the receiver is unchanged |
| Logger.Log.Write | logger/logger.go:278-284 | the source is written into the logger itself unless it skips sources |
| Logger.ChainsAreRedacted | logger/logger.go:97-137 | along any chain of calls on a new logger everything but the five keys the package writes is redacted, and those hold nothing sensitive in a recognised container |
| Logger.RawKeysAreNotRedacted | logger/logger.go:78-284 | every chain of calls on every logger keeps its redacted fields out of the entry, its recognised containers and its stacks if and only if none of them is, up to case folding, a key the package writes: the five of the entry and the three of a stack frame |
| Logger.SkipKeepsOldSource | logger/logger.go:135-284 | after SkipSource a chain logs a source if and only if the logger had one, and then the old one |
| Pagination.Pagination.GetOffset | pagination/pagination.go:45-53 | a positive page and page size stay, others become 1 and 10, in place; the offset is that of the page and not negative |
| Pagination.Pagination.BuildResponseOffset | pagination/pagination.go:56-86 | the response describes the normalised page; TotalPage is the least number of pages that hold the total |
| Pagination.ItemOnOnePage | pagination/pagination.go:45-86 | every item is on exactly one of the pages 1 to TotalPage |
| Pagination.PagesReadEverything | pagination/pagination.go:26-86 | following NextPage while HasNext from page 1 ends and reads the whole data set in order |
| Pagination.ReadAll | pagination/pagination.go:26-86 | a caller that reads page 1 at the offset of GetOffset and follows NextPage while HasNext of the responses, with any page size, reads the whole data set in order |
| Pagination.DivTruncates | pagination/pagination.go:75 | the page count divides toward zero, for negative totals too |

## Left out

- Client construction, dialing, ping, Sentinel, OpenTelemetry (common/redis.go, tracer/otel.go): input and output only.
- fail/, common/pointer.go, tracer/request_id.go, tracer/stack.go and the source string of a log line: accessors and formatting.
- redsync, go-redis, logrus and the serializers are not part of this model; it assumes the contracts listed above, and no multi-master quorum.
- A command of the lock whose reply was lost is applied before the call goes on or never; one that arrives later is modelled in LockDelays for exclusion only.
- The clients round durations to whole milliseconds or seconds before they reach Redis; the model does not. For the lock and the claims read ttls as whole milliseconds, for the counters, whose EXPIRE is sent in seconds, as whole seconds.
- Retry timing, backoff, the drift factor and fairness of Lock: attempts succeed or fail in any way, at any time, up to the budget. An answer that comes after the validity window counts as lost.
- Locker.RedisLocker.Close: the entries visited are those of one snapshot taken after the flag flipped; sync.Map.Range may also visit entries stored later, which the steps of LockProtocol allow.
- 64-bit overflow and floating-point rounding: integers and reals are exact.
- Custom KeyBuilder functions of idempotency: any function of the caller's.
- The command INCR on a string of digits written by Set: counters are a kind of value of their own.
- Concurrent writers between the commands of one pipeline are covered by Pipelines and PatternDelete, not by the client object of CacheClient, whose pipelines run by themselves.
- Which error a cut pipeline reports when a reply before the cut was an error already: the model says transport.
- The client library's own retries of a command after a network error: a command is sent once.
- Get, GetInt, GetString, GetMember, HGet, Del, Exists, UnmarshalValue: one command each, easy members.
- The reflection checks of decodeAlignedBulk are one outcome, a bad destination.
- Glob matching of SCAN patterns: any predicate on keys.
- Nil maps and slices in log values: they are modelled as empty ones, which is what masking turns them into. Cyclic values are not modelled.
- WithStack: the stack is nil or any list of frames; the code adds the field also for a nil error. Other containers that masking does not recognise are opaque.
- The package variable that New overwrites and the output, format and level setters of logger.
- An Unlock for which redsync cannot reach Redis ends in one transport error; its text is not modelled.
