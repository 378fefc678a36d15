# A verified model of the idempotent proxy

The idempotent proxy forwards a request once per idempotency key and replays the answer to
everybody else who asks with that key. This project models its three stores, the protocol the
server builds on them, and the canister that pays for and dispatches proxied calls, and proves
what they keep.

| file | what it is |
|---|---|
| `Wrappers.dfy` | result types and bytes |
| `CacheStore.dfy` | the in-memory store as a value: map, expiry queue, what each operation does, when they agree |
| `MemoryCacher.dfy` | the in-memory store as the server keeps it: a class with both collections |
| `CacheRuns.dfy` | runs of that store over many keys, delayed cleaners and time |
| `Locks.dfy` | the same store one lock operation at a time, with handlers that are dropped |
| `Pollers.dfy` | the pollers among those tasks, each with its polling loop |
| `HalfCalls.dfy` | what a dropped handler leaves behind |
| `Deadlock.dfy` | when tasks wait for each other for ever |
| `Protocol.dfy` | any number of requests: leaders, followers, upstream, time, requests that give up |
| `Handler.dfy` | one request from start to end on the store in place |
| `Layers.dfy` | the protocol's runs are runs of calls on the store |
| `RedisStore.dfy`, `DurableObject.dfy` | the other two stores |
| `RedisProtocol.dfy` | the protocol over Redis |
| `Worker.dfy` | the worker's leaders and followers over its Durable Object |
| `Cycles.dfy` | prices: the u64/u128 code and the intended formula |
| `Sums.dfy` | sums over maps |
| `Ledger.dfy` | the canister's ledger in place, and every interleaving of calls, traps and admin steps |
| `ProxyCalls.dfy` | the three endpoints from first charge to reply |
| `CallRuns.dfy` | the endpoints are runs of the ledger's machine |
| `Tokens.dfy` | the token signing loop, and overlapping refreshes and admin updates |
| `TokenTiming.dfy` | when a stored token can be seen expired |
| `Masking.dfy` | field lists and the JSON, CBOR and header filters |

Every operation that the source performs by changing a collection is a method on a class, proved
against a function on the collection's value; the runs and protocols are about those functions.
Clocks never go backwards. A run is a sequence of steps, and the state after it is defined from
its last step back.

## What the proofs say about the code

Seven properties one might expect of the code do not hold of it. Each is stated with runs in which
it fails and the exact condition under which it holds.

- A `set` that finds its own entry expired drops the map entry and leaves the queue entry behind
  (`memory.rs:114-118`). Map and queue agree on a key all along exactly those runs that have no
  such `set` on the key (`CacheRuns.ExactThroughoutIff`).
- A key can be granted twice within one lease (`CacheRuns.LateSetBreaksExclusion`): exactly when a
  sweep meets its live entry and an older, due queue entry that describes nothing any more
  (`CacheRuns.ExclusionFailsIff`). Whether a lease can be cut short that way can be seen when it is
  granted (`CacheRuns.GrantStandsIff`).
- `set` and `del` do not check who holds the lock. After a finishing leader's call the key stays
  idempotent in every good continuation if and only if the leader finished before its own lock
  expired, or found nothing to act on (`Protocol.FinishKeepsPromiseIff`). A leader that is late with
  `del` releases its successor's lock (`Protocol.LateReleaseAdmitsTwo`).
- Over Redis the same holds, except that a late `set` is never harmless: refused, it is answered
  `Ok(false)`, which the handler does not look at, and the leader replies a response that nobody
  else will be given (`RedisProtocol.RefusedSetBreaks`, `RedisProtocol.RedisFinishKeepsPromiseIff`).
  Over the in-memory store that leader replies 502.
- A map entry can be without its queue entry, so that no sweep finds it by its own expiry: exactly
  when a handler is dropped while its `obtain` of a key without an entry waits for the queue's lock
  (`HalfCalls.CoveredThroughoutIff`, `HalfCalls.ClientGoesAway`).
- The cleaner takes the queue's lock and then the map's (`memory.rs:34-35`); everybody else takes
  them the other way round. The code can get stuck (`Deadlock.CodeCanGetStuck`), for good unless the
  caller's handler is dropped (`Deadlock.EmbraceIsForEver`), and only in that embrace
  (`Deadlock.StuckIff`); taking the cleaner's locks in the others' order removes it
  (`Deadlock.MapFirstNeverStuck`).
- A refresh of the agents' tokens writes back the whole list it started from, so one that started
  before an `admin_set_agents` and ends after it restores the old agents
  (`Tokens.RefreshUndoesAdmin`). An admin update lasts if and only if no such refresh is in flight
  when it is written (`Tokens.AdminUpdateLastsIff`). What holds of every run is that the stored list
  is one whole list (`Tokens.StoredListIsWhole`).

Further points where the code is not what its neighbours suggest: a poller of the in-memory store
serves an entry that has expired and has not been swept, one of Redis does not (`RedisStore.MemoryAndRedisAgree`); a follower in the worker that times out calls
`del` and so frees the key under its leader (`Worker.FollowerTimeoutFreesTheKey`), and a key is
forwarded again exactly when it is asked for first after a reset (`Worker.ForwardedIff`); u64
steps in the price formula wrap, and then undercharge (`Cycles.CodeChargesThePriceIff`).

## Model

| member | source | states |
|---|---|---|
| CacheStore.FirstExists | src/idempotent-proxy-server/src/cache/memory.rs:17-18 | the derived order of (expiry, key) pairs is total, so every nonempty finite queue has a first entry |
| CacheStore.LeMeaning | src/idempotent-proxy-server/src/cache/memory.rs:17-18 | that order: the earlier expiry first, then the key with the smaller character where the two part, or that ends there |
| CacheStore.ExactIsIndex | src/idempotent-proxy-server/src/cache/memory.rs:23-26 | map and queue agree on every key if and only if the queue is the set of (expiry, key) of the map |
| CacheStore.WriteKeepsExact | src/idempotent-proxy-server/src/cache/memory.rs:60-76 | replacing an entry and its queue entry keeps coverage and agreement of every key |
| CacheStore.DelKeepsExact | src/idempotent-proxy-server/src/cache/memory.rs:132-137 | `del` keeps coverage and agreement of every key |
| CacheStore.SetExactIff | src/idempotent-proxy-server/src/cache/memory.rs:109-130 | `set` breaks agreement on a key exactly when it is on that key and takes the expired branch |
| CacheStore.SetKeepsCovered | src/idempotent-proxy-server/src/cache/memory.rs:109-130 | every branch of `set` keeps coverage |
| CacheStore.SweepKeepsCovered | src/idempotent-proxy-server/src/cache/memory.rs:33-43 | a sweep keeps coverage, whatever stale entries it meets |
| CacheStore.SweepKeepsExact | src/idempotent-proxy-server/src/cache/memory.rs:33-43 | on a key where both agree, a sweep keeps agreement and removes the key exactly when it has expired on the sweep's clock |
| CacheStore.SweepRestoresExactIff | src/idempotent-proxy-server/src/cache/memory.rs:33-43 | a sweep ends in full agreement if and only if every stale queue entry is due and takes no later entry of its key with it |
| CacheStore.SweepRemovesExactlyExpired | src/idempotent-proxy-server/src/cache/memory.rs:33-43 | with an exact queue a sweep on an old clock removes exactly what had expired then, and nothing that is still live |
| CacheStore.SweepRemovesLiveIff | src/idempotent-proxy-server/src/cache/memory.rs:33-43 | in general it removes a live entry if and only if a stale queue entry of that key is due |
| CacheStore.ObtainRefinesCell | src/idempotent-proxy-server/src/cache/memory.rs:50-78 | `obtain` is the absent/pending/ready cell's `obtain` on its own key and nothing on any other |
| CacheStore.SetRefinesCell | src/idempotent-proxy-server/src/cache/memory.rs:109-130 | `set` is the cell's `set`, refused in both or in neither |
| CacheStore.DelRefinesCell | src/idempotent-proxy-server/src/cache/memory.rs:132-140 | `del` empties its own cell and no other |
| CacheStore.SweepRefinesCell | src/idempotent-proxy-server/src/cache/memory.rs:29-45 | a sweep on any earlier clock cannot be seen through a key on which both collections agree |
| MemoryStore.MemoryCacher.constructor | src/idempotent-proxy-server/src/cache/memory.rs:22-26 | a new store is empty |
| MemoryStore.MemoryCacher.PopFirst | src/idempotent-proxy-server/src/cache/memory.rs:36 | removes and returns the first queue entry in the derived order |
| MemoryStore.MemoryCacher.CleanExpiredValues | src/idempotent-proxy-server/src/cache/memory.rs:36-43 | the pop loop ends and amounts to a filter: the queue keeps what is later than the clock, the map loses exactly the keys with a due entry |
| MemoryStore.MemoryCacher.Obtain | src/idempotent-proxy-server/src/cache/memory.rs:50-78 | the in-place `obtain`, both collections and the answer, equals its specification |
| MemoryStore.MemoryCacher.LookUp | src/idempotent-proxy-server/src/cache/memory.rs:87-99 | one look of a poller: what it finds, and that it spawns a cleaner exactly on an expired entry |
| MemoryStore.MemoryCacher.Set | src/idempotent-proxy-server/src/cache/memory.rs:109-130 | the in-place `set` with its three outcomes, and that only the expired branch spawns a cleaner |
| MemoryStore.MemoryCacher.Del | src/idempotent-proxy-server/src/cache/memory.rs:132-137 | the in-place `del` equals its specification |
| MemoryStore.PollOutcomeMeaning | src/idempotent-proxy-server/src/cache/memory.rs:86-106 | the first look that is not pending decides; a timeout means that every look was pending |
| MemoryStore.PollingGet | src/idempotent-proxy-server/src/cache/memory.rs:80-107 | the polling loop stops at the first decisive look, makes at most `counter` looks, and all of them before a timeout |
| CacheRuns.AlwaysCovered | src/idempotent-proxy-server/src/cache/memory.rs:28-140 | in every run of whole calls and sweeps each map entry has its queue entry |
| CacheRuns.StepExactIff | src/idempotent-proxy-server/src/cache/memory.rs:28-140 | one step keeps agreement on a key if and only if it is not a late `set` on that key |
| CacheRuns.ExactThroughoutIff | src/idempotent-proxy-server/src/cache/memory.rs:28-140 | agreement on a key holds all along a run if and only if the run has no late `set` on that key, whatever other keys do |
| CacheRuns.LateSetLeavesOne | src/idempotent-proxy-server/src/cache/memory.rs:114-118 | a late `set` on a key where both agree leaves its old queue entry, alone, and no map entry |
| CacheRuns.NextDueSweepRestores | src/idempotent-proxy-server/src/cache/memory.rs:33-43 | unless the key is obtained again, that leftover stays until the first sweep whose clock has reached it and then nothing of the key is left, whatever happens on other keys; agreement is back exactly then |
| CacheRuns.StepRefinesCell | src/idempotent-proxy-server/src/cache/memory.rs:50-140 | a step of the store is a step of each agreeing key's cell |
| CacheRuns.RunRefinesCell | src/idempotent-proxy-server/src/cache/memory.rs:50-140 | in runs without a late `set` on a key the store is, at that key, a lone expiring cell; cleaners and other keys cannot be seen |
| CacheRuns.LeaseHeld | src/idempotent-proxy-server/src/cache/memory.rs:50-140 | a granted lease stands in the map until a `del`, an eviction, or its expiry as `set` has moved it |
| CacheRuns.ExclusionFailsIff | src/idempotent-proxy-server/src/cache/memory.rs:28-140 | within a lease and without `del`, the next caller is granted the key if and only if a sweep has met its live entry together with a due stale queue entry of that key |
| CacheRuns.Exclusion | src/idempotent-proxy-server/src/cache/memory.rs:50-140 | so in runs without a late `set` on the key two successful `obtain` calls are separated by a `del` or by the expiry as it then stood |
| CacheRuns.GrantStandsIff | src/idempotent-proxy-server/src/cache/memory.rs:50-78 | seen at the grant: the lease stands in every continuation that neither deletes nor sets the key if and only if the queue holds no stale entry of the key that expires before the lease |
| CacheRuns.LateSetBreaksExclusion | src/idempotent-proxy-server/src/cache/memory.rs:114-118 | a run with such a sweep, in which a lease of 100 ms is granted twice at the same moment |
| Locks.PiecesMakeTheCall | src/idempotent-proxy-server/src/cache/memory.rs:50-140 | what a call does before and after it takes the queue's lock adds up to the whole call at the moment it read the clock, answer included |
| Locks.StepKeepsLocks | src/idempotent-proxy-server/src/cache/memory.rs:28-140 | every lock is held by the task that thinks so, and writers exclude readers: one step |
| Locks.LocksAlwaysAgree | src/idempotent-proxy-server/src/cache/memory.rs:28-140 | the same in every run, with the cleaner's locks in either order |
| Locks.AlwaysPossible | src/idempotent-proxy-server/src/cache/memory.rs:28-140 | new tasks and time are never held up, and a task at its end stays there |
| Locks.OnlyMapHolderWrites | src/idempotent-proxy-server/src/cache/memory.rs:35-42 | both collections change only in the hands of the task that holds the map's write lock |
| Locks.StepRefines | src/idempotent-proxy-server/src/cache/memory.rs:28-140 | a lock-level step leaves the visible store alone, or does to it exactly one whole call or one whole sweep |
| Locks.StepAnswers | src/idempotent-proxy-server/src/cache/memory.rs:50-140 | whoever decides in a step is to be told what the whole call answers at that moment, and no answer changes later |
| Locks.SpawnsIff | src/idempotent-proxy-server/src/cache/memory.rs:92-94 | a step starts a cleaner exactly when a poller or a `set` has met an expired entry, or a `del` ends |
| Locks.SampledAfterStart | src/idempotent-proxy-server/src/cache/memory.rs:32-35 | a cleaner reads its clock after it was started and before it sweeps, so its sweep reaches the entry that called for it |
| Locks.LockRunsRefineCalls | src/idempotent-proxy-server/src/cache/memory.rs:28-140 | every interleaving of lock operations in which no call is left half done is a run of whole calls with the same visible store |
| Locks.AnswersRefineCalls | src/idempotent-proxy-server/src/cache/memory.rs:50-140 | and each caller's answer is what its own call answers at its place in that run |
| Pollers.PollersFollowTheLoop | src/idempotent-proxy-server/src/cache/memory.rs:86-106 | in every run a poller leaves as the polling loop would over what it has found: it looks again while the entry is pending and it has looks left, and never hands out a pending entry |
| Pollers.StepLooks | src/idempotent-proxy-server/src/cache/memory.rs:87-100 | a poller that looks sees the visible store, since nothing is half done while it holds the map |
| Pollers.LooksRefineCalls | src/idempotent-proxy-server/src/cache/memory.rs:87-106 | what a poller finds is what the store holds at later and later moments of the run of whole calls |
| HalfCalls.DropAfterDecisionIff | src/idempotent-proxy-server/src/cache/memory.rs:50-140 | a handler dropped while its call waits for the queue keeps coverage exactly if the call is not an `obtain` of a key without an entry, and agreement exactly if it is a `set` or an `obtain` of an expired entry |
| HalfCalls.StepCoversIff | src/idempotent-proxy-server/src/cache/memory.rs:28-140 | one step at the level of locks keeps the visible store covered if and only if it is not the drop of such an `obtain` |
| HalfCalls.CoveredThroughoutIff | src/idempotent-proxy-server/src/cache/memory.rs:28-140 | all along a run each map entry has its queue entry if and only if no handler is dropped so |
| HalfCalls.ClientGoesAway | src/idempotent-proxy-server/src/cache/memory.rs:68-74 | such a drop is possible from the start, for every key |
| Deadlock.StuckIff | src/idempotent-proxy-server/src/cache/memory.rs:34-35 | with the coded order the stuck states are exactly those where a caller holds the map and waits for the queue and a cleaner the reverse |
| Deadlock.MapFirstNeverStuck | src/idempotent-proxy-server/src/cache/memory.rs:34-35 | with the cleaner's locks in the others' order no reachable state is stuck |
| Deadlock.EmbraceIsForEver | src/idempotent-proxy-server/src/cache/memory.rs:34-35 | once a caller and a cleaner wait for each other they do so in every continuation that does not drop the caller, and the store never changes again |
| Deadlock.DropFreesTheCleaner | src/idempotent-proxy-server/src/cache/memory.rs:34-35 | dropping the caller lets the cleaner go on |
| Deadlock.CodeCanGetStuck | src/idempotent-proxy-server/src/cache/memory.rs:32-35 | such a state is reachable: a `del` on an empty store spawns a cleaner, and an `obtain` meets it |
| Protocol.LockIsInTheMap | src/idempotent-proxy-server/src/handler.rs:137-144 | a leader whose lock has not expired leads the last epoch and its empty entry is the one in the map |
| Protocol.FinishKeepsInvIff | src/idempotent-proxy-server/src/handler.rs:198-223 | `set` or `del` by a finishing leader keeps the inductive invariant if and only if it comes before that leader's expiry or finds nothing to act on |
| Protocol.FinishKeepsPromiseIff | src/idempotent-proxy-server/src/handler.rs:198-223 | and so for the promise itself: after it, the key is idempotent in every continuation of timely or harmless finishes if and only if it was timely or harmless |
| Protocol.StaysIdempotent | src/idempotent-proxy-server/src/handler.rs:137-223 | from any state with the invariant, the key is idempotent after every run of timely or harmless finishes |
| Protocol.StepKeepsInv | src/idempotent-proxy-server/src/handler.rs:137-223 | every other step on any key, a late leader's on another key included, keeps the invariant |
| Protocol.RunKeepsInv | src/idempotent-proxy-server/src/handler.rs:137-223 | the invariant holds of a key after every run in which its finishing leaders are timely or harmless |
| Protocol.AlwaysPossible | src/idempotent-proxy-server/src/handler.rs:137-235 | requests come, time passes and cleaners run at any time, and a request can give up wherever it waits |
| Protocol.OneForwardOneAnswer | src/idempotent-proxy-server/src/handler.rs:137-223 | and so from the start: at most one forward per epoch, disjoint leases, one unexpired leader, one response per epoch, and nobody served from an epoch before the one that refused it |
| Protocol.AnswerIsReplayed | src/idempotent-proxy-server/src/handler.rs:139-165 | while an answer is live a new request is refused the lock, its first look serves that answer, and nobody leads |
| Protocol.SlowLeaderIsReachable | src/idempotent-proxy-server/src/handler.rs:186-206 | a good run that ends with a refused leader whose lock has expired and passed to another request |
| Protocol.LateReleaseAdmitsTwo | src/idempotent-proxy-server/src/handler.rs:222-223 | that leader's `del` then lets a third request lead beside the second |
| Handler.Proxy | src/idempotent-proxy-server/src/handler.rs:137-235 | one request on the store in place: forwarded exactly when the key is free; 200 to 500 is stored and replied, later answers become 502, above 500 releases the key, no reply leaves it locked |
| Handler.LeaderEndMeaning | src/idempotent-proxy-server/src/handler.rs:167-235 | what a leader replies and leaves in the store, by status: 200 to 500 within the lease is replied and stored, later is answered 502; any other status is passed on and frees the key; no reply is answered 502 and leaves the lock |
| Handler.FollowerOutcomeMeaning | src/idempotent-proxy-server/src/handler.rs:145-164 | a follower replies exactly an answer it can decode; everything else is answered 502 |
| Handler.ProxyTwice | src/idempotent-proxy-server/src/handler.rs:137-235 | after a status from 200 to 500, asking again before the answer expires is not forwarded and gives the first response, whatever the upstream would say by then |
| Handler.ProxyAgain | src/idempotent-proxy-server/src/handler.rs:205-223 | after any other status, asking again is forwarded and gets its own answer |
| Handler.LeaderIsARun | src/idempotent-proxy-server/src/handler.rs:167-235 | from any state of the protocol a leader's part of the handler is a run of it, with the same store and the same outcome |
| Handler.LeaderAmongOthers | src/idempotent-proxy-server/src/handler.rs:167-235 | with anything happening between its moments, a leader ends as its own call on the store it then finds says; and within its lease, where the invariant holds, it replies what it heard |
| Handler.FollowerIsARun | src/idempotent-proxy-server/src/handler.rs:144-165 | a follower looks as often as the timeout has polling intervals, with anything happening in between, and ends as the polling loop says of what it found |
| Layers.ProtocolRunsAreStoreRuns | src/idempotent-proxy-server/src/handler.rs:137-223 | the protocol makes nothing but calls on the store: after every run its store is that of the run of calls |
| Layers.LocksServeTheProtocol | src/idempotent-proxy-server/src/handler.rs:137-223 | when the calls made under the locks are those of a good run, in whatever interleaving, the visible store is the protocol's, the key is idempotent, and callers and pollers are told what the store of that run says |
| RedisStore.RedisClient.Obtain | src/idempotent-proxy-server/src/cache/redis.rs:55-68 | SET NX PX with the marker `[0]` |
| RedisStore.RedisClient.Set | src/idempotent-proxy-server/src/cache/redis.rs:96-109 | SET XX PX; refused when the key does not exist |
| RedisStore.RedisClient.Del | src/idempotent-proxy-server/src/cache/redis.rs:111-115 | DEL |
| RedisStore.RedisClient.Get | src/idempotent-proxy-server/src/cache/redis.rs:79 | a value exactly when the key is there and has not expired, and then the one stored last |
| RedisStore.PollingGet | src/idempotent-proxy-server/src/cache/redis.rs:70-94 | the loop's answer, refusal and timeout, each exactly when the looks up to it were single-byte markers |
| RedisStore.RedisStepRefinesCellIff | src/idempotent-proxy-server/src/cache/redis.rs:55-115 | a Redis command is the cell's step if and only if it does not store a single byte |
| RedisStore.RedisRunRefinesCell | src/idempotent-proxy-server/src/cache/redis.rs:55-115 | Redis is the cell over every run that stores no single byte |
| RedisStore.MemoryAndRedisAgree | src/idempotent-proxy-server/src/cache/mod.rs:56-89 | after the same calls both stores are the same cell and answer the next `obtain` and `set` alike; pollers conclude alike if and only if memory holds no expired leftover |
| RedisProtocol.StepSimulates | src/idempotent-proxy-server/src/cache/redis.rs:55-115 | unless Redis refuses a `set`, a step of the protocol over Redis is a step of it over the in-memory store that holds what exists |
| RedisProtocol.RedisOneForwardOneAnswer | src/idempotent-proxy-server/src/handler.rs:137-223 | idempotency over Redis, from the start, when finishing leaders are timely or delete a key that does not exist |
| RedisProtocol.RefusedSetBreaks | src/idempotent-proxy-server/src/handler.rs:198-204 | a late leader whose `set` is refused replies Ok with a response that was never stored |
| RedisProtocol.RedisFinishKeepsPromiseIff | src/idempotent-proxy-server/src/handler.rs:198-223 | over Redis a finishing call keeps the key idempotent in every good continuation if and only if it comes before its lock expires or is a `del` of a key that does not exist |
| RedisProtocol.LateAnswerIsReachable | src/idempotent-proxy-server/src/handler.rs:186-204 | a good run to a leader about to be refused so |
| DurableObject.Cacher.constructor | src/idempotent-proxy-cf-worker/src/index.ts:149-156 | waking up takes the status from storage, a missing one as 0 |
| DurableObject.Cacher.Obtain | src/idempotent-proxy-cf-worker/src/index.ts:162-169 | granted exactly at status 0, and then memory and storage both say 1 |
| DurableObject.Cacher.Get | src/idempotent-proxy-cf-worker/src/index.ts:171-178 | throws at 0, pending at 1, the stored value at 2 |
| DurableObject.Cacher.Set | src/idempotent-proxy-cf-worker/src/index.ts:180-187 | unconditional: status, storage and alarm |
| DurableObject.Cacher.Del | src/idempotent-proxy-cf-worker/src/index.ts:189-195 | back to a new object |
| DurableObject.AlwaysValid | src/idempotent-proxy-cf-worker/src/index.ts:145-199 | in every run status equals stored `s` (missing as 0) and `v` is there exactly at status 2 |
| DurableObject.RebuildForgetsMemory | src/idempotent-proxy-cf-worker/src/index.ts:149-156 | an eviction forgets the status in memory and keeps storage and alarm |
| DurableObject.RebuildsAreInvisible | src/idempotent-proxy-cf-worker/src/index.ts:149-156 | a run with evictions anywhere ends where the run without them ends |
| DurableObject.GrantedIff | src/idempotent-proxy-cf-worker/src/index.ts:162-199 | `obtain` is granted if and only if nothing but rebuilds has happened since the last reset |
| DurableObject.OneObtainBetweenResets | src/idempotent-proxy-cf-worker/src/index.ts:162-199 | two granted `obtain` calls have a `del` or an alarm between them |
| DurableObject.GetReturnsLastSet | src/idempotent-proxy-cf-worker/src/index.ts:171-187 | `get` has a value exactly when one was set since the last reset, and it is the last one |
| DurableObject.AlarmStandsForTheValue | src/idempotent-proxy-cf-worker/src/index.ts:180-199 | in every run the alarm stands exactly at status 2, at the time of the last `set` |
| DurableObject.PollingGet | src/idempotent-proxy-cf-worker/src/index.ts:126-142 | the worker's loop: first look that is not pending decides, throwing on a reset key |
| Worker.WorkerRunsTheObject | src/idempotent-proxy-cf-worker/src/index.ts:82-122 | the requests of the worker make a run of calls on its object |
| Worker.AlwaysPossible | src/idempotent-proxy-cf-worker/src/index.ts:145-199 | requests, alarms and evictions can come at any time |
| Worker.ForwardedIff | src/idempotent-proxy-cf-worker/src/index.ts:82-98 | a request is forwarded if and only if nothing but rebuilds has reached the object since its last reset |
| Worker.LeaderEnds | src/idempotent-proxy-cf-worker/src/index.ts:94-122 | a leader stores and replies a status from 200 to 500; with any other status, or an exchange that fails, its `del` is on the way |
| Worker.ClearResets | src/idempotent-proxy-cf-worker/src/index.ts:115-120 | a `del` that arrives frees the key, whoever sent it, and is not sent again |
| Worker.FollowerEnds | src/idempotent-proxy-cf-worker/src/index.ts:84-91 | a follower is served exactly when it has a look left and finds a value it can decode, looks again exactly when it finds none yet, and otherwise has its `del` on the way |
| Worker.ServedIsStored | src/idempotent-proxy-cf-worker/src/index.ts:84-91 | in every run a follower that is served is given the response of the last `set` since the last reset |
| Worker.FollowerGivesUp | src/idempotent-proxy-cf-worker/src/index.ts:84-89 | a follower that finds the key pending as often as it may look ends with a `del` on its way, for every number of looks |
| Worker.FollowerTimeoutFreesTheKey | src/idempotent-proxy-cf-worker/src/index.ts:119-121 | so in every state with a leader waiting a follower's `del` can let a second request be forwarded beside it |
| Cycles.Calculator.CountRequestBytes | src/idempotent-proxy-canister/src/cycles.rs:24-33 | the loop counts url, body and each header's name, value and 3 |
| Cycles.Calculator.CountResponseBytes | src/idempotent-proxy-canister/src/cycles.rs:35-44 | likewise for responses, from 4 |
| Cycles.HeaderBytesAppend | src/idempotent-proxy-canister/src/cycles.rs:29-31 | the count of headers is additive over concatenation |
| Cycles.BytesInFigures | src/idempotent-proxy-canister/src/cycles.rs:24-44 | the texts, three for each header, and four for a response |
| Cycles.NoSubnetCountsNothing | src/idempotent-proxy-canister/src/cycles.rs:25-38 | without a subnet nothing is counted |
| Cycles.CostsInFigures | src/idempotent-proxy-canister/src/cycles.rs:46-74 | the charges in figures: per node 1.2 M and 2000 a byte; the fee, and per node and agent 4.06 M, 60 000 a node and 400 a byte; per node and agent 800 a byte; nothing without a subnet |
| Cycles.OneMoreByte | src/idempotent-proxy-canister/src/cycles.rs:46-74 | one more byte adds 2000 a node to the message, and 400 to the request and 800 to the response per node and agent |
| Cycles.EmptyRequestOnThirteenNodes | src/idempotent-proxy-canister/src/cycles.rs:55-66 | an empty request to one agent on 13 nodes costs the fee and 13 times 4.84 M |
| Cycles.CodeChargesThePriceIff | src/idempotent-proxy-canister/src/cycles.rs:55-74 | the u64/u128 request and response costs equal the integer formula exactly when no u64 step wraps or nothing is multiplied, are less otherwise, and always fit u128 |
| Cycles.CodeChargesIngressIff | src/idempotent-proxy-canister/src/cycles.rs:46-53 | the same for the ingress cost |
| Cycles.WithinBoundsNothingWraps | src/idempotent-proxy-canister/src/cycles.rs:46-74 | sizes of a 32-bit canister, subnets below 2^32 nodes and fewer than 2^31 agents never wrap |
| Cycles.PricesAreMonotone | src/idempotent-proxy-canister/src/cycles.rs:46-74 | every intended price grows with bytes, duplicates, subnet size and fee |
| Cycles.CostsAreMonotone | src/idempotent-proxy-canister/src/cycles.rs:46-74 | and so does what the code charges, up to the sizes at which nothing wraps |
| Cycles.SingleVersusParallel | src/idempotent-proxy-canister/src/cycles.rs:55-74 | with a subnet, the intended price of n single requests is exactly n - 1 fees more than that of one n-way request, and their responses cost the same |
| Cycles.SingleVersusParallelCost | src/idempotent-proxy-canister/src/cycles.rs:55-74 | the same for what the code charges, up to those sizes |
| Ledger.State.constructor | src/idempotent-proxy-canister/src/store.rs:126-127 | an empty ledger |
| Ledger.State.ReceiveCycles | src/idempotent-proxy-canister/src/store.rs:183-199 | the in-place charge equals its specification, and traps exactly when that does |
| Ledger.State.UpdateCallerState | src/idempotent-proxy-canister/src/store.rs:166-173 | adds to a caller that is still there and changes nothing otherwise |
| Ledger.State.AddCallers | src/idempotent-proxy-canister/src/api_admin.rs:39-47 | new callers start at zero, old ones keep their entries |
| Ledger.State.RemoveCallers | src/idempotent-proxy-canister/src/api_admin.rs:50-58 | exactly the named callers go |
| Ledger.ReceiveMeaning | src/idempotent-proxy-canister/src/store.rs:183-199 | a charge takes the smaller of price and purse, records the rest as uncollectible, and traps exactly when it may not fall short and does |
| Ledger.OpenMeaning | src/idempotent-proxy-canister/src/api.rs:99-109 | the first segment traps exactly when the purse is below ingress plus request price, and otherwise takes exactly that |
| Ledger.StepIsExact | src/idempotent-proxy-canister/src/api.rs:79-249 | one step of any call or admin call keeps every call's billing exact |
| Ledger.BillingIsAlwaysExact | src/idempotent-proxy-canister/src/api.rs:79-249 | in every interleaving each finished call was charged ingress, one request price per agent asked, and its response, short only by what its purse lacked in the response phase |
| Ledger.CloseConserves | src/idempotent-proxy-canister/src/store.rs:166-173 | ending a call moves its cycles to its caller or, with the caller gone or after a trap, to the kept cycles |
| Ledger.StepConserves | src/idempotent-proxy-canister/src/store.rs:166-199 | one step keeps the conservation law |
| Ledger.CyclesAreConserved | src/idempotent-proxy-canister/src/store.rs:166-199 | in every interleaving `incoming_cycles` is the sum over callers, removed callers, calls in flight, and cycles kept from trapped calls and calls whose caller had gone |
| Ledger.UncollectibleIsResponseShortfalls | src/idempotent-proxy-canister/src/store.rs:189-196 | `uncollectible_cycles` is exactly the sum of response-phase shortfalls of calls with an empty purse |
| Ledger.NobodyServedAtFirst | src/idempotent-proxy-canister/src/api.rs:81-97 | before callers and agents are set up every call is turned away and the ledger stays as it is |
| ProxyCalls.Classify | src/idempotent-proxy-canister/src/agent.rs:65-87 | an agent's result is Ok exactly when its status is at most 500; a reply is passed on as it is, a request that cannot be built is an Ok 400 and a failed outcall an Err 503, with their reasons |
| ProxyCalls.ProxyHttpRequest | src/idempotent-proxy-canister/src/api.rs:79-131 | the loop over the agents on the ledger in place, with rollback to the last await, equals the sequential call |
| ProxyCalls.ParallelCallAllOk | src/idempotent-proxy-canister/src/api.rs:135-201 | the all-equal endpoint in place equals its specification for every completion order |
| ProxyCalls.ParallelCallAnyOk | src/idempotent-proxy-canister/src/api.rs:205-249 | the first-answer endpoint likewise |
| ProxyCalls.FirstErrMeaning | src/idempotent-proxy-canister/src/api.rs:161-164 | joining fails exactly when some agent that completes has failed, and with one such agent's response |
| ProxyCalls.FirstErrIs | src/idempotent-proxy-canister/src/api.rs:161-164 | joining fails with the response of the first agent to fail in the order of completion |
| ProxyCalls.FirstOkMeaning | src/idempotent-proxy-canister/src/api.rs:230-241 | selecting succeeds exactly when some agent answers, and returns one agent's result |
| ProxyCalls.FirstOkIs | src/idempotent-proxy-canister/src/api.rs:230-241 | selecting gives the first agent to answer in the order of completion, or the last to fail |
| ProxyCalls.AllOkVerdictMeaning | src/idempotent-proxy-canister/src/api.rs:161-193 | the joint verdict: common exactly when all answer alike, disagreement with exactly the responses given when all answer but not alike, some failing agent's otherwise |
| ProxyCalls.AllOkReplyMeaning | src/idempotent-proxy-canister/src/api.rs:161-200 | the endpoint's reply, for every completion order: the common response; a 500 listing exactly the distinct responses; or the response of the first agent to fail |
| ProxyCalls.DisagreementIsListed | src/idempotent-proxy-canister/src/api.rs:177-188 | the list of such a 500: the later agents' differing responses, then the first agent's |
| ProxyCalls.DifferentInOrder | src/idempotent-proxy-canister/src/api.rs:177-178 | those come in the order of the agents, each as often as it was given |
| ProxyCalls.AllOkBilling | src/idempotent-proxy-canister/src/api.rs:155-200 | the all-equal call traps exactly when the purse does not cover the requests, and otherwise pays for the first agent's response if all answer |
| ProxyCalls.AnyOkBilling | src/idempotent-proxy-canister/src/api.rs:224-248 | the first-answer call replies the first agent to answer, or the last to fail, and pays for just that answer |
| ProxyCalls.TurnedAway | src/idempotent-proxy-canister/src/api.rs:81-97 | strangers get 403, and then any caller 503 when there are no agents, from all three endpoints, and nobody pays |
| ProxyCalls.Failovers | src/idempotent-proxy-canister/src/api.rs:108-123 | the number of failing agents before the first that answers |
| ProxyCalls.RequestsPriceIsAsked | src/idempotent-proxy-canister/src/api.rs:108-109 | one request price per agent asked |
| ProxyCalls.SequentialTrapsIff | src/idempotent-proxy-canister/src/api.rs:108-123 | the loop traps exactly when the purse does not cover the requests it would make |
| ProxyCalls.SequentialPays | src/idempotent-proxy-canister/src/api.rs:108-130 | a loop that ends takes its full price or the whole purse, credits the caller with what was taken, and replies the first answer or the last error |
| ProxyCalls.TrapKeepsCommittedRequests | src/idempotent-proxy-canister/src/api.rs:108-110 | after a trap exactly the whole requests the purse could pay are kept, and the caller is not credited |
| ProxyCalls.SequentialCallBilling | src/idempotent-proxy-canister/src/api.rs:99-130 | ingress, plus one request for each agent asked, plus the response: when the call traps, what it takes, and what it replies (the final unwrap never fails) |
| ProxyCalls.AnyOkSucceedsIffSequentialDoes | src/idempotent-proxy-canister/src/api.rs:230-241 | first-answer and sequential succeed on the same agent outcomes, for every completion order |
| ProxyCalls.UnanimousAgree | src/idempotent-proxy-canister/src/api.rs:107-241 | when all agents answer alike the three endpoints return that answer |
| ProxyCalls.OneAgentOneEndpoint | src/idempotent-proxy-canister/src/api.rs:79-249 | with one agent the three endpoints are equal in reply, trap, ledger and refund, for every outcome and purse |
| ProxyCalls.SequentialQuoteCovers | src/idempotent-proxy-canister/src/api.rs:58-64 | attaching the quote and one request per failover, an answer within the announced size neither traps nor leaves a shortfall, and costs no more |
| ProxyCalls.ParallelQuoteCovers | src/idempotent-proxy-canister/src/api.rs:66-76 | the parallel quote covers both parallel endpoints in the same sense |
| ProxyCalls.QuotesAreExact | src/idempotent-proxy-canister/src/api.rs:58-76 | a first answer of just the announced size costs just the quote, in all three endpoints |
| ProxyCalls.UnlimitedQuotesDefault | src/idempotent-proxy-canister/src/api.rs:63-73 | without an announced size 10240 bytes are quoted |
| CallRuns.SequentialCallIsARun | src/idempotent-proxy-canister/src/api.rs:79-131 | in any machine state, whatever else is in flight, the segments of a sequential call taken one after another leave the books the call leaves |
| CallRuns.ParallelCallsAreRuns | src/idempotent-proxy-canister/src/api.rs:135-249 | the same for the all-equal and the first-answer call and every completion order |
| CallRuns.BeginOpens | src/idempotent-proxy-canister/src/api.rs:99-109 | a call takes off exactly when its purse covers its first segment |
| CallRuns.SettingsTakeEffect | src/idempotent-proxy-canister/src/api.rs:90-100 | a call takes the agents and prices that were last set before it began |
| CallRuns.OthersLeaveIt | src/idempotent-proxy-canister/src/store.rs:166-199 | a step of another call, or of an admin, leaves a call's flight as it is |
| CallRuns.SequentialCallAmongOthers | src/idempotent-proxy-canister/src/api.rs:108-130 | with any steps of others between its segments, a sequential call traps exactly when it would have alone, and otherwise takes the same cycles |
| CallRuns.AllOkCallAmongOthers | src/idempotent-proxy-canister/src/api.rs:161-200 | the same for the all-equal call |
| CallRuns.AnyOkCallAmongOthers | src/idempotent-proxy-canister/src/api.rs:230-248 | the same for the first-answer call |
| Tokens.SignAllMeaning | src/idempotent-proxy-canister/src/tasks.rs:22-38 | the loop asks the signer once per distinct name and ends unless one of those answers fails; then order, length and every other field are kept, equal names have equal tokens, each from one of those answers |
| Tokens.UpdateProxyToken | src/idempotent-proxy-canister/src/tasks.rs:13-41 | the loop in place does that, and counts its signings |
| Tokens.TasksStartAndFail | src/idempotent-proxy-canister/src/tasks.rs:7-20 | a refresh starts from the stored list and an update from its own, neither with an empty list, and a failure writes nothing |
| Tokens.WriteStores | src/idempotent-proxy-canister/src/tasks.rs:40 | a write ends its own task only, and stores the list it started from, every agent with its token |
| Tokens.StoredListIsWhole | src/idempotent-proxy-canister/src/tasks.rs:7-41 | however refreshes and admin updates overlap, the stored list is empty or one whole starting list with every agent tokened, and every list stems from one the admin set |
| Tokens.AdminUpdateLastsIff | src/idempotent-proxy-canister/src/api_admin.rs:61-68 | an admin update lasts, through every continuation in which no other ends, if and only if no refresh in flight when it is written started from other agents |
| Tokens.RefreshUndoesAdmin | src/idempotent-proxy-canister/src/api_admin.rs:61-68 | a refresh that spans an admin update restores the agents from before it |
| TokenTiming.TokenLastsUntil | src/idempotent-proxy-canister/src/tasks.rs:29-32 | the verifier finds a token of the loop expired exactly 130 s and the interval after the whole second it was asked for |
| TokenTiming.AgeBound | src/idempotent-proxy-canister/src/tasks.rs:7-40 | how long ago the refresh whose list is stored can have started, when refreshes overlap and finish in any order |
| TokenTiming.MarginSuffices | src/idempotent-proxy-types/src/auth.rs:13-34 | within the bound the verifier never finds a token of the stored list expired, both sides dropping to whole seconds |
| TokenTiming.SlowFirstIsStale | src/idempotent-proxy-types/src/auth.rs:13-34 | beyond it, a schedule in which it does |
| TokenTiming.NeverExpiredIff | src/idempotent-proxy-canister/src/tasks.rs:7-40 | refreshes that finish within L of their start never leave an expired token, for all lists and signers, if and only if L plus the whole intervals in L is at most 130 s |
| TokenTiming.RoundBounds | src/idempotent-proxy-canister/src/init.rs:64-67 | 65 s always suffice, 130 s exactly when refreshes do not overlap, 66 s not in general |
| TokenTiming.RefreshInterval | src/idempotent-proxy-canister/src/init.rs:37-41 | the interval is at least ten seconds |
| Masking.SplitOfJoin | src/idempotent-proxy-server/src/cache/mod.rs:198-210 | joining trimmed nonempty fields with commas and splitting gives them back |
| Masking.SplitIsStable | src/idempotent-proxy-server/src/cache/mod.rs:198-210 | splitting, joining and splitting again is splitting, for every string |
| Masking.SplitAtComma | src/idempotent-proxy-server/src/cache/mod.rs:198-210 | a comma separates, wherever it stands |
| Masking.SpaceIsWhiteSpace | src/idempotent-proxy-server/src/cache/mod.rs:202-203 | what is stripped is the white space of Unicode, character by character |
| Masking.PaddedFieldIsFound | src/idempotent-proxy-server/src/cache/mod.rs:202-207 | white space around a field does not matter, and alone it is no field |
| Masking.MaskJson | src/idempotent-proxy-server/src/cache/mod.rs:151-157 | the look-up loop keeps exactly the wanted fields, and none of what is not an object |
| Masking.CborMaskIsProjection | src/idempotent-proxy-server/src/cache/mod.rs:161-168 | masking twice is masking once; order and repetition of the filter do not matter |
| Masking.JsonMaskIsProjection | src/idempotent-proxy-server/src/cache/mod.rs:151-157 | the same for JSON, and the kept keys are the wanted keys that are there |
| Masking.CborAndJsonAgree | src/idempotent-proxy-server/src/cache/mod.rs:149-175 | given the same fields, from a CBOR map with distinct keys or none at all, both masks keep the same |
| Masking.WithHeaders | src/idempotent-proxy-server/src/cache/mod.rs:115-140 | kept headers are an in-order subsequence holding every wanted one, copied behind those already there, and the mime type is the last content-type |
| Masking.ReadWithoutCase | src/idempotent-proxy-server/src/cache/mod.rs:116-117 | the list of wanted headers is read without regard to case |
| Masking.HeaderIsFound | src/idempotent-proxy-server/src/cache/mod.rs:116-137 | so a header asked for in any case, with blanks around, is kept |
| Masking.LastMimeMeaning | src/idempotent-proxy-server/src/cache/mod.rs:127-129 | the last header that is a readable content-type decides, and with none the mime type stays |

## Left out

- u64 overflow of `now + ttl` in the in-memory store, and of clock arithmetic elsewhere.
- Locks.LockRunsRefineCalls: supposes that no call is left half done by a dropped handler, because what then remains is no whole call; HalfCalls.CoveredThroughoutIff says what that does to the two collections. In the protocol a dropped handler is a request that gives up between two calls.
- Fairness of the locks.
- When cleaners run: a run may contain any sweep on any clock reading not later than the present, of which the code's cleaners are some.
- Protocol.OneForwardOneAnswer: supposes that finishing leaders are timely or harmless, because the code does not enforce it; Protocol.FinishKeepsPromiseIff says that nothing less will do.
- CacheRuns.Exclusion: supposes no late `set` on the key, because the code does not rule one out; CacheRuns.ExclusionFailsIff is the exact statement.
- Layers.LocksServeTheProtocol: supposes that the calls under the locks are those of a run of the protocol; that tasks are started by requests in that order is not modelled.
- Ledger.CyclesAreConserved: holds short of u128 saturation of the running total, which the code does not report.
- DurableObject.OneObtainBetweenResets: one forward per key does not follow in the worker, because followers reset the key on errors; Worker.ForwardedIff says when a forward happens.
- In the worker, a second `del` by a leader whose error body cannot be read, and a `set` that throws after it has stored.
- Alarm timing in the Durable Object: an alarm may fire at any moment. The constructor's own alarm is left out, since it compares a promise with null. Storage writes of one method are one step.
- Connections, errors and eviction in Redis: Redis is an expiring map with NX and XX.
- `HybridCacher`, which passes each call to one of the two stores.
- The first part of the handler: access control, URL choice, header editing, reading the body. Its failures after the lock is taken are requests that give up.
- Encodings: CBOR, JSON and base64 are parameters; a response's encoding is never empty and decodes to it.
- The choice of mask by status and mime type, and errors of parsing a body.
- Signatures and hashes: signing is an opaque answer that may fail, and only the expiry test of the verifiers is modelled.
- URL and host parsing in `build_request`: its failure is the Ok result with status 400 that it produces.
- The cycles that the canister itself pays for an outcall, and the texts of its 403 and 503 replies.
- A subset of failing agents completing in one poll of `try_join_all`, where the one listed first is reported: completion orders are one agent at a time.
- Overflow of the u128 sum of two or three costs.
- The first refresh, which is off the timer's grid, and the admin's refreshes in the timing bound.
- `load` and `save`: the migration of old callers adds callers at zero as the admin does.
- Managers, `validate_` endpoints, `state_info`, and the example canisters.
