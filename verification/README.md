# atropos-go, modelled and proved in Dafny

atropos-go is a fault-injection SDK. This project models its stateful core and proves what holds in
every run of it: the record/replay cache-box (store, keys, recorder, dispatcher, push client, seeding),
the token bucket behind the disk and io stress faults, the fault registry, rule compilation and
evaluation, the control-plane poll loop with its event stream, and the byte-stream toxics.

| file | what it holds |
|---|---|
| Base.dfy | entries, header sizes, int64 wrap-around and truncating division |
| Lru.dfy | the reference store: a recency-ordered list, laws over every run, inclusion, seeding |
| MemStore.dfy | the store as built: map, list of shared elements, byte counter; refines Lru |
| RequestKey.dfy | in-place sort, split/join, key printing, canonicity of keys |
| BodyCapture.dfy | peeking at bodies over arbitrary read chunkings and errors, and what an error loses |
| Recorder.dfy | the bounded queue and its drain goroutine as a step system, and as an object |
| CacheBox.dfy | the dispatcher over all interleavings; replay soundness |
| Interceptor.dfy | one request path, changing bodies, transport log, store and recorder in place |
| Wire.dfy | the transfer form of entries |
| PushClient.dfy | batching, timers (also stale ones), posts, Stop |
| TokenBucket.dfy | bucket arithmetic, ramp, acquire, throughput, the disk writer |
| Registry.dfy | StartOrJoin racing with a handle's Send |
| Rules.dfy | stable sort, decoding, first match, Apply |
| PollLoop.dfy | failure streaks, status, backoff, re-registration, rule versions |
| EventStream.dfy | the server-sent-event line loop and the one-slot wake-up channel |
| Toxics.dfy | Loss, RST and Drip |

How it is modelled. Concurrent parts are step systems: a total function gives the effect of each atomic
step (a critical section, an atomic load or store, a channel operation), and a run is any finite sequence
of steps, so a law over runs is a law over every interleaving. Objects whose methods change fields are
classes; each method's postcondition equates the new state with a step of the corresponding system. Clocks,
the network, the scheduler and library calls are parameters or scripts. Integers are mathematical, with
`Wrap64` where the code multiplies int64 values that can overflow. Go strings are sequences of characters
compared by code point, which is the byte order of UTF-8.

## Model

| member | source | states |
|---|---|---|
| Base.HeaderBytesAnyOrder | internal/cachebox/store.go:44-49 | the header part of a size is the same whatever order the map yields its keys |
| Base.Size | internal/cachebox/store.go:39-51 | the loop over the header map computes the bytes of body, key and header, characters counted by their UTF-8 width |
| Base.SizeAdds | internal/cachebox/store.go:39-51 | a body byte, key text, a header key with its values and a header value each add their own bytes to the size |
| Lru.StepValid | internal/cachebox/memstore.go:58-142 | every operation keeps keys unique and the cap respected, and the key just Put is at the front, so never the one evicted |
| Lru.RunValid | internal/cachebox/memstore.go:58-156 | in every reachable state keys are unique, length is within a positive cap, an uncapped store never evicts, hits + misses = Gets |
| Lru.ResidentIsLive | internal/cachebox/memstore.go:58-142 | what is resident under a key is the value the operation history leaves live under it; without a cap the live value is always resident |
| Lru.HitIsLastPut | internal/cachebox/memstore.go:58-77 | a hit returns the last Put of its key since any Delete, Clear or expiry, no older than the TTL |
| Lru.LookupIff | internal/cachebox/memstore.go:62-71 | a lookup finds what is resident iff there is no TTL or it is not older than it |
| Lru.HitsAreFound | internal/cachebox/memstore.go:58-77 | hits counts the Gets that found an entry and misses the others, expired ones among them |
| Lru.LiveSince | internal/cachebox/memstore.go:81-142 | a live value names one Put of the history after which nothing overwrote or removed the key |
| Lru.GetLaw | internal/cachebox/memstore.go:66-76 | a hit brings its key to the front with the others in their order; an expired entry is removed |
| Lru.PutResidentLaw | internal/cachebox/memstore.go:88-96 | a Put of a resident key replaces it at the front; a Delete takes just it away |
| Lru.AbsentLaw | internal/cachebox/memstore.go:97-108 | a Put of another key goes in front, dropping and counting the last one iff the store is full |
| Lru.RecencyOrder | internal/cachebox/memstore.go:58-109 | in every run residents stand in the order of their last uses, a use being a Put or a hit |
| Lru.EvictsLeastRecent | internal/cachebox/memstore.go:97-108 | what a Put evicts is the resident key whose last use is the oldest |
| Lru.StaysResident | internal/cachebox/memstore.go:58-142 | from its last use on an entry stays resident until overwritten, removed or found expired, or until as many other keys as the store has room for have been put or looked up |
| Lru.Inclusion | internal/cachebox/memstore.go:58-142 | on one trace with one clock, the recency list at a smaller cap is a subsequence, with equal entries, of the list at a larger or absent cap |
| Lru.MoreCapacityKeepsHits | internal/cachebox/memstore.go:58-109 | raising MaxEntries never turns a hit into a miss nor changes what it returns, even with TTL expiry |
| Lru.SeedRun | cache_seed.go:53-58 | seeding an empty store leaves the entries ranked by last occurrence, cut at the cap |
| Lru.SeedLaw | cache_seed.go:53-58 | residents hold last occurrences, ordered by them, and a key is left out only when the store is full of keys occurring later |
| MemStores.LinkedFacts | internal/cachebox/memstore.go:28-45 | map and list name the same keys, once each, and are equally long |
| MemStores.MemStore.constructor | internal/cachebox/memstore.go:48-54 | a new store is valid and empty |
| MemStores.MemStore.RemoveLocked | internal/cachebox/memstore.go:112-117 | removes the element from map, list and byte count together |
| MemStores.MemStore.Get | internal/cachebox/memstore.go:58-77 | the result and the new state are those of the reference Get, whose place in the recency order GetLaw and RecencyOrder fix |
| MemStores.MemStore.Put | internal/cachebox/memstore.go:81-109 | the new state is that of the reference Put; a nil entry changes nothing |
| MemStores.MemStore.Replace | internal/cachebox/memstore.go:88-96 | overwriting the shared element and moving it keeps map, list and bytes in step |
| MemStores.MemStore.Evict | internal/cachebox/memstore.go:101-108 | the loop drops the oldest entries down to the cap and counts each |
| MemStores.MemStore.Delete | internal/cachebox/memstore.go:120-126 | refines the reference Delete; a missing key is no change |
| MemStores.MemStore.Clear | internal/cachebox/memstore.go:136-142 | empties store and bytes, keeps lifetime counters |
| MemStores.MemStore.Stats | internal/cachebox/memstore.go:145-156 | bytes used is the sum of resident sizes, entries the map's and list's common size |
| MemStores.MemStore.Seed | cache_seed.go:53-58 | the Put loop on an empty store meets the seeding law |
| RequestKey.SortStrings | internal/cachebox/key.go:135-141 | the in-place swaps produce the sorted list of the old contents |
| RequestKey.InsertInto | internal/cachebox/key.go:136-140 | the inner loop inserts one element into the sorted prefix and touches nothing after it |
| RequestKey.SortFacts | internal/cachebox/key.go:135-141 | sorting yields an ordered permutation |
| RequestKey.LeIsLexicographic | internal/cachebox/key.go:137 | the order of the sort is the lexicographic one, ascending |
| RequestKey.SortedUnique | internal/cachebox/key.go:135-141 | two ordered lists of the same strings are equal |
| RequestKey.JoinSplit | internal/cachebox/key.go:127-129 | joining the split parts gives the query back |
| RequestKey.SplitJoin | internal/cachebox/key.go:127-129 | splitting joined parts that hold no ampersand gives the parts back |
| RequestKey.NormalizeQuery | internal/cachebox/key.go:123-130 | both branches compute the join of the sorted parts |
| RequestKey.QueryCanonical | internal/cachebox/key.go:112-130 | two queries normalize alike iff they hold the same parameters equally often; only the empty one normalizes to the empty text |
| RequestKey.DeriveKey | internal/cachebox/key.go:50-109 | the builder's text is the key of the strategy |
| RequestKey.KeyText | internal/cachebox/key.go:63-118 | the text from left to right: strategy, verb, host, path, query and hash with their separators |
| RequestKey.HexRoundTrip | internal/cachebox/key.go:94 | the printed hash reads back as the hash |
| RequestKey.EquivalentShareKey | internal/cachebox/key.go:63-118 | equivalent requests share a key, whatever characters they hold |
| RequestKey.KeyCanonical | internal/cachebox/key.go:63-141 | for verbs and hosts without a bar and paths without a question mark: same key iff verb, host and body hash (where used), path and query parameters agree |
| RequestKey.CollisionExact | internal/cachebox/key.go:63-118 | for any paths: requests sharing a key are equivalent iff their paths are equally long, and otherwise the longer path has a question mark where the shorter ends |
| RequestKey.DecodedQuestionMarkCollides | internal/cachebox/key.go:63-73 | a decoded path holding a question mark does collide with a path plus query |
| RequestKey.StrategiesDisjoint | internal/cachebox/key.go:22-39 | keys of different strategies never collide in a shared store |
| RequestKey.StrategyNames | internal/cachebox/key.go:50-61 | each strategy name selects its strategy and any other name the exact one |
| BodyCapture.FailsIffBreaks | internal/cachebox/cachebox.go:226-230 | reading up to a limit meets an error iff some read of the connection breaks before the limit is reached and before the end is reported, for every chunking |
| BodyCapture.PullBreaks | internal/cachebox/cachebox.go:226-230 | it then has taken exactly the bytes offered by the reads up to and with that one, within the limit |
| BodyCapture.Body.ReadAtMost | internal/cachebox/cachebox.go:226-230 | the loop of reads takes the first bytes, up to the limit, the end or the breaking read, and leaves the rest; it fails iff a read broke, save that CopyN forgives one that completes the limit |
| BodyCapture.Body.Peek | internal/interceptor/cachebox.go:118-150 | fails iff a read breaks in the peek; otherwise the body handed on yields the original bytes; it is captured, closed and replayable iff it fits; after a failure the bytes taken are missing |
| BodyCapture.PeekTakes | internal/interceptor/cachebox.go:120-123 | a peek takes at most one byte more than the cap, and that or the whole body if no read breaks |
| BodyCapture.PeekFailsIff | internal/interceptor/cachebox.go:118-127 | a peek fails iff some read breaks before the cap is passed and before the end is reported, and for CopyN without completing the cap |
| BodyCapture.ReadersAgree | internal/interceptor/cachebox.go:122-127 | the request's ReadAll and the response's CopyN differ only on an error that comes with the last byte of the peek, so never on a body that fits |
| BodyCapture.ReadersDiffer | internal/cachebox/cachebox.go:227-230 | there they do: ReadAll fails and loses all it has read, CopyN succeeds |
| BodyCapture.CapturedIff | internal/cachebox/cachebox.go:227-249 | a body is captured iff it fits and no read breaks while it is peeked at |
| BodyCapture.LosesIff | internal/cachebox/cachebox.go:226-230 | bytes are lost iff a read breaks in the peek with or after some byte, and then exactly the bytes delivered up to and with it |
| BodyCapture.BrokenReadLosesByte | internal/cachebox/cachebox.go:226-230 | one byte followed by a broken read is such a loss |
| BodyCapture.BufferRequestBody | internal/cachebox/cachebox.go:222-250 | no body: nothing; otherwise the capture is the whole body iff it fits and no read breaks, and the request keeps all bytes but those lost to a broken read |
| Recorders.NextInv | internal/cachebox/recorder.go:86-135 | each atomic step keeps order, conservation, the buffer bound and the store's log |
| Recorders.RunInv | internal/cachebox/recorder.go:86-135 | in every run accepted = drained + in hand + queued in order, pending is within the buffer, calls = accepted + dropped + refused + under way + panicked |
| Recorders.AfterStop | internal/cachebox/recorder.go:129-135 | once the Stop that set the flag has returned, everything accepted is stored, counted and pushed in order, and nothing more is accepted |
| Recorders.LosingStop | internal/cachebox/recorder.go:129-132 | any other Stop returns at once; everything accepted is then stored iff the channel is empty and the drain goroutine between records |
| Recorders.LosingStopReturnsEarly | internal/cachebox/recorder.go:125-135 | it does return with an accepted record still queued, while the first Stop waits |
| Recorders.StoreIsFold | internal/cachebox/recorder.go:101-123 | without other writers the store is the fold of Put over the drained records, a prefix of the accepted ones |
| Recorders.PanicIffStraddle | internal/cachebox/recorder.go:86-135 | after a Stop, what follows the close can make a Record call panic iff at the close some call is between its check and its send |
| Recorders.CheckedBeforeStop | internal/cachebox/recorder.go:86-135 | every such call had passed the check before the flag was set |
| Recorders.NoStraddleNoPanic | internal/cachebox/recorder.go:86-135 | if no Record is between check and send at the close, none ever panics |
| Recorders.StraddlePanics | internal/cachebox/recorder.go:86-135 | the straddling schedule does panic |
| Recorders.Recorder.constructor | internal/cachebox/recorder.go:67-80 | a new recorder is in the initial state, with the default buffer when none is asked for |
| Recorders.Recorder.Record | internal/cachebox/recorder.go:86-97 | an undisturbed call is accepted iff not stopped and there is room; the state is that of the two steps |
| Recorders.Recorder.DrainOne | internal/cachebox/recorder.go:103-122 | one loop turn takes the oldest record into the store and counts it |
| Recorders.Recorder.Stop | internal/cachebox/recorder.go:129-135 | drains everything accepted; a second Stop does nothing |
| Recorders.Recorder.Lookup | internal/cachebox/cachebox.go:131-136 | a lookup is a Get on the shared store |
| CacheBox.TagsOnly | internal/interceptor/cachebox.go:186-197 | a served header differs from the recorded one in the three tags only, and those hold key, mode and latency |
| CacheBox.PassthroughTags | internal/interceptor/cachebox.go:171-173 | a passthrough reply gains the key and latency tags and keeps every other header |
| CacheBox.DecimalRoundTrip | internal/interceptor/cachebox.go:194-196 | a printed latency reads back as the number of microseconds |
| CacheBox.MicrosRoundTrip | internal/interceptor/cachebox.go:194-196 | a latency tag reads back as the whole microseconds of the latency |
| CacheBox.NextInv | internal/interceptor/cachebox.go:31-215 | every step of any request, the recorder, a seed or a clear keeps the invariants replay rests on |
| CacheBox.OfferedFrom | internal/interceptor/cachebox.go:109-164 | whatever the recorder was offered is the service's answer, in some action of the run, to a request that arrived in an earlier one and was waiting for it |
| CacheBox.ReplaySound | internal/interceptor/cachebox.go:67-98 | in every interleaving a replayed reply repeats status, body and untagged header of the last write of its key before its request arrived: the service's answer to a named earlier arrival, drained since, or a named seeding; nothing is sent upstream for it |
| CacheBox.ReplayedForEquivalentRequest | internal/interceptor/cachebox.go:50-98 | with a built-in strategy and delimited requests, the drained response had been given to an arrival that agrees with this one on true bodies whenever the strategy saw both, and otherwise iff the true bodies have the same hash |
| CacheBox.SeesBodyIff | internal/cachebox/cachebox.go:222-250 | a strategy sees a body iff it reads none, or the body is empty, or it fits and no read of it breaks |
| CacheBox.KeysTellIff | internal/cachebox/key.go:89-109 | for every hash, two bodies sent to one target share a key iff their true hashes agree, exactly when both are seen, or captures and bodies both coincide |
| CacheBox.OneTripPerMiss | internal/interceptor/cachebox.go:52-115 | in every run, the log of upstream calls holds none for a hit and, once forwarded, exactly one for any other request: the request it arrived as with the body left after the capture |
| CacheBox.ServedIffFound | internal/interceptor/cachebox.go:67-98 | in every run a request is served from the cache, with the entry found and nothing sent, iff its mode is replay or replay_with_delay and an unexpired entry is under its key when it arrives; in passthrough, in unknown modes and without an entry it goes upstream once |
| CacheBox.HitReply | internal/interceptor/cachebox.go:71-90 | a hit's reply has the entry's status and body and its mode's tag; there is none iff the mode waits, the delay is positive and the wait is cancelled |
| CacheBox.AnswerHandedOn | internal/interceptor/cachebox.go:109-181 | in every run a forwarded call's reply has upstream's status and all of its body, its header outside the key and latency tags, and exactly its header when oversize or in an unknown mode; an answer within the cap in a known mode has been offered to the recorder |
| CacheBox.CapturedLaw | internal/interceptor/cachebox.go:50-64 | a strategy that reads no bodies captures none, the other the whole of a body that fits and does not break, else nothing |
| CacheBox.SeedAndClear | cache_seed.go:53-58 | a seeded entry is in front of the store and a cleared store is empty |
| CacheBox.DrainGetsOn | internal/cachebox/recorder.go:103-122 | beside any requests, three steps of the drain goroutine store and count the oldest record |
| CacheBox.OnwardWholeIff | internal/interceptor/cachebox.go:53-62 | that body is the original one iff the strategy reads no bodies or no read breaks in the capture after something was taken |
| CacheBox.MissThenHit | internal/interceptor/cachebox.go:77-78 | in any run, once the answer to a miss has been drained, a replay under its key is served that answer until it expires, the key is written or removed, or as many other keys as the store holds have been used |
| RequestKey.SameRequestKeys | internal/cachebox/key.go:89-109 | whatever characters a request holds, its keys with two captured bodies agree iff the hashes do |
| CacheBox.UnseenBodiesCollide | internal/cachebox/cachebox.go:231-243 | a body over the cap or one whose read breaks shares its key with the empty body and with every other such body |
| CacheBox.EmptyServedOversizeAnswer | internal/interceptor/cachebox.go:50-78 | there is a run in which a request without a body is served the answer recorded for one whose body is over the cap and hashes differently |
| CacheBox.HandledIsPath | internal/interceptor/cachebox.go:31-99 | what handling one request comes to, after any history, is the end of a run of the dispatcher, so every law of runs holds of its reply, its upstream calls and the recorder |
| CacheBox.NoReplyIff | internal/interceptor/cachebox.go:80-164 | no reply iff a hit is cancelled in its delay, the service gives none, or a read of its body breaks in the peek; the answer is offered to the recorder iff none breaks and it fits |
| Interceptors.Transport.RoundTrip | internal/interceptor/cachebox.go:112 | the transport logs the request and the body it is given |
| Interceptors.Interceptor.CacheBoxPassthrough | internal/interceptor/cachebox.go:109-181 | one upstream call with the request body as it stands; the whole response handed on, tagged and offered to the recorder iff it fits; closed and dropped iff its body breaks in the peek |
| Interceptors.Interceptor.CacheBoxServe | internal/interceptor/cachebox.go:186-215 | a fresh reply with the entry's status and body and the tagged header |
| Interceptors.Interceptor.TryReplay | internal/interceptor/cachebox.go:71-90 | a hit is the store's entry, served after the delay or nil iff cancelled in it; only the lookup changes state |
| Interceptors.Interceptor.RequestKey | internal/interceptor/cachebox.go:50-65 | the key is that of the whole body iff the strategy reads bodies, it fits and no read breaks, else of none; the request keeps the body less what was lost |
| Interceptors.Interceptor.Dispatch | internal/interceptor/cachebox.go:67-98 | the switch over the mode: replay or forward, with reply, upstream log and recorder those of the dispatcher's path |
| Interceptors.Interceptor.HandleCacheBox | internal/interceptor/cachebox.go:31-99 | reply, upstream log and recorder are those of the dispatcher's path for this request, of which ServedIffFound, HitReply and AnswerHandedOn hold |
| Wire.WireRoundTrip | internal/cachebox/wire.go:21-51 | wire to entry to wire is the identity iff the latency in nanoseconds fits int64 |
| Wire.WireFields | internal/cachebox/wire.go:21-34 | every field crosses as it is, the latency as its whole microseconds |
| Wire.EntryRoundTrip | internal/cachebox/wire.go:21-51 | entry to wire to entry only truncates the latency toward zero to whole microseconds |
| Wire.TripIdempotent | internal/cachebox/wire.go:21-51 | a second trip changes nothing |
| PushClients.RunInv | cache_push.go:105-214 | every step, stale callbacks included, keeps partition, batch sizes and timer invariants |
| PushClients.Conservation | cache_push.go:105-214 | posts then the pending batch are the accepted entries in order, each post has 1..maxBatch, timer set iff something pending, accepted = pushed + dropped + in flight + pending |
| PushClients.AddLaw | cache_push.go:105-129 | an entry added before Stop waits while fewer than maxBatch are pending and otherwise completes a post of exactly maxBatch |
| PushClients.CountedAsAnswered | cache_push.go:154-192 | a post counts as pushed iff its one answer was a success and as dropped iff it was not |
| PushClients.MaxBatchKept | cache_push.go:69-72 | the batch size is the one asked for, or 100 |
| PushClients.NoStranding | cache_push.go:119-144 | a pending batch's timer has yet to do its work, and its callback posts the whole batch |
| PushClients.Stopped | cache_push.go:196-214 | after Stop nothing is pending and nothing more is accepted or posted |
| PushClients.CachePushClient.FlushLocked | cache_push.go:133-144 | hands the batch to a post and cancels the timer |
| PushClients.CachePushClient.DoAdd | cache_push.go:105-129 | the add step: flush at maxBatch, otherwise arm the timer on the first entry |
| PushClients.CachePushClient.TimerCallback | cache_push.go:121-127 | flushes unless stopped or empty, also when stale |
| PushClients.CachePushClient.PostDone | cache_push.go:154-192 | counts a whole batch as pushed or as dropped |
| PushClients.CachePushClient.DoStop | cache_push.go:196-214 | takes the pending batch, cancels the timer, and a second Stop is a no-op |
| TokenBuckets.CapacityMonotone | internal/fault/resource/disk/stress.go:239-249 | capacity is at least minCap and grows with the rate, within int64 |
| TokenBuckets.CapacityValue | internal/fault/resource/io/stress.go:280-292 | within int64 the capacity is twice an interval's earnings, at least 2 and at least minCap |
| TokenBuckets.PollLaw | internal/fault/resource/disk/stress.go:259-290 | a poll earns the gap's whole tokens up to the capacity, then hands over n or none, and what it grants leaves the bucket |
| TokenBuckets.RetuneLaw | internal/fault/resource/disk/stress.go:292-300 | a retuning sets the rate and its capacity, cuts the count to it and leaves the clock alone |
| TokenBuckets.RateIsLastRetune | internal/fault/resource/disk/stress.go:292-340 | over every run the rate is that of the last retuning or else the initial one, and the capacity goes with it |
| TokenBuckets.NewBucketLaw | internal/fault/resource/disk/stress.go:228-237 | a new bucket is full, at its rate |
| TokenBuckets.RunBounded | internal/fault/resource/disk/stress.go:219-300 | on every schedule granted + tokens stays within the initial capacity plus what the target rate earns, though elapsed time is credited at the latest rate |
| TokenBuckets.ThroughputBound | internal/fault/resource/io/stress.go:260-349 | whatever workers and ramp do, at most capacity(target) + floor(target * T / 1s) tokens are granted by time T, wrap-around included |
| TokenBuckets.TokensInRangeIff | internal/fault/resource/disk/stress.go:278-300 | over every interleaving whose gaps are at most G, 0 <= tokens <= capacity in every reachable state iff target * G fits int64 |
| TokenBuckets.RefillKeepsSignIff | internal/fault/resource/disk/stress.go:278-290 | at one rate, no refill after a gap of at most G takes the count below zero iff rate * G fits int64 |
| TokenBuckets.TokensWithinCapacity | internal/fault/resource/disk/stress.go:278-300 | 0 <= tokens <= capacity in every state reached without an overflowing refill |
| TokenBuckets.OverflowIsExact | internal/fault/resource/disk/stress.go:285 | a refill credits the true floor iff rate * elapsed fits int64 |
| TokenBuckets.TenGigabytesPerSecondOverflows | internal/fault/resource/disk/stress.go:278-290 | one second without a poll at 10 GB/s and 4 KiB chunks drives the token count negative |
| TokenBuckets.RampInRange | internal/fault/resource/disk/stress.go:321-338 | every ramped rate lies between 1 and the target as float64 has it, which up to 2^53 is the target |
| TokenBuckets.RampWithinTargetIff | internal/fault/resource/disk/stress.go:322-337 | no ramped rate exceeds the target iff float64 does not round the target up |
| TokenBuckets.RampShape | internal/fault/resource/disk/stress.go:304-340 | for a validated ramp the rate rises, stays at the target, then falls, rounding included |
| TokenBuckets.RampNearlyLinear | internal/fault/resource/disk/stress.go:324-337 | in both phases the truncated float64 rate is within one of the integer quotient linear in the elapsed time, under any rounding, up to 2^49 a second |
| TokenBuckets.RoundingCostsOne | internal/fault/resource/disk/stress.go:324-337 | with its two quotients rounded to nearest, 98 a second, 1 s into a 49 s ramp, is set to 1 where the quotient is 2 |
| TokenBuckets.RampIsSchedule | internal/fault/resource/disk/stress.go:304-340 | what rampLoop sets is a schedule the bound covers unless float64 rounds the target up |
| TokenBuckets.RetunesLaw | internal/fault/resource/disk/stress.go:314-339 | one setting per tick, at the tick's ramped rate |
| TokenBuckets.RampedThroughput | internal/fault/resource/io/stress.go:355-392 | the throughput bound for any interleaving of polls with a ramp's settings |
| TokenBuckets.GrantedIffEarned | internal/fault/resource/disk/stress.go:251-290 | for any stamps of its polls a lone waiter at a fixed rate is granted n tokens iff what it held and the whole tokens each gap earned come to n |
| TokenBuckets.GrantedAtFirst | internal/fault/resource/disk/stress.go:251-290 | it is granted at the first poll at which they do, with the rest left in the bucket |
| TokenBuckets.CancelStops | internal/fault/resource/disk/stress.go:252-275 | a waiter whose context ends before it is served stops there and takes nothing |
| TokenBuckets.AcquireSucceeds | internal/fault/resource/disk/stress.go:251-276 | polling at once and then after every interval or later, it is granted n tokens once the polls after the first have earned them at floor(rate/100) each |
| TokenBuckets.NothingEarnedIff | internal/fault/resource/disk/stress.go:278-290 | polling earns nothing at all iff every gap is too short for one token at the rate |
| TokenBuckets.SlowRateStarves | internal/fault/resource/disk/stress.go:278-290 | a waiter short of tokens all of whose gaps are that short is never served, for any number of polls |
| TokenBuckets.ServedIffHundred | internal/fault/resource/disk/stress.go:251-290 | a waiter short of tokens is served on every schedule of more than n polls that acquire can produce iff the rate is at least 100 |
| TokenBuckets.TokenBucket.constructor | internal/fault/resource/disk/stress.go:228-237 | the bucket starts full |
| TokenBuckets.TokenBucket.DoRefill | internal/fault/resource/disk/stress.go:278-290 | the fields change as the refill step says |
| TokenBuckets.TokenBucket.DoSetRate | internal/fault/resource/disk/stress.go:292-300 | rate and capacity are the new ones, without a refill, as RetuneLaw has them |
| TokenBuckets.TokenBucket.DoAcquire | internal/fault/resource/disk/stress.go:251-276 | the loop ends granted, cancelled or still waiting as the recursive reading of its turns says |
| TokenBuckets.TokenBucket.RampLoop | internal/fault/resource/disk/stress.go:304-340 | without ramps it changes nothing; otherwise it is the run of its retunings and leaves the rate of its last tick |
| TokenBuckets.TokenBucket.Take | internal/fault/resource/disk/stress.go:259-266 | one poll refills, and takes n tokens iff they are there |
| TokenBuckets.WriteWorker | internal/fault/resource/disk/stress.go:184-215 | every chunk written was granted by the bucket, under any ramp; bytes written by time T are at most capacity(target) + floor(target * T / 1s); the file stays within MaxDiskUsage iff the chunk size does |
| Registry.NextInv | internal/interceptor/registry.go:45-86 | every step of starters, sends and callbacks keeps the accounting invariants |
| Registry.Exclusive | internal/interceptor/registry.go:62-83 | at most one deduplicated fault per key is running or still owns its key, in every interleaving |
| Registry.ExactAccounting | internal/interceptor/registry.go:45-101 | active holds exactly the keys of counted faults that run, are about to be freed or missed their callback; the WaitGroup counts exactly those whose callback has not finished |
| Registry.MissedKeyNeverFreed | internal/fault/fault.go:69-93 | a Send that read the slot before the registry's callback was stored keeps its key active for ever, joins every later start to the dead fault, and keeps Close waiting |
| Registry.FoundKeyIsFreed | internal/interceptor/registry.go:78-83 | a Send that found the callback frees exactly its key and one count |
| Registry.MissedRun | internal/fault/fault.go:73-93 | the missing schedule exists |
| Registry.CloseReturns | internal/interceptor/registry.go:90-101 | the wait can end iff every counted fault's callback has finished |
| Registry.BeginLaw | internal/interceptor/registry.go:50-70 | a start that fails or joins leaves nothing behind; any other makes a running fault, uncounted yet |
| Registry.FaultRegistry.StartOrJoin | internal/interceptor/registry.go:45-86 | undisturbed: joined iff deduplicated and active, started iff neither joined nor failing, with the new map and count |
| Registry.FaultRegistry.Send | internal/fault/fault.go:88-93 | a registered handle's Send frees its key and one count |
| Rules.StableSortFacts | compiled_rule.go:88-92 | the sort is descending by priority and keeps list order within each priority |
| Rules.AnyStableSort | compiled_rule.go:88-92 | any list with those two properties is the same list, however it was sorted |
| Rules.SpelledRoundTripIff | compiled_rule.go:106-172 | a rule spelled out in the SDK's own words decodes to itself iff its start policy is not deduplicate_by_type |
| Rules.ByTypeReadsAsByRule | compiled_rule.go:165-172 | such a rule decodes to the same one with the policy deduplicate_by_rule |
| Rules.DecodeSettles | compiled_rule.go:106-172 | spelling a decoded rule out and decoding it again changes nothing, whatever unknown words it came with, and it applies to the same requests |
| Rules.UnknownWords | compiled_rule.go:139-172 | unknown or missing words read as ingress, inline and start by rule |
| Rules.RefusedIff | compiled_rule.go:104-137 | a rule is refused, by its name, iff it has a fault that does not decode or is a composition |
| Rules.DecodesIffAllDo | compiled_rule.go:94-102 | the list decodes iff every rule's fault decodes and none is a composition |
| Rules.DecodeCompiledRules | compiled_rule.go:87-103 | all or nothing: the decoding of the sorted list, or the first failing rule |
| Rules.ErrorNamesFirst | compiled_rule.go:94-102 | the error names the first refused rule in sorted order |
| Rules.SortThenFirstIsBest | compiled_rule.go:87-137 | evaluation returns the decision of the applicable rule of highest priority, ties to the earliest as received, and nothing iff none applies |
| Rules.AppliesIff | internal/evaluator/static.go:46-51 | a compiled rule applies iff its word is for the request's point and every label it wants reads alike on the request |
| Rules.FirstMatchIsFirstFit | internal/evaluator/static.go:42-57 | the answer is the decision of the first rule for the request's injection point whose wanted labels all read alike on it, and nil iff there is none |
| Rules.CheckLabels | internal/evaluator/static.go:79-86 | every wanted label equals the request's, an absent one reading as empty |
| Rules.EmptyLabelMatchesAbsent | internal/evaluator/static.go:77-86 | a rule label with the empty value also matches a request without it |
| Rules.MatchingIsHavingIff | internal/evaluator/static.go:77-86 | matching is having every wanted label, for every request, iff the rule wants no empty value |
| Rules.StaticEvaluator.Evaluate | internal/evaluator/static.go:42-57 | the scan returns the first match, which FirstMatchIsFirstFit spells out |
| Rules.StaticEvaluator.SetRules | internal/evaluator/static.go:60-66 | replaces the whole list |
| Rules.Apply | register.go:119-133 | no rules: no change; no target: error; a failing rule: the old rules stay; otherwise the decoded list is installed |
| PollLoop.TraceLaw | manteion_client.go:160-215 | for every outcome sequence, whatever happens in between: the counter is the trailing failure run, re-registrations = runs reaching six + runs ended by a success, the ticker period is the backoff of the run |
| PollLoop.StatusAgreesIff | manteion.go:92-101 | in every run, status is Degraded iff the streak is running, iff ConnectManteion's store of Connected has not come after a last poll that failed; Disconnected iff nothing has been stored yet |
| PollLoop.ConnectOverwritesFailure | manteion.go:92-101 | a first poll that fails before that store leaves status Connected with one failure |
| PollLoop.PollRestoresStatus | manteion_client.go:166-203 | the next poll of whatever outcome makes them agree again |
| PollLoop.BackoffLaw | manteion_client.go:172-174 | the retry wait never shrinks in the streak, is at most 60s, and is at least the poll interval iff that is at most 60s |
| PollLoop.BackoffDoubles | manteion_client.go:172-173 | the wait starts at twice the interval and doubles with each of the first six failures, up to 60s |
| PollLoop.InstalledIsLast | manteion_client.go:253-262 | installed rules are the whole decoding of the last installing event, the fetch before the loop included |
| PollLoop.RuleVersionPairing | manteion_client.go:218-271 | a non-zero version is that of the last installed payload, and its decoding is installed unless a register response installed rules later |
| PollLoop.RegisterBreaksPairing | manteion_client.go:144-155 | a register response with rules does leave a version paired with other rules |
| PollLoop.QuietPolls | manteion_client.go:237-256 | 304s, errors and undecodable payloads change neither rules nor version, save the reset on recovery |
| PollLoop.RecoveryForcesFullPull | manteion_client.go:192-198 | the success ending a failure run leaves version 0, whatever it fetched |
| PollLoop.ManteionClient.constructor | manteion.go:61-68 | a new client is disconnected, with no failures, at version 0 |
| PollLoop.ManteionClient.FetchRules | manteion_client.go:218-271 | nil iff answered; rules and version change together or not at all |
| PollLoop.ManteionClient.PollOnce | manteion_client.go:166-203 | one poll has the effect the trace law speaks about |
| PollLoop.ManteionClient.Loop | manteion_client.go:205-214 | the loop is the run of its polls and of what ConnectManteion and the register responses do around them |
| EventStream.ScanLines | manteion_client.go:327-343 | the loop counts the triggers of the line-by-line reading |
| EventStream.TrimFacts | manteion_client.go:339-340 | an event name is the field without the white space at its ends |
| EventStream.EventLineName | manteion_client.go:339-340 | an event line names what follows the colon less the white space around it |
| EventStream.AnnouncementTriggers | manteion_client.go:333-340 | rules_changed, with any white space around it, triggers at the next blank line and no other name does |
| EventStream.SpaceLaw | manteion_client.go:340 | in ASCII, white space is the blank and tab to carriage return |
| EventStream.TriggersAreAnnouncements | manteion_client.go:324-344 | exactly one trigger per blank-line-terminated block whose last event field trims to rules_changed |
| EventStream.TokenIffUnserved | manteion.go:89-100 | the one-slot channel holds a value iff a block, of whichever connection, announced a change since the last poll that took one out, in every interleaving with reconnections |
| EventStream.CutBlockIsLost | manteion_client.go:327-336 | a block cut by the end of its connection never triggers, not even at the next connection's first blank line |
| EventStream.UnpolledChangeIsPending | manteion_client.go:205-213 | a change with no poll after it is still in the channel |
| Toxics.TrailingIsRun | internal/fault/network/loss.go:39-63 | the loss counter is at least k iff the last k data reads were all lost |
| Toxics.LossPipe | internal/fault/network/loss.go:31-77 | writes a prefix of what it read, all of it on a nil return; resets iff a run of ResetThreshold lost data reads is complete, at the first such read, having written all before it; every other exit has its cause and exact bytes |
| Toxics.LossEndsMeans | internal/fault/network/loss.go:31-77 | turn by turn and byte by byte: no run of lost reads before the last turn is complete, and each exit has its cause and its bytes |
| Toxics.RstPipe | internal/fault/network/rst.go:46-84 | writes a prefix, exact on every exit; the byte trigger fires at the first turn reaching AfterBytes, with AfterBytes <= forwarded < AfterBytes + 32768 |
| Toxics.DripChunk | internal/fault/network/drip.go:40-58 | one read goes out in full pieces but for the last, up to the first drip whose write fails or whose pause is cut with data left, and otherwise whole |
| Toxics.DrippedMeans | internal/fault/network/drip.go:40-58 | piece by piece: the pieces before the last are full and undisturbed, and the last says how the read ends |
| Toxics.DripPipe | internal/fault/network/drip.go:22-67 | writes a prefix of what it read, all of it on a nil return; every turn before the last went out whole and the last says why the pipe ends |
| Toxics.PipeEndsMeans | internal/fault/network/drip.go:30-66 | turn by turn: those before the last went out whole, and the last, or the select after it, says why the pipe ends |

## Where the code and its comments differ

The model follows the code in each case.

- internal/interceptor/registry.go:39-40 says a key is freed after its fault completes; that is so exactly when
  the fault's Send reads the callback slot after the registry has stored its callback.
- internal/evaluator/static.go:77-78 says every wanted label must be present; a label wanted with the empty value
  also matches when absent.
- internal/interceptor/cachebox.go:58-59 says a failed body capture does not break the request; the bytes consumed
  before the error are missing from the request that is then forwarded.
- internal/cachebox/recorder.go:126-128 says Stop blocks until the drain goroutine exits; one that finds the flag
  set returns at once. It says Record calls after Stop are no-ops; one that passed the check earlier sends on a
  closed channel and panics.
- internal/fault/resource/disk/config.go:25-27 calls MaxDiskUsage the most the file occupies; a chunk size above it
  is written in full.
- internal/fault/resource/io/stress.go:280-281 says a single acquire can always succeed; polled at gaps too short
  for one token at the rate, as every interval is below 100 tokens a second, it never does once the bucket is short.
- manteion_client.go:28 reads Degraded as recent poll failures; ConnectManteion stores Connected after the loop has
  started (manteion.go:92-101), and so over the Degraded of a first poll that fails before it, until the next poll.
- README.md:350 scales rates linearly; float64 rounding and truncation keep within one of that, and can cost one.
- internal/cachebox/cachebox.go:216-219 says an oversize body is not cached by body hash; it is cached under the
  empty body's, and served to requests without a body.
- internal/evaluator/evaluator.go:73-74 prints a start policy that compiled_rule.go:165-172 reads as another.

## Left out

- HTTP, JSON, YAML, tracing, metrics and gRPC plumbing: library calls, present only as outcomes.
- Admin and health handlers: single-branch dispatch over the operations modelled here.
- Per-type fault decoding (compiled_rule.go:174-510): a case table, abstracted to "decodes to a fault" or "fails".
- Sockets, hijacking and linger in the TCP proxy: foreign state; only the byte-stream loops are modelled.
- CPU and memory faults, and the io fault's file round robin: hardware effects and short arithmetic.
- Delay sampling: a replay delay is any integer.
- The FNV body hash: any function from bytes to natural numbers, printed in hexadecimal.
- Entry hit counts, and the time source behind TTL checks beyond the stamp passed to Get.
- The active-fault and freeze-config parts of Apply, and the decision's constant reason text.
- RampedRate: float64 rounding is any monotone rounding, idempotent, exact on integers up to 2^53 and within
  2^-52 relative, not the particular direction Go uses.
- RampInRange: speaks of targets whose float64 converts back to int64, which excludes those that round to 2^63, where
  Go leaves the conversion to the implementation.
- RefillKeepsSignIff: for counts below what half the range of int64 earns, some 9.2e9 tokens.
- DoAcquire: the addition of tokens is not wrapped; only the product rate * elapsed is, being the one that can overflow.
- AcquireSucceeds: assumes a single waiter at a fixed rate, as other waiters may take what a refill adds.
- KeyCanonical: says nothing of verbs or hosts that hold a bar.
- ReplayedForEquivalentRequest: speaks of drained responses; a seeded entry carries only its key.
- LossPipe: the loss draw is an input, so nothing is said about its probability.
- MemStore: list elements are addresses in an arena rather than heap objects, so sharing is captured and garbage is not.
