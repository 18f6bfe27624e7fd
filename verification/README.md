# Verified model of pinGo's building blocks

pinGo re-implements the building blocks of a proxy as in-memory state machines
behind locks. This project models seven of its packages in Dafny and proves what
they guarantee over whole runs: the LRU cache and the two-level cache, the
consistent-hash ring and its two balancers, the three rate limiters, the circuit
breaker, the TCP connection pool, the Cache-Control header, and the round-robin
balancer. `dafny verify dfyconfig.toml` checks everything.

Each component has two layers. A *specification* module describes its state as a
value and states the theorems (`RingSpec`, `BalancerSpec`, `RingCounts`,
`RingHistory`, `CacheSpec`, `Eviction`, `CacheRuns`, `Inclusion`, `TieredSections`,
`LimitSpec`, `WindowSpec`, `CacheControlReading`, and the first halves of the other
modules). A class holds the fields
the source updates in place; each of its methods is proved against the specification
and says what the whole new state is.

Conventions:

- A clock reading is a parameter of the method that takes it, in nanoseconds.
  Theorems about runs say what they need of the clock: that it never goes back,
  or, for LRU order, that access times strictly increase (two equal access times
  are ordered by map iteration in the source).
- Hashing is an arbitrary total function from strings to 32-bit points. A theorem
  that needs labels of different nodes not to collide says so.
- Iteration over a Go map is a loop that picks any remaining key; where the order
  decides the outcome, as in eviction, the order is a parameter.
- Locks appear as atomicity: an interleaving is a run of locked sections.
- Integers are unbounded except where the width matters: ring points (32 bits),
  the round-robin counter (64 bits, wrapping), `Atoi` and durations (64 bits).

Properties one might expect that are false of the code as it stands. Each has a
concrete case, and the lemma marked *iff* says exactly when the property holds:

- Removing a ring node also removes points another node took over by a collision
  (`CollisionRemovesAnotherNode`; *iff* `RemoveIsExactIff` for a list,
  `RunRemoveIsExactIff` for every run).
- Overlapping updates of the plain balancer need not leave a rebuild of any list
  (`OverlappingUpdatesMerge`; *iff* `UpdateIsRebuildIff`).
- A weighted backend re-added with a smaller weight and then removed can still be
  selected (`ShrunkThenRemovedStrands`; *iff* `RunStrandsIff`, for every run).
- The eviction loop need not end when the empty string is a key
  (`OversizedNewestNeverLeaves`; *iff* `EvictionRunsForeverIff`, `EvictionCanEndIff`).
- With a byte limit, allowing more items can lose a key (`ByteLimitLosesKey`;
  *iff* `MoreItemsNeverLoseIff`, for runs that cannot stall), and where the empty
  string is a key it can without one (`EmptyKeyLosesKey`; *iff* `AnyKeyNeverLosesIff`,
  for all runs).
- The tiered cache serves a value up to one hour after its time-to-live
  (`ServesLastSetInTime`, reached by `LateHourIsReached`), though only after a
  promotion (`LateOnlyAfterPromotion`), and a concurrent Delete can be undone by a
  promotion (`PromotionUndoesDelete`; *iff* `PromotionIsCurrentIff`). Overlapping
  Sets can leave two values of a key in the two levels (`OverlappingSetsDiffer`;
  *iff* `LevelsAgreeIff`).
- A negative count passed to the token bucket or the fixed window breaks the bound
  of later calls (`RefundsBreakBound`, `RefundsBreakFixedBound`;
  *iff* `BoundedIffNoNegative`, `FixedBoundedIffNoNegative`).
- The circuit breaker follows its two-field description only with a positive
  failure limit or a negative timeout (*iff* `RefinesIffGuarded`).
- A max-age that overflows 64 bits does not survive printing and reading
  (`OverflowIsNotKept`; *iff* `PrintThenParseIff`).
- Round-robin order and shares break when the counter wraps (`WrapPicksFirstTwice`;
  *iff* `RotationIff`, `AlwaysFairIff`).
- Closing the pool while a connection is lent or a Get is under way breaks its
  counts for good (`OverlappingCloseBreaks`; *iff* `CloseIsSafeIff`).
- A connection returned twice is lent to two callers (`TwiceReturnedFromStart`;
  *iff* `TwiceReturnedIsLentTwiceIff`).

## Model

| member | source | states |
|---|---|---|
| RingSpec.AddThenRemove | pkg/ketama/ketama.go:27-52 | adding and then removing a node restores the ring if and only if its points were free |
| RingSpec.NearestIsNextPoint | pkg/ketama/ketama.go:62-70 | the point at least clockwise distance is the least point at or after the hash, wrapping to the least of all |
| RingSpec.AddMovesKeysOnlyToNewNode | pkg/ketama/ketama.go:27-71 | after adding a node every key stays where it was or moves to that node, with no assumption on the hash |
| RingSpec.WalkListsEachNodeOnce | pkg/ketama/ketama.go:88-107 | the full walk of a key lists every node of the ring exactly once |
| RingSpec.WalkIsByDistance | pkg/ketama/ketama.go:85-107 | the walk is ordered by the clockwise distance of each node's nearest point |
| RingSpec.WalkWithout | pkg/ketama/ketama.go:73-108 | dropping a node's points filters that node out of every walk and keeps the order of the rest |
| RingSpec.FailoverOrder | pkg/ketama/ketama.go:42-108 | removing a node with no shared points filters it out of every key's walk, and its keys go to the node that came second |
| RingSpec.CollisionRemovesAnotherNode | pkg/ketama/ketama.go:46-49 | whenever labels of two nodes hash to one point, removing the one added first takes the point its later owner serves keys from, which removing only its own points would not |
| RingSpec.LabelReads | pkg/ketama/ketama.go:32 | a label is the node, a colon and the index in decimal: cutting at the last colon gives the node back and the rest reads as the index |
| RingSpec.LabelInjective | pkg/ketama/ketama.go:32 | labels are injective in node and index |
| BalancerSpec.RemoveIsExactIff | pkg/ketama/ketama.go:27-52 | on a ring built from a list, removing a node leaves exactly the points of the others if and only if no name added after the node's last addition shares a label point with it |
| RingHistory.RunRemoveIsExactIff | pkg/ketama/ketama.go:27-52 | after any run of additions, removals and updates, removing a node leaves exactly the points of the others if and only if no label point of the node was last touched by the addition of another |
| BalancerSpec.UpdateIsRebuild | pkg/ketama/ketama.go:209-228 | without collisions a diff-based update that no other call overlaps leaves the ring a fresh build of the new list gives, repeats and removal order included |
| RingHistory.RunHasTouches | pkg/ketama/ketama.go:197-228 | every run of the balancer is a sequence of single ring additions and removals that leaves the same ring |
| RingHistory.UpdateIsRebuildIff | pkg/ketama/ketama.go:209-228 | an update holds no lock between its ring operations: without collisions, and whatever other calls do in between, it leaves a fresh build of its list if and only if every name that another call touched last was left as the list has it |
| RingHistory.OverlappingUpdatesMerge | pkg/ketama/ketama.go:209-228 | two updates to one backend each that both find the ring empty leave both backends, a rebuild of neither list |
| BalancerSpec.RunIsPointMap | pkg/ketama/ketama.go:170-228 | after any run of additions, removals and updates, one after the other, the ring holds exactly the label points of the configured set |
| BalancerSpec.HistoryDoesNotMatter | pkg/ketama/ketama.go:170-228 | two runs give the same ring if and only if they configure the same set |
| RingCounts.RunPointCount | pkg/ketama/ketama.go:27-52 | after any run, where the labels of the names do not collide, a ring of k configured names has k times `replicas` points, and each name owns exactly the `replicas` points its name, a colon and each index hash to |
| BalancerSpec.RunFailover | pkg/ketama/ketama.go:42-108 | after any run on a collision-free hash, removing a backend filters it out of every key's walk and keeps the order of the rest |
| BalancerSpec.RunIsLabelled | pkg/ketama/ketama.go:27-52 | in every reachable ring each live point is a label of its owner, with no assumption on the hash |
| BalancerSpec.KeptOwnerStaysOrMovesToNew | pkg/ketama/ketama.go:209-228 | a key whose backend is kept stays on it or moves to a newly added backend |
| BalancerSpec.BackendOfVirtual | pkg/ketama/ketama.go:257-295 | cutting a virtual name at its last dash recovers the backend, dashes in the backend included |
| BalancerSpec.VirtualInjective | pkg/ketama/ketama.go:258 | virtual names are injective in backend and index |
| BalancerSpec.RunIsSound | pkg/ketama/ketama.go:247-278 | if no present backend is re-added with a smaller weight, every live point is a label of a virtual node of a current backend |
| BalancerSpec.SelectionIsCurrent | pkg/ketama/ketama.go:247-295 | under the same condition every selection names a current backend, however labels collide |
| BalancerSpec.RunIsVirtualPointMap | pkg/ketama/ketama.go:247-278 | without collisions such a run leaves exactly the virtual nodes of the current weights |
| BalancerSpec.SelectionDuringUpdateIsCurrent | pkg/ketama/ketama.go:247-295 | selection takes no balancer lock: after any such run, also between the single ring updates of the next addition or removal it names a backend that has a weight |
| BalancerSpec.RunStrandsIff | pkg/ketama/ketama.go:247-278 | after any run on a collision-free hash a removed backend is still selectable if and only if some backend without a weight has a high-water mark above zero: the largest weight added since a removal whose weight reached the mark |
| BalancerSpec.ShrunkThenRemovedStrands | pkg/ketama/ketama.go:247-278 | adding a backend twice and removing it leaves it selectable exactly when the second weight was smaller |
| RingCounts.AddedWeight | pkg/ketama/ketama.go:247-261 | after adding a backend with the number w, whatever came before, its weight is w, or one when w is below one, and every label of that many virtual nodes is on the ring |
| RingCounts.WeightIsShare | pkg/ketama/ketama.go:247-278 | after a run that never shrinks a weight, where labels do not collide, a backend owns exactly its last added weight times `replicas` points, and one without a weight owns none |
| Ketama.Ring.AddNode | pkg/ketama/ketama.go:27-40 | the point map gains the node's labels; the slice stays sorted, indexes the map and keeps every appended point |
| Ketama.Ring.RemoveNode | pkg/ketama/ketama.go:42-52 | the point map loses the node's labels; the slice is rebuilt sorted and without duplicates |
| Ketama.Ring.RebuildSortedKeys | pkg/ketama/ketama.go:138-147 | the slice becomes the sorted listing of the map's points, each once |
| Ketama.Ring.Search | pkg/ketama/ketama.go:132-136 | the index splits the slice into points before the hash and points at or after it |
| Ketama.Ring.GetNode | pkg/ketama/ketama.go:54-71 | an error on an empty ring, else the owner of the clockwise nearest point |
| Ketama.Ring.GetNodes | pkg/ketama/ketama.go:73-108 | the errors, else the first count nodes of the key's walk (all of it when it is shorter), found in at most one trip around the slice, duplicates in it included |
| Ketama.Ring.GetUniqueNodes | pkg/ketama/ketama.go:117-130 | every node of the ring, each once, in alphabetical order |
| Ketama.KetamaBalancer.constructor | pkg/ketama/ketama.go:174-187 | a ring built from the list, with 160 replicas when none are given |
| Ketama.KetamaBalancer.SelectBackend | pkg/ketama/ketama.go:189-191 | the owner of the key |
| Ketama.KetamaBalancer.SelectBackends | pkg/ketama/ketama.go:193-195 | the first backends of the key's walk |
| Ketama.KetamaBalancer.AddBackend | pkg/ketama/ketama.go:197-199 | the step of a run that adds a backend |
| Ketama.KetamaBalancer.RemoveBackend | pkg/ketama/ketama.go:201-203 | the step of a run that removes a backend |
| Ketama.KetamaBalancer.UpdateBackends | pkg/ketama/ketama.go:209-228 | an update no other call overlaps is the step of a run that replaces the list |
| Ketama.WeightedKetamaBalancer.AddBackend | pkg/ketama/ketama.go:247-261 | the weighted step: weights below one become one, and that many virtual nodes are added |
| Ketama.WeightedKetamaBalancer.RemoveBackend | pkg/ketama/ketama.go:263-278 | the weighted step: nothing for an unknown backend, else its virtual nodes and weight go |
| Ketama.WeightedKetamaBalancer.SelectBackend | pkg/ketama/ketama.go:280-295 | the backend part of the owner's name |
| CacheSpec.SetRefinesRecencyList | pkg/cache/cache.go:110-226 | after a Set whose eviction takes the least recently used, as every one that cannot stall does, the contents are the longest most recently used part, key moved to newest, that fits both limits |
| CacheSpec.SetValueStaysIffItFits | pkg/cache/cache.go:134-145 | a value is present after such a Set of its own if and only if it does not by itself exceed the byte limit |
| CacheSpec.GetLeaves | pkg/cache/cache.go:82-108 | after a Get the key is stored, with a new access time, if and only if it was stored and its time-to-live had not run out; every other entry is as it was; the counts moved by one hit or one miss accordingly; and exactly then there is a value to return |
| Inclusion.MoreItemsNeverLose | pkg/cache/cache.go:82-226 | without byte limit, in runs in which no eviction can stall, a cache allowed more items always includes one allowed fewer, same values and access times, and has at least its hits |
| Inclusion.HitsStayHits | pkg/cache/cache.go:82-108 | in such runs raising the item limit never turns a hit into a miss or changes the value served |
| Inclusion.HitsAreFinds | pkg/cache/cache.go:82-108 | over every run the hits are exactly the Gets that found their key stored and alive, and the misses all the others |
| Inclusion.ByteLimitLosesKey | pkg/cache/cache.go:197-205 | for every byte limit and every item limit of two or more, a run without the empty key exists in which a cache allowed more items loses a key the other keeps |
| Inclusion.MoreItemsNeverLoseIff | pkg/cache/cache.go:82-226 | of two caches sharing a byte limit, the one allowed more items includes the other in all runs in which no eviction can stall if and only if there is no byte limit, the other is allowed one item, or both are allowed the same |
| Inclusion.EmptyKeyLosesKey | pkg/cache/cache.go:196-226 | with the empty string among the keys and no byte limit, for any item limits of two or more runs of the loop exist in which the cache allowed as many or more items loses a key the other keeps |
| Inclusion.AnyKeyNeverLosesIff | pkg/cache/cache.go:82-226 | with any keys and iteration orders, the cache allowed more items includes the other in all runs if and only if the other is allowed one item or the cache allowed more has no limit at all |
| CacheRuns.InterleavingsBalance | pkg/cache/cache.go:82-226 | in every interleaving of the locked sections the counters agree with the entries, the limits hold, finished Gets are hits plus misses, and every insert is present, evicted or removed |
| CacheRuns.GetIsItsSections | pkg/cache/cache.go:82-108 | the locked sections of a Get, taken in a row from any state of an interleaving, lead to the state of the uninterrupted Get and leave nothing pending |
| Eviction.ScanComesBackEmpty | pkg/cache/cache.go:207-218 | the scan finds nothing only when the empty key is visited last and is strictly oldest |
| Eviction.EvictionRunsForeverIff | pkg/cache/cache.go:196-226 | some choice of iteration orders lets the eviction loop run for ever if and only if the empty string is a key and it, with the entries used strictly after it, exceeds the limits |
| Eviction.EvictionCanEndIff | pkg/cache/cache.go:196-226 | some choice of iteration orders lets it end if and only if the value of the empty key, if there is one, does not itself exceed the byte limit |
| Eviction.NoStallCuts | pkg/cache/cache.go:196-226 | under every iteration order, an eviction that cannot stall leaves what fits, nothing evicted having been used after anything kept, and the last eviction having been necessary |
| Eviction.AnyKeyMayGo | pkg/cache/cache.go:211-218 | while the empty key is the oldest, some iteration order evicts any other key, the newest included |
| Eviction.OversizedNewestNeverLeaves | pkg/cache/cache.go:196-226 | a newest empty key larger than the byte limit keeps the loop running under every choice of orders |
| Eviction.ScanFindsOldest | pkg/cache/cache.go:211-216 | without the empty key the scan finds an entry no other is older than, in any iteration order |
| MemoryCache.MemoryCache.EvictLRU | pkg/cache/cache.go:207-226 | exactly the entry the scan finds, for any iteration order, goes and is counted |
| MemoryCache.MemoryCache.EvictIfNeeded | pkg/cache/cache.go:196-205 | under any iteration orders under which the loop ends, what their scans leave, every removal counted |
| MemoryCache.MemoryCache.CountMiss | pkg/cache/cache.go:88-90 | only the miss counter moves and the accounts stay balanced |
| MemoryCache.MemoryCache.CountHit | pkg/cache/cache.go:102-105 | the hit is counted and the entry stamped if it is still stored |
| MemoryCache.MemoryCache.Get | pkg/cache/cache.go:82-108 | value, expired or missing, with the whole new state, which GetLeaves describes entry by entry |
| MemoryCache.MemoryCache.Set | pkg/cache/cache.go:110-149 | for any key and any iteration orders under which its eviction ends, the whole new state; and a cut of the contents, with the key replaced, unless the eviction could stall |
| MemoryCache.MemoryCache.Delete | pkg/cache/cache.go:151-163 | exactly the key goes and the accounts stay balanced |
| MemoryCache.MemoryCache.Clear | pkg/cache/cache.go:165-175 | everything goes; hits, misses and evictions stay |
| TieredCache.ServesLastSetInTime | pkg/cache/cache.go:267-298 | whatever the levels evict, a successful Get returns the value of the last Set since a Delete or Clear, never later than one hour (and twice the longest delay) after its time-to-live |
| TieredCache.LateHourIsReached | pkg/cache/cache.go:273-277 | for every time-to-live a run that evicts only the least recently used serves the value exactly one hour after it ran out |
| TieredCache.LateOnlyAfterPromotion | pkg/cache/cache.go:267-280 | a value is served after its time-to-live only from the first level and only when a promotion of the key followed its last Set |
| TieredCache.StandingSetIsServed | pkg/cache/cache.go:267-298 | behind a second level without limits, whatever the first level evicts, a Get succeeds while the last Set of the key stands and its time-to-live has not run out by the readings so far |
| TieredSections.PromotionIsCurrentIff | pkg/cache/cache.go:82-149 | in every interleaving of the locked sections of both levels a promotion stores what the last second-level write before its look-up stored, and that is still the last write if and only if no Set, Delete or expiry of the key and no Clear ran there in between |
| TieredSections.PromotionUndoesDelete | pkg/cache/cache.go:267-293 | a run from empty caches, for any value that fits both levels: after a Delete ran on both levels the pending promotion brings the value back and the first level serves it |
| TieredSections.LevelsHoldSources | pkg/cache/cache.go:267-298 | after every section of every interleaving each entry of each level holds the value of the one section that the history of sections names for it, through promotions, expiries and evictions |
| TieredSections.LevelsAgreeIff | pkg/cache/cache.go:267-298 | when each call stores a value of its own, a key in both levels has one value in them if and only if both were last given it by the same Set |
| TieredSections.OverlappingSetsDiffer | pkg/cache/cache.go:282-288 | two whole overlapping Sets leave the two values of a key in the two levels |
| TieredCache.TieredCache.Get | pkg/cache/cache.go:267-280 | first level, else second level with promotion, under any iteration orders under which the promotion's eviction ends; the error is the second level's |
| TieredCache.TieredCache.Set | pkg/cache/cache.go:282-288 | both levels store the value, under any iteration orders under which their evictions end |
| TieredCache.TieredCache.Delete | pkg/cache/cache.go:290-293 | both levels drop the key |
| TieredCache.TieredCache.Clear | pkg/cache/cache.go:295-298 | both levels are emptied |
| LimitSpec.TokenBucketBound | pkg/limits/limiter.go:39-86 | over every run without negative counts the grants in any interval are at most the capacity plus the refill of one second more than the whole seconds in it |
| LimitSpec.TokenBucketBoundFromCreation | pkg/limits/limiter.go:26-86 | counted from creation the extra second is not there |
| LimitSpec.TokenBucketBoundIsReached | pkg/limits/limiter.go:39-86 | the interval bound is attained |
| LimitSpec.BoundedIffNoNegative | pkg/limits/limiter.go:45-48 | with counts allowed down to some least number, the bound holds in every run if and only if that number is not negative or lies above a negative capacity |
| LimitSpec.RefillsAtLeastHalfRate | pkg/limits/limiter.go:74-86 | uncapped refills lie between half the nominal rate and the nominal rate, whatever is asked for |
| LimitSpec.TokensAreConserved | pkg/limits/limiter.go:39-86 | initial tokens plus refills equal tokens left plus grants plus what the cap spilled, over every run |
| LimitSpec.GrantedIffCovered | pkg/limits/limiter.go:39-51 | a call is granted if and only if the history of refills, spills and grants leaves enough for it |
| WindowSpec.SlidingRuns | pkg/limits/limiter.go:127-174 | the remembered stamps are the grant history cut to the window, at every later cutoff |
| WindowSpec.GrantedIffWithinLimit | pkg/limits/limiter.go:127-142 | a call is granted if and only if the grants of the window ending now stay within the limit with it |
| WindowSpec.SlidingWindowBound | pkg/limits/limiter.go:127-174 | no interval of one window's length sees more than the limit granted |
| WindowSpec.FixedRuns | pkg/limits/limiter.go:276-292 | without negative counts the count is what the current window granted, the window is never older than its length, and one window's time before it saw at most the limit |
| WindowSpec.GrantedIffWindowHasRoom | pkg/limits/limiter.go:276-292 | over every run without negative counts a call is granted if and only if, with it, the grants since its window began stay within the limit; when windows begin is decided by the call times alone |
| WindowSpec.FixedWindowBound | pkg/limits/limiter.go:276-292 | without negative counts no half-open interval of one window's length sees more than twice the limit |
| WindowSpec.FixedBoundedIffNoNegative | pkg/limits/limiter.go:286-289 | with counts allowed down to some least number, that bound holds in every run if and only if that number is not negative, lies above a negative limit, or the window is empty |
| WindowSpec.TwiceTheLimitIsReached | pkg/limits/limiter.go:276-292 | twice the limit is attained, for every limit |
| Limiters.TokenBucket.AddTokens | pkg/limits/limiter.go:74-86 | the refill step, leaving the clock alone when nothing is added |
| Limiters.TokenBucket.AllowN | pkg/limits/limiter.go:39-51 | the step of a token bucket run |
| Limiters.TokenBucket.GetTokens | pkg/limits/limiter.go:101-106 | refills, then reports |
| Limiters.SlidingWindowLimiter.Cleanup | pkg/limits/limiter.go:163-174 | exactly the stamps inside the window stay, in order |
| Limiters.SlidingWindowLimiter.AllowN | pkg/limits/limiter.go:127-142 | the step of a sliding window run |
| Limiters.SlidingWindowLimiter.GetCurrentCount | pkg/limits/limiter.go:176-182 | cleans up, then counts |
| Limiters.FixedWindowLimiter.AllowN | pkg/limits/limiter.go:276-292 | the step of a fixed window run |
| CircuitBreaker.RunFollowsHistory | pkg/timeout/timeout.go:278-344 | in every interleaving failures is the length of the trailing run of failures, closed means below the limit, and half-open means the timeout has passed |
| CircuitBreaker.StateFollowsHistory | pkg/timeout/timeout.go:278-344 | with a positive limit, in every interleaving the breaker is closed if and only if the trailing failures are below the limit, and half-open if and only if they meet it and a call was let in since the last recorded result or reset |
| CircuitBreaker.RefinesIffGuarded | pkg/timeout/timeout.go:288-306 | admission is decided as by the two-field history in every interleaving if and only if the limit is positive or the timeout negative |
| CircuitBreaker.Circuit.AllowRequest | pkg/timeout/timeout.go:288-306 | the admit step |
| CircuitBreaker.Circuit.RecordResult | pkg/timeout/timeout.go:308-323 | the record step |
| CircuitBreaker.Circuit.Reset | pkg/timeout/timeout.go:337-344 | the reset step |
| ConnectionPool.RunsConserve | pkg/pool/pool.go:152-239 | in every interleaving of the sections of Get, Release and Close in which callers behave, each host's active count is its loans, idle and lent stay within the limit, no connection is held twice, and calls under way hold the host pool in use |
| ConnectionPool.CloseIsSafeIff | pkg/pool/pool.go:224-239 | after any careful run, Close keeps counts and limits right in every careful continuation if and only if nothing is lent and no Get is between its sections (which a limit of zero makes harmless) |
| ConnectionPool.OverlappingCloseBreaks | pkg/pool/pool.go:152-239 | with a limit of one, a Close between the sections of a Get leads to a count of zero beside a loan, two loans at once, an excess return and a count below zero |
| ConnectionPool.GetHandsOutFree | pkg/pool/pool.go:170-195 | a connection handed out was not lent and is idle nowhere |
| ConnectionPool.GetOutcome | pkg/pool/pool.go:170-195 | after any careful run a Get fails as exhausted if and only if the loans to its address are as many as the limit, fails as its dial does if and only if they are fewer, nothing is idle and the dial fails, and otherwise hands out the last idle connection or, with none idle, the dialed one |
| ConnectionPool.GetTakesTop | pkg/pool/pool.go:170-195 | after any careful run a Get takes only the connection on top of the idle ones of its address, and what it hands out is lent to that address |
| ConnectionPool.PutIsOnTop | pkg/pool/pool.go:198-222 | after any careful run a Release puts the connection on top of the idle ones of the address it was lent to, and ends the loan |
| ConnectionPool.RunsLoseNone | pkg/pool/pool.go:152-222 | in every careful run without a Close each connection ever dialed is lent or idle |
| ConnectionPool.PutHasRoom | pkg/pool/pool.go:214-221 | the branch that closes an excess connection is never taken |
| ConnectionPool.TwiceReturnedIsLentTwiceIff | pkg/pool/pool.go:152-222 | after any careful run, a connection returned twice is handed to each of the next two Gets if and only if the idle slice has room for both returns |
| ConnectionPool.TwiceReturnedFromStart | pkg/pool/pool.go:152-222 | a run from the start dials a connection, returns it twice and hands it to two Gets if and only if the limit is two or more |
| ConnectionPool.TCPConnectionPool.LookUpHost | pkg/pool/pool.go:153-168 | the host pool of the address, made and registered when there is none |
| ConnectionPool.TCPConnectionPool.AcquireFrom | pkg/pool/pool.go:170-195 | on the host pool looked up: the most recently returned connection, else a dialed one below the limit, else the error |
| ConnectionPool.TCPConnectionPool.GetConnection | pkg/pool/pool.go:152-196 | the two sections in a row |
| ConnectionPool.TCPConnectionPool.ReleaseConnection | pkg/pool/pool.go:198-222 | kept, closed as excess, closed for an unknown host, or ignored, with the error of a close that fails |
| ConnectionPool.TCPConnectionPool.Close | pkg/pool/pool.go:224-239 | exactly the idle connections of the hosts in use are closed, their host pools are left empty and without room, and no address has a host pool |
| CacheControl.ParsePrinted | pkg/http/headers.go:191-247 | reading a printed header gives every field back, with max-age cut to whole seconds |
| CacheControl.PrintThenParseIff | pkg/http/headers.go:191-247 | for every text, printing and re-reading what was read changes nothing if and only if the last readable max-age wraps int64 a multiple of 5^9 times |
| CacheControl.InRangeNeverWraps | pkg/http/headers.go:214 | exactly the numbers up to 9223372036 seconds in size wrap zero times |
| CacheControl.OverflowIsNotKept | pkg/http/headers.go:214 | no overflowing max-age below 3.6e16 survives |
| CacheControlReading.DirectiveReads | pkg/http/headers.go:191-222 | one directive, spelled in any mix of ASCII cases, between any blanks, with or without an argument: exactly the flag of its literal name is set, and max-age is read exactly when its argument is a number |
| CacheControlReading.ReadsBoth | pkg/http/headers.go:191-222 | reading two values joined by a comma merges their readings: flags add up and a later readable max-age replaces an earlier one |
| CacheControlReading.PrintsInOrder | pkg/http/headers.go:224-247 | the literal text printed for a header with every field set and for one with two |
| CacheControl.ParseCacheControl | pkg/http/headers.go:191-222 | a flag is set if and only if some directive has its name; max-age is the last readable one |
| CacheControl.String | pkg/http/headers.go:224-247 | the printed form whose reading is ParsePrinted |
| RoundRobin.EveryAddressGetsItsShare | pkg/loadbalancing/balancer.go:73-84 | in any run of k calls over one list of n healthy addresses, an address listed m times is returned between m times the floor and m times the ceiling of k/n times, unless the counter wraps and n does not divide 2^64 |
| RoundRobin.AlwaysFairIff | pkg/loadbalancing/balancer.go:82 | every stretch of calls from every counter gives every position its share if and only if n divides 2^64 |
| RoundRobin.RotationIff | pkg/loadbalancing/balancer.go:73-84 | n consecutive picks are a rotation of the healthy list if and only if the counter does not wrap among them or n divides 2^64 |
| RoundRobin.FreshRunOrder | pkg/loadbalancing/balancer.go:73-84 | until the counter wraps, a fresh balancer starts with the second healthy address and goes on around the list in order |
| RoundRobin.HealthyAre | pkg/loadbalancing/balancer.go:126-146 | the healthy list is the addresses of the backends marked healthy, each such backend once and in order |
| RoundRobin.RoundRobinBalancer.SelectBackend | pkg/loadbalancing/balancer.go:73-84 | one step of such a run, which returns only the address of a backend marked healthy; nothing is returned, and nothing moves, if and only if none is |
| RoundRobin.RoundRobinBalancer.GetHealthyBackends | pkg/loadbalancing/balancer.go:126-146 | the healthy addresses in order |
| RoundRobin.RoundRobinBalancer.SetMark | pkg/loadbalancing/balancer.go:102-124 | exactly the first backend with the address changes its mark |
| RoundRobin.RoundRobinBalancer.UpdateBackends | pkg/loadbalancing/balancer.go:86-100 | all backends healthy and the counter back at zero |

## Left out

- GetUniqueNodes: names are ordered by character; the source orders their UTF-8 bytes, which is the same order for valid text.
- CountHit: entries are values in the map, so object identity is the parameter `current`, which says whether the entry found is still the one stored.
- EvictIfNeeded: takes the iteration orders of its scans, which must be ones under which the loop ends, since a loop that runs for ever has no final state; EvictionRunsForeverIff and EvictionCanEndIff say when each kind exists. The same holds of the Set methods and of the tiered Get, whose promotion is a Set.
- UpdateBackends: the method is an update no other call overlaps; RingHistory has the overlapping ones, as sequences of ring operations.
- AllowN: int64 overflow of counters and the rounding of floating-point seconds are not modelled; truncation is exact. A token bucket's refill rate of zero in the wait-time division belongs to the waiting loops below.
- ParseCacheControl: text is a sequence of Unicode characters, so invalid UTF-8 is not represented; lower-casing is exact as far as it can produce an ASCII letter. The floating-point rounding of Seconds is not modelled.
- LookUpHost: its read-locked and write-locked halves are one section, since the second re-checks what the first saw. Host pools are values at a place in a list, which stands for their identity.
- Close: the errors of closing idle connections are dropped by the source too.
- SetMark: stands for MarkHealthy and MarkUnhealthy; backend objects are values in the list.
- Ring.hash: MD5 is an arbitrary function; HashKey and CacheKey.String are not part of this model.
- The per-key locks of Set, whose only effect is to serialise Sets of one key.
- Wait and WaitN loops, ConcurrencyLimiter, MultiLimiter, timers, retries and Circuit.Call: sleeping, goroutines, contexts and arbitrary callbacks.
- HTTPConnectionPool, RandomBalancer, LeastConnectionBalancer, NoOpCache and the statistics getters: thin or trivial.
- Header add, set and get, request and response printing, and HTTP version parsing: thin over the standard library.
- pkg/core, pkg/proxy, pkg/tls, pkg/errors and the commands: sockets, serving, certificates and error constructors.
