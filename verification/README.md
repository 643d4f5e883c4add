# VyomaCast: model and proofs

VyomaCast polls RSS feeds, drops near duplicates, groups articles into stories ("clusters") with
several workers at once, and keeps its hot state in Redis and its rows in Postgres. This project
models the stateful algorithms of that pipeline in Dafny and proves what they promise over whole runs.

* **Clustering protocol** (`Clusters`, `ClusterProtocol`, `ClusterCounts`, `ClusterStamps`, `ClusterInvariant`,
  `ClusterTheorems`, `ClusterFrozen`, `ClusterOnce`, `ClusterExamples`, `ClusterService`). Any number of
  workers, one clusters table, one cache that expires, a queue that redelivers. Reading the active list, reading a cluster, the guarded transaction, the cache
  write, the acknowledgement and a crash are separate events, so a run is an arbitrary interleaving. An
  interleaving leaves the history that one worker would have produced if and only if it loses no update,
  and it loses none when no two join attempts at one version of a cluster carry the same time stamp. A
  reachable run shows the update that is lost otherwise; the counts and the lost updates add up to what
  was accepted in every run. When a message counts once is proved separately.
* **Near-duplicate index** (`Bits`, `Bands`, `SimHash`, `Text`, `BandStore`, `StageOne`, `Dedup`, `DedupRuns`,
  `DedupOutcomes`).
  The banded lookup through hex text, composite members, prefix scans and expiry scores is proved equal to a
  scan of all unexpired fingerprints, exactly for the settings that have enough bands; and whole
  single-worker runs keep accepted articles apart in text and in meaning, with failures after any effect
  and a band pipeline that may break off.
* **Redis structures** (`ZSets`, `ActiveIndex`, `Timeline`, `RedisCache`, `FakeCache`, `CircuitBreaker`).
  Sorted sets, pages and trimming, each against the plain in-memory version, and the circuit breaker
  for overlapping callers.
* **Feed poller** (`SeenGuids`, `Feeds`, `FeedTraces`, `FeedPoller`, `FeedItems`). The LRU filter, the
  most-overdue-first scheduler, backoff and the ERROR state, with polls that run at once.
* **Article tables and message handler** (`Articles`, `NatsBus`).
* **Arithmetic** (`Vectors`, `Reals`, `Naturals`). Embeddings are vectors over exact reals in any
  dimension; the Euclidean norm is a parameter known only by its square.

Objects whose methods change fields are classes here (`Cluster`, `Handler`, `RedisCacheStore`,
`FakeCacheStore`, `DedupService`, `SeenGuidCache`, `FeedRepository`, `FeedManager`, `RedisCircuitBreaker`,
`FakeArticleRepository`, `Msg`). Each method is proved against a function of the old state, and the
theorems are about these functions. Clock readings, network replies, failures of the transport, the
embedding model and MD5 are parameters.

## What the proofs found

* `get_bands` is documented as 8 bands of 16 bits. With the shipped settings it makes 16 overlapping
  bands of 16 bits at stride 8. They are complete up to distance 7; 4 bands, which the settings allow,
  miss duplicates at distance 3 (`Bands.ShippedSettings`, `StageOne.ShippedStageOne`).
* `zrevrange(offset, offset + limit - 1)` returns everything for the empty page at the start
  (`ZSets.PageIsSliceExactly`).
* A page of active clusters is short while live ones wait behind it exactly when a cluster leaves the
  cache before one that ranks lower, as when that one was written later: the stamp is taken before the
  transaction and the write comes after it (`ActiveIndex.RunPagesExactly`, `ActiveIndex.ShortPage`).
* Binding an article to its cluster never reaches the articles table (`Articles.BindNeverPersists`).
* A message can count twice exactly when it is delivered after a commit of it, or while a handler of it
  can still commit: after a death between commit and acknowledgement, or when it is sent out again while
  its handler is at work (`ClusterOnce.UnclearDeliveriesExactly`, `ClusterExamples`).
* The conflict check takes a join for stored when the table already holds a row of the same version and
  time stamp. Each time it does, and never else, an accepted article is missing from the counts for good
  (`ClusterCounts.CountsAreConserved`, `ClusterTheorems.SequentialExactly`).
* A handler that dies between commit and cache write freezes its cluster for ever. So does the loss of the
  cached copy while no handler has a saved row of the cluster to write or its next version prepared
  (`ClusterFrozen.CrashFreezesCluster`, `ClusterFrozen.ExpiryFreezesCluster`, `ClusterFrozen.FrozenExactly`).
* The comment on `set_cluster` says that clusters have no TTL, to survive eviction; the code gives them
  86400 seconds, so they expire and can be evicted (src/infrastructure/cache/redis_cache.py:115-127).
* An article whose handler stops between bands and row blocks its own retries for three days, and one
  whose publish fails after the row is never announced (`DedupRuns.FailureLosesArticle`,
  `DedupRuns.UnannouncedForEver`).
* An item is marked as seen before it is published, so a failed publish loses it until `maxsize` other
  keys have pushed it out (`FeedItems.FailedPublishLosesItem`, `FeedItems.LostItemReturnsExactly`).
* The half-open state of the breaker lets every waiting caller through, not one
  (`CircuitBreaker.HalfOpenLetsAllThrough`).
* A feed whose interval is over a day is polled sooner when it fails (`Feeds.BackoffGrows`).
* The in-memory article store replaces the id of a row where Postgres keeps the first one
  (`Articles.StoresAgreeExactly`).

## Model

| member | source | states |
|---|---|---|
| ClusterTheorems.HistoryIsSequential | src/services/cluster_service.py:79-187 | after any interleaving that loses no update, each cluster row, and each row ever accepted for it, is what one worker computes from the accepted articles in version order; its version and its count both equal their number |
| ClusterTheorems.SequentialExactly | src/services/cluster_service.py:146-157 | for every run: each row is what one worker computes from the articles accepted for it if and only if the run has lost no update |
| ClusterCounts.CountsAreConserved | src/services/cluster_service.py:90-91 | for every run: the article counts and the lost updates add up to the accepted transactions, at most five for each published message |
| ClusterCounts.BaseStep | src/services/cluster_service.py:49-206 | every event of every worker keeps the bounds of versions and counts in table, cache and handlers |
| ClusterStamps.DistinctStampsLoseNothing | src/services/cluster_service.py:146-157 | a run in which no two join attempts at one version of a cluster share a stamp loses no update |
| ClusterTheorems.CacheTracksDatabase | src/services/cluster_service.py:143-187 | in runs that lose no update: a cached cluster is an accepted row at most one version behind; at most one handler per cluster stands between commit and cache write, and only while that gap is open |
| ClusterTheorems.GapBlocksJoins | src/services/cluster_service.py:146-158 | in runs that lose no update: while the cached copy lags, no prepared join of that cluster is stored; its handler gives the message back exactly when it does not tie with the stored row, and always when stamps are distinct |
| ClusterTheorems.CacheNeverGoesBack | src/services/cluster_service.py:173-187 | in runs that lose no update a cached version never decreases, not even across an expiry |
| ClusterFrozen.CrashFreezesCluster | src/services/cluster_service.py:165-187 | a handler that dies, or whose cache write fails, after its commit freezes the cluster: no later event of any run that loses no update changes its row |
| ClusterFrozen.ExpiryFreezesCluster | src/services/cluster_service.py:58-85 | a cluster that is not cached, while no handler has a saved row of it to write or its next version prepared, is frozen and never cached again, in every continuation that loses no update |
| ClusterFrozen.FrozenExactly | src/services/cluster_service.py:58-187 | a cluster that a handler has picked, for an article that can be joined to it, keeps its row over every continuation that loses no update exactly when its newest row is not cached and no handler has it to write or its next version prepared |
| ClusterTheorems.CentroidsAreUnit | src/services/cluster_service.py:93-99 | in runs that lose no update every stored and cached centroid is a unit vector |
| ClusterTheorems.SourcesAreFirstTen | src/services/cluster_service.py:104-109 | in runs that lose no update each cluster lists the first ten sources of its accepted articles, in the order in which they first came |
| ClusterTheorems.IndexTracksCache | src/infrastructure/cache/redis_cache.py:113-133 | in runs that lose no update the index holds the clusters that were ever cached, each under the stamp of its last cached row, which is the cached one if there is one |
| ClusterTheorems.DoneExactly | src/infrastructure/messaging/nats_bus.py:163-192 | over every run: a message is done with exactly when a handler rejected it, found no article row or finished; a commit, a conflict or a crash alone is not enough |
| ClusterTheorems.DeliverableExactly | src/infrastructure/messaging/nats_bus.py:134-142 | after any run a free worker can be handed a message exactly when it was published, is not done with and was delivered fewer than five times |
| ClusterInvariant.AcceptedExactly | src/infrastructure/database/repositories.py:437-454 | a prepared join is stored exactly when it is next in line; its handler goes on exactly then or when it ties with the stored row in version and stamp |
| ClusterInvariant.KeepStep | src/services/cluster_service.py:49-206 | every event of every worker, but for a lost update, keeps the invariant |
| ClusterInvariant.KeepRun | src/services/cluster_service.py:49-206 | so does every run that loses none |
| ClusterExamples.SharedStampLosesUpdate | src/services/cluster_service.py:146-157 | a reachable run in which two joins share a stamp: three accepted transactions, count two, one lost update |
| ClusterExamples.RedeliveryCountsTwice | src/infrastructure/messaging/nats_bus.py:138-142 | a handler that dies between its commit and its acknowledgement: one published message counts as two articles |
| ClusterExamples.OverlapCountsTwice | src/infrastructure/messaging/nats_bus.py:138-142 | no handler dies and both acknowledge, but the message is delivered again while the first is at work: it founds two clusters |
| ClusterOnce.CountsOnceIfDeliveredClear | src/services/cluster_service.py:49-206 | in every run, a message is committed at most once if each of its deliveries begins when none was committed and no handler of it can still commit |
| ClusterOnce.UnclearDeliveriesExactly | src/infrastructure/messaging/nats_bus.py:134-192 | the exact condition, at every delivery after any run: with only clear deliveries after it, it can lead to a second commit exactly when the message was committed before or a handler of it can still commit |
| ClusterOnce.CountsAtMostPublished | src/services/cluster_service.py:90-91 | if all deliveries begin so, the article counts and the lost updates add up to the transactions and to at most the messages |
| ClusterService.Handler.Match | src/services/cluster_service.py:57-85 | the row that a join would start from: the first best active cluster, if it is still cached |
| ClusterService.PicksExactly | src/services/cluster_service.py:57-86 | the cluster joined is, of the hundred most recently active ones that are cached and of dimension 384, the nearest, if its similarity is at least 0.75; of equally near ones the most recently active |
| ClusterService.Updated | src/services/cluster_service.py:87-124 | the row to save: the joined cluster, a new one, or none when the average has no direction |
| ClusterService.Handler.Commit | src/services/cluster_service.py:143-187 | the guarded upsert, the conflict check, and the cache write only after success, with a failure of any of them |
| ClusterService.Handler.ProcessArticle | src/services/cluster_service.py:49-206 | outcome and new stores of an uninterrupted call, with a failure of the look-ups, the transaction, the cache write or the publish |
| ClusterService.OutcomesExactly | src/services/cluster_service.py:49-206 | exactly when a call ends in each of its outcomes |
| ClusterService.EffectsExactly | src/services/cluster_service.py:165-187 | what table, cache and index hold after each ending of the transaction |
| ClusterService.EarlyEndsChangeNothing | src/services/cluster_service.py:49-134 | a call that does not get as far as its transaction changes nothing |
| ClusterService.CallIsARun | src/services/cluster_service.py:49-206 | that call is a run of the protocol made of its own worker's events only, with the same effect on stores and message |
| Clusters.BestIsFirstMaximum | src/services/cluster_service.py:68-77 | the match is the first of the clusters of greatest similarity; none when every one points exactly away |
| Clusters.BestMatch | src/services/cluster_service.py:68-79 | the scan loop answers the id of row i exactly when row i has dimension 384 and similarity at least 0.75, no row is more similar and no earlier one as similar; none exactly when all are below 0.75 |
| Clusters.ChoosesExactly | src/services/cluster_service.py:60-82 | the same for the choice that the protocol makes |
| Clusters.JoinWrites | src/services/cluster_service.py:88-109 | a join column by column: each coordinate is that of `centroid * count + embedding` over `count + 1`, divided by the length; counters go up by one, id and title stay |
| Clusters.CreateWrites | src/services/cluster_service.py:111-124 | a new cluster column by column |
| Clusters.Cluster.Absorb | src/services/cluster_service.py:90-109 | the in-place updates are the join, or the average has no direction |
| Clusters.Cluster.New | src/services/cluster_service.py:111-124 | the row of a new cluster |
| Clusters.AverageHasSameDirection | src/services/cluster_service.py:93-99 | dividing by the count before normalising changes nothing |
| Clusters.JoinableExactly | src/services/cluster_service.py:45-47 | a join normalises a zero vector exactly for the article that cancels the cluster's mass |
| Clusters.MatchIsJoinable | src/services/cluster_service.py:79-99 | never after a match |
| Clusters.UpdatesAreUnit | src/services/cluster_service.py:99-119 | join and create yield unit centroids |
| Clusters.JoinPullsCentroid | src/services/cluster_service.py:93-99 | the article is at least as similar to the new centroid as to the old one |
| Vectors.CosineIsQuotient | src/services/cluster_service.py:39-43 | the cosine of non-zero vectors is the true quotient, between -1 and 1, so the cap has no effect |
| Vectors.CosineExactly | src/services/cluster_service.py:39-43 | for any vectors: the quotient capped at 1.0, and 1.0 when a vector is zero |
| Vectors.NormalizeIsUnit | src/services/cluster_service.py:45-47 | a normalised vector has norm 1 |
| Bits.HammingIsDifferingBits | src/services/dedup_service.py:97-99 | counting ones in the binary text of the xor counts the differing bits |
| Bits.HexRoundTrip | src/services/dedup_service.py:160-160 | parsing the hex text gives back the number |
| Bits.HexIsNibbles | src/services/dedup_service.py:94-94 | the text has one lower-case digit for each four bits, and no leading zero |
| Bands.GetBands | src/services/dedup_service.py:88-95 | the dictionary of hex windows |
| Bands.BandReads | src/services/dedup_service.py:88-95 | a band prints the number whose bits are the sixteen of its window |
| Bands.BandEqual | src/services/dedup_service.py:92-94 | two band texts are equal exactly when the fingerprints agree on the window |
| Bands.FewDifferencesShareBand | src/services/dedup_service.py:88-95 | fewer differing bits than it takes to touch every band leave one band shared |
| Bands.BandsCompleteExactly | src/services/dedup_service.py:88-95 | all pairs within distance d share a band exactly when d * ceil(16 / stride) < count or the last band lies beyond bit 127 |
| Bands.ShippedSettings | src/config.py:59-60 | 16 bands of stride 8 are complete for distance 7 and not for 8 |
| Bands.BandsDetermineExactly | src/services/dedup_service.py:88-95 | equal bands force equal fingerprints exactly when the windows reach the last bit |
| SimHash.ComputeSimHash | src/services/dedup_service.py:66-86 | the loops compute the fingerprint whose bits the two rows below describe |
| SimHash.BitIsMajority | src/services/dedup_service.py:72-86 | a bit is set exactly when a strict majority of the shingle hashes set it |
| SimHash.HashesOfText | src/services/dedup_service.py:73-75 | what is hashed: every three neighbouring words joined by blanks, or the whole text if it has one or two words |
| SimHash.BitIsMajorityOfTriples | src/services/dedup_service.py:66-86 | three words or more: a bit is set exactly when it is one of the 128 and more than half of the triples have it in their hash |
| SimHash.BitOfShortText | src/services/dedup_service.py:69-86 | no words give 0; one or two words give the low 128 bits of one hash |
| SimHash.OneWordThreeShingles | src/services/dedup_service.py:73-75 | one replaced word changes at most three shingle hashes |
| SimHash.OneWordFlipsWeakBits | src/services/dedup_service.py:72-86 | it moves every counter by at most 6, and flips only bits whose counter is within 6 of zero |
| SimHash.EditedTextSharesBand | src/services/dedup_service.py:66-95 | with few enough such bits the edited text shares a band with the original |
| SimHash.EditedTextSharesShippedBand | src/services/dedup_service.py:66-95 | seven are few enough for the shipped settings |
| Text.SplitPair | src/services/dedup_service.py:157-159 | splitting `hash:hex` gives two parts exactly when the hash has no colon |
| Text.PrefixPicksValue | src/infrastructure/cache/redis_cache.py:243-249 | the prefix `value:` selects exactly the members of that value |
| BandStore.ScanFinds | src/infrastructure/cache/redis_cache.py:241-257 | a scan returns an entry exactly when its composite member is there and unexpired |
| BandStore.RedisRefinesPlain | src/infrastructure/cache/redis_cache.py:216-266 | on one clock the sorted sets answer every run as the map of maps does, from any agreeing stores |
| BandStore.RedisRefinesPlainFromStart | tests/fakes/fake_cache.py:143-164 | the same from empty stores |
| BandStore.LookupsDifferExactly | src/infrastructure/cache/redis_cache.py:216-266 | on any clock: a look-up differs from the map of maps exactly when it asks for an entry that lives under some key and whose band was cleaned at or after its expiry under each such key |
| BandStore.SteppingBackIsVisible | src/infrastructure/cache/redis_cache.py:231-232 | a run with a clock that steps back where that happens |
| StageOne.FindDuplicate | src/services/dedup_service.py:152-168 | unless it raises on an unreadable entry, the loop finds a duplicate exactly when some collision is one, and reports one with its distance |
| StageOne.FlaggedIsSound | src/services/dedup_service.py:149-168 | stage 1 flags only near duplicates, for any settings |
| StageOne.StageOneExactly | src/services/dedup_service.py:149-168 | stage 1 equals the scan of all unexpired fingerprints on every history of whole registrations exactly when the settings have enough bands |
| StageOne.FlaggedExactly | src/services/dedup_service.py:149-168 | with enough bands, on every history: an article is flagged exactly when a live registration within 3 bits is whole or shares a band that got through |
| StageOne.EnoughLeftIsFound | src/infrastructure/cache/redis_cache.py:225-233 | a registration that broke off is still found by every near article if more of its bands got through than 3 bits can touch |
| StageOne.ShippedEnoughLeft | src/config.py:59-60 | seven of the shipped sixteen bands are enough: every near article finds them |
| StageOne.OneBandCanMiss | src/infrastructure/cache/redis_cache.py:225-233 | with a single band left, one differing bit in it is enough to miss the registration |
| StageOne.ShippedStageOne | src/config.py:59-60 | the shipped settings do; 4 bands of stride 8 do not |
| StageOne.ShippedFlagsExactly | src/services/dedup_service.py:149-168 | 16 bands of stride 8, every history of whole registrations: flagged exactly when a registration of the last 259200 seconds differs in at most three of the 128 bits |
| StageOne.ThreeBitsAreNear | src/services/dedup_service.py:162-164 | a pair at distance 3 that is flagged and one at distance 4 that is not |
| StageOne.ReportedIsRegistered | src/services/dedup_service.py:164-168 | the article reported as the original is that of a live registration at most three bits away |
| StageOne.RegistrationIsStored | src/infrastructure/cache/redis_cache.py:222-232 | each band gets the member `band:url_hash:fingerprint` for 259200 seconds, and loses only expired ones |
| RedisCache.LastWriteIsServed | src/infrastructure/cache/redis_cache.py:126-140 | after any run of writes and evictions a reader finds for a key exactly what was last written, if it was not evicted since and has not expired (clusters and embeddings alike) |
| RedisCache.RedisCacheStore.GetCluster | src/infrastructure/cache/redis_cache.py:135-140 | the unexpired object, if any |
| RedisCache.RedisCacheStore.GetActiveClusters | src/infrastructure/cache/redis_cache.py:142-157 | the live objects of one page of the index, in rank order |
| Timeline.AddKeepsBest | src/infrastructure/cache/redis_cache.py:200-206 | an insertion keeps min(1000, all) members with their scores, and each one kept ranks above each one left out |
| RedisCache.RedisCacheStore.GetTimeline | src/infrastructure/cache/redis_cache.py:208-211 | the page asked for of the ranking; everything for the empty page at the start |
| RedisCache.RedisCacheStore.AddSimhashBands | src/infrastructure/cache/redis_cache.py:215-233 | the loop over the bands is the simultaneous registration |
| RedisCache.RedisCacheStore.CheckSimhashBands | src/infrastructure/cache/redis_cache.py:235-266 | the union of the scans of all bands |
| RedisCache.ScanBand | src/infrastructure/cache/redis_cache.py:241-257 | the unexpired entries under one prefix |
| RedisCache.RedisCacheStore.GetCachedEmbeddings | src/infrastructure/cache/redis_cache.py:277-290 | exactly the unexpired ones of the requested |
| FakeCache.FakeCacheStore.AddToTimeline | tests/fakes/fake_cache.py:124-129 | drop, append and sort |
| FakeCache.FakeCacheStore.GetTimeline | tests/fakes/fake_cache.py:131-138 | one slice of the hashes |
| FakeCache.FakeCacheStore.AddSimhashBands | tests/fakes/fake_cache.py:142-152 | the loop is the registration in the map of maps |
| FakeCache.FakeCacheStore.CheckSimhashBands | tests/fakes/fake_cache.py:154-164 | the unexpired entries under the given keys |
| ZSets.RankedIsRanking | src/infrastructure/cache/redis_cache.py:146-146 | the ranking lists every member once, best score first, ties by descending name |
| ZSets.RankingIsRanked | src/infrastructure/cache/redis_cache.py:146-146 | and is the only such list |
| ZSets.PageIsSliceExactly | src/infrastructure/cache/redis_cache.py:208-211 | the range is the slice asked for, except for the empty page at the start of a non-empty set |
| ActiveIndex.IndexIsLastStored | src/infrastructure/cache/redis_cache.py:126-133 | the index holds exactly the ids last stored as active, at their last activity |
| ActiveIndex.PageExactly | src/infrastructure/cache/redis_cache.py:142-157 | at every offset: a page is that stretch of the live clusters exactly when the ids before it are live and those on it are too or none behind it is, or when it is rightly empty |
| ActiveIndex.RunPagesExactly | src/infrastructure/cache/redis_cache.py:113-157 | over any run of `set_cluster` calls with stamps, write times and evictions: all pages are complete from a time on exactly when no listed cluster leaves the cache before one that ranks below it; without evictions, when the order of the writes follows the order of the stamps |
| ActiveIndex.OutOfOrderIsShort | src/infrastructure/cache/redis_cache.py:126-157 | any pair out of order makes some page short while a live cluster waits behind it |
| ActiveIndex.ShortPage | src/infrastructure/cache/redis_cache.py:113-157 | such a page, reached by two calls, the second one late |
| Timeline.TrimExactly | src/infrastructure/cache/redis_cache.py:201-206 | trimming at once loses nothing exactly unless an insertion sinks a kept member below a dropped one |
| Timeline.TimelinePagesAgree | tests/fakes/fake_cache.py:125-138 | pages within the first 1000 ranks agree with the untrimmed list for every run with increasing time stamps, except the empty first page |
| Dedup.FindClose | src/services/dedup_service.py:211-219 | the loop finds a close recent embedding exactly when there is one |
| Dedup.Search | src/infrastructure/database/repositories.py:326-342 | the scan finds a row exactly when one reaches the threshold, and then a nearest one |
| Dedup.DedupService.CheckStageOne | src/services/dedup_service.py:143-168 | the stage 1 verdict |
| Dedup.DedupService.CheckStageTwo | src/services/dedup_service.py:200-232 | the stage 2 verdict, with the embedding cached first |
| Dedup.DedupService.RegisterUnique | src/services/dedup_service.py:255-284 | what acceptance stores, up to a failure, the band pipeline possibly in part |
| Dedup.DedupService.Process | src/services/dedup_service.py:127-314 | the new stores and the outcome, on every path, with a failure after any effect or within the band pipeline |
| DedupRuns.RunKeepsArticlesApart | src/services/dedup_service.py:127-284 | after any single-worker run, with a failure after any effect or within the band pipeline, stored articles are pairwise below the cosine threshold, and no bands were registered while a live earlier registration that stage 1 could find was within 3 bits |
| DedupRuns.ApartFromFindable | src/services/dedup_service.py:149-260 | so two registrations are over 3 bits apart while the earlier one lives and enough of its bands, or all, got through |
| DedupRuns.CloseExactly | src/services/dedup_service.py:206-232 | both tiers together find exactly the stored rows at the threshold and the close articles that were interrupted after the timeline |
| DedupRuns.HotTierIsRedundant | src/services/dedup_service.py:206-219 | without such interruptions the recent-embedding tier never changes a decision |
| DedupRuns.AcceptsExactly | src/services/dedup_service.py:127-284 | acceptance without band look-ups, caches or pages: new URL, no live near registration that is whole or shares a band that got through, an embedding, and no close stored or interrupted article |
| DedupOutcomes.OutcomesExactly | src/services/dedup_service.py:124-303 | after any run, with enough bands: each of the seven outcomes of the next request, by registrations, rows and the hundred newest articles alone, with `>=` for rows and `>` for recent ones |
| DedupOutcomes.RecentExactly | src/services/dedup_service.py:208-209 | the recent tier sees exactly the articles with fewer than a hundred newer on the timeline and a live embedding |
| DedupOutcomes.AcceptedRow | src/services/dedup_service.py:265-281 | the row of an accepted article holds its embedding and the low 64 bits of its fingerprint, and no other row changes |
| DedupOutcomes.AcceptedTraces | src/services/dedup_service.py:255-263 | its registration and its place on the timeline |
| DedupOutcomes.EmbeddingIsCached | src/services/dedup_service.py:200-201 | each computed embedding is cached for 86400 seconds, whatever becomes of the article |
| DedupOutcomes.EarlyStopChangesNothing | src/services/dedup_service.py:124-198 | a request that stops before its embedding changes nothing |
| DedupOutcomes.DuplicateLeavesNothingElse | src/services/dedup_service.py:230-253 | a duplicate by meaning leaves only its cached embedding behind |
| DedupRuns.FailureLosesArticle | src/services/dedup_service.py:255-284 | an article interrupted between its bands and its row, even with a single band registered, is not stored by any retry of the same text while its registration lives |
| DedupRuns.RetryIsDroppedExactly | src/services/dedup_service.py:149-168 | a retry is dropped at stage 1 exactly while its own registration lives, if any band of it got through, or another one blocks it |
| DedupRuns.UnannouncedForEver | src/services/dedup_service.py:131-135 | an article whose publish failed after its row was saved is never announced |
| SeenGuids.SeenGuidCache.Contains | src/services/feed_manager.py:70-74 | membership, and the key moved to the end |
| SeenGuids.SeenGuidCache.Add | src/services/feed_manager.py:76-82 | insert or move to the end, evicting the oldest |
| SeenGuids.ExactLru | src/services/feed_manager.py:59-82 | after any operations the cache holds exactly the `maxsize` most recently used distinct keys in order |
| SeenGuids.EmitsExactly | src/services/feed_manager.py:254-269 | a linked entry is emitted exactly when its key was never used or at least `maxsize` distinct others were used since |
| SeenGuids.EmittedTwiceOnlyAfterEviction | src/services/feed_manager.py:254-298 | between two emissions of one key lie at least `maxsize` distinct other keys, for any interleaving of polls |
| SeenGuids.SmallerIsIncluded | src/services/feed_manager.py:59-82 | on linked entries a smaller cache holds the newest part of a larger one |
| Feeds.FeedRepository.GetDueForPoll | tests/fakes/fake_repository.py:332-340 | due active rows, most overdue first, each once, and a row is left out only behind a full batch of rows at least as overdue |
| Feeds.FeedRepository.UpdatePollState | src/infrastructure/database/repositories.py:592-618 | the one row it changes, and how |
| Feeds.FeedRepository.UpdateErrorState | src/infrastructure/database/repositories.py:621-643 | the one row it changes, and how |
| Feeds.ServedFallBehind | src/services/feed_manager.py:195-208 | a cycle that leaves a due feed waiting moves a full batch from before it to behind it, and lets none overtake |
| Feeds.NoStarvation | src/infrastructure/database/repositories.py:559-569 | a due feed with n active feeds at least as overdue is polled within n / limit + 1 cycles, whatever the outcomes and ties |
| Feeds.ErrorAfterFiveFailures | src/services/feed_manager.py:318-336 | the count is the number of consecutive failures, and ERROR comes exactly at the fifth |
| Feeds.NeverDueAgain | src/infrastructure/database/repositories.py:559-569 | after five failures in a row there is no further poll |
| Feeds.NextPollAt | src/services/feed_manager.py:300-326 | the interval after a success, min(interval * 2^n, 86400) after the n-th failure in a row |
| Feeds.NextPollInNumbers | src/services/feed_manager.py:300-326 | the same in numbers: 2, 4, 8, 16 or 32 intervals after one to five failures, at most 86400 seconds |
| Feeds.BackoffGrows | src/services/feed_manager.py:320-325 | delays never shrink from failure to failure; one is below the interval exactly when the interval is over a day |
| Feeds.PollsAreSpaced | src/services/feed_manager.py:300-336 | successive polls of a feed are at least min(interval, 86400) seconds apart |
| Feeds.ArticleCountAddsUp | src/infrastructure/database/repositories.py:612-612 | the stored count grows by what the successful polls emitted, and by nothing else |
| Feeds.ValidatorsExactly | src/services/feed_manager.py:226-310 | `etag` and `last_modified` are those of the last fetched document, each in its own column |
| Feeds.LastPollExactly | src/services/feed_manager.py:300-336 | `last_polled_at` is the time of the last poll that did not fail; `last_error` is the text of the last poll if it failed, and none otherwise |
| FeedPoller.FeedManager.LookAt | src/services/feed_manager.py:255-298 | the body of the entry loop: what is emitted, marked and published |
| FeedPoller.FeedManager.Scan | src/services/feed_manager.py:253-298 | one poll looks at its entries in order, up to a publish that raises, and what it publishes and marks |
| FeedPoller.FeedManager.Finish | src/services/feed_manager.py:234-336 | the columns written after a document, a 304 and a failure, and what counts as a failure, with the update and the error update that raise |
| FeedPoller.FeedManager.ProcessFeed | src/services/feed_manager.py:226-344 | result, row, cache and published keys of a poll with no other in between |
| FeedPoller.FeedManager.PollCycle | src/services/feed_manager.py:195-344 | up to ten polls at once, taking turns entry by entry in any order: every chosen feed is polled to its end, its row served once from the row as chosen, and the trace accounts for cache and published keys |
| FeedTraces.FirstTwentyOnly | src/services/feed_manager.py:249-250 | the first twenty entries of a document are looked at |
| FeedItems.AtMostTwentyItems | src/services/feed_manager.py:250-251 | a poll emits at most 20 items, however the polls interleave |
| FeedItems.NoKeyTwiceInOnePoll | src/services/feed_manager.py:253-298 | one document never emits a key twice if other polls look at no more than k entries in between and the cache holds 20 + k keys |
| FeedItems.NoKeyTwiceInOneCycle | src/services/feed_manager.py:195-298 | a whole cycle of at most fifty feeds never emits a key twice, for any cache of at least a thousand keys |
| FeedItems.FailedPublishLosesItem | src/services/feed_manager.py:268-298 | an item whose publish fails is not handed over, by this poll or a later one, before as many further entries were looked at as the cache holds keys |
| FeedItems.LostItemReturnsExactly | src/services/feed_manager.py:254-298 | it is handed over at all exactly when a later look finds it with a link after `maxsize` distinct other keys were used since its own last use, and that publish does not fail |
| CircuitBreaker.RedisCircuitBreaker.Enter | src/infrastructure/cache/redis_cache.py:35-47 | when a call is admitted |
| CircuitBreaker.RedisCircuitBreaker.Leave | src/infrastructure/cache/redis_cache.py:49-59 | what its ending does to the breaker |
| CircuitBreaker.RefusesExactly | src/infrastructure/cache/redis_cache.py:37-59 | a call is refused exactly when enough Redis errors came since the last success, the newest less than `backoff` ago |
| CircuitBreaker.FailingRedisIsReachedRarely | src/infrastructure/cache/redis_cache.py:26-61 | with c overlapping callers a failing Redis is reached at most max - 1 + c + c * floor(T / backoff) times in time T |
| CircuitBreaker.HalfOpenLetsAllThrough | src/infrastructure/cache/redis_cache.py:47-50 | once the backoff has passed, every call that begins before one ends is let through |
| CircuitBreaker.TrippedCallsAreSpaced | src/infrastructure/cache/redis_cache.py:38-46 | once tripped, a call is reached only `backoff` after the last reached call that failed |
| Articles.FakeArticleRepository.Save | tests/fakes/fake_repository.py:113-126 | both indices and the returned row |
| Articles.FakeArticleRepository.SaveBatch | tests/fakes/fake_repository.py:129-146 | a batch is iterated saves, its count the rows changed |
| Articles.StoredExactly | tests/fakes/fake_repository.py:113-146 | a row is stored exactly when it is the first-arrived save of the greatest version for its hash |
| Articles.ReplayChangesNothing | tests/fakes/fake_repository.py:113-146 | saving again what was saved, in any order and number, changes nothing |
| Articles.OrderDoesNotMatter | tests/fakes/fake_repository.py:113-146 | without version ties the contents depend only on the set of saves |
| Articles.BijectionKeptExactly | tests/fakes/fake_repository.py:119-125 | the two indices stay in step exactly unless an accepted save brings an id that another hash holds |
| Articles.IndicesStayInStep | tests/fakes/fake_repository.py:113-146 | they do over every run in which no id is used with two hashes |
| Articles.PostgresKeepsFirstId | src/infrastructure/database/repositories.py:267-291 | Postgres stores the winning save under the id and creation time of the first |
| Articles.StoresAgreeExactly | src/infrastructure/database/repositories.py:190-196 | the two stores hold the same row exactly when the winning save carries the first id and creation time |
| Articles.DuplicateKeyExactly | src/infrastructure/database/repositories.py:271-276 | Postgres refuses a save exactly when the hash is new and the in-memory indices would fall out of step |
| Articles.BindNeverPersists | src/services/cluster_service.py:159-161 | in any run of inserts and binds of rows read earlier, no stored row ever carries a cluster |
| NatsBus.MessageHandler | src/infrastructure/messaging/nats_bus.py:155-192 | the signal for each of the five endings, the second signal after each exception of the first, and what is raised when none arrives |
| NatsBus.NextDeliveryExactly | src/infrastructure/messaging/nats_bus.py:138-192 | another delivery can begin exactly when fewer than five have begun and none ended with an ack or with a term for a corrupt payload or a permanent error |
| NatsBus.ErrorsDecideRedelivery | src/infrastructure/messaging/nats_bus.py:173-192 | after an error of the handler the message comes again exactly when the error is not permanent |
| NatsBus.DroppedExactly | src/infrastructure/messaging/nats_bus.py:138-142 | a message that has come to rest was dropped exactly when five deliveries began and none of their endings settled it |
| NatsBus.HandledTwiceOnlyByLossOrOverlap | src/infrastructure/messaging/nats_bus.py:134-192 | with deliveries that may overlap: a handler succeeds at most five times for a message, and twice only if an ack was lost or a delivery began while another was in progress |
| NatsBus.SecondSuccessExactly | src/infrastructure/messaging/nats_bus.py:134-192 | after one success a second can follow exactly when a delivery is in progress, or the message is unsettled and fewer than five have begun |
| NatsBus.EitherIsEnough | src/infrastructure/messaging/nats_bus.py:138-142 | a run of each kind: an overlap with both acks arriving, and a lost ack with no overlap |

## Left out

- HTTP fetching, RSS and HTML extraction, the embedding model, MD5 itself: foreign libraries. What they return is an arbitrary parameter.
- The Postgres, Redis and NATS drivers: each command or transaction is its atomic effect. `ZSCAN` is taken as one atomic scan, nearest-neighbour search as exact, and one deduplication call uses one clock reading.
- Floating point: vectors and times are exact reals; a NaN centroid is a handler that the table refuses, and `min(1.0, nan)` is 1.0 as in Python.
- `normalize_text`, `str.split`, `normalize_url`, `compute_url_hash` and `compute_item_key`: words, item keys and url hashes are given.
- `update_status`, decay and the `created_at`/`updated_at`/`status`/`decay_score` columns of a cluster, which no step of this pipeline changes. `Row.title` is the column `label`.
- Eviction of cached embeddings: a run of `DedupRuns` keeps them for their TTL. An evicted one is missing from the recent tier only.
- `health_check`: it swallows errors inside the breaker, so a failed ping counts as a success; the breaker bound is about the other operations.
- `get_all_cluster_centroids`, dirty sets, metrics, `delete_cluster`: nothing in the modelled paths depends on them.
- `ClusterProtocol.ReadActive` is one event; the source reads the ids and then their objects. What the second read misses is only a candidate, and the pick itself is read again in `ReadCluster`.
- ClusterFrozen.FrozenExactly: whether a handler can still pick the cluster, which depends on its rank in the index, is taken as given.
- Which duplicate is reported as `duplicate_of`: the iteration order of a set is unspecified; it is proved to be a valid one.
- Article binding inside the clustering transaction: `ClusterProtocol` counts transactions, and `Articles` shows that the binding has no effect on the table.
- The in-memory article store keeps references, so a caller that edits a stored object edits the store. `Articles` stores values.
- The in-memory feed store keeps old `etag` and `last_modified` when given none; `UpdatePollState` follows Postgres, which overwrites them.
- FeedPoller.FeedManager.PollCycle: a poll that begins has its reply at once; the time that fetching and parsing take only shifts the turns, which are arbitrary anyway.
- Feeds.NoStarvation: assumes that the row update after each poll succeeds and that no other writer changes the feeds table.
- The band pipeline breaks off between bands: a `ZADD` whose clean-up is lost only leaves expired members, which no look-up returns.
- DedupRuns.RunKeepsArticlesApart: one worker; two handlers at once can both pass the look-ups before either registers.
- StageOne.FindDuplicate: `int(text, 16)` also reads upper case, signs, spaces and underscores; here such a text counts as unreadable. The bands hold only what `hex` prints.
- Dedup.DedupService.Process: a failed publish of a duplicate event changes no store and is not told apart.
- `FakeClusterRepository`, `FakeFeedRepository.save` and the other getters: the same guard or simple look-ups.
- `subscribe`, `connect`, `publish` and stream settings other than `max_deliver`: transport set-up.
- FastAPI endpoints, the WebSocket hub, notifier, dashboard, exports, migrations and scripts.
