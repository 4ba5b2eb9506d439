# hmdp: the Redis-backed core, modelled in Dafny

This project models the part of the hmdp review site that works against Redis. It covers:

- **CacheClient**: three read-through cache strategies in front of a database fallback.
  - *passthrough* caches the empty-string marker for a missing row.
  - *mutex* rebuilds a missing entry under a `SET NX` lock.
  - *logical expiry* keeps a stale envelope and rebuilds it on an executor.
- **SimpleRedisLock**: a named lock that holds its owner's token and is released by a compare-and-delete script.
- **RedisIdWorker**: 64-bit ids with the seconds since 2022-01-01 in the high half and a per-day `INCR` counter in the low 32 bits.
- **RedisData**: the logical-expiry envelope.
- **BlogServiceImpl**:
  - likes, kept as a sorted set from user id to the millisecond of the like;
  - the top five likers;
  - the fan-out of a new blog into every follower's feed inbox;
  - the cursor scroll over a feed (`ZREVRANGEBYSCORE ... LIMIT offset 2`).
- **ShopServiceImpl**: reading a shop through the cache, invalidating it on update, and the page of nearby shops.

The store is one object, `Redis.Store`. Its string keys are a map from key to value and expiry second. Its sorted sets are a map from key to a sequence of (member, score) items in Redis' order. Every read goes through `Redis.Lookup`, so an expired key reads as absent.

The other modules each have two layers:
- Functions give each operation's outcome on a store: the value returned, the new keys, and whether the fallback ran.
- Classes run the same steps command by command against the shared store. Each method's `ensures` ties it to those functions.

The lemmas prove what the code promises:
- cached rows are served until they expire;
- a lock excludes others and only its owner releases it;
- ids increase and decompose;
- a like toggles;
- the fan-out reaches every follower and touches nothing else;
- the scroll visits every feed entry once.

Two places where the code does not do what it evidently intends are listed under Findings. For each, the model keeps a version as written and a corrected version, and the rest of the model uses the corrected one.

## Model

| member | source | states |
|---|---|---|
| Redis.ToSeconds | src/main/java/com/hmdp/utils/CacheClient.java:40 | For SECONDS, MINUTES, HOURS and DAYS, TimeUnit.toSeconds is the exact product when it fits a long, and saturates at the long range's ends otherwise. |
| Redis.PutIfAbsentExcludes | src/main/java/com/hmdp/utils/CacheClient.java:203 | SET NX EX succeeds only on a free key, and later SET NX calls fail while the lease lasts. |
| Redis.IncrCounts | src/main/java/com/hmdp/utils/RedisIdWorker.java:40 | INCR on a counter holding n (or a missing counter, n = 0) returns n + 1 and stores its decimal form. The key keeps its expiry and every other key is unchanged. |
| Redis.Store.Get | src/main/java/com/hmdp/utils/CacheClient.java:61 | GET returns the live value, or null for a missing or expired key. |
| Redis.Store.Set | src/main/java/com/hmdp/utils/CacheClient.java:42 | A plain SET stores the value with no expiry. |
| Redis.Store.SetEx | src/main/java/com/hmdp/utils/CacheClient.java:33 | SET EX stores the value until now + ttl. An invalid ttl is an error reply and changes nothing. |
| Redis.Store.SetIfAbsent | src/main/java/com/hmdp/utils/CacheClient.java:203 | SET NX EX: an error for an invalid ttl, false on a live key, and true after writing a free key. |
| Redis.Store.Delete | src/main/java/com/hmdp/utils/CacheClient.java:214 | DEL removes the key and nothing else. |
| Redis.Store.Increment | src/main/java/com/hmdp/utils/RedisIdWorker.java:40 | INCR returns and stores the next count. A value that is not a canonical long is an error reply, and so is an overflow; both keep the store. |
| Redis.Store.EvalDelIfEquals | src/main/java/com/hmdp/utils/SimpleRedisLock.java:69-72 | The unlock script deletes the key exactly when it holds the token, in one step. |
| Redis.Store.ZScore | src/main/java/com/hmdp/service/impl/BlogServiceImpl.java:100 | ZSCORE reads a member's score from the set under the key. A missing key reads as the empty set. |
| Redis.Store.ZAdd | src/main/java/com/hmdp/service/impl/BlogServiceImpl.java:118 | ZADD replaces the set under the key with the added one and keeps every set well formed. |
| Redis.Store.ZRem | src/main/java/com/hmdp/service/impl/BlogServiceImpl.java:126 | ZREM removes the member and drops a set that becomes empty. Every set stays well formed. |
| Redis.Store.ZRange | src/main/java/com/hmdp/service/impl/BlogServiceImpl.java:143 | ZRANGE returns the members at the given ranks. |
| Redis.Store.ZRevRangeByScoreWithScores | src/main/java/com/hmdp/service/impl/BlogServiceImpl.java:200-201 | ZREVRANGEBYSCORE WITHSCORES LIMIT returns the items of the score window, highest first. |
| SortedSet.ScoreFinds | src/main/java/com/hmdp/service/impl/BlogServiceImpl.java:100 | In a well-formed set, ZSCORE answers s for a member exactly when (member, s) is in the set. |
| SortedSet.ScoreAbsent | src/main/java/com/hmdp/service/impl/BlogServiceImpl.java:111-112 | ZSCORE is null exactly when no item has the member. |
| SortedSet.Remove | src/main/java/com/hmdp/service/impl/BlogServiceImpl.java:126 | ZREM keeps exactly the items with other members. |
| SortedSet.RemoveValid | src/main/java/com/hmdp/service/impl/BlogServiceImpl.java:126 | ZREM keeps a set in Redis' order with one score per member. |
| SortedSet.RemoveAbsent | src/main/java/com/hmdp/service/impl/BlogServiceImpl.java:126 | ZREM of a member the set does not hold changes nothing. |
| SortedSet.RemoveInsert | src/main/java/com/hmdp/service/impl/BlogServiceImpl.java:118-126 | Removing a member just added to a set that did not hold it gives back the set. |
| SortedSet.Insert | src/main/java/com/hmdp/service/impl/BlogServiceImpl.java:118 | Insertion adds exactly the new item and grows the set by one. |
| SortedSet.InsertValid | src/main/java/com/hmdp/service/impl/BlogServiceImpl.java:118 | Inserting a new member keeps the set in Redis' order. |
| SortedSet.AddSpec | src/main/java/com/hmdp/service/impl/BlogServiceImpl.java:118 | ZADD keeps the set well formed, gives the member the new score and leaves every other member's score alone. |
| SortedSet.RemoveSpec | src/main/java/com/hmdp/service/impl/BlogServiceImpl.java:126 | ZREM keeps the set well formed, clears the member's score and leaves every other member's score alone. |
| SortedSet.RangeFromStart | src/main/java/com/hmdp/service/impl/BlogServiceImpl.java:143 | ZRANGE 0 k-1 returns the first k members (all when there are fewer). Each returned member precedes every member left out. |
| SortedSet.InScore | src/main/java/com/hmdp/service/impl/BlogServiceImpl.java:200-201 | The score window holds exactly the set's items scored in [lo, hi]. |
| SortedSet.InScoreOrdered | src/main/java/com/hmdp/service/impl/BlogServiceImpl.java:200-201 | The score window of a well-formed set is still in Redis' order. |
| SortedSet.InScoreSplit | src/main/java/com/hmdp/service/impl/BlogServiceImpl.java:200-201 | The window [lo, hi] is the window [lo, m] followed by the window [m + 1, hi]. |
| SortedSet.ReverseDescends | src/main/java/com/hmdp/service/impl/BlogServiceImpl.java:200-201 | Reversing a set in Redis' order puts it highest first. |
| SortedSet.RevRangeByScoreSpec | src/main/java/com/hmdp/service/impl/BlogServiceImpl.java:200-201 | The reply comes from the set, lies in the window and is highest first. It holds at most count items, and it is empty exactly when the offset is negative, the offset passes the window, or the count is 0. |
| SortedSet.RevRangeIsSlice | src/main/java/com/hmdp/service/impl/BlogServiceImpl.java:200-201 | The reply is the run of the reversed window that starts offset places in. |
| Text.ParseLongOfDecimal | src/main/java/com/hmdp/service/impl/BlogServiceImpl.java:150 | Long.valueOf reads back every long written by Long.toString. |
| Text.DecimalStringInjective | src/main/java/com/hmdp/service/impl/BlogServiceImpl.java:111 | Numbers with equal decimal strings are equal, so distinct user ids are distinct members. |
| Text.ParseLongs | src/main/java/com/hmdp/service/impl/BlogServiceImpl.java:150 | Mapping Long.valueOf over a list of ASCII strings succeeds exactly when every string parses, and then gives each value in order. |
| Text.ParseLongsOfDecimals | src/main/java/com/hmdp/service/impl/BlogServiceImpl.java:150 | Ids written with toString read back as the same list. |
| Text.ParseCanonicalIsInverse | src/main/java/com/hmdp/utils/RedisIdWorker.java:40 | The store's integer reading accepts exactly the decimal strings it writes. |
| Envelope.DecodeEncode | src/main/java/com/hmdp/utils/RedisData.java:9-10 | An envelope reads back as itself: the same expiry and the same payload, including a null payload. |
| Envelope.EncodeNotBlank | src/main/java/com/hmdp/utils/CacheClient.java:103 | A written envelope is never blank, so the blank check never takes one for a miss. |
| Constants.CacheAndLockKeysDiffer | src/main/java/com/hmdp/utils/CacheClient.java:163 | A shop cache key and a shop lock key are never the same key. |
| Cache.TryLockSpec | src/main/java/com/hmdp/utils/CacheClient.java:200-206 | tryLock succeeds exactly on a free key, which then holds "1" for ten seconds. A failed attempt writes nothing. |
| Cache.UnlockIsUnconditional | src/main/java/com/hmdp/utils/CacheClient.java:212-215 | unlock deletes the lock key whatever it holds and leaves the other keys. |
| Cache.SetEnvelopeWritesWhole | src/main/java/com/hmdp/utils/CacheClient.java:36-43 | setWithLogicalExpire stores an envelope without a store expiry. The envelope decodes to now plus the lifetime and the payload. |
| Cache.PassThroughHit | src/main/java/com/hmdp/utils/CacheClient.java:61-66 | A non-blank cached string is decoded and returned, with no fallback call and no write. |
| Cache.PassThroughNullMarker | src/main/java/com/hmdp/utils/CacheClient.java:68-71 | A cached blank string yields null, with no fallback call and no write. |
| Cache.PassThroughMiss | src/main/java/com/hmdp/utils/CacheClient.java:73-84 | On a miss the fallback runs once. A missing row caches "" for two minutes and yields null. A row is cached under the caller's lifetime and returned. A throwing fallback writes nothing. |
| Cache.PassThroughFrame | src/main/java/com/hmdp/utils/CacheClient.java:57-85 | Passthrough writes at most its own cache key. |
| Cache.PassThroughServesWhatItCached | src/main/java/com/hmdp/utils/CacheClient.java:57-85 | A row fetched on a miss is served from the cache by the next query while its lifetime lasts, without the fallback. |
| Cache.PassThroughRemembersMissingRow | src/main/java/com/hmdp/utils/CacheClient.java:76-80 | For two minutes after a missing row, queries answer null without the fallback. |
| Cache.MutexCachedLikePassThrough | src/main/java/com/hmdp/utils/CacheClient.java:147-159 | A hit or a null marker is answered by queryWithMutex exactly as passthrough answers it, in both versions. |
| Cache.MutexAcquired | src/main/java/com/hmdp/utils/CacheClient.java:163-192 | With the lock free at a miss, the fallback runs once and writes what passthrough writes. The lock key is gone afterwards, and both versions agree. |
| Cache.MutexLocks | src/main/java/com/hmdp/utils/CacheClient.java:165-190 | An attempt that takes the lock fills the cache and then deletes the lock. |
| Cache.MutexStep | src/main/java/com/hmdp/utils/CacheClient.java:174-190 | The corrected attempt after taking the lock: fill, then release. |
| Cache.MutexAsWrittenStep | src/main/java/com/hmdp/utils/CacheClient.java:174-190 | The as-written attempt after taking the lock: fill, then release. |
| Cache.MutexRetries | src/main/java/com/hmdp/utils/CacheClient.java:167-173 | When the lock is taken, the answer is the next attempt's answer on the store as other clients left it. As written, the lock key is deleted afterwards. |
| Cache.FillFrame | src/main/java/com/hmdp/utils/CacheClient.java:74-84 | The miss path writes its own key and no other. |
| Cache.FillValueIgnoresOtherKeys | src/main/java/com/hmdp/utils/CacheClient.java:175-184 | What the miss path returns depends only on the fallback. |
| Cache.CacheAndLockKeysDifferAfterPrefix | src/main/java/com/hmdp/utils/CacheClient.java:147-163 | The cache key and the lock key of one id differ whenever the prefix is not "lock:shop:". |
| Cache.MutexKeepsForeignLock | src/main/java/com/hmdp/utils/CacheClient.java:165-190 | Corrected: a lock held by another caller for the whole call is still held afterwards, and the fallback never runs. |
| Cache.MutexAsWrittenAlwaysClearsLock | src/main/java/com/hmdp/utils/CacheClient.java:187-190 | As written: every call that misses at its first attempt ends with the lock key deleted. |
| Cache.MutexAsWrittenDeletesForeignLock | src/main/java/com/hmdp/utils/CacheClient.java:187-190 | As written: in the same situation as MutexKeepsForeignLock, the other caller's lock is deleted by a caller that never held it. |
| Cache.AsWrittenSameAnswer | src/main/java/com/hmdp/utils/CacheClient.java:144-193 | Both versions return the same value and call the fallback alike. They differ only in whether the lock key is left. |
| Cache.LogicalExpireUnwarmed | src/main/java/com/hmdp/utils/CacheClient.java:101-106 | A missing or blank key yields null with no lock, no write and no task. |
| Cache.LogicalExpireFresh | src/main/java/com/hmdp/utils/CacheClient.java:108-117 | An envelope that has not expired yields its payload with no lock, no write and no task. |
| Cache.LogicalExpireStale | src/main/java/com/hmdp/utils/CacheClient.java:118-141 | A stale envelope still yields its old payload. A rebuild is submitted exactly when the lock was free, and the lock then holds "1" for ten seconds. Otherwise nothing is written. |
| Cache.RunTaskSpec | src/main/java/com/hmdp/utils/CacheClient.java:126-138 | The rebuild writes a fresh envelope and always releases the lock. A throwing fallback changes only the lock. |
| Cache.RebuildThenFresh | src/main/java/com/hmdp/utils/CacheClient.java:97-142 | After a rebuild, queries answer the fresh row until the new expiry, without a lock or a task. |
| Cache.CacheClient.Set | src/main/java/com/hmdp/utils/CacheClient.java:32-34 | set writes the JSON under the caller's lifetime, and fails on a lifetime the store refuses. |
| Cache.CacheClient.SetWithLogicalExpire | src/main/java/com/hmdp/utils/CacheClient.java:36-43 | setWithLogicalExpire writes the envelope with a plain SET. An expiry instant outside LocalDateTime's range fails without writing. |
| Cache.CacheClient.TryLock | src/main/java/com/hmdp/utils/CacheClient.java:200-206 | tryLock on the store: true, and the key written with the lease, exactly when the key was free. |
| Cache.CacheClient.Unlock | src/main/java/com/hmdp/utils/CacheClient.java:212-215 | unlock deletes the key. |
| Cache.CacheClient.FillFromDatabase | src/main/java/com/hmdp/utils/CacheClient.java:74-84 | The miss path on the store, recording one fallback call. |
| Cache.CacheClient.QueryWithPassThrough | src/main/java/com/hmdp/utils/CacheClient.java:57-85 | queryWithPassThrough on the store, with its value, its writes and its fallback calls. |
| Cache.CacheClient.QueryWithMutex | src/main/java/com/hmdp/utils/CacheClient.java:144-193 | queryWithMutex on the store, with the release confined to the attempt that took the lock. |
| Cache.CacheClient.QueryWithLogicalExpire | src/main/java/com/hmdp/utils/CacheClient.java:97-142 | queryWithLogicalExpire on the store. A submitted rebuild joins the executor's queue. |
| Cache.CacheClient.RunPendingTask | src/main/java/com/hmdp/utils/CacheClient.java:126-138 | The executor runs a queued rebuild: it loads, writes the envelope, unlocks and leaves the queue. |
| Locks.TokenInjective | src/main/java/com/hmdp/utils/SimpleRedisLock.java:42 | Distinct (JVM prefix, thread id) pairs have distinct tokens. |
| Locks.TryLockSpec | src/main/java/com/hmdp/utils/SimpleRedisLock.java:56-64 | tryLock succeeds exactly when the lock is free, and the key then holds the caller's token for the lease. A failed attempt changes nothing, and an invalid lease throws. |
| Locks.TryLockExcludes | src/main/java/com/hmdp/utils/SimpleRedisLock.java:60-61 | While the lock is held, every tryLock fails and changes nothing. |
| Locks.UnlockByOwner | src/main/java/com/hmdp/utils/SimpleRedisLock.java:67-73 | The owner's unlock removes the lock. |
| Locks.UnlockByOther | src/main/java/com/hmdp/utils/SimpleRedisLock.java:67-73 | Anyone else's unlock, or an unlock after the lease ran out, changes nothing. |
| Locks.LockFreedForOthers | src/main/java/com/hmdp/utils/SimpleRedisLock.java:56-73 | After the owner's unlock, or once the lease is over, another caller's tryLock succeeds. |
| Locks.HeldLockSurvivesOthers | src/main/java/com/hmdp/utils/SimpleRedisLock.java:56-73 | While the lease lasts, no sequence of tryLock and unlock calls by other tokens changes the owner's entry. |
| Locks.SimpleRedisLock.TryLock | src/main/java/com/hmdp/utils/SimpleRedisLock.java:56-64 | tryLock on the store with the thread's token. |
| Locks.SimpleRedisLock.Unlock | src/main/java/com/hmdp/utils/SimpleRedisLock.java:67-73 | unlock on the store with the thread's token. |
| Ids.ComposeExact | src/main/java/com/hmdp/utils/RedisIdWorker.java:44 | With a count below 2^32, the id is the timestamp's low 32 bits (as a signed int) times 2^32, plus the count. |
| Ids.Decompose | src/main/java/com/hmdp/utils/RedisIdWorker.java:44 | The high half of an id gives back the timestamp's low 32 bits as an int, which is the timestamp itself when it fits an int. The low 32 bits give back the count. |
| Ids.ComposeIncreases | src/main/java/com/hmdp/utils/RedisIdWorker.java:44 | For timestamps t1 <= t2 that fit an int and counts c1 < c2 below 2^32, the first id is smaller than the second. |
| Ids.CounterKeyInjective | src/main/java/com/hmdp/utils/RedisIdWorker.java:38-40 | Different prefixes or days have different counter keys. |
| Ids.NextIdCounts | src/main/java/com/hmdp/utils/RedisIdWorker.java:27-45 | nextId adds one to its counter and composes the id from the new count. A fresh counter gives 1, and every other key keeps its entry. |
| Ids.SuccessiveIdsIncrease | src/main/java/com/hmdp/utils/RedisIdWorker.java:27-45 | Two successive calls for one prefix and day give a strictly larger second id. |
| Ids.FirstCallLeavesCounter | src/main/java/com/hmdp/utils/RedisIdWorker.java:40 | A counter without expiry holds n + 1 after one call, for every later second. |
| Ids.TimestampInRange | src/main/java/com/hmdp/utils/RedisIdWorker.java:34 | Within the range where it fits an int, the timestamp is the exact number of seconds since the epoch. |
| Ids.CountersIndependent | src/main/java/com/hmdp/utils/RedisIdWorker.java:40 | A call leaves the counters of other prefixes and days unread and unchanged. |
| Ids.RedisIdWorker.NextId | src/main/java/com/hmdp/utils/RedisIdWorker.java:27-45 | nextId on the store: the id, or the store's INCR error. |
| Blogs.ToggleLikeSpec | src/main/java/com/hmdp/service/impl/BlogServiceImpl.java:105-130 | likeBlog flips the user's like exactly when the database update succeeds, and a new like is scored with the current millisecond. No other user's like and no other key changes. |
| Blogs.LikeTwiceRestores | src/main/java/com/hmdp/service/impl/BlogServiceImpl.java:105-130 | Two successful likes in a row restore the store exactly, or re-like the blog with the second millisecond. |
| Blogs.LikeThenUnlike | src/main/java/com/hmdp/service/impl/BlogServiceImpl.java:112-127 | A like and its withdrawal leave the store exactly as it was. |
| Blogs.UnlikeThenLike | src/main/java/com/hmdp/service/impl/BlogServiceImpl.java:112-127 | A withdrawal and a new like leave the user liking from the second moment, with no other key changed. |
| Blogs.RemoveAfterInsert | src/main/java/com/hmdp/service/impl/BlogServiceImpl.java:116-127 | ZREM of a just-inserted new member gives back the sorted sets, including the dropping of a set that becomes empty. |
| Blogs.TopLikersSpec | src/main/java/com/hmdp/service/impl/BlogServiceImpl.java:137-150 | queryBlogLikes lists the ids of the first five likers in order. These have the earliest scores, and nobody liking gives []. A member that is not a number throws. |
| Blogs.FanOutSpec | src/main/java/com/hmdp/service/impl/BlogServiceImpl.java:176-185 | After the fan-out every follower's feed scores the blog at the clock reading of the last push to that feed; each push reads the clock anew. No other member's score changes, and no key outside the followers' feeds changes. |
| Blogs.FanOutValid | src/main/java/com/hmdp/service/impl/BlogServiceImpl.java:179-185 | The pushes keep every sorted set well formed. |
| Blogs.FanOutKeepsOthers | src/main/java/com/hmdp/service/impl/BlogServiceImpl.java:179-185 | The pushes change no other member's score in any feed. |
| Blogs.FanOutDelivers | src/main/java/com/hmdp/service/impl/BlogServiceImpl.java:179-185 | Every follower's feed holds the blog afterwards, scored at its last push's reading. |
| Blogs.DeliversStep | src/main/java/com/hmdp/service/impl/BlogServiceImpl.java:183-184 | One more push, with its own reading, keeps the earlier followers' deliveries and delivers to its own feed. |
| Blogs.AddDelivers | src/main/java/com/hmdp/service/impl/BlogServiceImpl.java:184 | One push sets the blog's score in the pushed feed and in no other feed. |
| Blogs.FanOutStep | src/main/java/com/hmdp/service/impl/BlogServiceImpl.java:179-185 | The fan-out over one more follower is one more push, scored at that push's reading. |
| Blogs.FanOutTouchesOnlyFeeds | src/main/java/com/hmdp/service/impl/BlogServiceImpl.java:179-185 | Keys other than the followers' feeds are unchanged. |
| Blogs.FeedKeyInjective | src/main/java/com/hmdp/service/impl/BlogServiceImpl.java:183 | Distinct users have distinct feed keys. |
| Blogs.LastPushIsAReading | src/main/java/com/hmdp/service/impl/BlogServiceImpl.java:179-185 | A user's feed got a push exactly when the user is a follower. The score it keeps is the reading taken at that follower's last push. |
| Blogs.LastPushOfDistinct | src/main/java/com/hmdp/service/impl/BlogServiceImpl.java:179-185 | With each follower listed once, every follower's feed scores the blog at the reading taken for its own push. |
| Blogs.CursorIsTrailingRun | src/main/java/com/hmdp/service/impl/BlogServiceImpl.java:210-225 | When the first score is not 0, the loop leaves minTime as the last score and os as the length of the final run at that score. |
| Blogs.CursorOverCountsZeros | src/main/java/com/hmdp/service/impl/BlogServiceImpl.java:210-225 | With every score 0, the initial minTime = 0 and os = 1 count one entry too many. |
| Blogs.ScanSpec | src/main/java/com/hmdp/service/impl/BlogServiceImpl.java:209-226 | The loop throws exactly when a member is not a number. Otherwise it reads one id per tuple, in order, and leaves the cursor of the final run. |
| Blogs.TupleCursor | src/main/java/com/hmdp/service/impl/BlogServiceImpl.java:216-225 | The cursor part of the loop, over the tuples' scores. |
| Blogs.ScanIds | src/main/java/com/hmdp/service/impl/BlogServiceImpl.java:212-215 | The id part of the loop: it throws exactly when a member does not parse, and otherwise gives one id per tuple. |
| Blogs.FollowPageAsWrittenSpec | src/main/java/com/hmdp/service/impl/BlogServiceImpl.java:190-254 | As written, a page is empty exactly when the offset is negative or passes the window. A page lists at most two entries of the window, highest first, and its cursor has minTime at the last score and os counting the final run. |
| Blogs.ScrollRepeatsAsWritten | src/main/java/com/hmdp/service/impl/BlogServiceImpl.java:209-226 | As written, three entries with the same score give cursors that cycle through (5, 2), (5, 1), (5, 2): entries repeat forever. The corrected cursor ends. |
| Blogs.ScrollContinues | src/main/java/com/hmdp/service/impl/BlogServiceImpl.java:190-254 | Corrected scroll from a cursor the client can hold: the page is empty exactly when the window is used up. Otherwise it lists the next entries of the window in order, and the next cursor is again one the client can hold, with exactly the rest of the window left after it. |
| Blogs.FeedContinues | src/main/java/com/hmdp/service/impl/BlogServiceImpl.java:200-249 | ScrollContinues on one feed. |
| Blogs.FeedEnds | src/main/java/com/hmdp/service/impl/BlogServiceImpl.java:200-206 | The reply is empty exactly when the offset passes the window. |
| Blogs.NextCursor | src/main/java/com/hmdp/service/impl/BlogServiceImpl.java:245-251 | The next cursor leads the window below minTime with a run at minTime, and what follows it is what follows the page. |
| Blogs.PageOfWindow | src/main/java/com/hmdp/service/impl/BlogServiceImpl.java:200-201 | A non-empty reply is the run of the window from offset on: two entries, or the rest of the window. |
| Blogs.WindowSplit | src/main/java/com/hmdp/service/impl/BlogServiceImpl.java:200-201 | The window below a score m is what follows the window's entries scored above m. |
| Blogs.BlogService.IsBlogLiked | src/main/java/com/hmdp/service/impl/BlogServiceImpl.java:89-103 | isLike is set to whether the logged-in user's id has a score. With nobody logged in, the blog is untouched. |
| Blogs.BlogService.LikeBlog | src/main/java/com/hmdp/service/impl/BlogServiceImpl.java:105-130 | likeBlog on the store: it toggles the like, with a null user dereferenced. |
| Blogs.BlogService.QueryBlogLikes | src/main/java/com/hmdp/service/impl/BlogServiceImpl.java:137-150 | queryBlogLikes on the store, up to the user lookup. |
| Blogs.BlogService.SaveBlog | src/main/java/com/hmdp/service/impl/BlogServiceImpl.java:166-188 | saveBlog sets the author and refuses a failed insert. Otherwise it pushes the new id to every follower's feed, one clock reading per push, and returns the id. |
| Blogs.BlogService.ScanPage | src/main/java/com/hmdp/service/impl/BlogServiceImpl.java:209-226 | The loop over the page's tuples. |
| Blogs.BlogService.QueryBlogOfFollow | src/main/java/com/hmdp/service/impl/BlogServiceImpl.java:190-254 | queryBlogOfFollow on the store, with the corrected offset. A null user is dereferenced. |
| Shops.QueryByIdRefusesExactlyOnNull | src/main/java/com/hmdp/service/impl/ShopServiceImpl.java:46-68 | queryById fails with "店铺不存在！" exactly on a cached null marker, or on a miss with no row. A shop from the database is returned as it is. |
| Shops.UpdateThenMiss | src/main/java/com/hmdp/service/impl/ShopServiceImpl.java:72-86 | After update deletes the key, the next read misses and goes to the database. |
| Shops.PageWindowSpec | src/main/java/com/hmdp/service/impl/ShopServiceImpl.java:101-102 | end - from is one page in int arithmetic. For pages whose end fits, from and end are (current - 1) * 5 and current * 5. |
| Shops.NegativePageWraps | src/main/java/com/hmdp/service/impl/ShopServiceImpl.java:101-102 | Page -858993458 wraps around to the window 1..6. |
| Shops.PageHitsSpec | src/main/java/com/hmdp/service/impl/ShopServiceImpl.java:106-121 | For pages from 1 up, the page is exactly the matches ranked from to end - 1 (or to the last match), in order: min(matches, end) - from entries. No answer or too few matches gives []. Page 0 and non-wrapping negative pages are refused. |
| Shops.DistanceMapSpec | src/main/java/com/hmdp/service/impl/ShopServiceImpl.java:124-132 | distanceMap holds exactly the hits' names, each mapped to its own distance. |
| Shops.ShopService.QueryById | src/main/java/com/hmdp/service/impl/ShopServiceImpl.java:46-68 | queryById on the store through passthrough with the shop key and 30 minutes. |
| Shops.ShopService.Update | src/main/java/com/hmdp/service/impl/ShopServiceImpl.java:72-86 | update refuses a null id. Otherwise it deletes the shop's cache key, and only that key. |
| Shops.ShopService.CollectHits | src/main/java/com/hmdp/service/impl/ShopServiceImpl.java:123-132 | The forEach over the hits: the ids in order and the distance map, or a throw on a name that is not a number. |
| Shops.ShopService.SetDistances | src/main/java/com/hmdp/service/impl/ShopServiceImpl.java:136-138 | Every row gets its id's distance. The loop throws at the first row without one, after the rows before it got theirs. |
| Shops.ShopService.QueryShopByType | src/main/java/com/hmdp/service/impl/ShopServiceImpl.java:89-141 | queryShopByType: the database page without coordinates. With coordinates: the geo page's rows with their distances, [] past the matches, and the throws of its calls. |

## Left out

- The database is not modelled. getById, the like-counter updates, the blog insert, the follower query, the user and blog lookups and `ORDER BY FIELD` become inputs of the operations. queryBlogOfFollow and queryBlogLikes therefore stop at the ids they would look up, and the per-blog queryBlogUser and isBlogLiked calls inside queryBlogOfFollow are left out.
- JSON is not modelled. `Class<R>` plus Hutool's JSONUtil is a codec parameter. Where a lemma needs a faithful round trip, it assumes one through the predicate `Cache.Faithful`. The RedisData envelope gets a concrete stand-in text form with a proven round trip.
- Clocks are not modelled. Seconds, milliseconds and the day string are parameters. saveBlog reads the clock once per follower, so it takes one reading per push. `LocalDateTime` is an epoch second in its representable range, with time zones ignored.
- Threads are not modelled. The sleep before a mutex retry becomes a list of attempts. Each attempt has its own clock reading and a function for what other clients change meanwhile. The list bounds the retries, which the source does not bound; running out is a `RetriesExhausted` failure that the source does not have.
- The executor of queryWithLogicalExpire is a queue of pending rebuild tasks that run when `RunPendingTask` is called. The RuntimeException a task rethrows only ends that task and is not modelled.
- The InterruptedException branch of queryWithMutex is not modelled; it is only reachable by interrupting the thread.
- Redis keeps strings and sorted sets in one keyspace. The model keeps two maps, since the code's key prefixes never mix them.
- Expiry is lazy: expired entries stay in the map and read as absent.
- Sorted-set scores are integers. They are milliseconds, which a double holds exactly.
- unlock.lua is not part of this model. The script is taken to delete the key exactly when it holds the caller's token.
- RedisConstants and SystemConstants are not part of this model. Their values are taken as: null marker 2 minutes, shop lifetime 30 minutes, the prefixes "cache:shop:", "lock:shop:", "blog:liked:", "feed:" and "shop:geo:", and page size 5.
- GEOSEARCH by radius is not modelled. The search's answer, in order of distance, is an input, and distances are reals.
- The ScrollResult holds blog ids rather than blog rows.
- Blogs.ScrollContinues: requires every feed score to be positive, which epoch-millisecond scores are. With a score of 0 the loop's initial values over-count, which `Blogs.CursorOverCountsZeros` shows.
- Blogs.NextOffset: the corrected offset is an unbounded integer. The int overflow of `offset + os` after about two billion entries at one millisecond is not modelled.
- Redis.TimeUnit: only SECONDS, MINUTES, HOURS and DAYS are modelled. MILLISECONDS, MICROSECONDS and NANOSECONDS are left out. For those, toSeconds truncates instead of multiplying, and Spring's set takes its PSETEX path, which a store counting whole seconds cannot express. No caller in the system passes a sub-second unit.
- Text.ParseLong: digits are ASCII only. Long.valueOf also accepts the other Unicode decimal digits, which members and geo names written by Long.toString never contain.
- Ids.ComposeIncreases: stated only while the count fits in 32 bits and the timestamps fit an int. Beyond that, the or merges the count into the timestamp bits, and increase is not promised.
- UserHolder is an optional user id. Where the code dereferences it without a check, a missing user is a `NullDereference` failure.

## Findings

| source | as written | input that shows it | evidently intended | confidence | as-written member | corrected member |
|---|---|---|---|---|---|---|
| src/main/java/com/hmdp/utils/CacheClient.java:187-190 | The `finally` of queryWithMutex unlocks on every attempt. That includes an attempt whose tryLock failed and which only returned the retry's result. | Another caller holds "lock:shop:id" for the whole call and the cache misses. When the retries end, the caller that never held the lock deletes that caller's lock. | Release only the lock this attempt took. | not executed | Cache.MutexAsWrittenDeletesForeignLock | Cache.MutexKeepsForeignLock |
| src/main/java/com/hmdp/service/impl/BlogServiceImpl.java:249 | The next offset is `os`, the number of page entries at minTime. This holds even when minTime equals the request's max, where the entries the request already skipped share that score. | Feed "feed:7" holds blogs 1, 2, 3, all scored 5. Cursor (10, 0) gives [3, 2] and (5, 2). Cursor (5, 2) gives [1] and (5, 1). Cursor (5, 1) gives [2, 1] and (5, 2) again, so the scroll repeats forever. | The next offset is `offset + os` when minTime equals max, and `os` otherwise. | not executed | Blogs.ScrollRepeatsAsWritten | Blogs.ScrollContinues |
