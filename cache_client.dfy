/** CacheClient: a read-through cache over the store with three strategies against a database fallback. The
    functions below give the outcome of each query on a given store (the value returned, the new string keys,
    whether the fallback ran); the class runs the same steps command by command against the shared store. */
module Cache {
  import opened Wrappers
  import opened Numbers
  import opened Text
  import opened Redis
  import opened Constants
  import Envelope

  /** Class<R> together with the JSON library: how a value of R is written, and how a text is read back as one. */
  datatype Codec<!R> = Codec(toJson: R -> string, toBean: string -> Result<R>)

  /** A codec whose every written value reads back as itself and is never blank (a JSON object is at least "{}"). */
  ghost predicate Faithful<R(!new)>(c: Codec<R>) {
    forall r :: !IsBlank(c.toJson(r)) && c.toBean(c.toJson(r)) == Success(r)
  }

  /** The first second LocalDateTime cannot represent, and the last one it can, counted from the epoch in UTC. */
  const MIN_EPOCH_SECOND: int := -31557014167219200
  const MAX_EPOCH_SECOND: int := 31556889864403199

  /** The lease of the cache's own lock, in seconds. */
  const LOCK_LEASE: int := 10

  /** The cache's own lock holds this value, whoever takes it. */
  const LOCK_VALUE: string := "1"

  /** JSONUtil.toBean: a null for no object, the exception of the reader otherwise. */
  function Read<R>(codec: Codec<R>, json: string): Result<Option<R>> {
    match codec.toBean(json)
    case Success(r) => Success(Some(r))
    case Failure(e) => Failure(e)
  }

  /** The outcome of a query: what it returns (or throws), the string keys afterwards, and whether it called the
      database fallback. */
  datatype Reply<R> = Reply(value: Result<Option<R>>, strings: Strings, loaded: bool)

  /** The private tryLock: SET key "1" NX EX 10, where a null reply reads as false. */
  function AcquireLock(m: Strings, key: string, now: int): (bool, Strings) {
    match PutIfAbsent(m, key, LOCK_VALUE, LOCK_LEASE, now)
    case Some((ok, m')) => (ok, m')
    case None => (false, m)
  }

  /** The private tryLock succeeds exactly on a free key, which then holds "1" for the ten-second lease. */
  lemma TryLockSpec(m: Strings, key: string, now: int)
    ensures var (ok, m') := AcquireLock(m, key, now);
      && (ok <==> Lookup(m, key, now) == None)
      && (ok ==> m' == m[key := Entry(LOCK_VALUE, Some(now + LOCK_LEASE))])
      && (!ok ==> m' == m)
  {
  }

  /** The private unlock deletes the key whatever it holds: the lock value is never compared. */
  lemma UnlockIsUnconditional(m: Strings, key: string, now: int)
    ensures Lookup(Del(m, key), key, now) == None
    ensures forall k :: k != key ==> Lookup(Del(m, key), k, now) == Lookup(m, k, now)
  {
  }

  /** CacheClient.set: the value as JSON under key for the caller's lifetime; false is the store's error reply to
      a lifetime it does not accept, which leaves the store unchanged. */
  function SetValue<R>(m: Strings, key: string, value: R, codec: Codec<R>, time: Long, unit: TimeUnit, now: int)
    : (bool, Strings)
  {
    PutEx(m, key, codec.toJson(value), unit.ToSeconds(time), now)
  }

  /** CacheClient.setWithLogicalExpire: one plain SET of the envelope, whose expiry is now plus the lifetime in
      seconds; false when that instant is past what LocalDateTime can hold (the write is then not made). */
  function SetEnvelope(m: Strings, key: string, data: Option<string>, time: Long, unit: TimeUnit, now: int)
    : (bool, Strings)
  {
    var expireTime := now + unit.ToSeconds(time);
    if expireTime < MIN_EPOCH_SECOND || MAX_EPOCH_SECOND < expireTime then (false, m)
    else (true, Put(m, key, Envelope.Encode(Envelope.RedisData(expireTime, data))))
  }

  /** The envelope write stores no lifetime of its own, so only its expireTime decides staleness. */
  lemma SetEnvelopeWritesWhole(m: Strings, key: string, data: Option<string>, time: Long, unit: TimeUnit, now: int)
    requires MIN_EPOCH_SECOND <= now + unit.ToSeconds(time) <= MAX_EPOCH_SECOND
    ensures var (ok, m') := SetEnvelope(m, key, data, time, unit, now);
      && ok && key in m' && m'[key].expireAt == None
      && Envelope.Decode(m'[key].value) == Success(Envelope.RedisData(now + unit.ToSeconds(time), data))
  {
    var d := Envelope.RedisData(now + unit.ToSeconds(time), data);
    Envelope.DecodeEncode(d);
    assert SetEnvelope(m, key, data, time, unit, now) == (true, m[key := Entry(Envelope.Encode(d), None)]);
  }

  /** What passthrough and the mutex strategy do on a miss: call the fallback once, then cache its row under the
      caller's lifetime or the null marker "" for CACHE_NULL_TTL minutes. */
  function Fill<R>(m: Strings, key: string, id: Long, codec: Codec<R>, dbFallback: Long -> Result<Option<R>>,
                   time: Long, unit: TimeUnit, now: int): Reply<R>
  {
    match dbFallback(id)
    case Failure(e) => Reply(Failure(e), m, true)
    case Success(None) =>
      var (ok, m') := PutEx(m, key, "", Minutes.ToSeconds(CACHE_NULL_TTL), now);
      Reply(if ok then Success(None) else Failure(StoreRejected), m', true)
    case Success(Some(r)) =>
      var (ok, m') := SetValue(m, key, r, codec, time, unit, now);
      Reply(if ok then Success(Some(r)) else Failure(StoreRejected), m', true)
  }

  /** queryWithPassThrough. */
  function PassThrough<R>(m: Strings, keyPrefix: string, id: Long, codec: Codec<R>,
                          dbFallback: Long -> Result<Option<R>>, time: Long, unit: TimeUnit, now: int): Reply<R>
  {
    var key := keyPrefix + DecimalString(id);
    var json := Lookup(m, key, now);
    if !IsBlankOrNull(json) then Reply(Read(codec, json.value), m, false)
    else if json.Some? then Reply(Success(None), m, false)
    else Fill(m, key, id, codec, dbFallback, time, unit, now)
  }

  /** A non-blank cached string is decoded and returned; the fallback is not called and nothing is written. */
  lemma PassThroughHit<R>(m: Strings, keyPrefix: string, id: Long, codec: Codec<R>,
                          dbFallback: Long -> Result<Option<R>>, time: Long, unit: TimeUnit, now: int)
    requires !IsBlankOrNull(Lookup(m, keyPrefix + DecimalString(id), now))
    ensures var rep := PassThrough(m, keyPrefix, id, codec, dbFallback, time, unit, now);
      && rep.value == Read(codec, Lookup(m, keyPrefix + DecimalString(id), now).value)
      && rep.strings == m && !rep.loaded
  {
  }

  /** A cached blank string, the null marker, yields null; the fallback is not called and nothing is written. */
  lemma PassThroughNullMarker<R>(m: Strings, keyPrefix: string, id: Long, codec: Codec<R>,
                                 dbFallback: Long -> Result<Option<R>>, time: Long, unit: TimeUnit, now: int)
    requires Lookup(m, keyPrefix + DecimalString(id), now).Some?
    requires IsBlankOrNull(Lookup(m, keyPrefix + DecimalString(id), now))
    ensures PassThrough(m, keyPrefix, id, codec, dbFallback, time, unit, now) == Reply(Success(None), m, false)
  {
  }

  /** On a miss the fallback is called once: a missing row caches "" for two minutes and yields null, a row is
      cached as JSON under the caller's lifetime and returned, and a fallback that throws writes nothing. */
  lemma PassThroughMiss<R>(m: Strings, keyPrefix: string, id: Long, codec: Codec<R>,
                           dbFallback: Long -> Result<Option<R>>, time: Long, unit: TimeUnit, now: int)
    requires Lookup(m, keyPrefix + DecimalString(id), now) == None
    ensures var key := keyPrefix + DecimalString(id);
      var rep := PassThrough(m, keyPrefix, id, codec, dbFallback, time, unit, now);
      && rep.loaded
      && (dbFallback(id).Failure? ==> rep.value == dbFallback(id) && rep.strings == m)
      && (dbFallback(id) == Success(None) ==>
            rep.value == Success(None) && rep.strings == m[key := Entry("", Some(now + CACHE_NULL_TTL * 60))])
      && (dbFallback(id).Success? && dbFallback(id).value.Some? ==>
            var r := dbFallback(id).value.value;
            var ttl := unit.ToSeconds(time);
            && (ValidTtl(ttl) ==> rep.value == Success(Some(r)) && rep.strings == m[key := Entry(codec.toJson(r), Some(now + ttl))])
            && (!ValidTtl(ttl) ==> rep.value == Failure(StoreRejected) && rep.strings == m))
  {
  }

  /** Passthrough writes at most its own cache key: every other key, the lock keys among them, keeps its entry. */
  lemma PassThroughFrame<R>(m: Strings, keyPrefix: string, id: Long, codec: Codec<R>,
                            dbFallback: Long -> Result<Option<R>>, time: Long, unit: TimeUnit, now: int, k: string)
    requires k != keyPrefix + DecimalString(id)
    ensures var rep := PassThrough(m, keyPrefix, id, codec, dbFallback, time, unit, now);
      (k in rep.strings <==> k in m) && (k in m ==> rep.strings[k] == m[k])
  {
  }

  /** A row the fallback supplied is served from the cache by the next query while its lifetime lasts. */
  lemma PassThroughServesWhatItCached<R(!new)>(m: Strings, keyPrefix: string, id: Long, codec: Codec<R>,
                                         dbFallback: Long -> Result<Option<R>>, time: Long, unit: TimeUnit,
                                         now: int, later: int)
    requires Faithful(codec)
    requires Lookup(m, keyPrefix + DecimalString(id), now) == None
    requires dbFallback(id).Success? && dbFallback(id).value.Some?
    requires ValidTtl(unit.ToSeconds(time)) && now <= later < now + unit.ToSeconds(time)
    ensures var first := PassThrough(m, keyPrefix, id, codec, dbFallback, time, unit, now);
      var second := PassThrough(first.strings, keyPrefix, id, codec, dbFallback, time, unit, later);
      first.value == dbFallback(id) && second == Reply(dbFallback(id), first.strings, false)
  {
    var r := dbFallback(id).value.value;
    assert !IsBlank(codec.toJson(r)) && codec.toBean(codec.toJson(r)) == Success(r);
  }

  /** A missing row is remembered: for two minutes the next query answers null without the fallback. */
  lemma PassThroughRemembersMissingRow<R>(m: Strings, keyPrefix: string, id: Long, codec: Codec<R>,
                                          dbFallback: Long -> Result<Option<R>>, time: Long, unit: TimeUnit,
                                          now: int, later: int)
    requires Lookup(m, keyPrefix + DecimalString(id), now) == None
    requires dbFallback(id) == Success(None)
    requires now <= later < now + CACHE_NULL_TTL * 60
    ensures var first := PassThrough(m, keyPrefix, id, codec, dbFallback, time, unit, now);
      var second := PassThrough(first.strings, keyPrefix, id, codec, dbFallback, time, unit, later);
      first.value == Success(None) && second == Reply(Success(None), first.strings, false)
  {
    var key := keyPrefix + DecimalString(id);
    var first := PassThrough(m, keyPrefix, id, codec, dbFallback, time, unit, now);
    assert Lookup(first.strings, key, later) == Some("");
  }

  /** One attempt of queryWithMutex: the clock reading it runs at, and what other clients do to the store while it
      sleeps after failing to take the lock. */
  datatype Attempt = Attempt(now: int, meanwhile: Strings -> Strings)

  /** queryWithMutex as written: the `finally` of an attempt that failed to take the lock runs after the retry has
      returned, and deletes the lock key all the same. The attempts bound the retries, which the source does not. */
  function MutexAsWritten<R>(m: Strings, keyPrefix: string, id: Long, codec: Codec<R>,
                             dbFallback: Long -> Result<Option<R>>, time: Long, unit: TimeUnit,
                             attempts: seq<Attempt>): Reply<R>
    decreases |attempts|
  {
    if attempts == [] then Reply(Failure(RetriesExhausted), m, false)
    else
      var now := attempts[0].now;
      var key := keyPrefix + DecimalString(id);
      var json := Lookup(m, key, now);
      if !IsBlankOrNull(json) then Reply(Read(codec, json.value), m, false)
      else if json.Some? then Reply(Success(None), m, false)
      else
        var lockKey := LOCK_SHOP_KEY + DecimalString(id);
        var (acquired, m1) := AcquireLock(m, lockKey, now);
        if !acquired then
          var retry := MutexAsWritten(attempts[0].meanwhile(m1), keyPrefix, id, codec, dbFallback, time, unit, attempts[1..]);
          Reply(retry.value, Del(retry.strings, lockKey), retry.loaded)
        else
          var filled := Fill(m1, key, id, codec, dbFallback, time, unit, now);
          Reply(filled.value, Del(filled.strings, lockKey), true)
  }

  /** queryWithMutex with the release confined to the attempt that took the lock. */
  function Mutex<R>(m: Strings, keyPrefix: string, id: Long, codec: Codec<R>,
                    dbFallback: Long -> Result<Option<R>>, time: Long, unit: TimeUnit,
                    attempts: seq<Attempt>): Reply<R>
    decreases |attempts|
  {
    if attempts == [] then Reply(Failure(RetriesExhausted), m, false)
    else
      var now := attempts[0].now;
      var key := keyPrefix + DecimalString(id);
      var json := Lookup(m, key, now);
      if !IsBlankOrNull(json) then Reply(Read(codec, json.value), m, false)
      else if json.Some? then Reply(Success(None), m, false)
      else
        var lockKey := LOCK_SHOP_KEY + DecimalString(id);
        var (acquired, m1) := AcquireLock(m, lockKey, now);
        if !acquired then
          Mutex(attempts[0].meanwhile(m1), keyPrefix, id, codec, dbFallback, time, unit, attempts[1..])
        else
          var filled := Fill(m1, key, id, codec, dbFallback, time, unit, now);
          Reply(filled.value, Del(filled.strings, lockKey), true)
  }

  /** A hit or a null marker at the first attempt is answered exactly as passthrough answers it. */
  lemma MutexCachedLikePassThrough<R>(m: Strings, keyPrefix: string, id: Long, codec: Codec<R>,
                                      dbFallback: Long -> Result<Option<R>>, time: Long, unit: TimeUnit,
                                      attempts: seq<Attempt>)
    requires attempts != [] && Lookup(m, keyPrefix + DecimalString(id), attempts[0].now).Some?
    ensures Mutex(m, keyPrefix, id, codec, dbFallback, time, unit, attempts)
         == PassThrough(m, keyPrefix, id, codec, dbFallback, time, unit, attempts[0].now)
    ensures MutexAsWritten(m, keyPrefix, id, codec, dbFallback, time, unit, attempts)
         == PassThrough(m, keyPrefix, id, codec, dbFallback, time, unit, attempts[0].now)
  {
  }

  /** With the lock free at a miss, the fallback is called once, its row or the marker is written as passthrough
      writes it (the cache is not read again after locking), and the lock key is gone afterwards. */
  lemma MutexAcquired<R>(m: Strings, keyPrefix: string, id: Long, codec: Codec<R>,
                         dbFallback: Long -> Result<Option<R>>, time: Long, unit: TimeUnit, attempts: seq<Attempt>)
    requires attempts != [] && keyPrefix != LOCK_SHOP_KEY
    requires Lookup(m, keyPrefix + DecimalString(id), attempts[0].now) == None
    requires Lookup(m, LOCK_SHOP_KEY + DecimalString(id), attempts[0].now) == None
    ensures var lockKey := LOCK_SHOP_KEY + DecimalString(id);
      var locked := m[lockKey := Entry(LOCK_VALUE, Some(attempts[0].now + LOCK_LEASE))];
      var filled := Fill(locked, keyPrefix + DecimalString(id), id, codec, dbFallback, time, unit, attempts[0].now);
      var rep := Mutex(m, keyPrefix, id, codec, dbFallback, time, unit, attempts);
      && rep == Reply(filled.value, Del(filled.strings, lockKey), true)
      && rep == MutexAsWritten(m, keyPrefix, id, codec, dbFallback, time, unit, attempts)
      && lockKey !in rep.strings
      && rep.value == PassThrough(m, keyPrefix, id, codec, dbFallback, time, unit, attempts[0].now).value
  {
    var now := attempts[0].now;
    var key := keyPrefix + DecimalString(id);
    var lockKey := LOCK_SHOP_KEY + DecimalString(id);
    var locked := m[lockKey := Entry(LOCK_VALUE, Some(now + LOCK_LEASE))];
    MutexLocks(m, keyPrefix, id, codec, dbFallback, time, unit, attempts);
    CacheAndLockKeysDifferAfterPrefix(keyPrefix, id);
    FillValueIgnoresOtherKeys(m, locked, key, id, codec, dbFallback, time, unit, now);
    assert PassThrough(m, keyPrefix, id, codec, dbFallback, time, unit, now) == Fill(m, key, id, codec, dbFallback, time, unit, now);
  }

  /** An attempt that misses the cache and takes the lock fills the cache and then deletes the lock, in both versions. */
  lemma MutexLocks<R>(m: Strings, keyPrefix: string, id: Long, codec: Codec<R>,
                      dbFallback: Long -> Result<Option<R>>, time: Long, unit: TimeUnit, attempts: seq<Attempt>)
    requires attempts != []
    requires Lookup(m, keyPrefix + DecimalString(id), attempts[0].now) == None
    requires Lookup(m, LOCK_SHOP_KEY + DecimalString(id), attempts[0].now) == None
    ensures var lockKey := LOCK_SHOP_KEY + DecimalString(id);
      var locked := m[lockKey := Entry(LOCK_VALUE, Some(attempts[0].now + LOCK_LEASE))];
      var filled := Fill(locked, keyPrefix + DecimalString(id), id, codec, dbFallback, time, unit, attempts[0].now);
      && Mutex(m, keyPrefix, id, codec, dbFallback, time, unit, attempts) == Reply(filled.value, Del(filled.strings, lockKey), true)
      && MutexAsWritten(m, keyPrefix, id, codec, dbFallback, time, unit, attempts) == Reply(filled.value, Del(filled.strings, lockKey), true)
  {
    var lockKey := LOCK_SHOP_KEY + DecimalString(id);
    TryLockSpec(m, lockKey, attempts[0].now);
    assert AcquireLock(m, lockKey, attempts[0].now) == (true, m[lockKey := Entry(LOCK_VALUE, Some(attempts[0].now + LOCK_LEASE))]);
    MutexStep(m, keyPrefix, id, codec, dbFallback, time, unit, attempts);
    MutexAsWrittenStep(m, keyPrefix, id, codec, dbFallback, time, unit, attempts);
  }

  /** One attempt of the corrected version after a miss, given what taking the lock did. */
  lemma MutexStep<R>(m: Strings, keyPrefix: string, id: Long, codec: Codec<R>,
                     dbFallback: Long -> Result<Option<R>>, time: Long, unit: TimeUnit, attempts: seq<Attempt>)
    requires attempts != [] && Lookup(m, keyPrefix + DecimalString(id), attempts[0].now) == None
    ensures var lockKey := LOCK_SHOP_KEY + DecimalString(id);
      var (acquired, m1) := AcquireLock(m, lockKey, attempts[0].now);
      acquired ==>
        var filled := Fill(m1, keyPrefix + DecimalString(id), id, codec, dbFallback, time, unit, attempts[0].now);
        Mutex(m, keyPrefix, id, codec, dbFallback, time, unit, attempts) == Reply(filled.value, Del(filled.strings, lockKey), true)
  {
  }

  /** One attempt of the version as written after a miss, given what taking the lock did. */
  lemma MutexAsWrittenStep<R>(m: Strings, keyPrefix: string, id: Long, codec: Codec<R>,
                              dbFallback: Long -> Result<Option<R>>, time: Long, unit: TimeUnit, attempts: seq<Attempt>)
    requires attempts != [] && Lookup(m, keyPrefix + DecimalString(id), attempts[0].now) == None
    ensures var lockKey := LOCK_SHOP_KEY + DecimalString(id);
      var (acquired, m1) := AcquireLock(m, lockKey, attempts[0].now);
      acquired ==>
        var filled := Fill(m1, keyPrefix + DecimalString(id), id, codec, dbFallback, time, unit, attempts[0].now);
        MutexAsWritten(m, keyPrefix, id, codec, dbFallback, time, unit, attempts) == Reply(filled.value, Del(filled.strings, lockKey), true)
  {
  }

  /** Fill writes its own key and no other. */
  lemma FillFrame<R>(m: Strings, key: string, id: Long, codec: Codec<R>, dbFallback: Long -> Result<Option<R>>,
                     time: Long, unit: TimeUnit, now: int, k: string)
    requires k != key
    ensures var filled := Fill(m, key, id, codec, dbFallback, time, unit, now);
      (k in filled.strings <==> k in m) && (k in m ==> filled.strings[k] == m[k])
  {
  }

  /** What Fill returns does not depend on the rest of the store. */
  lemma FillValueIgnoresOtherKeys<R>(m: Strings, m': Strings, key: string, id: Long, codec: Codec<R>,
                                     dbFallback: Long -> Result<Option<R>>, time: Long, unit: TimeUnit, now: int)
    ensures Fill(m, key, id, codec, dbFallback, time, unit, now).value == Fill(m', key, id, codec, dbFallback, time, unit, now).value
  {
  }

  /** The cache key and the lock key of one id are different keys whenever the caller's prefix is not "lock:shop:". */
  lemma CacheAndLockKeysDifferAfterPrefix(keyPrefix: string, id: Long)
    requires keyPrefix != LOCK_SHOP_KEY
    ensures keyPrefix + DecimalString(id) != LOCK_SHOP_KEY + DecimalString(id)
  {
    var d := DecimalString(id);
    if |keyPrefix| == |LOCK_SHOP_KEY| {
      assert keyPrefix == (keyPrefix + d)[..|keyPrefix|];
      assert LOCK_SHOP_KEY == (LOCK_SHOP_KEY + d)[..|keyPrefix|];
    }
  }

  /** Other clients leave the entry e under key k alone. */
  ghost predicate Keeps(f: Strings -> Strings, k: string, e: Entry) {
    forall s :: k in s && s[k] == e ==> k in f(s) && f(s)[k] == e
  }

  /** The corrected strategy never removes a lock it did not take: a lock another caller holds for the whole
      call, and that nobody else touches, is still there afterwards, and the fallback is not called. */
  lemma {:induction false} MutexKeepsForeignLock<R>(m: Strings, keyPrefix: string, id: Long, codec: Codec<R>,
                                                    dbFallback: Long -> Result<Option<R>>, time: Long,
                                                    unit: TimeUnit, attempts: seq<Attempt>, holder: Entry)
    requires var lockKey := LOCK_SHOP_KEY + DecimalString(id); lockKey in m && m[lockKey] == holder
    requires holder.expireAt.Some? && forall i :: 0 <= i < |attempts| ==> attempts[i].now < holder.expireAt.value
    requires forall i :: 0 <= i < |attempts| ==> Keeps(attempts[i].meanwhile, LOCK_SHOP_KEY + DecimalString(id), holder)
    ensures var rep := Mutex(m, keyPrefix, id, codec, dbFallback, time, unit, attempts);
      var lockKey := LOCK_SHOP_KEY + DecimalString(id);
      lockKey in rep.strings && rep.strings[lockKey] == holder && !rep.loaded
    decreases |attempts|
  {
    if attempts != [] {
      var lockKey := LOCK_SHOP_KEY + DecimalString(id);
      var now := attempts[0].now;
      var json := Lookup(m, keyPrefix + DecimalString(id), now);
      if json == None {
        assert Lookup(m, lockKey, now).Some?;
        TryLockSpec(m, lockKey, now);
        MutexRetries(m, keyPrefix, id, codec, dbFallback, time, unit, attempts);
        var next := attempts[0].meanwhile(m);
        assert Keeps(attempts[0].meanwhile, lockKey, holder);
        assert lockKey in next && next[lockKey] == holder;
        forall i | 0 <= i < |attempts[1..]|
          ensures attempts[1..][i].now < holder.expireAt.value
          ensures Keeps(attempts[1..][i].meanwhile, lockKey, holder)
        {
          assert attempts[1..][i] == attempts[i + 1];
        }
        MutexKeepsForeignLock(next, keyPrefix, id, codec, dbFallback, time, unit, attempts[1..], holder);
      }
    }
  }

  /** An attempt that misses the cache and finds the lock taken leaves the answer to the next attempt, on the store
      as other clients left it. */
  lemma MutexRetries<R>(m: Strings, keyPrefix: string, id: Long, codec: Codec<R>,
                        dbFallback: Long -> Result<Option<R>>, time: Long, unit: TimeUnit, attempts: seq<Attempt>)
    requires attempts != []
    requires Lookup(m, keyPrefix + DecimalString(id), attempts[0].now) == None
    requires Lookup(m, LOCK_SHOP_KEY + DecimalString(id), attempts[0].now).Some?
    ensures Mutex(m, keyPrefix, id, codec, dbFallback, time, unit, attempts)
         == Mutex(attempts[0].meanwhile(m), keyPrefix, id, codec, dbFallback, time, unit, attempts[1..])
    ensures var retry := MutexAsWritten(attempts[0].meanwhile(m), keyPrefix, id, codec, dbFallback, time, unit, attempts[1..]);
      MutexAsWritten(m, keyPrefix, id, codec, dbFallback, time, unit, attempts)
      == Reply(retry.value, Del(retry.strings, LOCK_SHOP_KEY + DecimalString(id)), retry.loaded)
  {
    TryLockSpec(m, LOCK_SHOP_KEY + DecimalString(id), attempts[0].now);
  }

  /** As written, every call that misses the cache at its first attempt ends with the lock key deleted, whoever
      holds it by then. */
  lemma {:induction false} MutexAsWrittenAlwaysClearsLock<R>(m: Strings, keyPrefix: string, id: Long, codec: Codec<R>,
                                                             dbFallback: Long -> Result<Option<R>>, time: Long,
                                                             unit: TimeUnit, attempts: seq<Attempt>)
    requires attempts != [] && Lookup(m, keyPrefix + DecimalString(id), attempts[0].now) == None
    ensures LOCK_SHOP_KEY + DecimalString(id) !in MutexAsWritten(m, keyPrefix, id, codec, dbFallback, time, unit, attempts).strings
  {
  }

  /** So, as written, a caller that never held the lock still deletes the one another caller holds: the same
      situation as MutexKeepsForeignLock, once the first attempt misses the cache. */
  lemma MutexAsWrittenDeletesForeignLock<R>(m: Strings, keyPrefix: string, id: Long, codec: Codec<R>,
                                            dbFallback: Long -> Result<Option<R>>, time: Long,
                                            unit: TimeUnit, attempts: seq<Attempt>, holder: Entry)
    requires var lockKey := LOCK_SHOP_KEY + DecimalString(id); lockKey in m && m[lockKey] == holder
    requires holder.expireAt.Some? && forall i :: 0 <= i < |attempts| ==> attempts[i].now < holder.expireAt.value
    requires forall i :: 0 <= i < |attempts| ==> Keeps(attempts[i].meanwhile, LOCK_SHOP_KEY + DecimalString(id), holder)
    requires attempts != [] && Lookup(m, keyPrefix + DecimalString(id), attempts[0].now) == None
    ensures var rep := MutexAsWritten(m, keyPrefix, id, codec, dbFallback, time, unit, attempts);
      LOCK_SHOP_KEY + DecimalString(id) !in rep.strings && !rep.loaded
  {
    MutexAsWrittenAlwaysClearsLock(m, keyPrefix, id, codec, dbFallback, time, unit, attempts);
    AsWrittenSameAnswer(m, keyPrefix, id, codec, dbFallback, time, unit, attempts);
    MutexKeepsForeignLock(m, keyPrefix, id, codec, dbFallback, time, unit, attempts, holder);
  }

  /** Both versions give the same answer and call the fallback alike; they differ only in the lock key. */
  lemma {:induction false} AsWrittenSameAnswer<R>(m: Strings, keyPrefix: string, id: Long, codec: Codec<R>,
                                                  dbFallback: Long -> Result<Option<R>>, time: Long,
                                                  unit: TimeUnit, attempts: seq<Attempt>)
    ensures var a := MutexAsWritten(m, keyPrefix, id, codec, dbFallback, time, unit, attempts);
      var c := Mutex(m, keyPrefix, id, codec, dbFallback, time, unit, attempts);
      var lockKey := LOCK_SHOP_KEY + DecimalString(id);
      && a.value == c.value && a.loaded == c.loaded
      && (a.strings == c.strings || a.strings == Del(c.strings, lockKey))
    decreases |attempts|
  {
    if attempts != [] {
      var lockKey := LOCK_SHOP_KEY + DecimalString(id);
      var (acquired, m1) := AcquireLock(m, lockKey, attempts[0].now);
      AsWrittenSameAnswer(attempts[0].meanwhile(m1), keyPrefix, id, codec, dbFallback, time, unit, attempts[1..]);
      var c := Mutex(attempts[0].meanwhile(m1), keyPrefix, id, codec, dbFallback, time, unit, attempts[1..]);
      assert Del(Del(c.strings, lockKey), lockKey) == Del(c.strings, lockKey);
    }
  }

  /** A rebuild submitted by the logical-expiry strategy: which key to refill and which lock to release, and the
      fallback with its codec, to be run when its turn in the queue comes. */
  datatype RebuildTask = RebuildTask(key: string, lockKey: string, id: Long, fetch: Long -> Result<Option<string>>,
                                     time: Long, unit: TimeUnit)

  /** What a rebuild task loads: the fallback's row as JSON, a missing row as null. */
  function Fetcher<R>(codec: Codec<R>, dbFallback: Long -> Result<Option<R>>): Long -> Result<Option<string>> {
    (id: Long) => match dbFallback(id)
          case Failure(e) => Failure(e)
          case Success(None) => Success(None)
          case Success(Some(r)) => Success(Some(codec.toJson(r)))
  }

  /** The envelope's payload read as an R: a null payload reads as null. */
  function Payload<R>(codec: Codec<R>, d: Envelope.RedisData): Result<Option<R>> {
    match d.data
    case None => Success(None)
    case Some(j) => Read(codec, j)
  }

  /** The outcome of a logical-expiry query: its value, the string keys afterwards and the rebuild it submitted. */
  datatype LogicalReply<R> = LogicalReply(value: Result<Option<R>>, strings: Strings, task: Option<RebuildTask>)

  /** queryWithLogicalExpire. */
  function LogicalExpire<R>(m: Strings, keyPrefix: string, id: Long, codec: Codec<R>,
                            dbFallback: Long -> Result<Option<R>>, time: Long, unit: TimeUnit, now: int)
    : LogicalReply<R>
  {
    var key := keyPrefix + DecimalString(id);
    var json := Lookup(m, key, now);
    if IsBlankOrNull(json) then LogicalReply(Success(None), m, None)
    else
      match Envelope.Decode(json.value)
      case Failure(e) => LogicalReply(Failure(e), m, None)
      case Success(d) =>
        var r := Payload(codec, d);
        if r.Failure? || now < d.expireTime then LogicalReply(r, m, None)
        else
          var lockKey := LOCK_SHOP_KEY + DecimalString(id);
          var (acquired, m1) := AcquireLock(m, lockKey, now);
          if acquired then LogicalReply(r, m1, Some(RebuildTask(key, lockKey, id, Fetcher(codec, dbFallback), time, unit)))
          else LogicalReply(r, m, None)
  }

  /** Running a rebuild task at time now: load, write a fresh envelope, and release the lock whether or not the
      load or the write threw. */
  function RunTask(m: Strings, t: RebuildTask, now: int): Strings {
    var written := match t.fetch(t.id)
                   case Failure(_) => m
                   case Success(data) => SetEnvelope(m, t.key, data, t.time, t.unit, now).1;
    Del(written, t.lockKey)
  }

  /** A key that is missing or blank (the null marker included) yields null: no lock, no write, no task. */
  lemma LogicalExpireUnwarmed<R>(m: Strings, keyPrefix: string, id: Long, codec: Codec<R>,
                                 dbFallback: Long -> Result<Option<R>>, time: Long, unit: TimeUnit, now: int)
    requires IsBlankOrNull(Lookup(m, keyPrefix + DecimalString(id), now))
    ensures LogicalExpire(m, keyPrefix, id, codec, dbFallback, time, unit, now) == LogicalReply(Success(None), m, None)
  {
  }

  /** An envelope whose expiry is still ahead yields its payload, with no lock attempt, no write and no task. */
  lemma LogicalExpireFresh<R>(m: Strings, keyPrefix: string, id: Long, codec: Codec<R>,
                              dbFallback: Long -> Result<Option<R>>, time: Long, unit: TimeUnit, now: int,
                              d: Envelope.RedisData)
    requires Lookup(m, keyPrefix + DecimalString(id), now) == Some(Envelope.Encode(d))
    requires now < d.expireTime
    ensures var rep := LogicalExpire(m, keyPrefix, id, codec, dbFallback, time, unit, now);
      && rep.value == Payload(codec, d)
      && rep.strings == m && rep.task == None
  {
    Envelope.DecodeEncode(d);
    Envelope.EncodeNotBlank(d);
  }

  /** A stale envelope still yields its old payload. A rebuild is submitted exactly when the lock was free, and the
      lock then holds "1" for ten seconds; otherwise nothing is written. */
  lemma LogicalExpireStale<R>(m: Strings, keyPrefix: string, id: Long, codec: Codec<R>,
                              dbFallback: Long -> Result<Option<R>>, time: Long, unit: TimeUnit, now: int,
                              d: Envelope.RedisData)
    requires Lookup(m, keyPrefix + DecimalString(id), now) == Some(Envelope.Encode(d))
    requires d.expireTime <= now
    requires Payload(codec, d).Success?
    ensures var rep := LogicalExpire(m, keyPrefix, id, codec, dbFallback, time, unit, now);
      var lockKey := LOCK_SHOP_KEY + DecimalString(id);
      && rep.value == Payload(codec, d)
      && (rep.task.Some? <==> Lookup(m, lockKey, now) == None)
      && (rep.task.Some? ==>
            && rep.strings == m[lockKey := Entry(LOCK_VALUE, Some(now + LOCK_LEASE))]
            && rep.task.value == RebuildTask(keyPrefix + DecimalString(id), lockKey, id, Fetcher(codec, dbFallback), time, unit))
      && (rep.task.None? ==> rep.strings == m)
  {
    Envelope.DecodeEncode(d);
    Envelope.EncodeNotBlank(d);
    var lockKey := LOCK_SHOP_KEY + DecimalString(id);
    var rep := LogicalExpire(m, keyPrefix, id, codec, dbFallback, time, unit, now);
    var (acquired, m1) := AcquireLock(m, lockKey, now);
    TryLockSpec(m, lockKey, now);
    if acquired {
      assert rep == LogicalReply(Payload(codec, d), m1,
                                 Some(RebuildTask(keyPrefix + DecimalString(id), lockKey, id, Fetcher(codec, dbFallback), time, unit)));
    } else {
      assert rep == LogicalReply(Payload(codec, d), m, None);
    }
  }

  /** A task writes an envelope expiring at now plus the lifetime, with no store lifetime, and always releases the
      lock; a fallback that throws changes nothing but the lock. */
  lemma RunTaskSpec(m: Strings, t: RebuildTask, now: int)
    requires t.key != t.lockKey
    ensures var m' := RunTask(m, t, now);
      && t.lockKey !in m'
      && (t.fetch(t.id).Failure? ==> m' == Del(m, t.lockKey))
      && (t.fetch(t.id).Success? && MIN_EPOCH_SECOND <= now + t.unit.ToSeconds(t.time) <= MAX_EPOCH_SECOND ==>
            && t.key in m' && m'[t.key].expireAt == None
            && Envelope.Decode(m'[t.key].value)
               == Success(Envelope.RedisData(now + t.unit.ToSeconds(t.time), t.fetch(t.id).value)))
  {
    if t.fetch(t.id).Success? && MIN_EPOCH_SECOND <= now + t.unit.ToSeconds(t.time) <= MAX_EPOCH_SECOND {
      SetEnvelopeWritesWhole(m, t.key, t.fetch(t.id).value, t.time, t.unit, now);
    }
  }

  /** After a rebuild, queries answer the fresh row until the new expiry, without a lock or another task. */
  lemma RebuildThenFresh<R(!new)>(m: Strings, keyPrefix: string, id: Long, codec: Codec<R>,
                            dbFallback: Long -> Result<Option<R>>, time: Long, unit: TimeUnit,
                            ran: int, later: int)
    requires Faithful(codec) && keyPrefix != LOCK_SHOP_KEY
    requires dbFallback(id).Success?
    requires MIN_EPOCH_SECOND <= ran + unit.ToSeconds(time) <= MAX_EPOCH_SECOND
    requires ran <= later < ran + unit.ToSeconds(time)
    ensures var t := RebuildTask(keyPrefix + DecimalString(id), LOCK_SHOP_KEY + DecimalString(id), id,
                                 Fetcher(codec, dbFallback), time, unit);
      var m' := RunTask(m, t, ran);
      var rep := LogicalExpire(m', keyPrefix, id, codec, dbFallback, time, unit, later);
      rep == LogicalReply(dbFallback(id), m', None)
  {
    var key := keyPrefix + DecimalString(id);
    var t := RebuildTask(key, LOCK_SHOP_KEY + DecimalString(id), id, Fetcher(codec, dbFallback), time, unit);
    CacheAndLockKeysDifferAfterPrefix(keyPrefix, id);
    RunTaskSpec(m, t, ran);
    var data := t.fetch(t.id).value;
    var d := Envelope.RedisData(ran + unit.ToSeconds(time), data);
    var m' := RunTask(m, t, ran);
    assert m'[key].value == Envelope.Encode(d) by {
      assert m' == Del(Put(m, key, Envelope.Encode(d)), t.lockKey);
    }
    assert Lookup(m', key, later) == Some(Envelope.Encode(d));
    LogicalExpireFresh(m', keyPrefix, id, codec, dbFallback, time, unit, later, d);
    if data.Some? {
      var r := dbFallback(id).value.value;
      assert codec.toBean(codec.toJson(r)) == Success(r);
      assert Payload(codec, d) == Success(Some(r));
    }
  }

  /** The cache client over the shared store, with the queue of rebuild tasks its executor has not run yet. */
  class CacheClient {
    const redis: Store
    var pending: seq<RebuildTask>
    ghost var loads: seq<Long>  // the ids the database fallbacks were called with, in order

    constructor (redis: Store)
      ensures this.redis == redis && pending == [] && loads == []
    {
      this.redis := redis;
      pending := [];
      loads := [];
    }

    method Set<R>(key: string, value: R, codec: Codec<R>, time: Long, unit: TimeUnit, now: int) returns (o: Outcome)
      modifies redis`strings
      ensures var (ok, m) := SetValue(old(redis.strings), key, value, codec, time, unit, now);
        o == (if ok then Pass else Fail(StoreRejected)) && redis.strings == m
    {
      var ok := redis.SetEx(key, codec.toJson(value), unit.ToSeconds(time), now);
      o := if ok then Pass else Fail(StoreRejected);
    }

    method SetWithLogicalExpire(key: string, data: Option<string>, time: Long, unit: TimeUnit, now: int) returns (o: Outcome)
      modifies redis`strings
      ensures var (ok, m) := SetEnvelope(old(redis.strings), key, data, time, unit, now);
        o == (if ok then Pass else Fail(DateOutOfRange)) && redis.strings == m
    {
      var expireTime := now + unit.ToSeconds(time);
      if expireTime < MIN_EPOCH_SECOND || MAX_EPOCH_SECOND < expireTime {
        o := Fail(DateOutOfRange);
        return;
      }
      redis.Set(key, Envelope.Encode(Envelope.RedisData(expireTime, data)));
      o := Pass;
    }

    method TryLock(key: string, now: int) returns (ok: bool)
      modifies redis`strings
      ensures (ok, redis.strings) == AcquireLock(old(redis.strings), key, now)
    {
      var flag := redis.SetIfAbsent(key, LOCK_VALUE, LOCK_LEASE, now);
      ok := flag == Some(true);
    }

    method Unlock(key: string)
      modifies redis`strings
      ensures redis.strings == Del(old(redis.strings), key)
    {
      redis.Delete(key);
    }

    /** The fallback call and cache write that passthrough and the mutex strategy share. */
    method FillFromDatabase<R>(key: string, id: Long, codec: Codec<R>, dbFallback: Long -> Result<Option<R>>,
                               time: Long, unit: TimeUnit, now: int) returns (r: Result<Option<R>>)
      modifies redis`strings, this`loads
      ensures var rep := Fill(old(redis.strings), key, id, codec, dbFallback, time, unit, now);
        r == rep.value && redis.strings == rep.strings && loads == old(loads) + [id]
    {
      loads := loads + [id];
      var row := dbFallback(id);
      match row
      case Failure(e) =>
        r := Failure(e);
      case Success(None) =>
        var ok := redis.SetEx(key, "", Minutes.ToSeconds(CACHE_NULL_TTL), now);
        r := if ok then Success(None) else Failure(StoreRejected);
      case Success(Some(v)) =>
        var o := Set(key, v, codec, time, unit, now);
        r := if o == Pass then Success(Some(v)) else Failure(StoreRejected);
    }

    method QueryWithPassThrough<R>(keyPrefix: string, id: Long, codec: Codec<R>, dbFallback: Long -> Result<Option<R>>,
                                   time: Long, unit: TimeUnit, now: int) returns (r: Result<Option<R>>)
      modifies redis`strings, this`loads
      ensures var rep := PassThrough(old(redis.strings), keyPrefix, id, codec, dbFallback, time, unit, now);
        r == rep.value && redis.strings == rep.strings && loads == old(loads) + (if rep.loaded then [id] else [])
    {
      var key := keyPrefix + DecimalString(id);
      var json := redis.Get(key, now);
      if !IsBlankOrNull(json) {
        r := Read(codec, json.value);
        return;
      }
      if json.Some? {
        r := Success(None);
        return;
      }
      r := FillFromDatabase(key, id, codec, dbFallback, time, unit, now);
    }

    /** queryWithMutex; the store changes other clients make while it sleeps are applied between attempts. */
    method QueryWithMutex<R>(keyPrefix: string, id: Long, codec: Codec<R>, dbFallback: Long -> Result<Option<R>>,
                             time: Long, unit: TimeUnit, attempts: seq<Attempt>) returns (r: Result<Option<R>>)
      modifies redis`strings, this`loads
      ensures var rep := Mutex(old(redis.strings), keyPrefix, id, codec, dbFallback, time, unit, attempts);
        r == rep.value && redis.strings == rep.strings && loads == old(loads) + (if rep.loaded then [id] else [])
      decreases |attempts|
    {
      if attempts == [] {
        r := Failure(RetriesExhausted);
        return;
      }
      var now := attempts[0].now;
      var key := keyPrefix + DecimalString(id);
      var json := redis.Get(key, now);
      if !IsBlankOrNull(json) {
        r := Read(codec, json.value);
        return;
      }
      if json.Some? {
        r := Success(None);
        return;
      }
      var lockKey := LOCK_SHOP_KEY + DecimalString(id);
      var isLock := TryLock(lockKey, now);
      if !isLock {
        redis.strings := attempts[0].meanwhile(redis.strings);
        r := QueryWithMutex(keyPrefix, id, codec, dbFallback, time, unit, attempts[1..]);
        return;
      }
      r := FillFromDatabase(key, id, codec, dbFallback, time, unit, now);
      Unlock(lockKey);
    }

    method QueryWithLogicalExpire<R>(keyPrefix: string, id: Long, codec: Codec<R>, dbFallback: Long -> Result<Option<R>>,
                                     time: Long, unit: TimeUnit, now: int) returns (r: Result<Option<R>>)
      modifies redis`strings, this`pending
      ensures var rep := LogicalExpire(old(redis.strings), keyPrefix, id, codec, dbFallback, time, unit, now);
        && r == rep.value && redis.strings == rep.strings
        && pending == old(pending) + (match rep.task case None => [] case Some(t) => [t])
    {
      var key := keyPrefix + DecimalString(id);
      var json := redis.Get(key, now);
      if IsBlankOrNull(json) {
        r := Success(None);
        return;
      }
      var envelope := Envelope.Decode(json.value);
      if envelope.Failure? {
        r := Failure(envelope.error);
        return;
      }
      var d := envelope.value;
      r := Payload(codec, d);
      if r.Failure? || now < d.expireTime {
        return;
      }
      var lockKey := LOCK_SHOP_KEY + DecimalString(id);
      var isLock := TryLock(lockKey, now);
      if isLock {
        pending := pending + [RebuildTask(key, lockKey, id, Fetcher(codec, dbFallback), time, unit)];
      }
    }

    /** The executor runs the i-th waiting task at time now; false when there is no such task. */
    method RunPendingTask(i: nat, now: int) returns (ran: bool)
      modifies redis`strings, this`pending, this`loads
      ensures ran == (i < |old(pending)|)
      ensures ran ==> && redis.strings == RunTask(old(redis.strings), old(pending)[i], now)
                      && pending == old(pending)[..i] + old(pending)[i + 1..]
                      && loads == old(loads) + [old(pending)[i].id]
      ensures !ran ==> redis.strings == old(redis.strings) && pending == old(pending) && loads == old(loads)
    {
      ran := i < |pending|;
      if !ran {
        return;
      }
      var t := pending[i];
      pending := pending[..i] + pending[i + 1..];
      loads := loads + [t.id];
      var row := t.fetch(t.id);
      if row.Success? {
        var _ := SetWithLogicalExpire(t.key, row.value, t.time, t.unit, now);
      }
      Unlock(t.lockKey);
    }
  }
}
