/** SimpleRedisLock: a named lock in the store whose value is the owner's token, so that only the owner releases it. */
module Locks {
  import opened Wrappers
  import opened Numbers
  import opened Text
  import opened Redis

  const KEY_PREFIX: string := "lock:"

  predicate IsHexDigit(c: char) {
    '0' <= c <= '9' || 'a' <= c <= 'f'
  }

  /** ID_PREFIX: a random UUID in its 32-hex-digit form followed by "-", drawn once per JVM. */
  predicate IsIdPrefix(p: string) {
    |p| == 33 && p[32] == '-' && forall i :: 0 <= i < 32 ==> IsHexDigit(p[i])
  }

  /** The key of the lock called name. */
  function LockKey(name: string): string {
    KEY_PREFIX + name
  }

  /** A thread's token: the JVM's prefix followed by the thread's id. */
  function Token(idPrefix: string, threadId: Long): string {
    idPrefix + DecimalString(threadId)
  }

  /** Distinct (JVM, thread) pairs have distinct tokens, tokens being read back into their two parts. */
  lemma TokenInjective(p1: string, t1: Long, p2: string, t2: Long)
    requires IsIdPrefix(p1) && IsIdPrefix(p2)
    ensures Token(p1, t1) == Token(p2, t2) <==> p1 == p2 && t1 == t2
  {
    if Token(p1, t1) == Token(p2, t2) {
      var s := Token(p1, t1);
      assert p1 == s[..33] && p2 == Token(p2, t2)[..33];
      assert DecimalString(t1) == s[33..] && DecimalString(t2) == Token(p2, t2)[33..];
      DecimalStringInjective(t1, t2);
    }
  }

  /** tryLock: SET lock:name token NX EX timeoutSec. An expiry the store refuses makes the call throw. */
  function TryLockOn(m: Strings, name: string, token: string, timeoutSec: Long, now: int): (Result<bool>, Strings) {
    match PutIfAbsent(m, LockKey(name), token, timeoutSec, now)
    case None => (Failure(StoreRejected), m)
    case Some((ok, m')) => (Success(ok), m')
  }

  /** unlock: the script that deletes lock:name only while it holds the caller's token. */
  function UnlockOn(m: Strings, name: string, token: string, now: int): Strings {
    DelIfEquals(m, LockKey(name), token, now).1
  }

  /** tryLock succeeds exactly when the lock is free (missing or past its lease); the key then holds the caller's
      token for timeoutSec seconds. A failed attempt changes nothing. */
  lemma TryLockSpec(m: Strings, name: string, token: string, timeoutSec: Long, now: int)
    ensures var (r, m') := TryLockOn(m, name, token, timeoutSec, now);
      && (!ValidTtl(timeoutSec) ==> r == Failure(StoreRejected) && m' == m)
      && (ValidTtl(timeoutSec) ==> r == Success(Lookup(m, LockKey(name), now) == None))
      && (r == Success(true) ==>
            && m' == m[LockKey(name) := Entry(token, Some(now + timeoutSec))]
            && forall t :: now <= t < now + timeoutSec ==> Lookup(m', LockKey(name), t) == Some(token))
      && (r != Success(true) ==> m' == m)
  {
  }

  /** While a lock is held, every tryLock fails and changes nothing, whoever makes it. */
  lemma TryLockExcludes(m: Strings, name: string, token: string, timeoutSec: Long, now: int)
    requires Lookup(m, LockKey(name), now).Some? && ValidTtl(timeoutSec)
    ensures TryLockOn(m, name, token, timeoutSec, now) == (Success(false), m)
  {
  }

  /** The owner's unlock removes the lock. */
  lemma UnlockByOwner(m: Strings, name: string, token: string, now: int)
    requires Lookup(m, LockKey(name), now) == Some(token)
    ensures UnlockOn(m, name, token, now) == m - {LockKey(name)}
  {
  }

  /** Anyone else's unlock, and an unlock of a lock that is gone (its lease over, say), changes nothing. */
  lemma UnlockByOther(m: Strings, name: string, token: string, now: int)
    requires Lookup(m, LockKey(name), now) != Some(token)
    ensures UnlockOn(m, name, token, now) == m
  {
  }

  /** After the owner's unlock, or once the lease has run out, another caller's tryLock succeeds. */
  lemma LockFreedForOthers(m: Strings, name: string, owner: string, other: string, timeoutSec: Long, now: int, later: int)
    requires ValidTtl(timeoutSec) && now <= later
    requires Lookup(m, LockKey(name), now) == Some(owner)
    ensures TryLockOn(UnlockOn(m, name, owner, now), name, other, timeoutSec, later).0 == Success(true)
    ensures m[LockKey(name)].expireAt.Some? && m[LockKey(name)].expireAt.value <= later ==>
              TryLockOn(m, name, other, timeoutSec, later).0 == Success(true)
  {
  }

  /** A sequence of calls other threads make against the lock. */
  datatype LockCall = Acquire(token: string, timeoutSec: Long, now: int) | Release(token: string, now: int)

  /** The lock's key space after the calls, one at a time. */
  function Replay(m: Strings, name: string, calls: seq<LockCall>): Strings
    decreases |calls|
  {
    if calls == [] then m
    else
      var m1 := match calls[0]
                case Acquire(t, ttl, now) => TryLockOn(m, name, t, ttl, now).1
                case Release(t, now) => UnlockOn(m, name, t, now);
      Replay(m1, name, calls[1..])
  }

  /** A non-owner can never remove someone else's lock: while its lease lasts, no sequence of tryLock and unlock
      calls by other tokens changes the owner's entry. */
  lemma {:induction false} HeldLockSurvivesOthers(m: Strings, name: string, calls: seq<LockCall>)
    requires LockKey(name) in m && m[LockKey(name)].expireAt.Some?
    requires forall i :: 0 <= i < |calls| ==>
               calls[i].token != m[LockKey(name)].value && calls[i].now < m[LockKey(name)].expireAt.value
    ensures var m' := Replay(m, name, calls); LockKey(name) in m' && m'[LockKey(name)] == m[LockKey(name)]
    decreases |calls|
  {
    if calls != [] {
      var key := LockKey(name);
      var c := calls[0];
      var m1 := match c
                case Acquire(t, ttl, now) => TryLockOn(m, name, t, ttl, now).1
                case Release(t, now) => UnlockOn(m, name, t, now);
      assert Lookup(m, key, c.now) == Some(m[key].value);
      assert key in m1 && m1[key] == m[key];
      forall i | 0 <= i < |calls[1..]|
        ensures calls[1..][i].token != m1[key].value && calls[1..][i].now < m1[key].expireAt.value
      {
        assert calls[1..][i] == calls[i + 1];
      }
      HeldLockSurvivesOthers(m1, name, calls[1..]);
    }
  }

  /** One lock object: its name, the store it lives in, and the prefix of the JVM it was created in. */
  class SimpleRedisLock {
    const name: string
    const redis: Store
    const idPrefix: string

    constructor (name: string, redis: Store, idPrefix: string)
      ensures this.name == name && this.redis == redis && this.idPrefix == idPrefix
    {
      this.name := name;
      this.redis := redis;
      this.idPrefix := idPrefix;
    }

    method TryLock(timeoutSec: Long, threadId: Long, now: int) returns (r: Result<bool>)
      modifies redis`strings
      ensures (r, redis.strings) == TryLockOn(old(redis.strings), name, Token(idPrefix, threadId), timeoutSec, now)
    {
      var flag := redis.SetIfAbsent(KEY_PREFIX + name, idPrefix + DecimalString(threadId), timeoutSec, now);
      r := if flag.None? then Failure(StoreRejected) else Success(flag == Some(true));
    }

    method Unlock(threadId: Long, now: int)
      modifies redis`strings
      ensures redis.strings == UnlockOn(old(redis.strings), name, Token(idPrefix, threadId), now)
    {
      var _ := redis.EvalDelIfEquals(KEY_PREFIX + name, idPrefix + DecimalString(threadId), now);
    }
  }
}
