/** The key-value store the layer talks to, as far as this layer uses it: string values with per-key expiry times
    and sorted sets. Time is a whole number of seconds supplied by the caller. */
module Redis {
  import opened Wrappers
  import opened Numbers
  import opened Text
  import SortedSet

  /** A string value and the second from which the store no longer has it (None: kept until deleted). */
  datatype Entry = Entry(value: string, expireAt: Option<int>)

  type Strings = map<string, Entry>

  /** java.util.concurrent.TimeUnit for the units of a second and above. */
  datatype TimeUnit = Seconds | Minutes | Hours | Days {
    function SecondsPer(): nat {
      match this
      case Seconds => 1
      case Minutes => 60
      case Hours => 3600
      case Days => 86400
    }

    /** TimeUnit.toSeconds: the exact product, saturated at the ends of the long range. */
    function ToSeconds(d: Long): (r: Long)
      ensures LONG_MIN <= d * SecondsPer() <= LONG_MAX ==> r == d * SecondsPer()
      ensures d * SecondsPer() > LONG_MAX ==> r == LONG_MAX
      ensures d * SecondsPer() < LONG_MIN ==> r == LONG_MIN
    {
      var k := SecondsPer();
      var over := LONG_MAX / k;
      if d > over then LONG_MAX
      else if d < -over then LONG_MIN
      else ScaleWithin(d, k, over); d * k
    }
  }

  /** A factor at most LONG_MAX / k in magnitude keeps its product with k inside the long range, and one beyond it does not. */
  lemma ScaleWithin(d: int, k: nat, over: int)
    requires 0 < k && over == LONG_MAX / k
    ensures -over <= d <= over ==> LONG_MIN <= d * k <= LONG_MAX
    ensures d > over ==> d * k > LONG_MAX
    ensures d < -over ==> d * k <= LONG_MIN
  {
    assert LONG_MAX == over * k + LONG_MAX % k;
    assert over * k <= LONG_MAX < (over + 1) * k;
    if -over <= d <= over {
      MultiplyMonotone(-over, d, k);
      MultiplyMonotone(d, over, k);
    } else if d > over {
      MultiplyMonotone(over + 1, d, k);
    } else {
      MultiplyMonotone(d, -(over + 1), k);
    }
  }

  lemma MultiplyMonotone(a: int, b: int, k: nat)
    requires a <= b
    ensures a * k <= b * k
  {
    assert b * k - a * k == (b - a) * k;
  }

  /** The expiry times the store accepts for SET ... EX: positive, and small enough to be counted in milliseconds. */
  predicate ValidTtl(ttl: int) {
    0 < ttl <= LONG_MAX / 1000
  }

  predicate Live(e: Entry, now: int) {
    e.expireAt.None? || now < e.expireAt.value
  }

  /** GET key: the value while the key is live, null otherwise. */
  function Lookup(m: Strings, key: string, now: int): Option<string> {
    if key in m && Live(m[key], now) then Some(m[key].value) else None
  }

  /** SET key value: a plain SET also drops any expiry the key had. */
  function Put(m: Strings, key: string, value: string): Strings {
    m[key := Entry(value, None)]
  }

  /** SET key value EX ttl: false is the store's error reply to an invalid ttl, which changes nothing. */
  function PutEx(m: Strings, key: string, value: string, ttl: int, now: int): (bool, Strings) {
    if !ValidTtl(ttl) then (false, m) else (true, m[key := Entry(value, Some(now + ttl))])
  }

  /** SET key value NX EX ttl: None is the error reply to an invalid ttl; otherwise whether the key was free
      (missing or expired) and so now holds value until now + ttl. */
  function PutIfAbsent(m: Strings, key: string, value: string, ttl: int, now: int): Option<(bool, Strings)> {
    if !ValidTtl(ttl) then None
    else if Lookup(m, key, now).Some? then Some((false, m))
    else Some((true, m[key := Entry(value, Some(now + ttl))]))
  }

  /** SET NX succeeds exactly on a free key, and a key it takes is not free again before the lease ends. */
  lemma PutIfAbsentExcludes(m: Strings, key: string, value: string, ttl: int, now: int, later: int, other: string, ttl2: int)
    requires ValidTtl(ttl) && ValidTtl(ttl2) && now <= later < now + ttl
    requires PutIfAbsent(m, key, value, ttl, now) == Some((true, m[key := Entry(value, Some(now + ttl))]))
    ensures Lookup(m, key, now) == None
    ensures var m1 := m[key := Entry(value, Some(now + ttl))];
      PutIfAbsent(m1, key, other, ttl2, later) == Some((false, m1))
  {
  }

  /** DEL key. */
  function Del(m: Strings, key: string): Strings {
    m - {key}
  }

  /** INCR key: None is the error reply (a live value that is not a canonical long, or one already at the maximum).
      A missing or expired key counts from 0; a live key keeps its expiry. */
  function Incr(m: Strings, key: string, now: int): Option<(Long, Strings)> {
    var live := Lookup(m, key, now).Some?;
    var current := if live then ParseCanonical(m[key].value) else Some(0);
    if current.None? || current.value == LONG_MAX then None
    else
      var n := current.value + 1;
      Some((n, m[key := Entry(DecimalString(n), if live then m[key].expireAt else None)]))
  }

  /** INCR on a counter the store holds as n yields n + 1, after which the store holds n + 1; no other key changes.
      A counter that does not exist yields 1. */
  lemma IncrCounts(m: Strings, key: string, now: int, n: Long)
    requires n < LONG_MAX
    requires Lookup(m, key, now) == Some(DecimalString(n)) || (n == 0 && Lookup(m, key, now) == None)
    ensures Incr(m, key, now).Some?
    ensures var (v, m') := Incr(m, key, now).value;
      && v == n + 1
      && Lookup(m', key, now) == Some(DecimalString(n + 1))
      && m'[key] == Entry(DecimalString(n + 1), if Lookup(m, key, now).Some? then m[key].expireAt else None)
      && forall k :: k != key ==> (k in m' <==> k in m) && (k in m ==> m'[k] == m[k])
  {
    if Lookup(m, key, now).Some? {
      ParseCanonicalIsInverse(m[key].value, n);
    }
  }

  /** The unlock script: delete key only when its live value equals token; the reply counts the deleted keys. */
  function DelIfEquals(m: Strings, key: string, token: string, now: int): (int, Strings) {
    if Lookup(m, key, now) == Some(token) then (1, m - {key}) else (0, m)
  }

  /** The sorted set stored under key (a missing key reads as the empty set). */
  function ZOf(zs: map<string, SortedSet.ZSet>, key: string): SortedSet.ZSet {
    if key in zs then zs[key] else []
  }

  /** ZREM: the store drops a sorted set that becomes empty. */
  function ZRemoved(zs: map<string, SortedSet.ZSet>, key: string, member: string): map<string, SortedSet.ZSet> {
    if key !in zs then zs
    else
      var z := SortedSet.Remove(zs[key], member);
      if z == [] then zs - {key} else zs[key := z]
  }

  /** Every stored sorted set is in Redis' order, with one score per member, and not empty. */
  ghost predicate ZSetsValid(zs: map<string, SortedSet.ZSet>) {
    forall k :: k in zs ==> SortedSet.Valid(zs[k]) && zs[k] != []
  }

  /** One store shared by every component: its string keys and its sorted sets. */
  class Store {
    var strings: Strings
    var zsets: map<string, SortedSet.ZSet>

    ghost predicate Valid()
      reads this
    {
      ZSetsValid(zsets)
    }

    constructor ()
      ensures strings == map[] && zsets == map[] && Valid()
    {
      strings := map[];
      zsets := map[];
    }

    method Get(key: string, now: int) returns (v: Option<string>)
      ensures v == Lookup(strings, key, now)
    {
      v := if key in strings && Live(strings[key], now) then Some(strings[key].value) else None;
    }

    method Set(key: string, value: string)
      modifies this`strings
      ensures strings == Put(old(strings), key, value)
    {
      strings := strings[key := Entry(value, None)];
    }

    method SetEx(key: string, value: string, ttl: int, now: int) returns (ok: bool)
      modifies this`strings
      ensures (ok, strings) == PutEx(old(strings), key, value, ttl, now)
    {
      ok := 0 < ttl <= LONG_MAX / 1000;
      if ok {
        strings := strings[key := Entry(value, Some(now + ttl))];
      }
    }

    method SetIfAbsent(key: string, value: string, ttl: int, now: int) returns (r: Option<bool>)
      modifies this`strings
      ensures match PutIfAbsent(old(strings), key, value, ttl, now)
              case None => r == None && strings == old(strings)
              case Some((ok, m)) => r == Some(ok) && strings == m
    {
      if !(0 < ttl <= LONG_MAX / 1000) {
        r := None;
      } else if key in strings && Live(strings[key], now) {
        r := Some(false);
      } else {
        strings := strings[key := Entry(value, Some(now + ttl))];
        r := Some(true);
      }
    }

    method Delete(key: string)
      modifies this`strings
      ensures strings == Del(old(strings), key)
    {
      strings := strings - {key};
    }

    method Increment(key: string, now: int) returns (r: Option<Long>)
      modifies this`strings
      ensures match Incr(old(strings), key, now)
              case None => r == None && strings == old(strings)
              case Some((n, m)) => r == Some(n) && strings == m
    {
      match Incr(strings, key, now)
      case None => r := None;
      case Some((n, m)) => r := Some(n); strings := m;
    }

    /** Runs the unlock script as one step. */
    method EvalDelIfEquals(key: string, token: string, now: int) returns (deleted: int)
      modifies this`strings
      ensures (deleted, strings) == DelIfEquals(old(strings), key, token, now)
    {
      var v := Get(key, now);
      if v == Some(token) {
        deleted := 1;
        strings := strings - {key};
      } else {
        deleted := 0;
      }
    }

    method ZScore(key: string, member: string) returns (s: Option<int>)
      ensures s == SortedSet.Score(ZOf(zsets, key), member)
    {
      s := SortedSet.Score(if key in zsets then zsets[key] else [], member);
    }

    method ZAdd(key: string, member: string, score: int)
      requires Valid()
      modifies this`zsets
      ensures Valid()
      ensures zsets == old(zsets)[key := SortedSet.Add(ZOf(old(zsets), key), member, score)]
    {
      SortedSet.AddSpec(ZOf(zsets, key), member, score);
      zsets := zsets[key := SortedSet.Add(ZOf(zsets, key), member, score)];
    }

    method ZRem(key: string, member: string)
      requires Valid()
      modifies this`zsets
      ensures Valid()
      ensures zsets == ZRemoved(old(zsets), key, member)
    {
      if key in zsets {
        SortedSet.RemoveSpec(zsets[key], member);
      }
      zsets := ZRemoved(zsets, key, member);
    }

    method ZRange(key: string, start: int, stop: int) returns (members: seq<string>)
      ensures members == SortedSet.Range(ZOf(zsets, key), start, stop)
    {
      members := SortedSet.Range(ZOf(zsets, key), start, stop);
    }

    method ZRevRangeByScoreWithScores(key: string, lo: int, hi: int, offset: int, count: int)
      returns (items: SortedSet.ZSet)
      ensures items == SortedSet.RevRangeByScore(ZOf(zsets, key), lo, hi, offset, count)
    {
      items := SortedSet.RevRangeByScore(ZOf(zsets, key), lo, hi, offset, count);
    }
  }
}
