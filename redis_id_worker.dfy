/** RedisIdWorker: 64-bit ids made of the seconds since a fixed epoch in the high half and a per-day counter from
    the store in the low 32 bits. */
module Ids {
  import opened Wrappers
  import opened Numbers
  import opened Text
  import opened Redis

  /** 2022-01-01T00:00:00Z in seconds. */
  const BEGIN_TIMESTAMP: int := 1640995200
  const COUNT_BITS: nat := 32
  const TWO_32: int := 0x1_0000_0000

  /** Java's `<<` on a long: the low 64 bits of x * 2^k. */
  function ShiftLeft(x: Long, k: nat): Long {
    WrapLong(x * Pow2(k))
  }

  /** Java's `|` on longs: the bitwise or of the two's-complement bit patterns. */
  function Or(a: Long, b: Long): Long {
    WrapLong(BitOr(Unsigned(a), Unsigned(b)))
  }

  /** Java's `>>` on a long: the arithmetic shift, which rounds toward negative infinity. */
  function ShiftRight(x: Long, k: nat): int {
    x / Pow2(k)
  }

  /** Java's `x & (2^k - 1)`. */
  function LowBits(x: Long, k: nat): nat {
    BitAnd(Unsigned(x), Pow2(k) - 1)
  }

  /** The id of nextId: `timestamp << COUNT_BITS | count`. */
  function Compose(timestamp: Long, count: Long): Long {
    Or(ShiftLeft(timestamp, COUNT_BITS), count)
  }

  /** With a count that fits 32 bits, the id is the timestamp's low 32 bits (read as a signed int) times 2^32, plus
      the count. */
  lemma ComposeExact(timestamp: Long, count: Long)
    requires 0 <= count < TWO_32
    ensures Compose(timestamp, count) == WrapInt(timestamp) * TWO_32 + count
  {
    Pow2Of32();
    var a := timestamp % TWO_32;
    var shifted := WrapLong(timestamp * TWO_32);
    assert timestamp * TWO_32 == (timestamp / TWO_32) * 0x1_0000_0000_0000_0000 + a * TWO_32;
    ModOfDecomposition(timestamp * TWO_32, timestamp / TWO_32, a * TWO_32, 0x1_0000_0000_0000_0000);
    assert Unsigned(shifted) == a * TWO_32;
    BitOrOfDisjoint(a, count, 32);
    assert BitOr(Unsigned(shifted), Unsigned(count)) == a * TWO_32 + count;
  }

  /** Decomposition: the high half of an id gives back the timestamp (its low 32 bits), the low half the count. */
  lemma Decompose(timestamp: Long, count: Long)
    requires 0 <= count < TWO_32
    ensures ShiftRight(Compose(timestamp, count), 32) == WrapInt(timestamp)
    ensures LowBits(Compose(timestamp, count), 32) == count
    ensures 0 <= timestamp <= INT_MAX ==> ShiftRight(Compose(timestamp, count), 32) == timestamp
  {
    ComposeExact(timestamp, count);
    Pow2Of32();
    var w := WrapInt(timestamp);
    var id := Compose(timestamp, count);
    assert id == w * TWO_32 + count;
    ModOfDecomposition(id, w, count, TWO_32);
    assert id / TWO_32 == w;
    var u := Unsigned(id);
    if id < 0 {
      assert u == (w + 0x1_0000_0000) * TWO_32 + count;
      ModOfDecomposition(u, w + 0x1_0000_0000, count, TWO_32);
    } else {
      ModOfDecomposition(u, w, count, TWO_32);
    }
    BitAndMask(u, 32);
  }

  /** Within one day's counter, a later call never gets a smaller id: with non-decreasing timestamps inside the int
      range and counts rising below 2^32, ids strictly increase. */
  lemma ComposeIncreases(t1: Long, c1: Long, t2: Long, c2: Long)
    requires 0 <= t1 <= t2 <= INT_MAX
    requires 0 <= c1 < c2 < TWO_32
    ensures Compose(t1, c1) < Compose(t2, c2)
  {
    ComposeExact(t1, c1);
    ComposeExact(t2, c2);
  }

  /** The timestamp part: the seconds since 2022-01-01T00:00:00Z, in long arithmetic. */
  function Timestamp(nowSecond: Long): Long {
    WrapLong(nowSecond - BEGIN_TIMESTAMP)
  }

  /** A day as the pattern yyyy:MM:dd formats it: always ten characters. */
  type DayKey = s: string | |s| == 10 witness "2022:01:01"

  /** The counter key of a business prefix and a day. */
  function CounterKey(keyPrefix: string, date: DayKey): string {
    "icr:" + keyPrefix + ":" + date
  }

  /** Different prefixes, or different days, have different counters. */
  lemma CounterKeyInjective(p1: string, d1: DayKey, p2: string, d2: DayKey)
    ensures CounterKey(p1, d1) == CounterKey(p2, d2) <==> p1 == p2 && d1 == d2
  {
    if CounterKey(p1, d1) == CounterKey(p2, d2) {
      var k := CounterKey(p1, d1);
      assert |p1| == |p2|;
      assert p1 == k[4..4 + |p1|] && p2 == CounterKey(p2, d2)[4..4 + |p2|];
      assert d1 == k[|k| - 10..] && d2 == CounterKey(p2, d2)[|k| - 10..];
    }
  }

  /** The outcome of nextId: the id (or the exception of the store's INCR) and the string keys afterwards. */
  datatype IdReply = IdReply(id: Result<Long>, strings: Strings)

  /** nextId at the given second, for the given day. */
  function NextIdOn(m: Strings, keyPrefix: string, nowSecond: Long, date: DayKey): IdReply {
    match Incr(m, CounterKey(keyPrefix, date), nowSecond)
    case None => IdReply(Failure(StoreRejected), m)
    case Some((count, m')) => IdReply(Success(Compose(Timestamp(nowSecond), count)), m')
  }

  /** Each call adds one to its own counter and uses the new value; a fresh counter yields 1, and every other key,
      every other counter among them, keeps its entry. */
  lemma NextIdCounts(m: Strings, keyPrefix: string, nowSecond: Long, date: DayKey, n: Long)
    requires n < LONG_MAX
    requires var key := CounterKey(keyPrefix, date);
      Lookup(m, key, nowSecond) == Some(DecimalString(n)) || (n == 0 && Lookup(m, key, nowSecond) == None)
    ensures var rep := NextIdOn(m, keyPrefix, nowSecond, date);
      && rep.id == Success(Compose(Timestamp(nowSecond), n + 1))
      && Lookup(rep.strings, CounterKey(keyPrefix, date), nowSecond) == Some(DecimalString(n + 1))
      && (var key := CounterKey(keyPrefix, date);
          rep.strings[key] == Entry(DecimalString(n + 1), if Lookup(m, key, nowSecond).Some? then m[key].expireAt else None))
      && forall k :: k != CounterKey(keyPrefix, date) ==> (k in rep.strings <==> k in m) && (k in m ==> rep.strings[k] == m[k])
  {
    IncrCounts(m, CounterKey(keyPrefix, date), nowSecond, n);
  }

  /** Two successive calls for the same prefix and day, at non-decreasing seconds, give a strictly larger second
      id while the counter stays below 2^32 and the timestamps inside the int range. */
  lemma SuccessiveIdsIncrease(m: Strings, keyPrefix: string, s1: Long, s2: Long, date: DayKey, n: Long)
    requires BEGIN_TIMESTAMP <= s1 <= s2 <= BEGIN_TIMESTAMP + INT_MAX
    requires 0 <= n && n + 2 < TWO_32
    requires var key := CounterKey(keyPrefix, date);
      (Lookup(m, key, s1) == Some(DecimalString(n)) || (n == 0 && Lookup(m, key, s1) == None))
      && (key in m ==> m[key].expireAt == None)
    ensures var first := NextIdOn(m, keyPrefix, s1, date);
      var second := NextIdOn(first.strings, keyPrefix, s2, date);
      first.id.Success? && second.id.Success? && first.id.value < second.id.value
  {
    var first := NextIdOn(m, keyPrefix, s1, date);
    FirstCallLeavesCounter(m, keyPrefix, s1, s2, date, n);
    NextIdCounts(first.strings, keyPrefix, s2, date, n + 1);
    TimestampInRange(s1);
    TimestampInRange(s2);
    ComposeIncreases(Timestamp(s1), n + 1, Timestamp(s2), n + 2);
  }

  /** A call on a counter without expiry leaves it holding n + 1 for every later second. */
  lemma FirstCallLeavesCounter(m: Strings, keyPrefix: string, s1: Long, s2: Long, date: DayKey, n: Long)
    requires n < LONG_MAX
    requires var key := CounterKey(keyPrefix, date);
      (Lookup(m, key, s1) == Some(DecimalString(n)) || (n == 0 && Lookup(m, key, s1) == None))
      && (key in m ==> m[key].expireAt == None)
    ensures var first := NextIdOn(m, keyPrefix, s1, date);
      && first.id == Success(Compose(Timestamp(s1), n + 1))
      && Lookup(first.strings, CounterKey(keyPrefix, date), s2) == Some(DecimalString(n + 1))
  {
    NextIdCounts(m, keyPrefix, s1, date, n);
  }

  lemma TimestampInRange(s: Long)
    requires BEGIN_TIMESTAMP <= s <= BEGIN_TIMESTAMP + INT_MAX
    ensures Timestamp(s) == s - BEGIN_TIMESTAMP
  {
  }

  /** Counters of other prefixes or days are untouched by a call: they draw independently. */
  lemma CountersIndependent(m: Strings, keyPrefix: string, nowSecond: Long, date: DayKey, otherPrefix: string, otherDate: DayKey)
    requires keyPrefix != otherPrefix || date != otherDate
    ensures var rep := NextIdOn(m, keyPrefix, nowSecond, date);
      Lookup(rep.strings, CounterKey(otherPrefix, otherDate), nowSecond) == Lookup(m, CounterKey(otherPrefix, otherDate), nowSecond)
  {
    CounterKeyInjective(keyPrefix, date, otherPrefix, otherDate);
  }

  /** The id generator over the shared store. */
  class RedisIdWorker {
    const redis: Store

    constructor (redis: Store)
      ensures this.redis == redis
    {
      this.redis := redis;
    }

    /** nextId; the clock's second and the day it falls on come in as inputs. */
    method NextId(keyPrefix: string, nowSecond: Long, date: DayKey) returns (r: Result<Long>)
      modifies redis`strings
      ensures var rep := NextIdOn(old(redis.strings), keyPrefix, nowSecond, date);
        r == rep.id && redis.strings == rep.strings
    {
      var timestamp := WrapLong(nowSecond - BEGIN_TIMESTAMP);
      var count := redis.Increment("icr:" + keyPrefix + ":" + date, nowSecond);
      if count.None? {
        r := Failure(StoreRejected);
        return;
      }
      r := Success(Or(ShiftLeft(timestamp, COUNT_BITS), count.value));
    }
  }
}
