/** ShopServiceImpl: reading a shop through the cache, invalidating the cache on update, and the page of shops of
    a type nearest to a point. The geo search, the database queries and their answers come in as inputs. */
module Shops {
  import opened Wrappers
  import opened Numbers
  import opened Text
  import opened Redis
  import opened Constants
  import Cache

  const SHOP_MISSING: string := "店铺不存在！"
  const ID_MISSING: string := "店铺id不能为空"

  /** The cache key of a shop. */
  function ShopKey(id: Long): string {
    CACHE_SHOP_KEY + DecimalString(id)
  }

  // ---------------------------------------------------------------------------------------------------------
  // queryById

  /** queryById's answer to what the cache client returned: null is the failure "店铺不存在！". */
  function ShopAnswer<R>(v: Result<Option<R>>): Result<Response<R>> {
    match v
    case Failure(e) => Failure(e)
    case Success(None) => Success(Refused(SHOP_MISSING))
    case Success(Some(shop)) => Success(Ok(Some(shop)))
  }

  /** queryById as one step: passthrough with the shop key, 30 minutes, and getById as fallback. */
  function ById<R>(m: Strings, id: Long, codec: Cache.Codec<R>, getById: Long -> Result<Option<R>>, now: int)
    : Cache.Reply<R>
  {
    Cache.PassThrough(m, CACHE_SHOP_KEY, id, codec, getById, CACHE_SHOP_TTL, Minutes, now)
  }

  /** queryById fails with "店铺不存在！" exactly when the cache holds the null marker, or misses and the database
      has no such shop (which the cache then remembers); a cached shop is returned as it reads back, a shop from
      the database as it is. */
  lemma QueryByIdRefusesExactlyOnNull<R>(m: Strings, id: Long, codec: Cache.Codec<R>,
                                         getById: Long -> Result<Option<R>>, now: int)
    ensures var cached := Lookup(m, ShopKey(id), now);
      var r := ShopAnswer(ById(m, id, codec, getById, now).value);
      && (r == Success(Refused(SHOP_MISSING)) <==>
            (cached.Some? && IsBlank(cached.value)) || (cached.None? && getById(id) == Success(None)))
      && (cached.None? ==> match getById(id)
                           case Success(Some(shop)) => r == Success(Ok(Some(shop)))
                           case Failure(e) => r == Failure(e)
                           case Success(None) => true)
  {
    var key := ShopKey(id);
    var cached := Lookup(m, key, now);
    assert ValidTtl(Minutes.ToSeconds(CACHE_NULL_TTL));
    assert ValidTtl(Minutes.ToSeconds(CACHE_SHOP_TTL));
    if !IsBlankOrNull(cached) {
      var read := Cache.Read(codec, cached.value);
      assert read.Success? ==> read.value.Some?;
    }
  }

  // ---------------------------------------------------------------------------------------------------------
  // update

  /** After update deletes the key, the next passthrough read of the shop misses and goes to the database, at
      whatever time it comes. */
  lemma UpdateThenMiss<R>(m: Strings, id: Long, codec: Cache.Codec<R>, getById: Long -> Result<Option<R>>, now: int)
    ensures var m' := Del(m, ShopKey(id));
      && Lookup(m', ShopKey(id), now) == None
      && ById(m', id, codec, getById, now).loaded
      && ById(m', id, codec, getById, now)
           == Cache.Fill(m', ShopKey(id), id, codec, getById, CACHE_SHOP_TTL, Minutes, now)
  {
  }

  // ---------------------------------------------------------------------------------------------------------
  // queryShopByType

  /** The page window: from and end, in int arithmetic, for a page of DEFAULT_PAGE_SIZE. */
  function PageWindow(current: Int): (Int, Int) {
    (WrapInt(WrapInt(current - 1) * DEFAULT_PAGE_SIZE), WrapInt(current * DEFAULT_PAGE_SIZE))
  }

  /** end - from is always one page in int arithmetic, and for a page number whose end does not overflow the two
      are (current - 1) * 5 and current * 5. */
  lemma PageWindowSpec(current: Int)
    ensures var (from, end) := PageWindow(current);
      && WrapInt(end - from) == DEFAULT_PAGE_SIZE
      && (1 <= current <= INT_MAX / DEFAULT_PAGE_SIZE ==>
            from == (current - 1) * DEFAULT_PAGE_SIZE && end == current * DEFAULT_PAGE_SIZE)
      && (0 <= from && 0 < end ==> end - from == DEFAULT_PAGE_SIZE)
  {
    var n := 0x1_0000_0000;
    var (from, end) := PageWindow(current);
    var a := WrapInt(current - 1);
    var ka := (a - (current - 1)) / n;
    assert a - (current - 1) == ka * n;
    var kf := (from - a * DEFAULT_PAGE_SIZE) / n;
    assert from - a * DEFAULT_PAGE_SIZE == kf * n;
    var ke := (end - current * DEFAULT_PAGE_SIZE) / n;
    assert end - current * DEFAULT_PAGE_SIZE == ke * n;
    var k := ke - kf - DEFAULT_PAGE_SIZE * ka;
    assert end - from == DEFAULT_PAGE_SIZE + k * n;
    ModOfDecomposition(end - from, k, DEFAULT_PAGE_SIZE, n);
  }

  /** One result of the geo search: the member (a shop id as text) and its distance in metres. */
  datatype GeoHit = GeoHit(name: string, distance: real)

  /** The first count hits: the search's limit(count). */
  function Limit(hits: seq<GeoHit>, count: nat): seq<GeoHit> {
    if |hits| <= count then hits else hits[..count]
  }

  /** The hits the page covers, from the geo search's matches in order of distance (null for no answer).
      None is the early return of an empty list; limit(end) refuses an end that is not positive and skip(from) a
      negative from. */
  function PageHits(current: Int, nearby: Option<seq<GeoHit>>): Result<Option<seq<GeoHit>>> {
    var (from, end) := PageWindow(current);
    if end <= 0 then Failure(BadArgument)
    else if nearby.None? then Success(None)
    else
      var list := Limit(nearby.value, end);
      if |list| <= from then Success(None)
      else if from < 0 then Failure(BadArgument)
      else Success(Some(list[from..]))
  }

  /** For a page from 1 up, the page holds the matches ranked from to end - 1, one page at most, in the search's
      order; no answer, or no match that far, gives the empty list. Page 0, and the pages below it whose end
      does not wrap around, are refused. */
  lemma PageHitsSpec(current: Int, nearby: Option<seq<GeoHit>>)
    ensures var r := PageHits(current, nearby);
      var (from, end) := PageWindow(current);
      && (-(INT_MAX / DEFAULT_PAGE_SIZE) <= current <= 0 ==> r == Failure(BadArgument))
      && (1 <= current <= INT_MAX / DEFAULT_PAGE_SIZE ==>
            && (r == Success(None) <==> nearby.None? || |nearby.value| <= from)
            && (r.Success? && r.value.Some? ==>
                  && 0 < |r.value.value| <= DEFAULT_PAGE_SIZE
                  && |r.value.value| == (if |nearby.value| < end then |nearby.value| else end) - from
                  && forall i :: 0 <= i < |r.value.value| ==> r.value.value[i] == nearby.value[from + i]))
  {
    PageWindowSpec(current);
  }

  /** Page numbers far enough below zero wrap around to a window of a real page: -858993458 reads the entries
      from rank 1 to 5. */
  lemma NegativePageWraps()
    ensures PageWindow(-858993458) == (1, 6)
  {
  }

  function Names(hits: seq<GeoHit>): (r: seq<string>)
    ensures |r| == |hits| && forall i :: 0 <= i < |hits| ==> r[i] == hits[i].name
  {
    seq(|hits|, i requires 0 <= i < |hits| => hits[i].name)
  }

  /** distanceMap after the hits are put in turn: a later hit with the same name overwrites an earlier one. */
  function DistanceMap(hits: seq<GeoHit>): map<string, real>
    decreases |hits|
  {
    if hits == [] then map[]
    else DistanceMap(hits[..|hits| - 1])[hits[|hits| - 1].name := hits[|hits| - 1].distance]
  }

  /** The map holds exactly the names of the hits; with distinct names, as members of one geo set are, each name
      maps to its own hit's distance. */
  lemma {:induction false} DistanceMapSpec(hits: seq<GeoHit>)
    requires forall i, j :: 0 <= i < j < |hits| ==> hits[i].name != hits[j].name
    ensures DistanceMap(hits).Keys == set h | h in hits :: h.name
    ensures forall i :: 0 <= i < |hits| ==> DistanceMap(hits)[hits[i].name] == hits[i].distance
    decreases |hits|
  {
    if hits != [] {
      var front := hits[..|hits| - 1];
      DistanceMapSpec(front);
      assert hits == front + [hits[|hits| - 1]];
      forall i | 0 <= i < |hits| ensures DistanceMap(hits)[hits[i].name] == hits[i].distance {
        if i < |hits| - 1 {
          assert hits[i] == front[i];
        }
      }
    }
  }

  /** What the forEach over the page collects: the ids in order (Long.valueOf throws on a name that is not a
      number) and the distance of each name. */
  function Collected(hits: seq<GeoHit>): Result<(seq<Long>, map<string, real>)> {
    match ParseLongs(Names(hits))
    case None => Failure(BadNumber)
    case Some(ids) => Success((ids, DistanceMap(hits)))
  }

  /** The distance recorded for a row's id, looked up by its text; a null id or a missing entry throws. */
  function DistanceOf(distances: map<string, real>, id: Option<Long>): Option<real> {
    if id.Some? && DecimalString(id.value) in distances then Some(distances[DecimalString(id.value)]) else None
  }

  /** A shop row as the page query returns it; the loop sets its distance. */
  class Shop {
    const id: Option<Long>
    var distance: Option<real>

    constructor (id: Option<Long>)
      ensures this.id == id && distance == None
    {
      this.id := id;
      distance := None;
    }
  }

  class ShopService {
    const cache: Cache.CacheClient

    constructor (cache: Cache.CacheClient)
      ensures this.cache == cache
    {
      this.cache := cache;
    }

    method QueryById<R>(id: Long, codec: Cache.Codec<R>, getById: Long -> Result<Option<R>>, now: int)
      returns (r: Result<Response<R>>)
      modifies cache.redis`strings, cache`loads
      ensures var rep := ById(old(cache.redis.strings), id, codec, getById, now);
        && r == ShopAnswer(rep.value) && cache.redis.strings == rep.strings
        && cache.loads == old(cache.loads) + (if rep.loaded then [id] else [])
    {
      var shop := cache.QueryWithPassThrough(CACHE_SHOP_KEY, id, codec, getById, CACHE_SHOP_TTL, Minutes, now);
      if shop.Failure? {
        r := Failure(shop.error);
      } else if shop.value.None? {
        r := Success(Refused(SHOP_MISSING));
      } else {
        r := Success(Ok(shop.value));
      }
    }

    /** update: the row is written to the database (not modelled), then the cached copy dropped. */
    method Update(shop: Shop) returns (r: Response<()>)
      modifies cache.redis`strings
      ensures shop.id.None? ==> r == Refused(ID_MISSING) && cache.redis.strings == old(cache.redis.strings)
      ensures shop.id.Some? ==> r == Ok(None) && cache.redis.strings == Del(old(cache.redis.strings), ShopKey(shop.id.value))
    {
      var id := shop.id;
      if id.None? {
        r := Refused(ID_MISSING);
        return;
      }
      cache.redis.Delete(CACHE_SHOP_KEY + DecimalString(id.value));
      r := Ok(None);
    }

    /** The forEach over the page's hits. */
    method CollectHits(hits: seq<GeoHit>) returns (r: Result<(seq<Long>, map<string, real>)>)
      ensures r == Collected(hits)
    {
      var ids: seq<Long> := [];
      var distanceMap: map<string, real> := map[];
      var i := 0;
      while i < |hits|
        invariant 0 <= i <= |hits|
        invariant ParseLongs(Names(hits[..i])) == Some(ids)
        invariant distanceMap == DistanceMap(hits[..i])
      {
        assert Names(hits[..i + 1])[..i] == Names(hits[..i]);
        assert hits[..i + 1][..i] == hits[..i];
        var shopIdStr := hits[i].name;
        var id := ParseLong(shopIdStr);
        if id.None? {
          assert ParseLong(Names(hits)[i]).None?;
          r := Failure(BadNumber);
          return;
        }
        ids := ids + [id.value];
        distanceMap := distanceMap[shopIdStr := hits[i].distance];
        i := i + 1;
      }
      assert hits[..i] == hits;
      r := Success((ids, distanceMap));
    }

    /** The loop that gives each row the distance recorded for its id. It throws at the first row without one,
        after the rows before it got theirs. */
    method SetDistances(rows: seq<Shop>, distances: map<string, real>) returns (r: Outcome)
      modifies set s | s in rows
      ensures r == Pass <==> forall i :: 0 <= i < |rows| ==> DistanceOf(distances, rows[i].id).Some?
      ensures r == Pass ==> forall i :: 0 <= i < |rows| ==> rows[i].distance == DistanceOf(distances, rows[i].id)
      ensures r.Fail? ==> r.error == NullDereference
      ensures r.Fail? ==>
        exists k :: (0 <= k < |rows| && DistanceOf(distances, rows[k].id).None? &&
                     (forall i :: 0 <= i < k ==> DistanceOf(distances, rows[i].id).Some? &&
                                                 rows[i].distance == DistanceOf(distances, rows[i].id)) &&
                     (forall j :: k <= j < |rows| && rows[j] !in rows[..k] ==> rows[j].distance == old(rows[j].distance)))
    {
      var i := 0;
      while i < |rows|
        invariant 0 <= i <= |rows|
        invariant forall j :: 0 <= j < i ==> DistanceOf(distances, rows[j].id).Some?
        invariant forall j :: 0 <= j < i ==> rows[j].distance == DistanceOf(distances, rows[j].id)
        invariant forall j :: i <= j < |rows| && rows[j] !in rows[..i] ==> rows[j].distance == old(rows[j].distance)
      {
        var shop := rows[i];
        var d := DistanceOf(distances, shop.id);
        if d.None? {
          r := Fail(NullDereference);
          return;
        }
        shop.distance := d;
        i := i + 1;
      }
      r := Pass;
    }

    /** No row's distance changed: the paths that return before the loop over the rows. */
    twostate predicate RowsUntouched(rows: seq<Shop>)
      reads set s | s in rows
    {
      forall i :: 0 <= i < |rows| ==> rows[i].distance == old(rows[i].distance)
    }

    /** queryShopByType: page is the database's page of that type (used without coordinates), nearby the geo
        search's matches in order of distance (null for no answer), rows the database's answer for the ids. */
    method QueryShopByType(current: Int, x: Option<real>, y: Option<real>, page: seq<Shop>,
                           nearby: Option<seq<GeoHit>>, rows: seq<Shop>)
      returns (r: Result<Response<seq<Shop>>>)
      modifies set s | s in rows
      ensures x.None? || y.None? ==> r == Success(Ok(Some(page))) && RowsUntouched(rows)
      ensures x.Some? && y.Some? ==> match PageHits(current, nearby)
        case Failure(e) => r == Failure(e) && RowsUntouched(rows)
        case Success(None) => r == Success(Ok(Some([]))) && RowsUntouched(rows)
        case Success(Some(hits)) => match Collected(hits)
          case Failure(e) => r == Failure(e) && RowsUntouched(rows)
          case Success((_, distances)) =>
            if forall i :: 0 <= i < |rows| ==> DistanceOf(distances, rows[i].id).Some? then
              && r == Success(Ok(Some(rows)))
              && forall i :: 0 <= i < |rows| ==> rows[i].distance == DistanceOf(distances, rows[i].id)
            else r == Failure(NullDereference)
    {
      if x.None? || y.None? {
        r := Success(Ok(Some(page)));
        return;
      }
      var from := WrapInt(WrapInt(current - 1) * DEFAULT_PAGE_SIZE);
      var end := WrapInt(current * DEFAULT_PAGE_SIZE);
      if end <= 0 {
        r := Failure(BadArgument);
        return;
      }
      if nearby.None? {
        r := Success(Ok(Some([])));
        return;
      }
      var list := Limit(nearby.value, end);
      if |list| <= from {
        r := Success(Ok(Some([])));
        return;
      }
      if from < 0 {
        r := Failure(BadArgument);
        return;
      }
      var collected := CollectHits(list[from..]);
      if collected.Failure? {
        r := Failure(collected.error);
        return;
      }
      var (_, distanceMap) := collected.value;
      var outcome := SetDistances(rows, distanceMap);
      r := if outcome == Pass then Success(Ok(Some(rows))) else Failure(NullDereference);
    }
  }
}
