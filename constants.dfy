/** Key prefixes, lifetimes and page sizes shared by the components. RedisConstants and SystemConstants are not
    part of this model: the values below are the ones this model takes them to have. */
module Constants {
  const CACHE_NULL_TTL: int := 2          // minutes the null marker "" is kept
  const CACHE_SHOP_TTL: int := 30         // minutes a cached shop is kept
  const CACHE_SHOP_KEY: string := "cache:shop:"
  const LOCK_SHOP_KEY: string := "lock:shop:"
  const BLOG_LIKED_KEY: string := "blog:liked:"
  const FEED_KEY: string := "feed:"
  const SHOP_GEO_KEY: string := "shop:geo:"
  const DEFAULT_PAGE_SIZE: int := 5

  /** The two key families of the cache never share a key: a cache key and a lock key differ in their first letter. */
  lemma CacheAndLockKeysDiffer(a: string, b: string)
    ensures CACHE_SHOP_KEY + a != LOCK_SHOP_KEY + b
  {
    assert (CACHE_SHOP_KEY + a)[0] == 'c' && (LOCK_SHOP_KEY + b)[0] == 'l';
  }
}
