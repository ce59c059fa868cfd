/**
 * The bounded LRU + TTL result cache of py/gh_trending_analytics/cache.py.
 *
 * The source keeps an `OrderedDict[str, CacheEntry]`; here that is the pair
 * `order` (keys, least recently used first) and `data` (key to entry), kept in
 * step by `Valid()`. Wall-clock reads become an explicit integer `now`.
 */
module Cache {
  import opened Prelude

  /** Capacity and time-to-live a cache gets when none are passed. */
  const DefaultMaxSize: int := 1024
  const DefaultTtl: int := 300

  /** A stored value with its absolute expiry time. */
  datatype CacheEntry<V> = CacheEntry(value: V, expiresAt: int)

  /** A snapshot of every counter of `CacheStats`. */
  datatype Counters = Counters(
    hits: nat, misses: nat, sets: nat, evictions: nat, expirations: nat,
    prewarmSuccess: nat, prewarmFailure: nat)

  /** Cumulative usage counters; the cache bumps them one field at a time. */
  class CacheStats {
    var hits: nat
    var misses: nat
    var sets: nat
    var evictions: nat
    var expirations: nat
    var prewarmSuccess: nat
    var prewarmFailure: nat

    function View(): Counters
      reads this
    {
      Counters(hits, misses, sets, evictions, expirations, prewarmSuccess, prewarmFailure)
    }

    constructor ()
      ensures View() == Counters(0, 0, 0, 0, 0, 0, 0)
    {
      hits, misses, sets, evictions, expirations := 0, 0, 0, 0, 0;
      prewarmSuccess, prewarmFailure := 0, 0;
    }
  }

  /** `s` with `k` taken out; the other keys keep their relative order. */
  function Without(s: seq<string>, k: string): (r: seq<string>)
    ensures forall x :: x in r <==> x in s && x != k
    ensures NoDuplicates(s) ==> NoDuplicates(r)
    ensures k !in s ==> r == s
  {
    if s == [] then []
    else if s[0] == k then Without(s[1..], k)
    else
      var rest := Without(s[1..], k);
      assert NoDuplicates(s) ==> s[0] !in s[1..] && NoDuplicates(s[1..]);
      [s[0]] + rest
  }

  /** On a duplicate-free order, taking a key out is removing its one position. */
  lemma {:induction false} WithoutAt(s: seq<string>, i: nat)
    requires NoDuplicates(s) && i < |s|
    ensures Without(s, s[i]) == s[..i] + s[i + 1..]
  {
    if i == 0 {
      assert s[0] !in s[1..];
      assert s[1..] == s[..0] + s[1..];
    } else {
      assert s[1..][i - 1] == s[i];
      WithoutAt(s[1..], i - 1);
      assert s[1..][..i - 1] + s[1..][i..] == s[1..i] + s[i + 1..];
      assert s[..i] + s[i + 1..] == [s[0]] + (s[1..i] + s[i + 1..]);
    }
  }

  /** On a duplicate-free order, taking a key out shortens it by one exactly when the key is there. */
  lemma WithoutLength(s: seq<string>, k: string)
    requires NoDuplicates(s)
    ensures |Without(s, k)| == if k in s then |s| - 1 else |s|
  {
    if k in s {
      var i :| 0 <= i < |s| && s[i] == k;
      WithoutAt(s, i);
    }
  }

  /**
   * Overwriting a stored key keeps one occurrence of it, so the order `Set`
   * leaves behind is no longer than before.
   */
  lemma OverwriteKeepsSize(s: seq<string>, key: string, maxSize: int)
    requires NoDuplicates(s) && key in s
    ensures |Evicted(Without(s, key) + [key], maxSize)| <= |s|
  {
    WithoutLength(s, key);
    EvictedSuffix(Without(s, key) + [key], maxSize);
  }

  /** A map whose keys are exactly the entries of a duplicate-free order has its length. */
  lemma KeysCount<V>(s: seq<string>, m: map<string, V>)
    requires NoDuplicates(s)
    requires forall k :: k in m <==> k in s
    ensures |m| == |s|
  {
    assert m.Keys == set k | k in s;
    ElementsCount(s);
  }

  /** A duplicate-free sequence has as many distinct elements as positions. */
  lemma {:induction false} ElementsCount(s: seq<string>)
    requires NoDuplicates(s)
    ensures |set k | k in s| == |s|
  {
    if s != [] {
      assert s[0] !in s[1..];
      assert NoDuplicates(s[1..]) by {
        forall i, j | 0 <= i < j < |s| - 1 ensures s[1..][i] != s[1..][j] {
          assert s[1..][i] == s[i + 1] && s[1..][j] == s[j + 1];
        }
      }
      ElementsCount(s[1..]);
      assert (set k | k in s) == {s[0]} + set k | k in s[1..] by {
        assert s == [s[0]] + s[1..];
      }
    }
  }

  /** How many of `n` keys survive the eviction loop for capacity `maxSize`. */
  function Kept(n: nat, maxSize: int): (k: nat)
    ensures k <= n
    ensures maxSize >= 0 ==> k <= maxSize
  {
    if maxSize < 0 then 0 else Min(n, maxSize)
  }

  /**
   * The eviction loop on a recency order: while there are more keys than
   * `maxSize`, drop the least recent one. With a negative capacity the loop
   * runs the order empty.
   */
  function Evicted(s: seq<string>, maxSize: int): (r: seq<string>)
    ensures |r| <= |s|
    decreases |s|
  {
    if |s| <= maxSize || s == [] then s else Evicted(s[1..], maxSize)
  }

  /** Eviction keeps exactly the `Kept` most recent keys. */
  lemma {:induction false} EvictedSuffix(s: seq<string>, maxSize: int)
    ensures |Evicted(s, maxSize)| == Kept(|s|, maxSize)
    ensures Evicted(s, maxSize) == s[|s| - Kept(|s|, maxSize)..]
    decreases |s|
  {
    if |s| <= maxSize || s == [] {
    } else {
      EvictedSuffix(s[1..], maxSize);
      assert s[1..][|s| - 1 - Kept(|s| - 1, maxSize)..] == s[|s| - Kept(|s| - 1, maxSize)..];
    }
  }

  /**
   * After eviction the order fits a non-negative capacity, and with room for
   * at least one key the most recent key survives.
   */
  lemma EvictedKeepsNewest(s: seq<string>, maxSize: int)
    ensures maxSize >= 0 ==> |Evicted(s, maxSize)| <= maxSize
    ensures maxSize >= 1 && |s| > 0 ==>
      |Evicted(s, maxSize)| > 0 && Evicted(s, maxSize)[|Evicted(s, maxSize)| - 1] == s[|s| - 1]
  {
    EvictedSuffix(s, maxSize);
  }

  class ResultCache<V> {
    /** Keys from least to most recently used. */
    var order: seq<string>
    var data: map<string, CacheEntry<V>>
    const maxSize: int
    const defaultTtl: int
    const stats: CacheStats

    /** The order lists every stored key exactly once. */
    ghost predicate Valid()
      reads this
    {
      NoDuplicates(order) && (forall k :: k in data <==> k in order)
    }

    constructor (maxSize: int, defaultTtl: int)
      ensures Valid() && order == [] && data == map[]
      ensures this.maxSize == maxSize && this.defaultTtl == defaultTtl
      ensures fresh(stats) && stats.View() == Counters(0, 0, 0, 0, 0, 0, 0)
    {
      order, data := [], map[];
      this.maxSize, this.defaultTtl := maxSize, defaultTtl;
      stats := new CacheStats();
    }

    /**
     * Looks `key` up at time `now`. A live entry becomes the most recent one;
     * an entry whose deadline has passed is dropped and counted as a miss and
     * an expiration; an absent key is a miss.
     */
    method Get(key: string, now: int) returns (r: Option<V>)
      requires Valid()
      modifies this, stats
      ensures Valid()
      ensures key !in old(data) ==>
        && r == None && order == old(order) && data == old(data)
        && stats.View() == old(stats.View()).(misses := old(stats.misses) + 1)
      ensures key in old(data) && old(data)[key].expiresAt <= now ==>
        && r == None
        && order == Without(old(order), key) && data == old(data) - {key}
        && stats.View() == old(stats.View()).(
             misses := old(stats.misses) + 1, expirations := old(stats.expirations) + 1)
      ensures key in old(data) && now < old(data)[key].expiresAt ==>
        && r == Some(old(data)[key].value)
        && order == Without(old(order), key) + [key] && data == old(data)
        && stats.View() == old(stats.View()).(hits := old(stats.hits) + 1)
    {
      if key !in data {
        stats.misses := stats.misses + 1;
        return None;
      }
      var entry := data[key];
      if entry.expiresAt <= now {
        data := data - {key};
        order := Without(order, key);
        stats.misses := stats.misses + 1;
        stats.expirations := stats.expirations + 1;
        return None;
      }
      order := Without(order, key) + [key];
      stats.hits := stats.hits + 1;
      r := Some(entry.value);
    }

    /**
     * Stores `value` under `key` until `now` plus `ttl` (or the default), as
     * the most recent entry, then evicts from the least recent end. With a
     * negative capacity the eviction loop empties the store and then fails
     * (`ok` is false), as `popitem` on an empty `OrderedDict` does.
     */
    method Set(key: string, value: V, ttl: Option<int>, now: int) returns (ok: bool)
      requires Valid()
      modifies this, stats
      ensures Valid()
      ensures ok <==> maxSize >= 0
      ensures order == Evicted(Without(old(order), key) + [key], maxSize)
      ensures stats.View() == old(stats.View()).(
        sets := old(stats.sets) + 1,
        evictions := old(stats.evictions) + (|Without(old(order), key)| + 1 - |order|))
      ensures var entry := CacheEntry(value, now + (if ttl.Some? then ttl.value else defaultTtl));
        && (key in data ==> data[key] == entry)
        && (forall k :: k in data && k != key ==> k in old(data) && data[k] == old(data)[k])
    {
      var ttlValue := if ttl.None? then defaultTtl else ttl.value;
      var expiresAt := now + ttlValue;
      Store(key, CacheEntry(value, expiresAt));
      stats.sets := stats.sets + 1;
      ok := EvictIfNeeded();
    }

    /** Puts `entry` under `key`, replacing any earlier one, as the most recent key. */
    method Store(key: string, entry: CacheEntry<V>)
      requires Valid()
      modifies this
      ensures Valid()
      ensures order == Without(old(order), key) + [key]
      ensures forall k :: k in data && k != key ==> k in old(data) && data[k] == old(data)[k]
      ensures key in data && data[key] == entry
      ensures |order| == if key in old(data) then |old(order)| else |old(order)| + 1
    {
      WithoutLength(order, key);
      if key in data {
        data := data - {key};
        order := Without(order, key);
      }
      data := data[key := entry];
      order := order + [key];
    }

    /** Drops least recently used entries until the store fits `maxSize`. */
    method EvictIfNeeded() returns (ok: bool)
      requires Valid()
      modifies this, stats
      ensures Valid()
      ensures ok <==> maxSize >= 0
      ensures order == Evicted(old(order), maxSize)
      ensures forall k :: k in data ==> k in old(data) && data[k] == old(data)[k]
      ensures stats.View() == old(stats.View()).(
        evictions := old(stats.evictions) + (|old(order)| - |order|))
    {
      ghost var start := order;
      while |order| > maxSize
        invariant Valid()
        invariant |order| <= |start|
        invariant Evicted(order, maxSize) == Evicted(start, maxSize)
        invariant forall k :: k in data ==> k in old(data) && data[k] == old(data)[k]
        invariant stats.View() == old(stats.View()).(
          evictions := old(stats.evictions) + (|start| - |order|))
        decreases |order|
      {
        if order == [] {
          return false;
        }
        var oldest := order[0];
        assert oldest !in order[1..];
        order := order[1..];
        data := data - {oldest};
        stats.evictions := stats.evictions + 1;
      }
      ok := true;
    }

    /** Number of stored entries: the length of the recency order. */
    method Size() returns (n: nat)
      requires Valid()
      ensures n == |data| && n == |order|
    {
      KeysCount(order, data);
      n := |data|;
    }

    /** Empties the store; the counters are left as they are. */
    method Clear()
      requires Valid()
      modifies this
      ensures Valid() && order == [] && data == map[]
      ensures stats.View() == old(stats.View())
    {
      data := map[];
      order := [];
    }

    /** The stored keys, least recently used first. */
    method Keys() returns (ks: seq<string>)
      requires Valid()
      ensures ks == order
      ensures NoDuplicates(ks) && forall k :: k in ks <==> k in data
    {
      ks := order;
    }
  }

  /**
   * A cache built with the defaults (room for `DefaultMaxSize` entries living
   * `DefaultTtl` units) keeps the first value stored in it, until its default
   * lifetime has passed.
   */
  method DefaultCacheScenario() returns (ok: bool, size: nat, early: Option<string>, late: Option<string>)
    ensures ok && size == 1
    ensures early == Some("v") && late == None
  {
    var cache := new ResultCache<string>(DefaultMaxSize, DefaultTtl);
    assert Without([], "k") + ["k"] == ["k"];
    ok := cache.Set("k", "v", None, 0);
    assert cache.order == ["k"];
    size := cache.Size();
    early := cache.Get("k", DefaultTtl - 1);
    late := cache.Get("k", DefaultTtl);
  }

  /** A two-slot cache with a one-unit lifetime, after storing one value at time 0. */
  method StoredAlpha() returns (cache: ResultCache<int>)
    ensures fresh(cache) && fresh(cache.stats) && cache.Valid()
    ensures cache.order == ["alpha"] && "alpha" in cache.data
    ensures cache.data["alpha"].expiresAt == 1 && cache.stats.expirations == 0
  {
    cache := new ResultCache<int>(2, 1);
    assert Without([], "alpha") + ["alpha"] == ["alpha"];
    var ok := cache.Set("alpha", 1, None, 0);
    assert cache.order == ["alpha"];
    assert "alpha" in cache.data && cache.data["alpha"] == CacheEntry(1, 1);
    assert cache.stats.View().expirations == 0;
  }

  /**
   * A value stored with a one-unit lifetime is gone ten units later, and the
   * lookup counts one expiration.
   */
  method TtlExpiryScenario() returns (r: Option<int>, expirations: nat)
    ensures r == None && expirations == 1
  {
    var cache := StoredAlpha();
    r := cache.Get("alpha", 10);
    assert cache.stats.View().expirations == 1;
    expirations := cache.stats.expirations;
  }
}
