/**
 * The cache in front of main memory: at most five entries kept in an
 * insertion-ordered map whose head is the next eviction victim, plus hit,
 * miss and access counters.
 *
 * The functions below say what each cache operation does to the ordered map;
 * the class `Cache` performs the operations in place and is proved against
 * them.
 */
module Caching {
  import opened LinkedMaps
  import opened Memory

  /** `MAX_CACHE_SIZE`: the number of entries the cache holds at most. */
  const MaxCacheSize: nat := 5

  /**
   * `evictLRU` on the map: the head of the order, the entry inserted or
   * refreshed longest ago, goes; every other entry stays, in order, with its
   * value.
   */
  function EvictEldest(m: LinkedMap): (r: LinkedMap)
    requires m.Valid() && m.Size() > 0
    ensures r.Valid()
    ensures r.keys == m.keys[1..]
    ensures m.keys[0] !in r.vals
    ensures forall x :: x in r.vals ==> r.vals[x] == m.vals[x]
  {
    WithoutAt(m.keys, m.keys[0], 0);
    Remove(m, m.keys[0])
  }

  /**
   * A hit on `k`: the entry is removed and put back, which moves `k` to the
   * tail of the order and keeps every value.
   */
  function Touch(m: LinkedMap, k: Key): (r: LinkedMap)
    requires m.Valid() && k in m.vals
    ensures r.Valid()
    ensures r.vals == m.vals
    ensures r.Size() == m.Size()
    ensures r.keys == Without(m.keys, k) + [k]
  {
    Put(Remove(m, k), k, m.vals[k])
  }

  /**
   * `storeData(k, v)` on the map: when the cache is full the head is evicted,
   * whether or not `k` is resident; then `k` is put with value `v`.
   */
  function Store(m: LinkedMap, k: Key, v: int): (r: LinkedMap)
    requires m.Valid()
    ensures r.Valid()
    ensures k in r.vals && r.vals[k] == v
    ensures m.Size() <= MaxCacheSize ==> r.Size() <= MaxCacheSize
  {
    var room := if m.Size() >= MaxCacheSize then EvictEldest(m) else m;
    Put(room, k, v)
  }

  /**
   * The effect of `getData(k)` on the map, given the value `fetched` main
   * memory yields on a miss: a hit refreshes `k`, a miss stores `fetched`.
   * Either way `k` ends up at the tail holding the value returned.
   */
  function Access(m: LinkedMap, k: Key, fetched: int): (r: LinkedMap)
    requires m.Valid()
    ensures r.Valid()
    ensures m.Size() <= MaxCacheSize ==> r.Size() <= MaxCacheSize
    ensures k in r.vals && r.vals[k] == if k in m.vals then m.vals[k] else fetched
    ensures r.keys != [] && r.keys[|r.keys| - 1] == k
  {
    if k in m.vals then
      Touch(m, k)
    else
      StoreOrder(m, k, fetched);
      Store(m, k, fetched)
  }

  /**
   * A hit on the key at index `i` cuts it out of the order and appends it;
   * the other keys keep their relative order and no value changes.
   */
  lemma TouchOrder(m: LinkedMap, k: Key, i: nat)
    requires m.Valid() && i < |m.keys| && m.keys[i] == k
    ensures Touch(m, k).keys == m.keys[..i] + m.keys[i + 1..] + [k]
    ensures Touch(m, k).vals == m.vals
  {
    WithoutAt(m.keys, k, i);
  }

  /** A hit on the key that is already the most recently used changes nothing. */
  lemma TouchFreshest(m: LinkedMap, k: Key)
    requires m.Valid() && m.keys != [] && m.keys[|m.keys| - 1] == k
    ensures Touch(m, k) == m
  {
    var n := |m.keys| - 1;
    TouchOrder(m, k, n);
    assert m.keys[n + 1..] == [];
    assert m.keys[..n] + [m.keys[n]] == m.keys;
    assert Touch(m, k).keys == m.keys;
  }

  /**
   * The order after `storeData(k, v)`: the survivors of the size-triggered
   * eviction keep their order; `k` is appended if it is not among them and
   * otherwise stays where it was. The values are those of the survivors with
   * `k` overwritten by `v`.
   */
  lemma StoreOrder(m: LinkedMap, k: Key, v: int)
    requires m.Valid()
    ensures var kept := if m.Size() >= MaxCacheSize then m.keys[1..] else m.keys;
            Store(m, k, v).keys == if k in kept then kept else kept + [k]
    ensures var left := if m.Size() >= MaxCacheSize then m.vals - {m.keys[0]} else m.vals;
            Store(m, k, v).vals == left[k := v]
  {
    if m.Size() >= MaxCacheSize {
      var room := EvictEldest(m);
      assert room.vals == m.vals - {m.keys[0]};
    }
  }

  /**
   * Eviction is triggered by size alone: storing a resident key other than the
   * head into a full cache still evicts the head, so the cache shrinks by one.
   */
  lemma StoreResidentIntoFullCacheShrinks(m: LinkedMap, k: Key, v: int)
    requires m.Valid() && m.Size() == MaxCacheSize
    requires k in m.vals && k != m.keys[0]
    ensures m.keys[0] !in Store(m, k, v).vals
    ensures Store(m, k, v).Size() == MaxCacheSize - 1
  {
    StoreOrder(m, k, v);
    assert k in m.keys[1..] by {
      var i :| 0 <= i < |m.keys| && m.keys[i] == k;
      assert m.keys[1..][i - 1] == k;
    }
  }

  /**
   * Storing the head key into a full cache evicts it and then puts it back,
   * so it moves from the head to the tail with its new value.
   */
  lemma StoreHeadIntoFullCacheMovesToTail(m: LinkedMap, v: int)
    requires m.Valid() && m.Size() == MaxCacheSize
    ensures Store(m, m.keys[0], v).keys == m.keys[1..] + [m.keys[0]]
    ensures Store(m, m.keys[0], v).vals == m.vals[m.keys[0] := v]
  {
    StoreOrder(m, m.keys[0], v);
    assert m.keys[0] !in m.keys[1..] by {
      forall j | 0 <= j < |m.keys| - 1 ensures m.keys[1..][j] != m.keys[0] {
        assert m.keys[1..][j] == m.keys[j + 1];
      }
    }
    assert (m.vals - {m.keys[0]})[m.keys[0] := v] == m.vals[m.keys[0] := v];
  }

  /** A miss on a cache with room appends the key at the tail; nothing is evicted. */
  lemma MissAppends(m: LinkedMap, k: Key, fetched: int)
    requires m.Valid() && k !in m.vals && m.Size() < MaxCacheSize
    ensures Access(m, k, fetched).keys == m.keys + [k]
    ensures Access(m, k, fetched).vals == m.vals[k := fetched]
  {
    StoreOrder(m, k, fetched);
  }

  /**
   * A miss on a full cache evicts the head, the least recently inserted or
   * refreshed key, and appends the new key at the tail.
   */
  lemma MissOnFullEvictsHead(m: LinkedMap, k: Key, fetched: int)
    requires m.Valid() && k !in m.vals && m.Size() == MaxCacheSize
    ensures Access(m, k, fetched).keys == m.keys[1..] + [k]
    ensures Access(m, k, fetched).vals == (m.vals - {m.keys[0]})[k := fetched]
    ensures m.keys[0] !in Access(m, k, fetched).vals
  {
    StoreOrder(m, k, fetched);
  }

  /**
   * Two `getData(k)` calls in a row: the second is a hit, returns the value
   * the first returned, and leaves the map as the first left it.
   */
  lemma RepeatedAccessIsHit(m: LinkedMap, k: Key, fetched: int, fetchedAgain: int)
    requires m.Valid()
    ensures k in Access(m, k, fetched).vals
    ensures Access(Access(m, k, fetched), k, fetchedAgain) == Access(m, k, fetched)
  {
    TouchFreshest(Access(m, k, fetched), k);
  }

  /**
   * The map after `getData` of each key of `ks` in turn, where `vs[i]` is
   * what main memory yields for `ks[i]` should that access miss.
   */
  function AccessAll(m: LinkedMap, ks: seq<Key>, vs: seq<int>): (r: LinkedMap)
    requires m.Valid() && |vs| == |ks|
    ensures r.Valid()
    ensures m.Size() <= MaxCacheSize ==> r.Size() <= MaxCacheSize
    decreases |ks|
  {
    if ks == [] then m
    else
      var n := |ks| - 1;
      Access(AccessAll(m, ks[..n], vs[..n]), ks[n], vs[n])
  }

  /** A prefix of a duplicate-free order is duplicate-free and omits the next key. */
  lemma NoDupPrefix(s: seq<Key>, n: nat)
    requires NoDup(s) && n < |s|
    ensures NoDup(s[..n]) && s[n] !in s[..n]
  {
    forall i, j | 0 <= i < j < n ensures s[..n][i] != s[..n][j] {
      assert s[..n][i] == s[i] && s[..n][j] == s[j];
    }
    forall i | 0 <= i < n ensures s[..n][i] != s[n] {
      assert s[..n][i] == s[i];
    }
  }

  /** Dropping the head of all but the last key, then appending the last, drops the head. */
  lemma SlideByOne(s: seq<Key>)
    requires |s| > 1
    ensures s[..|s| - 1][1..] + [s[|s| - 1]] == s[1..]
  {
    var n := |s| - 1;
    assert s[..n][1..] == s[1..n];
    assert s[1..] == s[1..n] + [s[n]];
  }

  /**
   * Starting empty, `getData` of up to five distinct keys misses every time
   * and leaves them resident in access order.
   */
  lemma {:induction false} FillFromEmpty(ks: seq<Key>, vs: seq<int>)
    requires NoDup(ks) && |ks| <= MaxCacheSize && |vs| == |ks|
    ensures AccessAll(Empty(), ks, vs).keys == ks
  {
    if ks != [] {
      var n := |ks| - 1;
      NoDupPrefix(ks, n);
      FillFromEmpty(ks[..n], vs[..n]);
      var before := AccessAll(Empty(), ks[..n], vs[..n]);
      MissAppends(before, ks[n], vs[n]);
      assert ks[..n] + [ks[n]] == ks;
    }
  }

  /**
   * With five distinct keys resident in access order, a miss on a sixth
   * evicts the first, so a later `getData` of the first key misses.
   */
  lemma EvictionScenario(ks: seq<Key>, vs: seq<int>)
    requires |ks| == MaxCacheSize + 1 && NoDup(ks) && |vs| == |ks|
    ensures AccessAll(Empty(), ks, vs).keys == ks[1..]
    ensures ks[0] !in AccessAll(Empty(), ks, vs).vals
  {
    var n := |ks| - 1;
    NoDupPrefix(ks, n);
    FillFromEmpty(ks[..n], vs[..n]);
    var full := AccessAll(Empty(), ks[..n], vs[..n]);
    assert full.keys[0] == ks[0];
    MissOnFullEvictsHead(full, ks[n], vs[n]);
    var last := Access(full, ks[n], vs[n]);
    assert AccessAll(Empty(), ks, vs) == last;
    SlideByOne(ks);
  }

  class Cache {
    /** `cacheMap`: the resident entries in insertion order, head first. */
    var cacheMap: LinkedMap
    /** The main memory this cache fetches from on a miss. */
    const mainMemory: MainMemory
    var hitCount: nat
    var missCount: nat
    var totalAccesses: nat

    /**
     * The cache invariant: the order lists the resident keys once each, at
     * most `MaxCacheSize` entries are resident, and every access was counted
     * as exactly one hit or one miss.
     */
    ghost predicate Valid()
      reads this, mainMemory
    {
      cacheMap.Valid() && cacheMap.Size() <= MaxCacheSize &&
      hitCount + missCount == totalAccesses &&
      mainMemory.Valid()
    }

    /** An empty cache with zeroed counters over a freshly seeded main memory. */
    constructor ()
      ensures Valid() && fresh(mainMemory)
      ensures cacheMap == Empty()
      ensures hitCount == 0 && missCount == 0 && totalAccesses == 0
      ensures forall k :: k in mainMemory.memoryMap <==> k in InitialKeys
    {
      cacheMap := Empty();
      mainMemory := new MainMemory();
      hitCount, missCount, totalAccesses := 0, 0, 0;
    }

    /**
     * Looks `key` up. A hit returns the resident value and moves `key` to the
     * tail; a miss returns what main memory yields for `key` and stores it.
     */
    method GetData(key: Key) returns (value: int)
      requires Valid()
      modifies this, mainMemory
      ensures Valid()
      ensures cacheMap == Access(old(cacheMap), key, value)
      ensures totalAccesses == old(totalAccesses) + 1
      ensures old(key in cacheMap.vals) ==>
        && value == old(cacheMap.vals[key])
        && hitCount == old(hitCount) + 1 && missCount == old(missCount)
        && mainMemory.memoryMap == old(mainMemory.memoryMap)
      ensures old(key !in cacheMap.vals) ==>
        && hitCount == old(hitCount) && missCount == old(missCount) + 1
        && InValueRange(value)
        && (key in old(mainMemory.memoryMap) ==> value == old(mainMemory.memoryMap[key]))
        && mainMemory.memoryMap == old(mainMemory.memoryMap)[key := value]
      ensures key in cacheMap.vals && cacheMap.vals[key] == value
    {
      totalAccesses := totalAccesses + 1;
      if key in cacheMap.vals {
        hitCount := hitCount + 1;
        value := cacheMap.vals[key];
        // move to the tail: remove, then put back
        cacheMap := Remove(cacheMap, key);
        cacheMap := Put(cacheMap, key, value);
      } else {
        missCount := missCount + 1;
        value := mainMemory.GetData(key);
        StoreData(key, value);
      }
    }

    /**
     * Stores `value` under `key`, evicting the head first whenever the cache
     * is full; the counters do not change.
     */
    method StoreData(key: Key, value: int)
      requires Valid()
      modifies this`cacheMap
      ensures Valid()
      ensures cacheMap == Store(old(cacheMap), key, value)
    {
      if cacheMap.Size() >= MaxCacheSize {
        EvictLRU();
      }
      cacheMap := Put(cacheMap, key, value);
    }

    /** Removes the first key of the order, and only that entry. */
    method EvictLRU()
      requires cacheMap.Valid() && cacheMap.Size() > 0
      modifies this`cacheMap
      ensures cacheMap == EvictEldest(old(cacheMap))
    {
      var firstKey := cacheMap.keys[0];
      cacheMap := Remove(cacheMap, firstKey);
    }

    /** The number of accesses, which is the number of hits plus misses. */
    function GetTotalAccesses(): (n: nat)
      reads this, mainMemory
      ensures Valid() ==> n == hitCount + missCount
    {
      totalAccesses
    }

    /** The number of resident entries, never more than `MaxCacheSize`. */
    function GetSize(): (n: nat)
      reads this, mainMemory
      ensures Valid() ==> n == |cacheMap.vals| && n <= MaxCacheSize
    {
      assert Valid() ==> cacheMap.Size() == |cacheMap.vals| by {
        if Valid() {
          SizeIsEntryCount(cacheMap);
        }
      }
      cacheMap.Size()
    }
  }

  /**
   * A caller that reads the same key twice: the second read is a hit and
   * returns the first read's value.
   */
  method ReadTwice(c: Cache, key: Key) returns (first: int, second: int)
    requires c.Valid()
    modifies c, c.mainMemory
    ensures c.Valid()
    ensures second == first
    ensures c.hitCount == old(c.hitCount) + (if old(key in c.cacheMap.vals) then 2 else 1)
    ensures c.totalAccesses == old(c.totalAccesses) + 2
  {
    first := c.GetData(key);
    second := c.GetData(key);
  }
}
