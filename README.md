# CpuSimulation cache, modelled in Dafny

This project models the memory side of the CpuSimulation program: a cache of
at most five entries in front of an unbounded main memory. The cache keeps a
`LinkedHashMap` in insertion order together with hit, miss and access counters.
Main memory is a `HashMap` seeded with the keys "A" to "H". It makes up a value
in 1..100 for any key the first time that key is read.

Files:

- `linked_map.dfy` (module `LinkedMaps`): the part of `java.util.LinkedHashMap`
  that the cache relies on. It is an ordered key sequence plus a key-to-value
  map. `remove` cuts a key out of the order. `put` appends a new key at the
  tail and overwrites a present key without moving it.
- `memory.dfy` (module `Memory`): class `MainMemory`, with the seeding loop and
  the lazy insertion on read.
- `cache.dfy` (module `Caching`): functions that say what a hit, a store, an
  eviction and a whole `getData` do to the ordered map, with lemmas about them.
  Class `Cache` runs these operations in place on its fields and is proved
  against those functions.

Each memory or cache "block" is a `LinkedList<Integer>` that always holds
exactly one element, so the model stores a plain `int` instead.

Where the code differs from a textbook LRU cache, the model follows the code:

- `storeData` evicts the head whenever the map already holds five entries,
  even when the key being stored is resident (Main.java:195-197). Storing a
  resident key other than the head into a full cache therefore shrinks it to
  four entries (`StoreResidentIntoFullCacheShrinks`). A textbook LRU cache
  would evict only for a new key.
- `put` of a resident key overwrites its value but keeps its place in the
  order, because the map uses insertion order (Main.java:201). Only the hit
  path's remove-then-put, and `storeData` of the head key into a full cache
  (evict, then re-append; `StoreHeadIntoFullCacheMovesToTail`), move a
  resident key to the tail.

## Model

| member | source | states |
|---|---|---|
| LinkedMaps.Empty | src/Main.java:153 | A new map is empty and consistent: its order lists exactly its keys. |
| LinkedMaps.Without | src/Main.java:172 | Taking a key out of the order keeps exactly the other keys. No key appears twice afterwards. The length drops by one when the key was present, and the order is unchanged when it was absent. |
| LinkedMaps.WithoutAt | src/Main.java:172 | Removing the key at position i yields the order with just position i cut out, so the other keys keep their relative order. |
| LinkedMaps.SizeIsEntryCount | src/Main.java:226 | In a consistent map the length of the order equals the number of entries, so the order's length is what `size()` reports. |
| LinkedMaps.Remove | src/Main.java:210 | `remove(k)` keeps the map consistent and removes k. Every other key stays with its value, and the size drops by one exactly when k was present. |
| LinkedMaps.Put | src/Main.java:201 | `put(k, v)` keeps the map consistent and maps k to v. The other entries are unchanged. A present key keeps its place in the order and the size stays; an absent key is appended at the tail and the size grows by one. |
| Caching.EvictEldest | src/Main.java:206-211 | `evictLRU` removes exactly the first key of the order. The remaining order is the old order without its head, and the remaining values are unchanged. |
| Caching.Touch | src/Main.java:168-173 | A hit's remove-then-put keeps every value and the size. It moves the key to the tail of the order. |
| Caching.TouchOrder | src/Main.java:171-173 | On a hit at position i, the new order is the old order with position i cut out and the key appended. The other keys keep their relative order. |
| Caching.TouchFreshest | src/Main.java:171-173 | A hit on the key that is already at the tail leaves the map exactly as it was. |
| Caching.Store | src/Main.java:191-204 | `storeData(k, v)` leaves k mapped to v and keeps the map consistent. It never takes the cache above five entries. |
| Caching.StoreOrder | src/Main.java:194-201 | After `storeData(k, v)`, the head is gone if the cache was full. k keeps its place if it survived the eviction, and is appended otherwise. The values are the survivors' values with k overwritten by v. |
| Caching.StoreResidentIntoFullCacheShrinks | src/Main.java:195-201 | Eviction depends on size alone. Storing a resident non-head key into a full cache evicts the head and leaves four entries. |
| Caching.Access | src/Main.java:161-189 | After `getData(k)`, k is resident at the tail. Its value is the resident value on a hit and the fetched value on a miss. The cache never exceeds five entries. |
| Caching.StoreHeadIntoFullCacheMovesToTail | src/Main.java:195-201 | Storing the head key into a full cache evicts it and re-appends it, so it moves from the head to the tail with the new value; every other entry is unchanged. |
| Caching.MissAppends | src/Main.java:176-201 | A miss on a cache with room appends the key with the fetched value and evicts nothing. |
| Caching.MissOnFullEvictsHead | src/Main.java:176-211 | A miss on a full cache evicts the head of the order and appends the new key with the fetched value. |
| Caching.RepeatedAccessIsHit | src/Main.java:161-201 | Right after `getData(k)`, k is resident. A second `getData(k)` is a hit and leaves the map unchanged. |
| Caching.AccessAll | src/Main.java:161-189 | A run of `getData` calls keeps the map consistent and within five entries. |
| Caching.FillFromEmpty | src/Main.java:195-201 | From empty, `getData` on up to five distinct keys leaves exactly those keys resident, in access order. |
| Caching.EvictionScenario | src/Main.java:195-211 | From empty, six distinct misses evict the first key. The order then holds the last five keys, so a later `getData` of the first key misses. |
| Caching.Cache.constructor | src/Main.java:151-159 | A new cache is empty and its counters are zero. Its main memory is freshly seeded with "A".."H". |
| Caching.Cache.GetData | src/Main.java:161-189 | Each call raises `totalAccesses` by one, and raises exactly one of `hitCount` or `missCount` by one. A hit returns the resident value, leaves memory unchanged and applies `Touch`. A miss returns main memory's value for the key, which it may have just created and which lies in 1..100, and applies `Store`. Afterwards the key is resident with the returned value, and the cache invariant holds (at most five entries, hits + misses = accesses). |
| Caching.Cache.StoreData | src/Main.java:191-204 | The new map is `Store` of the old one, so the cache invariant is kept. The counters do not change. |
| Caching.Cache.EvictLRU | src/Main.java:206-211 | The new map is `EvictEldest` of the old one. |
| Caching.Cache.GetTotalAccesses | src/Main.java:221-223 | The access count equals hits plus misses. |
| Caching.Cache.GetSize | src/Main.java:225-227 | The result is the number of resident entries, and it is at most `MAX_CACHE_SIZE` = 5. |
| Caching.ReadTwice | src/Main.java:161-189 | Two `getData(k)` calls in a row return the same value. The second is a hit. |
| Memory.RandomValue | src/Main.java:249 | `random.nextInt(100) + 1` gives a value in 1..100. |
| Memory.MainMemory.constructor | src/Main.java:234-240 | A new main memory holds exactly the eight keys "A".."H", so it has eight entries, each with a value in 1..100. |
| Memory.MainMemory.InitializeMemory | src/Main.java:242-256 | Afterwards every seed key is present with a value in 1..100. Keys outside the seed set keep their values, and no other key is added. |
| Memory.MainMemory.GetData | src/Main.java:258-272 | A present key returns its stored value and changes nothing. An absent key is added with a value in 1..100 and returned, and the size grows by exactly one. Either way the key afterwards maps to the returned value, so later reads return it too. |
| Memory.MainMemory.GetSize | src/Main.java:274-276 | The size never drops below the eight seed keys. |
| Memory.InitialKeysDistinct | src/Main.java:246 | The eight seed keys "A".."H" are pairwise distinct. |
| Memory.SeedKeysOnly | src/Main.java:246-253 | A map whose keys are exactly the seed keys has eight entries. |
| Memory.SeedKeysCounted | src/Main.java:246-253 | A map holding all eight seed keys has at least eight entries. |

## Left out

- The `CPU` and `Main` classes: the register arithmetic, the console prompt and the statistics display. They are orchestration around the cache, driven by `Random` and the clock.
- All `System.out.println` narration (console I/O).
- `getHitRate` and `getMissRate`: they use floating-point `double` division. The integer relation hits + misses = accesses, kept by `Cache.Valid`, carries the same content.
- Memory.RandomValue: `java.util.Random` is not modelled. The value is an arbitrary choice in 1..100, so no lemma depends on which value is drawn.
- Java `int` overflow of the counters: the counters are unbounded `nat`s.
- The `CPU` builds its own `MainMemory`, separate from the one inside `Cache`. That only affects the printed statistics.
- The capacity is the constant 5, as in the code. There is no capacity parameter and so no error for a non-positive capacity. Scenarios that assume a different capacity are not expressible here.
- Memory.MainMemory.InitializeMemory: it requires the values already stored to be in 1..100, so that the memory invariant holds afterwards. Its only caller, the constructor, calls it on an empty map.
- Caching.Cache.EvictLRU: it requires a non-empty map. The code would throw `NoSuchElementException` on an empty map, but its only caller invokes it when the map holds five entries.
- Hashing and the constant-time cost of `LinkedHashMap` operations are not modelled. Only their effect on keys, values and iteration order is.
- `null` keys and values: the model's keys are strings and its values integers.
