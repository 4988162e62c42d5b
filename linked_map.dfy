/**
 * The part of java.util.LinkedHashMap (insertion order, the default) that the
 * cache relies on: a map whose keys are iterated in the order they were first
 * put, where `remove` takes a key out of that order and `put` of a key that is
 * already present overwrites its value without moving it.
 */
module LinkedMaps {

  type Key = string

  /** No key occurs twice in `s`. */
  ghost predicate NoDup(s: seq<Key>)
  {
    forall i, j :: 0 <= i < j < |s| ==> s[i] != s[j]
  }

  /**
   * An insertion-ordered map: `keys` is the iteration order (head = eldest),
   * `vals` the value stored under each key.
   */
  datatype LinkedMap = LinkedMap(keys: seq<Key>, vals: map<Key, int>)
  {
    /** The key order lists exactly the keys of the map, each once. */
    ghost predicate Valid()
    {
      NoDup(keys) && forall k :: k in vals <==> k in keys
    }

    /** Number of entries (`Map.size()`). */
    function Size(): nat
    {
      |keys|
    }
  }

  /** A duplicate-free sequence has as many distinct elements as positions. */
  lemma {:induction false} NoDupCount(s: seq<Key>)
    requires NoDup(s)
    ensures |set x | x in s| == |s|
  {
    if s != [] {
      var rest := s[1..];
      assert NoDup(rest) by {
        forall i, j | 0 <= i < j < |rest| ensures rest[i] != rest[j] {
          assert rest[i] == s[i + 1] && rest[j] == s[j + 1];
        }
      }
      forall j | 0 <= j < |rest| ensures rest[j] != s[0] {
        assert rest[j] == s[j + 1];
      }
      NoDupCount(rest);
      assert (set x | x in s) == {s[0]} + (set x | x in rest);
    }
  }

  /**
   * In a consistent map the length of the order is the number of entries, so
   * `Size()` is what `Map.size()` reports.
   */
  lemma SizeIsEntryCount(m: LinkedMap)
    requires m.Valid()
    ensures |m.vals| == m.Size()
  {
    NoDupCount(m.keys);
    assert m.vals.Keys == set x | x in m.keys;
  }

  /** The map with no entries. */
  function Empty(): (r: LinkedMap)
    ensures r.Valid() && r.Size() == 0
  {
    LinkedMap([], map[])
  }

  /** `s` with every occurrence of `k` taken out, the rest kept in order. */
  function Without(s: seq<Key>, k: Key): (r: seq<Key>)
    ensures forall x :: x in r <==> x in s && x != k
    ensures NoDup(s) ==> NoDup(r)
    ensures NoDup(s) && k in s ==> |r| == |s| - 1
    ensures k !in s ==> r == s
  {
    if s == [] then []
    else if s[0] == k then Without(s[1..], k)
    else
      var rest := Without(s[1..], k);
      assert NoDup(s) ==> NoDup([s[0]] + rest) by {
        if NoDup(s) {
          forall i, j | 0 <= i < j < |s[1..]| ensures s[1..][i] != s[1..][j] {
            assert s[1..][i] == s[i + 1] && s[1..][j] == s[j + 1];
          }
          forall j | 0 <= j < |s[1..]| ensures s[1..][j] != s[0] {
            assert s[1..][j] == s[j + 1];
          }
          forall i, j | 0 <= i < j < |[s[0]] + rest| ensures ([s[0]] + rest)[i] != ([s[0]] + rest)[j] {
            if i == 0 {
              assert ([s[0]] + rest)[j] == rest[j - 1];
              assert rest[j - 1] in s[1..];
            }
          }
        }
      }
      [s[0]] + rest
  }

  /**
   * Taking a key that sits at index `i` out of a duplicate-free order leaves
   * every other key where it was relative to the others: the result is the
   * order with position `i` cut out.
   */
  lemma {:induction false} WithoutAt(s: seq<Key>, k: Key, i: nat)
    requires NoDup(s) && i < |s| && s[i] == k
    ensures Without(s, k) == s[..i] + s[i + 1..]
  {
    if i == 0 {
      forall j | 0 <= j < |s[1..]| ensures s[1..][j] != k {
        assert s[1..][j] == s[j + 1];
      }
    } else {
      assert NoDup(s[1..]) by {
        forall a, b | 0 <= a < b < |s[1..]| ensures s[1..][a] != s[1..][b] {
          assert s[1..][a] == s[a + 1] && s[1..][b] == s[b + 1];
        }
      }
      assert s[0] != k;
      WithoutAt(s[1..], k, i - 1);
      assert s[1..][..i - 1] + s[1..][i..] == s[1..i] + s[i + 1..];
      assert s[..i] + s[i + 1..] == [s[0]] + (s[1..i] + s[i + 1..]);
    }
  }

  /**
   * `LinkedHashMap.remove(k)`: drops the entry for `k`, if any, out of both
   * the map and the iteration order.
   */
  function Remove(m: LinkedMap, k: Key): (r: LinkedMap)
    requires m.Valid()
    ensures r.Valid()
    ensures k !in r.vals
    ensures forall x :: x in r.vals <==> x in m.vals && x != k
    ensures forall x :: x in r.vals ==> r.vals[x] == m.vals[x]
    ensures r.Size() == if k in m.vals then m.Size() - 1 else m.Size()
  {
    LinkedMap(Without(m.keys, k), m.vals - {k})
  }

  /**
   * `LinkedHashMap.put(k, v)`: `k` maps to `v` afterwards; a new key is
   * appended to the iteration order, a key already present keeps its place.
   */
  function Put(m: LinkedMap, k: Key, v: int): (r: LinkedMap)
    requires m.Valid()
    ensures r.Valid()
    ensures k in r.vals && r.vals[k] == v
    ensures forall x :: x != k ==> (x in r.vals <==> x in m.vals)
    ensures forall x :: x in m.vals && x != k ==> r.vals[x] == m.vals[x]
    ensures r.Size() == if k in m.vals then m.Size() else m.Size() + 1
    ensures r.keys == if k in m.vals then m.keys else m.keys + [k]
  {
    if k in m.vals then
      LinkedMap(m.keys, m.vals[k := v])
    else
      var keys := m.keys + [k];
      assert NoDup(keys) by {
        forall i, j | 0 <= i < j < |keys| ensures keys[i] != keys[j] {
          if j == |m.keys| {
            assert keys[i] == m.keys[i];
          }
        }
      }
      LinkedMap(keys, m.vals[k := v])
  }
}
