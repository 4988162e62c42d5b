/**
 * Main memory: an unbounded store from keys to values that is seeded with the
 * keys "A" to "H" and makes up a value for any key it is asked about for the
 * first time. Each memory block holds exactly one integer, so a block is
 * modelled as that integer.
 */
module Memory {
  import opened LinkedMaps

  /** Keys pre-loaded when the memory is built, in loading order. */
  const InitialKeys: seq<Key> := ["A", "B", "C", "D", "E", "F", "G", "H"]

  /** Range of the values `random.nextInt(100) + 1` produces. */
  predicate InValueRange(v: int)
  {
    1 <= v <= 100
  }

  /**
   * `random.nextInt(100) + 1`: some value in 1..100. Which one is left open;
   * the random number generator is not part of this model.
   */
  method RandomValue() returns (v: int)
    ensures InValueRange(v)
  {
    var n: int :| 0 <= n < 100;
    v := n + 1;
  }

  class MainMemory {
    var memoryMap: map<Key, int>

    /** Every stored value came from the generator, and the seed keys stay present. */
    ghost predicate Valid()
      reads this
    {
      (forall k :: k in memoryMap ==> InValueRange(memoryMap[k])) &&
      (forall i :: 0 <= i < |InitialKeys| ==> InitialKeys[i] in memoryMap)
    }

    /** Builds the memory and pre-loads the seed keys. */
    constructor ()
      ensures Valid()
      ensures forall k :: k in memoryMap <==> k in InitialKeys
      ensures |memoryMap| == |InitialKeys|
    {
      memoryMap := map[];
      new;
      InitializeMemory();
      SeedKeysOnly(memoryMap);
    }

    /**
     * Gives every seed key a fresh generated value, in order; keys outside
     * the seed set keep their values.
     */
    method InitializeMemory()
      requires forall k :: k in memoryMap ==> InValueRange(memoryMap[k])
      modifies this
      ensures Valid()
      ensures forall k :: k in memoryMap <==> k in old(memoryMap) || k in InitialKeys
      ensures forall k :: k in old(memoryMap) && k !in InitialKeys ==> memoryMap[k] == old(memoryMap)[k]
    {
      var i := 0;
      while i < |InitialKeys|
        invariant 0 <= i <= |InitialKeys|
        invariant forall k :: k in memoryMap ==> InValueRange(memoryMap[k])
        invariant forall j :: 0 <= j < i ==> InitialKeys[j] in memoryMap
        invariant forall k :: k in memoryMap <==> k in old(memoryMap) || k in InitialKeys[..i]
        invariant forall k :: k in old(memoryMap) && k !in InitialKeys ==> memoryMap[k] == old(memoryMap)[k]
      {
        var randomValue := RandomValue();
        memoryMap := memoryMap[InitialKeys[i] := randomValue];
        assert InitialKeys[..i + 1] == InitialKeys[..i] + [InitialKeys[i]];
        i := i + 1;
      }
      assert InitialKeys[..i] == InitialKeys;
    }

    /**
     * Reads `key`. A key already present yields its stored value and changes
     * nothing; an absent key is first given a generated value, which later
     * reads return.
     */
    method GetData(key: Key) returns (value: int)
      requires Valid()
      modifies this
      ensures Valid()
      ensures InValueRange(value)
      ensures key in old(memoryMap) ==> value == old(memoryMap)[key] && memoryMap == old(memoryMap)
      ensures key !in old(memoryMap) ==> memoryMap == old(memoryMap)[key := value]
      ensures key in memoryMap && memoryMap[key] == value
      ensures |memoryMap| == if key in old(memoryMap) then |old(memoryMap)| else |old(memoryMap)| + 1
    {
      if key !in memoryMap {
        var randomValue := RandomValue();
        memoryMap := memoryMap[key := randomValue];
      }
      value := memoryMap[key];
    }

    /** Number of stored keys; never below the number of seed keys. */
    function GetSize(): (n: nat)
      reads this
      ensures Valid() ==> n >= |InitialKeys|
    {
      assert Valid() ==> |memoryMap| >= |InitialKeys| by {
        if Valid() {
          SeedKeysCounted(memoryMap);
        }
      }
      |memoryMap|
    }
  }

  /** The seed keys are pairwise distinct. */
  lemma InitialKeysDistinct()
    ensures NoDup(InitialKeys)
  {
    forall i, j | 0 <= i < j < |InitialKeys| ensures InitialKeys[i] != InitialKeys[j] {
      assert InitialKeys[i][0] as int == 'A' as int + i;
      assert InitialKeys[j][0] as int == 'A' as int + j;
    }
  }

  /** A map holding all eight seed keys has at least eight keys. */
  lemma SeedKeysCounted(m: map<Key, int>)
    requires forall i :: 0 <= i < |InitialKeys| ==> InitialKeys[i] in m
    ensures |m| >= |InitialKeys|
  {
    var seeds := set k | k in InitialKeys;
    InitialKeysDistinct();
    NoDupCount(InitialKeys);
    assert m.Keys == seeds + (m.Keys - seeds);
    assert seeds * (m.Keys - seeds) == {};
  }

  /** A map whose keys are exactly the seed keys has eight entries. */
  lemma SeedKeysOnly(m: map<Key, int>)
    requires forall k :: k in m <==> k in InitialKeys
    ensures |m| == |InitialKeys|
  {
    InitialKeysDistinct();
    NoDupCount(InitialKeys);
    assert m.Keys == set k | k in InitialKeys;
  }
}
