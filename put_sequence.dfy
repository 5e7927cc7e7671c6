/**
 * A run of `Map.put(key, value)` calls on a Java `HashMap`, in order: a
 * later `put` of the same key overwrites an earlier one.
 */
module PutSequence {

  /** `m` after putting every entry of `entries`, first to last. */
  function Puts<K, V>(m: map<K, V>, entries: seq<(K, V)>): map<K, V>
    decreases |entries|
  {
    if entries == [] then m
    else
      var last := entries[|entries| - 1];
      Puts(m, entries[..|entries| - 1])[last.0 := last.1]
  }

  /** One more `put`. */
  lemma PutsSnoc<K, V>(m: map<K, V>, entries: seq<(K, V)>, entry: (K, V))
    ensures Puts(m, entries + [entry]) == Puts(m, entries)[entry.0 := entry.1]
  {
    assert (entries + [entry])[..|entries|] == entries;
  }

  /** The index of the last entry whose key is `k`, or -1 when there is none. */
  function LastIndexOf<K(==), V>(entries: seq<(K, V)>, k: K): (i: int)
    ensures -1 <= i < |entries|
    ensures i >= 0 ==> entries[i].0 == k
    ensures forall j :: i < j < |entries| ==> entries[j].0 != k
    decreases |entries|
  {
    if entries == [] then -1
    else if entries[|entries| - 1].0 == k then |entries| - 1
    else LastIndexOf(entries[..|entries| - 1], k)
  }

  /**
   * A key is present afterwards iff it was present before or some entry
   * carries it; the last such entry decides its value, and a key no entry
   * carries keeps its old value.
   */
  lemma {:induction false} PutsLookup<K, V>(m: map<K, V>, entries: seq<(K, V)>, k: K)
    ensures k in Puts(m, entries) <==> k in m || LastIndexOf(entries, k) >= 0
    ensures LastIndexOf(entries, k) >= 0 ==> Puts(m, entries)[k] == entries[LastIndexOf(entries, k)].1
    ensures LastIndexOf(entries, k) < 0 && k in m ==> Puts(m, entries)[k] == m[k]
    decreases |entries|
  {
    if entries != [] {
      var n := |entries| - 1;
      PutsLookup(m, entries[..n], k);
      if entries[n].0 != k {
        assert LastIndexOf(entries, k) == LastIndexOf(entries[..n], k);
      }
    }
  }

  /**
   * `PutsLookup`, for all keys at once, in terms of entry positions: every
   * carried key is present, an entry no later entry overrides decides its
   * key's value, uncarried keys keep theirs, and no other key appears.
   */
  lemma PutsMeaning<K, V>(m: map<K, V>, entries: seq<(K, V)>)
    ensures forall i :: 0 <= i < |entries| ==> entries[i].0 in Puts(m, entries)
    ensures forall i :: (0 <= i < |entries| && forall j :: i < j < |entries| ==> entries[j].0 != entries[i].0) ==>
              Puts(m, entries)[entries[i].0] == entries[i].1
    ensures forall k :: (k in m && forall i :: 0 <= i < |entries| ==> entries[i].0 != k) ==>
              k in Puts(m, entries) && Puts(m, entries)[k] == m[k]
    ensures forall k :: k in Puts(m, entries) ==> k in m || exists i :: 0 <= i < |entries| && entries[i].0 == k
  {
    forall i | 0 <= i < |entries|
      ensures entries[i].0 in Puts(m, entries)
      ensures (forall j :: i < j < |entries| ==> entries[j].0 != entries[i].0) ==>
                Puts(m, entries)[entries[i].0] == entries[i].1
    {
      PutsLookup(m, entries, entries[i].0);
    }
    forall k | k in m && forall i :: 0 <= i < |entries| ==> entries[i].0 != k
      ensures k in Puts(m, entries) && Puts(m, entries)[k] == m[k]
    {
      PutsLookup(m, entries, k);
    }
    forall k | k in Puts(m, entries)
      ensures k in m || exists i :: 0 <= i < |entries| && entries[i].0 == k
    {
      PutsLookup(m, entries, k);
      if k !in m {
        assert entries[LastIndexOf(entries, k)].0 == k;
      }
    }
  }
}
