/** Filling a map from a list where an entry that is there, or came earlier in the list, is kept. */
module FirstWins {
  import opened Machine
  import opened Dictionary

  function AddAll<K(==), V>(key: V -> K, entries: map<K, V>, vs: seq<V>): map<K, V>
    decreases |vs|
  {
    if vs == [] then entries
    else
      var before := AddAll(key, entries, vs[..|vs| - 1]);
      var v := vs[|vs| - 1];
      if key(v) in before then before else before[key(v) := v]
  }

  /** The first of the list with that key. */
  function Listed<K(==), V>(key: V -> K, vs: seq<V>, k: K): Option<V> {
    var i := IndexOf(key, vs, k);
    if i < |vs| then Some(vs[i]) else None
  }

  function Find<K(==), V>(entries: map<K, V>, k: K): Option<V> {
    if k in entries then Some(entries[k]) else None
  }

  lemma {:induction false} AddOneMore<K, V>(key: V -> K, entries: map<K, V>, vs: seq<V>, i: nat)
    requires i < |vs|
    ensures AddAll(key, entries, vs[..i + 1])
         == var before := AddAll(key, entries, vs[..i]);
            if key(vs[i]) in before then before else before[key(vs[i]) := vs[i]]
  {
    assert vs[..i + 1][..i] == vs[..i];
  }

  /** What a key maps to afterwards: what it did before, or else the first listed with it. */
  lemma {:induction false} AddAllFirst<K, V>(key: V -> K, entries: map<K, V>, vs: seq<V>, k: K)
    ensures Find(AddAll(key, entries, vs), k) == if k in entries then Some(entries[k]) else Listed(key, vs, k)
  {
    if vs != [] {
      var n := |vs| - 1;
      assert vs == vs[..n] + [vs[n]];
      AddAllFirst(key, entries, vs[..n], k);
      IndexOfAppend(key, vs[..n], [vs[n]], k);
    }
  }

  lemma {:induction false} AddAllKeyed<K, V>(key: V -> K, entries: map<K, V>, vs: seq<V>)
    requires forall k | k in entries :: key(entries[k]) == k
    ensures forall k | k in AddAll(key, entries, vs) :: key(AddAll(key, entries, vs)[k]) == k
  {
    if vs != [] {
      AddAllKeyed(key, entries, vs[..|vs| - 1]);
    }
  }
}
