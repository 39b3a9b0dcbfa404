/** A Python `dict` keyed by strings, as the list of its items in insertion order.
    Storing under an existing key replaces the value in place; a new key goes last. */
module Dict {
  import opened Results

  type Table<V> = seq<(string, V)>

  /** `d.get(key)`: the value stored under `key`, if any. */
  function Lookup<V>(t: Table<V>, key: string): Option<V> {
    if t == [] then None else if t[0].0 == key then Some(t[0].1) else Lookup(t[1..], key)
  }

  /** `d[key] = value`. */
  function Store<V>(t: Table<V>, key: string, value: V): (r: Table<V>)
    ensures |r| == |t| || |r| == |t| + 1
  {
    if t == [] then [(key, value)]
    else if t[0].0 == key then [(key, value)] + t[1..]
    else [t[0]] + Store(t[1..], key, value)
  }

  predicate HasKey<V>(t: Table<V>, key: string) {
    exists i :: 0 <= i < |t| && t[i].0 == key
  }

  /** After storing, the key reads back the new value and every other key reads as before. */
  lemma {:induction false} LookupStore<V>(t: Table<V>, key: string, value: V, other: string)
    ensures Lookup(Store(t, key, value), other) == if other == key then Some(value) else Lookup(t, other)
  {
    if t != [] && t[0].0 != key {
      LookupStore(t[1..], key, value, other);
    }
  }

  /** Storing under a key already present keeps the number of items; a new key adds one. */
  lemma {:induction false} StoreSize<V>(t: Table<V>, key: string, value: V)
    ensures |Store(t, key, value)| == if HasKey(t, key) then |t| else |t| + 1
  {
    if t != [] {
      if t[0].0 != key {
        StoreSize(t[1..], key, value);
        if HasKey(t[1..], key) {
          var i :| 0 <= i < |t[1..]| && t[1..][i].0 == key;
          assert t[i + 1].0 == key;
        }
        if HasKey(t, key) {
          var i :| 0 <= i < |t| && t[i].0 == key;
          assert t[1..][i - 1].0 == key;
        }
      } else {
        assert t[0].0 == key;
      }
    }
  }

  /** Storing under a key already present replaces the value at its place: every item keeps
      its position. */
  lemma {:induction false} StoreInPlace<V>(t: Table<V>, key: string, value: V, i: nat)
    requires i < |t| && t[i].0 == key
    requires forall j :: 0 <= j < i ==> t[j].0 != key
    ensures Store(t, key, value) == t[i := (key, value)]
    decreases i
  {
    if i > 0 {
      assert t[0].0 != key;
      StoreInPlace(t[1..], key, value, i - 1);
      assert t[1..][i - 1 := (key, value)] == t[i := (key, value)][1..];
      assert t[i := (key, value)] == [t[0]] + t[i := (key, value)][1..];
    }
  }

  /** Storing a new key appends it after every item already there. */
  lemma {:induction false} StoreNew<V>(t: Table<V>, key: string, value: V)
    requires !HasKey(t, key)
    ensures Store(t, key, value) == t + [(key, value)]
  {
    if t != [] {
      assert t[0].0 != key;
      forall i | 0 <= i < |t[1..]|
        ensures t[1..][i].0 != key
      {
        assert t[1..][i] == t[i + 1];
      }
      StoreNew(t[1..], key, value);
      assert t + [(key, value)] == [t[0]] + (t[1..] + [(key, value)]);
    }
  }
}
