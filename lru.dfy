/** The least-recently-used cache of zenith/lru_cache.py. Its `OrderedDict` is modelled as
    the sequence of keys from least to most recently used plus the map from key to value. */
module Lru {
  import opened Results

  /** `order` without `key`. */
  function Without<K(==,!new)>(order: seq<K>, key: K): (r: seq<K>)
    ensures forall k :: k in r <==> k in order && k != key
    ensures |r| <= |order|
  {
    if order == [] then []
    else if order[0] == key then Without(order[1..], key)
    else [order[0]] + Without(order[1..], key)
  }

  /** `move_to_end(key)`: the key becomes the most recently used. */
  function MoveToEnd<K(==,!new)>(order: seq<K>, key: K): seq<K> {
    Without(order, key) + [key]
  }

  predicate Distinct<K(==)>(s: seq<K>) {
    forall i, j :: 0 <= i < j < |s| ==> s[i] != s[j]
  }

  /** The cache invariant: each stored key appears once in the recency order, and there are
      never more entries than the capacity allows (none when the capacity is not positive). */
  ghost predicate Coherent<K(!new), V>(capacity: int, order: seq<K>, entries: map<K, V>) {
    Distinct(order)
    && (forall k :: k in entries <==> k in order)
    && (|order| <= capacity || order == [])
  }

  /** The recency order after `cache[key] = value`: the key moves to the end, then the least
      recently used key is dropped when the capacity is exceeded. */
  function OrderAfterSet<K(==,!new)>(capacity: int, order: seq<K>, key: K): seq<K> {
    var moved := MoveToEnd(order, key);
    if |moved| > capacity then moved[1..] else moved
  }

  /** The entries after `cache[key] = value`. */
  function EntriesAfterSet<K(==,!new), V>(capacity: int, order: seq<K>, entries: map<K, V>, key: K, value: V): map<K, V> {
    var moved := MoveToEnd(order, key);
    if |moved| > capacity then entries[key := value] - {moved[0]} else entries[key := value]
  }

  lemma WithoutDistinct<K(!new)>(order: seq<K>, key: K)
    requires Distinct(order)
    ensures Distinct(Without(order, key))
    ensures |Without(order, key)| == if key in order then |order| - 1 else |order|
  {
    if order != [] {
      WithoutDistinct(order[1..], key);
      if order[0] != key {
        assert order[0] !in Without(order[1..], key);
      } else {
        assert key !in order[1..];
      }
    }
  }

  lemma WithoutOfAbsent<K(!new)>(order: seq<K>, key: K)
    requires key !in order
    ensures Without(order, key) == order
  {
  }

  /** In a recency order without repeats, dropping a key deletes its one position and keeps
      the other keys in their order. */
  lemma {:induction false} WithoutAt<K(!new)>(order: seq<K>, key: K, i: nat)
    requires Distinct(order) && i < |order| && order[i] == key
    ensures Without(order, key) == order[..i] + order[i + 1..]
    decreases i
  {
    assert order == [order[0]] + order[1..];
    if i == 0 {
      assert key !in order[1..];
      WithoutOfAbsent(order[1..], key);
    } else {
      assert Distinct(order[1..]);
      WithoutAt(order[1..], key, i - 1);
      assert order[..i] == [order[0]] + order[1..][..i - 1];
      assert order[i + 1..] == order[1..][i..];
    }
  }

  /** Setting a key keeps the cache invariant: at most `capacity` entries, one order slot
      per entry. */
  lemma {:induction false} SetKeepsCoherent<K(!new), V>(capacity: int, order: seq<K>, entries: map<K, V>, key: K, value: V)
    requires Coherent(capacity, order, entries)
    ensures Coherent(capacity, OrderAfterSet(capacity, order, key),
                     EntriesAfterSet(capacity, order, entries, key, value))
  {
    WithoutDistinct(order, key);
    var moved := MoveToEnd(order, key);
    assert Distinct(moved);
    assert forall k :: k in entries[key := value] <==> k in moved;
    if |moved| > capacity {
      assert forall k :: k in moved[1..] <==> k in moved && k != moved[0] by {
        forall k | k in moved && k != moved[0]
          ensures k in moved[1..]
        {
          var i :| 0 <= i < |moved| && moved[i] == k;
          assert i != 0;
          assert moved[1..][i - 1] == k;
        }
      }
    }
  }

  /** After `cache[key] = value` with a positive capacity, `key in cache` holds and
      `cache[key]` is `value`; without room for even one entry, the key is evicted at once. */
  lemma {:induction false} SetThenRead<K(!new), V>(capacity: int, order: seq<K>, entries: map<K, V>, key: K, value: V)
    requires Coherent(capacity, order, entries)
    ensures var e := EntriesAfterSet(capacity, order, entries, key, value);
      (capacity >= 1 ==> key in e && e[key] == value) && (capacity < 1 ==> e == map[])
  {
    WithoutDistinct(order, key);
    SetKeepsCoherent(capacity, order, entries, key, value);
    var moved := MoveToEnd(order, key);
    if capacity >= 1 && |moved| > capacity {
      assert moved[0] != key by {
        assert moved[|moved| - 1] == key;
      }
    }
    if capacity < 1 {
      assert |moved| > capacity;
      assert |moved| == 1 by {
        assert order == [] || |order| <= capacity;
        assert order == [];
      }
    }
  }

  /** In a full cache, inserting a new key evicts exactly the least recently used key and
      keeps every other one. */
  lemma {:induction false} SetEvictsLeastRecent<K(!new), V>(capacity: int, order: seq<K>, entries: map<K, V>, key: K, value: V)
    requires Coherent(capacity, order, entries)
    requires key !in entries && |order| == capacity && capacity >= 1
    ensures OrderAfterSet(capacity, order, key) == order[1..] + [key]
    ensures EntriesAfterSet(capacity, order, entries, key, value).Keys
         == entries.Keys - {order[0]} + {key}
  {
    WithoutOfAbsent(order, key);
    var moved := order + [key];
    assert moved[1..] == order[1..] + [key];
    assert moved[0] == order[0];
    assert order[0] != key;
  }

  /** Re-setting a key already stored replaces its value, makes it the most recent and
      leaves the number of entries unchanged. */
  lemma {:induction false} SetExisting<K(!new), V>(capacity: int, order: seq<K>, entries: map<K, V>, key: K, value: V)
    requires Coherent(capacity, order, entries)
    requires key in entries
    ensures OrderAfterSet(capacity, order, key) == MoveToEnd(order, key)
    ensures EntriesAfterSet(capacity, order, entries, key, value) == entries[key := value]
    ensures |OrderAfterSet(capacity, order, key)| == |order|
  {
    WithoutDistinct(order, key);
  }

  /** A key read with `cache[key]` is not the next one evicted. */
  lemma {:induction false} ReadProtectsFromEviction<K(!new), V>(capacity: int, order: seq<K>, entries: map<K, V>, read: K, key: K, value: V)
    requires Coherent(capacity, order, entries)
    requires read in entries && read != key && capacity >= 2
    ensures read in EntriesAfterSet(capacity, MoveToEnd(order, read), entries, key, value)
  {
    WithoutDistinct(order, read);
    var refreshed := MoveToEnd(order, read);
    assert Coherent(capacity, refreshed, entries);
    SetKeepsCoherent(capacity, refreshed, entries, key, value);
    WithoutDistinct(refreshed, key);
    var moved := MoveToEnd(refreshed, key);
    if |moved| > capacity {
      assert refreshed[|refreshed| - 1] == read;
      assert |refreshed| >= 2 by {
        assert |moved| <= |refreshed| + 1;
      }
      assert read in Without(refreshed, key);
      assert moved[0] != read by {
        var w := Without(refreshed, key);
        assert w[|w| - 1] == read by {
          WithoutLast(refreshed, key);
        }
        assert |w| >= 2;
        assert moved[0] == w[0] && w[0] != w[|w| - 1];
      }
    }
  }

  lemma {:induction false} WithoutLast<K(!new)>(s: seq<K>, key: K)
    requires |s| >= 1 && s[|s| - 1] != key
    ensures |Without(s, key)| >= 1 && Without(s, key)[|Without(s, key)| - 1] == s[|s| - 1]
  {
    if |s| > 1 {
      WithoutLast(s[1..], key);
    }
  }

  class LruCache<K(==,!new), V> {
    const capacity: int
    var order: seq<K>
    var entries: map<K, V>

    ghost predicate Valid()
      reads this
    {
      Coherent(capacity, order, entries)
    }

    constructor (capacity: int)
      ensures Valid()
      ensures this.capacity == capacity && order == [] && entries == map[]
    {
      this.capacity := capacity;
      order := [];
      entries := map[];
    }

    /** `key in cache`: reads without refreshing. */
    method Contains(key: K) returns (present: bool)
      requires Valid()
      ensures present <==> key in entries
      ensures present <==> key in order
    {
      present := key in entries;
    }

    /** `cache.get(key, default)`: reads without refreshing. */
    method Get(key: K, default: V) returns (value: V)
      requires Valid()
      ensures key in entries ==> value == entries[key]
      ensures key !in order ==> value == default
    {
      value := if key in entries then entries[key] else default;
    }

    /** `cache[key]`: `None` models the `KeyError` for a missing key, which leaves the cache
        as it was; a hit makes the key the most recently used. */
    method GetItem(key: K) returns (r: Option<V>)
      requires Valid()
      modifies this
      ensures Valid()
      ensures entries == old(entries)
      ensures r == if key in old(entries) then Some(old(entries)[key]) else None
      ensures order == if key in old(entries) then MoveToEnd(old(order), key) else old(order)
    {
      if key !in entries {
        return None;
      }
      WithoutDistinct(order, key);
      order := MoveToEnd(order, key);
      r := Some(entries[key]);
    }

    /** `cache[key] = value`. */
    method SetItem(key: K, value: V)
      requires Valid()
      modifies this
      ensures Valid()
      ensures order == OrderAfterSet(capacity, old(order), key)
      ensures entries == EntriesAfterSet(capacity, old(order), old(entries), key, value)
    {
      SetKeepsCoherent(capacity, order, entries, key, value);
      ghost var before := order;
      entries := entries[key := value];
      order := MoveToEnd(order, key);
      if |order| > capacity {
        entries := entries - {order[0]};
        order := order[1..];
      }
    }
  }

  /** The scenario of tests/test_lru_cache.py on a cache of capacity 2: after storing keys
      0, 1 and 2 in turn, key 0 has been evicted and keys 1 and 2 remain. */
  lemma ScenarioFromTests()
    ensures OrderAfterSet(2, OrderAfterSet(2, OrderAfterSet(2, [], 0), 1), 2) == [1, 2]
    ensures var o1 := OrderAfterSet(2, [], 0);
            var e1 := EntriesAfterSet(2, [], map[], 0, "something");
            var o2 := OrderAfterSet(2, o1, 1);
            var e2 := EntriesAfterSet(2, o1, e1, 1, "something else");
            EntriesAfterSet(2, o2, e2, 2, "third item")
              == map[1 := "something else", 2 := "third item"]
  {
    assert OrderAfterSet(2, [], 0) == [0];
    assert Without([0], 1) == [0];
    assert OrderAfterSet(2, [0], 1) == [0, 1];
    assert Without([0, 1], 2) == [0, 1];
    assert MoveToEnd([0, 1], 2) == [0, 1, 2];
  }
}
