/**
 * What an index holds, as a value. The equal and sorted indexes
 * (store/IndexEqual.java, store/IndexSorted.java) keep a map from an index key
 * to the set of entity ids filed under it; the unique sorted index
 * (store/IndexSortedUniq.java) keeps a map from a key to one id. The index
 * classes and IndexedHashMap are specified with the functions below.
 */
module IndexContents {

  // ---------------------------------------------------------------------------
  // Bucket indexes: key -> set of ids
  // ---------------------------------------------------------------------------

  /** `id` is filed under key `x`. */
  predicate Holds<K, X>(objects: map<X, set<K>>, x: X, id: K)
  {
    x in objects && id in objects[x]
  }

  /** No key maps to an empty set. */
  predicate NoEmptyBuckets<K, X>(objects: map<X, set<K>>)
  {
    forall x :: x in objects ==> objects[x] != {}
  }

  /** `append`: file `id` under every key, creating a set where the key is missing. */
  function BucketAppend<K(!new), X(!new)>(objects: map<X, set<K>>, keys: set<X>, id: K): (r: map<X, set<K>>)
    ensures forall x, k :: Holds(r, x, k) <==> Holds(objects, x, k) || (x in keys && k == id)
    ensures r.Keys == objects.Keys + keys
    ensures NoEmptyBuckets(objects) ==> NoEmptyBuckets(r)
  {
    map x | x in objects.Keys + keys ::
      (if x in objects then objects[x] else {}) + (if x in keys then {id} else {})
  }

  /** `remove`: take `id` out of the set of every key, dropping a key whose set empties. */
  function BucketRemove<K(!new), X(!new)>(objects: map<X, set<K>>, keys: set<X>, id: K): (r: map<X, set<K>>)
    ensures forall x, k :: Holds(r, x, k) <==> Holds(objects, x, k) && !(x in keys && k == id)
    ensures r.Keys <= objects.Keys
    ensures forall x :: x in objects && x !in keys ==> x in r && r[x] == objects[x]
    ensures NoEmptyBuckets(objects) ==> NoEmptyBuckets(r)
  {
    var r := map x | x in objects && !(x in keys && objects[x] - {id} == {}) ::
      if x in keys then objects[x] - {id} else objects[x];
    assert forall x, k :: Holds(objects, x, k) && !(x in keys && k == id) ==> Holds(r, x, k) by {
      forall x, k | Holds(objects, x, k) && !(x in keys && k == id) ensures Holds(r, x, k) {
        if x in keys {
          assert k in objects[x] - {id};
        }
      }
    }
    r
  }

  /** One step of `append`: the loop that has handled `done` goes on with `key`. */
  lemma BucketAppendStep<K(!new), X(!new)>(objects: map<X, set<K>>, done: set<X>, key: X, id: K)
    ensures BucketAppend(objects, done + {key}, id)
         == (var m := BucketAppend(objects, done, id); m[key := BucketGet(m, key) + {id}])
  {
    var a := BucketAppend(objects, done + {key}, id);
    var m := BucketAppend(objects, done, id);
    var b := m[key := BucketGet(m, key) + {id}];
    assert a.Keys == b.Keys;
    forall x | x in a ensures a[x] == b[x] {
      if x == key {
        assert forall k :: k in a[x] <==> Holds(a, x, k);
        assert forall k :: k in BucketGet(m, x) <==> Holds(m, x, k);
      }
    }
  }

  /** Before the `append` loop has handled any key, the map is unchanged. */
  lemma BucketAppendNone<K(!new), X(!new)>(objects: map<X, set<K>>, id: K)
    ensures BucketAppend(objects, {}, id) == objects
  {
    var a := BucketAppend(objects, {}, id);
    assert a.Keys == objects.Keys;
    forall x | x in a ensures a[x] == objects[x] {
      assert forall k :: k in a[x] <==> Holds(a, x, k);
    }
  }

  /** One step of `remove`: the loop that has handled `done` goes on with `key`. */
  lemma BucketRemoveStep<K(!new), X(!new)>(objects: map<X, set<K>>, done: set<X>, key: X, id: K)
    requires key !in done
    ensures BucketRemove(objects, done + {key}, id)
         == (var m := BucketRemove(objects, done, id);
             if key !in m then m
             else if m[key] - {id} == {} then m - {key}
             else m[key := m[key] - {id}])
  {
  }

  /** The ids filed under `key`, or none. */
  function BucketGet<K(!new), X(!new)>(objects: map<X, set<K>>, key: X): (r: set<K>)
    ensures forall k :: k in r <==> Holds(objects, key, k)
  {
    if key in objects then objects[key] else {}
  }

  /** All keys an entity of the cache is filed under. */
  function MappedKeys<K(!new), T, X(!new)>(cache: map<K, T>, mapper: T -> set<X>): set<X>
  {
    set k, x | k in cache && x in mapper(cache[k]) :: x
  }

  /**
   * The content of a bucket index that agrees with the cache: each key maps
   * to exactly the ids of the cached entities the mapper files under it.
   */
  function BucketsOf<K(!new), T, X(!new)>(cache: map<K, T>, mapper: T -> set<X>): (r: map<X, set<K>>)
    ensures forall x, k :: Holds(r, x, k) <==> k in cache && x in mapper(cache[k])
    ensures NoEmptyBuckets(r)
  {
    map x | x in MappedKeys(cache, mapper) :: set k | k in cache && x in mapper(cache[k])
  }

  /** Two bucket maps without empty buckets are equal when they file the same ids under the same keys. */
  lemma BucketsExtensional<K(!new), X(!new)>(a: map<X, set<K>>, b: map<X, set<K>>)
    requires NoEmptyBuckets(a) && NoEmptyBuckets(b)
    requires forall x, k :: Holds(a, x, k) <==> Holds(b, x, k)
    ensures a == b
  {
    forall x | x in a ensures x in b {
      var k :| k in a[x];
      assert Holds(a, x, k);
    }
    forall x | x in b ensures x in a {
      var k :| k in b[x];
      assert Holds(b, x, k);
    }
    forall x | x in a ensures a[x] == b[x] {
      assert forall k :: k in a[x] <==> Holds(a, x, k);
      assert forall k :: k in b[x] <==> Holds(b, x, k);
    }
  }

  /** Appending a new entity to an index that agrees with the cache gives the index of the larger cache. */
  lemma BucketsInsert<K(!new), T, X(!new)>(cache: map<K, T>, mapper: T -> set<X>, id: K, entity: T)
    requires id !in cache
    ensures BucketsOf(cache[id := entity], mapper) == BucketAppend(BucketsOf(cache, mapper), mapper(entity), id)
  {
    var a := BucketsOf(cache[id := entity], mapper);
    var b := BucketAppend(BucketsOf(cache, mapper), mapper(entity), id);
    BucketsExtensional(a, b);
  }

  /** Removing a cached entity from an index that agrees with the cache gives the index of the smaller cache. */
  lemma BucketsDelete<K(!new), T, X(!new)>(cache: map<K, T>, mapper: T -> set<X>, id: K)
    requires id in cache
    ensures BucketsOf(cache - {id}, mapper) == BucketRemove(BucketsOf(cache, mapper), mapper(cache[id]), id)
  {
    var a := BucketsOf(cache - {id}, mapper);
    var b := BucketRemove(BucketsOf(cache, mapper), mapper(cache[id]), id);
    BucketsExtensional(a, b);
  }

  /** Replacing a cached entity: remove the old one, then append the new one. */
  lemma BucketsReplace<K(!new), T, X(!new)>(cache: map<K, T>, mapper: T -> set<X>, id: K, entity: T)
    requires id in cache
    ensures BucketsOf(cache[id := entity], mapper)
         == BucketAppend(BucketRemove(BucketsOf(cache, mapper), mapper(cache[id]), id), mapper(entity), id)
  {
    BucketsDelete(cache, mapper, id);
    BucketsInsert(cache - {id}, mapper, id, entity);
    assert (cache - {id})[id := entity] == cache[id := entity];
  }

  /**
   * Appending an entity and removing it again restores the index, provided
   * its id was not already filed under any of its keys.
   */
  lemma {:induction false} AppendThenRemove<K(!new), X(!new)>(objects: map<X, set<K>>, keys: set<X>, id: K)
    requires NoEmptyBuckets(objects)
    requires forall x :: x in keys ==> !Holds(objects, x, id)
    ensures BucketRemove(BucketAppend(objects, keys, id), keys, id) == objects
  {
    var r := BucketRemove(BucketAppend(objects, keys, id), keys, id);
    forall x, k ensures Holds(r, x, k) <==> Holds(objects, x, k) {
      if x in keys && k == id {
        assert !Holds(objects, x, id);
      }
    }
    BucketsExtensional(r, objects);
  }

  /** Picks some element of a non-empty set, as a `forEach` over a hash set reaches its elements in no stated order. */
  method PickKey<X>(s: set<X>) returns (x: X)
    requires s != {}
    ensures x in s
  {
    x :| x in s;
  }

  // ---------------------------------------------------------------------------
  // Range queries of sorted bucket indexes (TreeMap headMap / tailMap)
  // ---------------------------------------------------------------------------

  /** `headMap(key)`: ids under keys strictly less than `key`. */
  function IdsBefore<K(!new)>(objects: map<int, set<K>>, key: int): (r: set<K>)
    ensures forall k :: k in r <==> exists x :: x in objects && k in objects[x] && x < key
  {
    set x, k | x in objects && k in objects[x] && x < key :: k
  }

  /** `tailMap(key)`: ids under keys greater than or equal to `key`. */
  function IdsFrom<K(!new)>(objects: map<int, set<K>>, key: int): (r: set<K>)
    ensures forall k :: k in r <==> exists x :: x in objects && k in objects[x] && x >= key
  {
    set x, k | x in objects && k in objects[x] && x >= key :: k
  }

  // ---------------------------------------------------------------------------
  // Unique sorted indexes: key -> one id
  // ---------------------------------------------------------------------------

  /**
   * A unique index agrees with the cache when every key names a cached
   * entity filed under it, and every key of every cached entity is present
   * and names that entity. (So no two cached entities share a key.)
   */
  predicate UniqConsistent<K, T>(objects: map<int, K>, cache: map<K, T>, mapper: T -> set<int>)
  {
    && (forall x :: x in objects ==> objects[x] in cache && x in mapper(cache[objects[x]]))
    && (forall k, x :: k in cache && x in mapper(cache[k]) ==> x in objects && objects[x] == k)
  }

  /** A unique index that agrees with the cache maps each key to exactly one entity. */
  lemma UniqKeysAreUnique<K, T>(objects: map<int, K>, cache: map<K, T>, mapper: T -> set<int>, a: K, b: K, x: int)
    requires UniqConsistent(objects, cache, mapper)
    requires a in cache && b in cache && x in mapper(cache[a]) && x in mapper(cache[b])
    ensures a == b
  {
    assert objects[x] == a;
    assert objects[x] == b;
  }

  /** `append` of a unique index when none of the keys is taken. */
  function UniqAppend<K>(objects: map<int, K>, keys: set<int>, id: K): (r: map<int, K>)
    ensures r.Keys == objects.Keys + keys
    ensures forall x :: x in keys ==> r[x] == id
    ensures forall x :: x in objects && x !in keys ==> r[x] == objects[x]
  {
    map x | x in objects.Keys + keys :: if x in keys then id else objects[x]
  }

  /** The ids a unique index holds under keys at or above `key` (`tailMap(key).values()`). */
  function UniqFrom<K(!new)>(objects: map<int, K>, key: int): (r: set<K>)
    ensures forall k :: k in r <==> exists x :: x in objects && x >= key && objects[x] == k
  {
    set x | x in objects && x >= key :: objects[x]
  }

  /** The ids a unique index holds under keys strictly below `key` (`headMap(key).values()`). */
  function UniqBefore<K(!new)>(objects: map<int, K>, key: int): (r: set<K>)
    ensures forall k :: k in r <==> exists x :: x in objects && x < key && objects[x] == k
  {
    set x | x in objects && x < key :: objects[x]
  }

  /** On a unique index that agrees with the cache, the range queries select cached entities by their keys. */
  lemma UniqRanges<K(!new), T>(objects: map<int, K>, cache: map<K, T>, mapper: T -> set<int>, key: int)
    requires UniqConsistent(objects, cache, mapper)
    ensures forall k :: k in UniqFrom(objects, key) <==> k in cache && exists x :: x >= key && x in mapper(cache[k])
    ensures forall k :: k in UniqBefore(objects, key) <==> k in cache && exists x :: x < key && x in mapper(cache[k])
  {
    forall k ensures k in UniqFrom(objects, key) <==> k in cache && exists x :: x >= key && x in mapper(cache[k]) {
      if k in cache && exists x :: x >= key && x in mapper(cache[k]) {
        var x :| x >= key && x in mapper(cache[k]);
        assert x in objects && objects[x] == k;
      }
    }
    forall k ensures k in UniqBefore(objects, key) <==> k in cache && exists x :: x < key && x in mapper(cache[k]) {
      if k in cache && exists x :: x < key && x in mapper(cache[k]) {
        var x :| x < key && x in mapper(cache[k]);
        assert x in objects && objects[x] == k;
      }
    }
  }

  /** Some key two sets share. */
  ghost function Common<X>(s: set<X>, t: set<X>): (x: X)
    requires !(s !! t)
    ensures x in s && x in t
  {
    var x :| x in s && x in t; x
  }

  /** Inserting an entity whose keys are all free keeps a unique index in agreement with the cache. */
  lemma UniqInsert<K, T>(objects: map<int, K>, cache: map<K, T>, mapper: T -> set<int>, id: K, entity: T)
    requires UniqConsistent(objects, cache, mapper)
    requires id !in cache
    requires mapper(entity) !! objects.Keys
    ensures UniqConsistent(UniqAppend(objects, mapper(entity), id), cache[id := entity], mapper)
  {
  }

  /** Removing a cached entity's keys keeps a unique index in agreement with the smaller cache. */
  lemma UniqDelete<K, T>(objects: map<int, K>, cache: map<K, T>, mapper: T -> set<int>, id: K)
    requires UniqConsistent(objects, cache, mapper)
    requires id in cache
    ensures UniqConsistent(objects - mapper(cache[id]), cache - {id}, mapper)
  {
    var r := objects - mapper(cache[id]);
    forall k, x | k in cache - {id} && x in mapper((cache - {id})[k])
      ensures x in r && r[x] == k
    {
      assert objects[x] == k;
    }
  }
}
