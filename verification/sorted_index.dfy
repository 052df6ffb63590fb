/**
 * The sorted index (src/main/java/ru/keich/mon/servicemanager/store/IndexSorted.java):
 * a tree map from an ordered key to the set of ids filed under it, with
 * range queries. Keys are integers (versions, and instants as epoch counts).
 */
module SortedIndex {
  import opened IndexContents

  class IndexSorted<K(==,!new), T> {
    const mapper: T -> set<int>
    const idOf: T -> K
    var objects: map<int, set<K>>

    /** No key is kept with an empty set of ids. */
    ghost predicate Valid()
      reads this
    {
      NoEmptyBuckets(objects)
    }

    constructor(mapper: T -> set<int>, idOf: T -> K)
      ensures this.mapper == mapper && this.idOf == idOf
      ensures objects == map[] && Valid()
    {
      this.mapper := mapper;
      this.idOf := idOf;
      objects := map[];
    }

    /** `append`: the entity's id is added under every key it maps to. */
    method Append(entity: T)
      requires Valid()
      modifies this
      ensures Valid()
      ensures objects == BucketAppend(old(objects), mapper(entity), idOf(entity))
    {
      var id := idOf(entity);
      var todo := mapper(entity);
      ghost var done: set<int> := {};
      BucketAppendNone(objects, id);
      while todo != {}
        invariant todo !! done && todo + done == mapper(entity)
        invariant objects == BucketAppend(old(objects), done, id)
        decreases todo
      {
        var key := PickKey(todo);
        BucketAppendStep(old(objects), done, key, id);
        if key in objects {
          objects := objects[key := objects[key] + {id}];
        } else {
          assert BucketGet(objects, key) + {id} == {id};
          objects := objects[key := {id}];
        }
        todo := todo - {key};
        done := done + {key};
      }
    }

    /** `remove`: the id leaves every key the entity maps to; an emptied key is dropped. */
    method Remove(entity: T)
      requires Valid()
      modifies this
      ensures Valid()
      ensures objects == BucketRemove(old(objects), mapper(entity), idOf(entity))
    {
      var id := idOf(entity);
      var todo := mapper(entity);
      ghost var done: set<int> := {};
      while todo != {}
        invariant todo !! done && todo + done == mapper(entity)
        invariant objects == BucketRemove(old(objects), done, id)
        decreases todo
      {
        var key := PickKey(todo);
        BucketRemoveStep(old(objects), done, key, id);
        if key in objects {
          var ids := objects[key] - {id};
          if ids == {} {
            objects := objects - {key};
          } else {
            objects := objects[key := ids];
          }
        }
        todo := todo - {key};
        done := done + {key};
      }
    }

    /** `get`: the ids at exactly this key, or none. */
    function Get(key: int): (r: set<K>)
      reads this
      ensures forall k :: k in r <==> Holds(objects, key, k)
    {
      BucketGet(objects, key)
    }

    /** `getBefore` (`headMap`): the ids under keys strictly below `key`. */
    function GetBefore(key: int): (r: set<K>)
      reads this
      ensures forall k :: k in r <==> exists x :: x in objects && k in objects[x] && x < key
    {
      IdsBefore(objects, key)
    }

    /** `getAfter` (`tailMap`): the ids under keys at or above `key`. */
    function GetAfter(key: int): (r: set<K>)
      reads this
      ensures forall k :: k in r <==> exists x :: x in objects && k in objects[x] && x >= key
    {
      IdsFrom(objects, key)
    }

    /** The two range queries split the index at any key: together they hold every id, apart they share only ids filed under keys on both sides. */
    lemma RangesCover(key: int)
      ensures forall k, x :: Holds(objects, x, k) ==> k in GetBefore(key) + GetAfter(key)
      ensures forall x :: x in objects && x < key ==> objects[x] <= GetBefore(key)
      ensures forall x :: x in objects && x >= key ==> objects[x] <= GetAfter(key)
    {
    }
  }
}
