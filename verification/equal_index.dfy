/**
 * The equality index (src/main/java/ru/keich/mon/servicemanager/store/IndexEqual.java):
 * a hash map from an index key to the set of ids of the entities filed under it.
 */
module EqualIndex {
  import opened Wrappers
  import opened IndexContents

  class IndexEqual<K(==,!new), T, X(==,!new)> {
    /** The keys an entity is filed under. */
    const mapper: T -> set<X>
    /** `getId()` of an entity. */
    const idOf: T -> K
    var objects: map<X, set<K>>

    /** No key is kept with an empty set of ids. */
    ghost predicate Valid()
      reads this
    {
      NoEmptyBuckets(objects)
    }

    constructor(mapper: T -> set<X>, idOf: T -> K)
      ensures this.mapper == mapper && this.idOf == idOf
      ensures objects == map[] && Valid()
    {
      this.mapper := mapper;
      this.idOf := idOf;
      objects := map[];
    }

    /** `append`: the entity's id is added under every key it maps to. */
    method Append(entity: T)
      requires Valid()
      modifies this
      ensures Valid()
      ensures objects == BucketAppend(old(objects), mapper(entity), idOf(entity))
    {
      var id := idOf(entity);
      var todo := mapper(entity);
      ghost var done: set<X> := {};
      BucketAppendNone(objects, id);
      while todo != {}
        invariant todo !! done && todo + done == mapper(entity)
        invariant objects == BucketAppend(old(objects), done, id)
        decreases todo
      {
        var key :| key in todo;
        BucketAppendStep(old(objects), done, key, id);
        if key in objects {
          objects := objects[key := objects[key] + {id}];
        } else {
          assert BucketGet(objects, key) + {id} == {id};
          objects := objects[key := {id}];
        }
        todo := todo - {key};
        done := done + {key};
      }
    }

    /** `remove`: the id leaves every key the entity maps to; a key left with no id is dropped. */
    method Remove(entity: T)
      requires Valid()
      modifies this
      ensures Valid()
      ensures objects == BucketRemove(old(objects), mapper(entity), idOf(entity))
    {
      var id := idOf(entity);
      var todo := mapper(entity);
      ghost var done: set<X> := {};
      while todo != {}
        invariant todo !! done && todo + done == mapper(entity)
        invariant objects == BucketRemove(old(objects), done, id)
        decreases todo
      {
        var key :| key in todo;
        BucketRemoveStep(old(objects), done, key, id);
        if key in objects {
          var ids := objects[key] - {id};
          if ids == {} {
            objects := objects - {key};
          } else {
            objects := objects[key := ids];
          }
        }
        todo := todo - {key};
        done := done + {key};
      }
    }

    /** `get`: the ids filed under the key, or none. */
    function Get(key: X): (r: set<K>)
      reads this
      ensures forall k :: k in r <==> Holds(objects, key, k)
    {
      BucketGet(objects, key)
    }

    /** `getBefore`: an equality index has no order, so the call always throws. */
    function GetBefore(key: X): (r: Result<set<K>>)
      ensures r.Err?
    {
      Err("UnsupportedOperationException")
    }

    /** `getAfter`: always throws, like `getBefore`. */
    function GetAfter(key: X): (r: Result<set<K>>)
      ensures r.Err?
    {
      Err("UnsupportedOperationException")
    }

    /**
     * `findByKey`: the ids under the keys the predicate accepts, cut to the
     * first `limit`; a negative limit makes the stream throw.
     */
    method FindByKey(limit: int, pred: X -> bool) returns (r: Result<seq<K>>)
      ensures r.Err? <==> limit < 0
      ensures r.Ok? ==> |r.value| <= limit
      ensures r.Ok? ==> forall k :: k in r.value ==> exists x :: pred(x) && Holds(objects, x, k)
      ensures r.Ok? && |r.value| < limit ==> forall x, k :: pred(x) && Holds(objects, x, k) ==> k in r.value
    {
      if limit < 0 {
        return Err("IllegalArgumentException");
      }
      var out: seq<K> := [];
      var todo := objects.Keys;
      while todo != {}
        invariant todo <= objects.Keys
        invariant forall k :: k in out ==> exists x :: pred(x) && Holds(objects, x, k)
        invariant forall x, k :: x !in todo && pred(x) && Holds(objects, x, k) ==> k in out
        decreases todo
      {
        var key :| key in todo;
        if pred(key) {
          var ids := objects[key];
          while ids != {}
            invariant ids <= objects[key]
            invariant forall k :: k in out ==> exists x :: pred(x) && Holds(objects, x, k)
            invariant forall x, k :: x !in todo && pred(x) && Holds(objects, x, k) ==> k in out
            invariant forall k :: k in objects[key] - ids ==> k in out
            decreases ids
          {
            var id :| id in ids;
            assert pred(key) && Holds(objects, key, id);
            out := out + [id];
            ids := ids - {id};
          }
        }
        todo := todo - {key};
      }
      if |out| <= limit {
        r := Ok(out);
      } else {
        assert forall k :: k in out[..limit] ==> k in out;
        r := Ok(out[..limit]);
      }
    }
  }
}
