/**
 * The unique Long index (src/main/java/ru/keich/mon/servicemanager/store/IndexLongUniq.java):
 * a tree map from one integer key per entity to its id, with a gauge that
 * reports the number of keys.
 */
module LongUniqIndex {
  import opened Wrappers
  import opened IndexContents

  class IndexLongUniq<K(==,!new), T> {
    const mapper: T -> int
    const idOf: T -> K
    var objects: map<int, K>
    var metricObjectsSize: int

    constructor(mapper: T -> int, idOf: T -> K)
      ensures this.mapper == mapper && this.idOf == idOf
      ensures objects == map[] && metricObjectsSize == 0
    {
      this.mapper := mapper;
      this.idOf := idOf;
      objects := map[];
      metricObjectsSize := 0;
    }

    /**
     * `append`: the entity's key now names its id and the gauge shows the new
     * size; a taken key throws before anything changes.
     */
    method Append(entity: T) returns (r: Result<()>)
      modifies this
      ensures r.Err? <==> mapper(entity) in old(objects)
      ensures r.Err? ==> objects == old(objects) && metricObjectsSize == old(metricObjectsSize)
      ensures r.Ok? ==> objects == old(objects)[mapper(entity) := idOf(entity)]
      ensures r.Ok? ==> metricObjectsSize == |objects| == |old(objects)| + 1
    {
      var key := mapper(entity);
      if key in objects {
        return Err("UnsupportedOperationException");
      }
      objects := objects[key := idOf(entity)];
      metricObjectsSize := |objects|;
      r := Ok(());
    }

    /** `remove`: the entity's key is dropped, whatever id it names, and the gauge shows the new size. */
    method Remove(entity: T)
      modifies this
      ensures objects == old(objects) - {mapper(entity)}
      ensures metricObjectsSize == |objects|
    {
      objects := objects - {mapper(entity)};
      metricObjectsSize := |objects|;
    }

    /** `findByKey`: the ids whose key the predicate accepts. */
    method FindByKey(pred: int -> bool) returns (r: set<K>)
      ensures forall k :: k in r <==> exists x :: x in objects && pred(x) && objects[x] == k
    {
      r := {};
      var todo := objects.Keys;
      while todo != {}
        invariant todo <= objects.Keys
        invariant forall k :: k in r <==> exists x :: x in objects && x !in todo && pred(x) && objects[x] == k
        decreases todo
      {
        var x := PickKey(todo);
        if pred(x) {
          r := r + {objects[x]};
        }
        todo := todo - {x};
      }
    }

    /** `get`: the single id under the key, or none. */
    function Get(key: int): (r: set<K>)
      reads this
      ensures |r| <= 1
      ensures forall k :: k in r <==> key in objects && objects[key] == k
    {
      if key in objects then {objects[key]} else {}
    }

    /** `getBefore` (`headMap`): the ids under keys strictly below `key`. */
    method GetBefore(key: int) returns (r: set<K>)
      ensures forall k :: k in r <==> exists x :: x in objects && x < key && objects[x] == k
    {
      r := {};
      var todo := objects.Keys;
      while todo != {}
        invariant todo <= objects.Keys
        invariant forall k :: k in r <==> exists x :: x in objects && x !in todo && x < key && objects[x] == k
        decreases todo
      {
        var x := PickKey(todo);
        if x < key {
          r := r + {objects[x]};
        }
        todo := todo - {x};
      }
    }

    /** `getAfterEqual` (`tailMap`): the ids under keys at or above `key`. */
    method GetAfterEqual(key: int) returns (r: set<K>)
      ensures forall k :: k in r <==> exists x :: x in objects && x >= key && objects[x] == k
    {
      r := {};
      var todo := objects.Keys;
      while todo != {}
        invariant todo <= objects.Keys
        invariant forall k :: k in r <==> exists x :: x in objects && x !in todo && x >= key && objects[x] == k
        decreases todo
      {
        var x := PickKey(todo);
        if x >= key {
          r := r + {objects[x]};
        }
        todo := todo - {x};
      }
    }

    /** `getAfterFirst`: the id under the smallest key at or above `key`, or none. */
    method GetAfterFirst(key: int) returns (r: set<K>)
      ensures r == {} <==> forall x :: x in objects ==> x < key
      ensures r != {} ==> exists x :: x in objects && x >= key && r == {objects[x]}
                                   && forall y :: y in objects && y >= key ==> x <= y
    {
      var found := false;
      var least := key;
      var todo := objects.Keys;
      while todo != {}
        invariant todo <= objects.Keys
        invariant found ==> least in objects && least >= key
        invariant found ==> forall y :: y in objects && y !in todo && y >= key ==> least <= y
        invariant !found ==> forall y :: y in objects && y !in todo ==> y < key
        decreases todo
      {
        var x := PickKey(todo);
        if x >= key && (!found || x < least) {
          found := true;
          least := x;
        }
        todo := todo - {x};
      }
      if found {
        r := {objects[least]};
      } else {
        r := {};
      }
    }

    /** `valueSet`: every id in the index. */
    function ValueSet(): (r: set<K>)
      reads this
      ensures forall k :: k in r <==> exists x :: x in objects && objects[x] == k
    {
      set x | x in objects :: objects[x]
    }

    /**
     * `removeOldAndAppend`: with the key unchanged only the gauge is refreshed;
     * otherwise the old key is dropped and the new key names the new entity's
     * id. A taken new key throws after the old key is gone, before the gauge is
     * refreshed.
     */
    method RemoveOldAndAppend(oldEntity: T, newEntity: T) returns (r: Result<()>)
      modifies this
      ensures mapper(oldEntity) == mapper(newEntity) ==> r.Ok? && objects == old(objects)
      ensures r.Err? <==> mapper(oldEntity) != mapper(newEntity) && mapper(newEntity) in old(objects)
      ensures r.Err? ==> objects == old(objects) - {mapper(oldEntity)} && metricObjectsSize == old(metricObjectsSize)
      ensures r.Ok? && mapper(oldEntity) != mapper(newEntity) ==>
        objects == (old(objects) - {mapper(oldEntity)})[mapper(newEntity) := idOf(newEntity)]
      ensures r.Ok? ==> metricObjectsSize == |objects|
    {
      var id := idOf(newEntity);
      var oldVal := mapper(oldEntity);
      var newVal := mapper(newEntity);
      if oldVal != newVal {
        objects := objects - {oldVal};
        if newVal in objects {
          return Err("UnsupportedOperationException");
        }
        objects := objects[newVal := id];
      }
      metricObjectsSize := |objects|;
      r := Ok(());
    }
  }
}
