/**
 * The unique sorted index (src/main/java/ru/keich/mon/servicemanager/store/IndexSortedUniq.java):
 * a tree map from an ordered key to exactly one id; filing a second id under
 * a taken key throws.
 */
module SortedUniqIndex {
  import opened Wrappers
  import opened IndexContents

  class IndexSortedUniq<K(==,!new), T> {
    const mapper: T -> set<int>
    const idOf: T -> K
    var objects: map<int, K>

    constructor(mapper: T -> set<int>, idOf: T -> K)
      ensures this.mapper == mapper && this.idOf == idOf
      ensures objects == map[]
    {
      this.mapper := mapper;
      this.idOf := idOf;
      objects := map[];
    }

    /**
     * `append`: every key of the entity now names its id. If one of them is
     * already taken the call throws when it reaches that key, leaving the keys
     * handled before it in place; ids already filed are never overwritten.
     */
    method Append(entity: T) returns (r: Result<()>)
      modifies this
      ensures r.Ok? <==> mapper(entity) !! old(objects).Keys
      ensures r.Ok? ==> objects == UniqAppend(old(objects), mapper(entity), idOf(entity))
      ensures old(objects).Keys <= objects.Keys <= old(objects).Keys + mapper(entity)
      ensures forall x :: x in old(objects) ==> objects[x] == old(objects)[x]
      ensures forall x :: x in objects && x !in old(objects) ==> objects[x] == idOf(entity)
    {
      var id := idOf(entity);
      var todo := mapper(entity);
      ghost var done: set<int> := {};
      assert UniqAppend(objects, {}, id) == objects;
      while todo != {}
        invariant todo !! done && todo + done == mapper(entity)
        invariant done !! old(objects).Keys
        invariant objects == UniqAppend(old(objects), done, id)
        decreases todo
      {
        var key := PickKey(todo);
        if key in objects {
          return Err("UnsupportedOperationException");
        }
        objects := objects[key := id];
        todo := todo - {key};
        done := done + {key};
        assert objects == UniqAppend(old(objects), done, id);
      }
      return Ok(());
    }

    /** `remove`: every key of the entity is dropped, whatever id it names. */
    method Remove(entity: T)
      modifies this
      ensures objects == old(objects) - mapper(entity)
    {
      var todo := mapper(entity);
      while todo != {}
        invariant todo <= mapper(entity)
        invariant objects == old(objects) - (mapper(entity) - todo)
        decreases todo
      {
        var key := PickKey(todo);
        objects := objects - {key};
        todo := todo - {key};
      }
    }

    /** `get`: the single id under the key, or none. */
    function Get(key: int): (r: set<K>)
      reads this
      ensures |r| <= 1
      ensures forall k :: k in r <==> key in objects && objects[key] == k
    {
      if key in objects then {objects[key]} else {}
    }

    /** `getBefore` (`headMap`): the ids under keys strictly below `key`. */
    function GetBefore(key: int): (r: set<K>)
      reads this
      ensures forall k :: k in r <==> exists x :: x in objects && x < key && objects[x] == k
    {
      set x | x in objects && x < key :: objects[x]
    }

    /** `getAfter` (`tailMap`): the ids under keys at or above `key`. */
    function GetAfter(key: int): (r: set<K>)
      reads this
      ensures forall k :: k in r <==> exists x :: x in objects && x >= key && objects[x] == k
    {
      set x | x in objects && x >= key :: objects[x]
    }

    /** Appending a fresh entity and removing it again restores the index. */
    lemma AppendThenRemove(before: map<int, K>, entity: T)
      requires mapper(entity) !! before.Keys
      ensures UniqAppend(before, mapper(entity), idOf(entity)) - mapper(entity) == before
    {
    }
  }
}
