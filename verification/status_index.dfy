/**
 * The status index (src/main/java/ru/keich/mon/servicemanager/store/IndexStatus.java):
 * one bucket of ids per status, six in all, in an array indexed by the
 * status number.
 */
module StatusIndex {
  import opened Status

  class IndexStatus<K(==,!new), T> {
    const mapper: T -> set<BaseStatus>
    const idOf: T -> K
    /** Bucket i holds the ids filed under the status numbered i. */
    const objects: array<set<K>>
    var metricObjectsSize: int

    /** Exactly one bucket per status. */
    ghost predicate Valid()
      reads this
    {
      objects.Length == Length
    }

    constructor(mapper: T -> set<BaseStatus>, idOf: T -> K)
      ensures Valid() && fresh(objects)
      ensures this.mapper == mapper && this.idOf == idOf
      ensures forall i :: 0 <= i < Length ==> objects[i] == {}
      ensures metricObjectsSize == Length
    {
      this.mapper := mapper;
      this.idOf := idOf;
      metricObjectsSize := Length;
      objects := new set<K>[Length](_ => {});
    }

    /** `append`: the id joins the bucket of every status the entity maps to. */
    method Append(entity: T)
      requires Valid()
      modifies objects
      ensures forall i :: 0 <= i < Length ==>
        objects[i] == old(objects[i]) + (if FromInteger(i) in mapper(entity) then {idOf(entity)} else {})
    {
      var id := idOf(entity);
      var todo := mapper(entity);
      ghost var done: set<BaseStatus> := {};
      while todo != {}
        invariant todo !! done && todo + done == mapper(entity)
        invariant forall i :: 0 <= i < Length ==>
          objects[i] == old(objects[i]) + (if FromInteger(i) in done then {id} else {})
        decreases todo
      {
        var key :| key in todo;
        FromIntegerOrdinal(key);
        objects[Ordinal(key)] := objects[Ordinal(key)] + {id};
        todo := todo - {key};
        done := done + {key};
      }
    }

    /** `remove`: the id leaves the bucket of every status the entity maps to. */
    method Remove(entity: T)
      requires Valid()
      modifies objects
      ensures forall i :: 0 <= i < Length ==>
        objects[i] == old(objects[i]) - (if FromInteger(i) in mapper(entity) then {idOf(entity)} else {})
    {
      var id := idOf(entity);
      var todo := mapper(entity);
      ghost var done: set<BaseStatus> := {};
      while todo != {}
        invariant todo !! done && todo + done == mapper(entity)
        invariant forall i :: 0 <= i < Length ==>
          objects[i] == old(objects[i]) - (if FromInteger(i) in done then {id} else {})
        decreases todo
      {
        var key :| key in todo;
        FromIntegerOrdinal(key);
        objects[Ordinal(key)] := objects[Ordinal(key)] - {id};
        todo := todo - {key};
        done := done + {key};
      }
    }

    /** `get`: a copy of the status's bucket. */
    function Get(s: BaseStatus): (r: set<K>)
      requires Valid()
      reads this, objects
      ensures forall k :: k in r <==> k in objects[Ordinal(s)]
    {
      objects[Ordinal(s)]
    }

    /** `findByKey`: the union of the buckets of the statuses the predicate accepts. */
    method FindByKey(pred: BaseStatus -> bool) returns (r: set<K>)
      requires Valid()
      ensures forall k :: k in r <==> exists i :: 0 <= i < Length && pred(FromInteger(i)) && k in objects[i]
    {
      r := {};
      var i := 0;
      while i < Length
        invariant 0 <= i <= Length
        invariant forall k :: k in r <==> exists j :: 0 <= j < i && pred(FromInteger(j)) && k in objects[j]
      {
        if pred(FromInteger(i)) {
          r := r + objects[i];
        }
        i := i + 1;
      }
    }

    /** `getBefore`: the union of the buckets of the statuses strictly below `s`. */
    method GetBefore(s: BaseStatus) returns (r: set<K>)
      requires Valid()
      ensures forall k :: k in r <==> exists i :: 0 <= i < Ordinal(s) && k in objects[i]
    {
      r := {};
      var i := 0;
      while i < Ordinal(s)
        invariant 0 <= i <= Ordinal(s)
        invariant forall k :: k in r <==> exists j :: 0 <= j < i && k in objects[j]
      {
        r := r + objects[i];
        i := i + 1;
      }
    }

    /** `getAfterEqual`: the union of the buckets of `s` and the statuses above it. */
    method GetAfterEqual(s: BaseStatus) returns (r: set<K>)
      requires Valid()
      ensures forall k :: k in r <==> exists i :: Ordinal(s) <= i < Length && k in objects[i]
    {
      r := {};
      var i := Ordinal(s);
      while i < Length
        invariant Ordinal(s) <= i <= Length
        invariant forall k :: k in r <==> exists j :: Ordinal(s) <= j < i && k in objects[j]
      {
        r := r + objects[i];
        i := i + 1;
      }
    }

    /** `getAfterFirst`: the bucket of the next status up; none above CRITICAL. */
    function GetAfterFirst(s: BaseStatus): (r: set<K>)
      requires Valid()
      reads this, objects
      ensures s == CRITICAL ==> r == {}
      ensures s != CRITICAL ==> r == objects[Ordinal(s) + 1]
    {
      var idx := Ordinal(s) + 1;
      if idx < Length then objects[idx] else {}
    }

    /** `valueSet`: every id in any bucket. */
    method ValueSet() returns (r: set<K>)
      requires Valid()
      ensures forall k :: k in r <==> exists i :: 0 <= i < Length && k in objects[i]
    {
      r := {};
      var i := 0;
      while i < Length
        invariant 0 <= i <= Length
        invariant forall k :: k in r <==> exists j :: 0 <= j < i && k in objects[j]
      {
        r := r + objects[i];
        i := i + 1;
      }
    }

    /**
     * `removeOldAndAppend`: the new entity's id leaves the buckets of the
     * statuses only the old entity maps to and joins those only the new one
     * maps to; buckets both map to are left alone. When the id sat exactly in
     * the old entity's buckets, it ends up exactly in the new entity's, and no
     * other id moves.
     */
    method RemoveOldAndAppend(oldEntity: T, newEntity: T)
      requires Valid()
      modifies objects
      ensures forall i :: 0 <= i < Length ==>
        objects[i] == (old(objects[i])
          - (if FromInteger(i) in mapper(oldEntity) - mapper(newEntity) then {idOf(newEntity)} else {}))
          + (if FromInteger(i) in mapper(newEntity) - mapper(oldEntity) then {idOf(newEntity)} else {})
      ensures forall i, k :: 0 <= i < Length && k != idOf(newEntity) ==> (k in objects[i] <==> k in old(objects[i]))
      ensures (forall i :: 0 <= i < Length ==> (idOf(newEntity) in old(objects[i]) <==> FromInteger(i) in mapper(oldEntity)))
        ==> forall i :: 0 <= i < Length ==> (idOf(newEntity) in objects[i] <==> FromInteger(i) in mapper(newEntity))
    {
      var id := idOf(newEntity);
      var oldSet := mapper(oldEntity);
      var newSet := mapper(newEntity);
      var todo := oldSet;
      ghost var done: set<BaseStatus> := {};
      while todo != {}
        invariant todo !! done && todo + done == oldSet
        invariant forall i :: 0 <= i < Length ==>
          objects[i] == old(objects[i]) - (if FromInteger(i) in done - newSet then {id} else {})
        decreases todo
      {
        var key :| key in todo;
        FromIntegerOrdinal(key);
        if key !in newSet {
          objects[Ordinal(key)] := objects[Ordinal(key)] - {id};
        }
        todo := todo - {key};
        done := done + {key};
      }
      ghost var removed := objects[..];
      todo := newSet;
      done := {};
      while todo != {}
        invariant todo !! done && todo + done == newSet
        invariant forall i :: 0 <= i < Length ==>
          objects[i] == removed[i] + (if FromInteger(i) in done - oldSet then {id} else {})
        decreases todo
      {
        var key :| key in todo;
        FromIntegerOrdinal(key);
        if key !in oldSet {
          objects[Ordinal(key)] := objects[Ordinal(key)] + {id};
        }
        todo := todo - {key};
        done := done + {key};
      }
    }
  }
}
