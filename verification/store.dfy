/**
 * The indexed entity store (src/main/java/ru/keich/mon/servicemanager/store/IndexedHashMap.java):
 * a hash map from id to entity plus named secondary indexes that every put and
 * remove keeps in step with it.
 */
module Store {
  import opened Wrappers
  import opened IndexContents

  /** A key of an equality index: a string (source, sourceKey, name, a parent id) or a field entry. */
  datatype IndexKey = Text(text: string) | Entry(name: string, value: string)

  /** `IndexType` with the mapper passed to `createIndex`. */
  datatype IndexKind<!T> =
    | EQUAL(equalMapper: T -> set<IndexKey>)
    | SORTED(sortedMapper: T -> set<int>)
    | UNIQ_SORTED(uniqMapper: T -> set<int>)

  /** The state of one index: IndexEqual, IndexSorted or IndexSortedUniq. */
  datatype Index<K, !T> =
    | Equal(equalMapper: T -> set<IndexKey>, buckets: map<IndexKey, set<K>>)
    | Sorted(sortedMapper: T -> set<int>, sorted: map<int, set<K>>)
    | UniqSorted(uniqMapper: T -> set<int>, uniq: map<int, K>)

  /** A lookup key: an equality key, or the number a sorted index orders by. */
  datatype LookupKey = Key(key: IndexKey) | Number(n: int)

  /** A fresh index of the given kind holds nothing. */
  function NewIndex<K(!new), T>(kind: IndexKind<T>): (ix: Index<K, T>)
    ensures ix.Equal? <==> kind.EQUAL?
    ensures ix.Sorted? <==> kind.SORTED?
    ensures ix.UniqSorted? <==> kind.UNIQ_SORTED?
    ensures Agrees(ix, map[])
  {
    match kind
    case EQUAL(m) => Equal(m, map[])
    case SORTED(m) => Sorted(m, map[])
    case UNIQ_SORTED(m) => UniqSorted(m, map[])
  }

  /** The kind and mapper an index was created with. */
  function KindOf<K, T>(ix: Index<K, T>): IndexKind<T>
  {
    match ix
    case Equal(m, _) => EQUAL(m)
    case Sorted(m, _) => SORTED(m)
    case UniqSorted(m, _) => UNIQ_SORTED(m)
  }

  /** The index holds exactly what its mapper gives for the cached entities. */
  ghost predicate Agrees<K(!new), T>(ix: Index<K, T>, cache: map<K, T>)
  {
    match ix
    case Equal(m, b) => b == BucketsOf(cache, m)
    case Sorted(m, b) => b == BucketsOf(cache, m)
    case UniqSorted(m, u) => UniqConsistent(u, cache, m)
  }

  /** `append` of one index; a unique index throws on a taken key. */
  function IndexAppend<K(!new), T>(ix: Index<K, T>, entity: T, id: K): (r: Result<Index<K, T>>)
    ensures r.Err? <==> ix.UniqSorted? && !(ix.uniqMapper(entity) !! ix.uniq.Keys)
    ensures r.Ok? ==> KindOf(r.value) == KindOf(ix)
  {
    match ix
    case Equal(m, b) => Ok(Equal(m, BucketAppend(b, m(entity), id)))
    case Sorted(m, b) => Ok(Sorted(m, BucketAppend(b, m(entity), id)))
    case UniqSorted(m, u) =>
      if m(entity) !! u.Keys then Ok(UniqSorted(m, UniqAppend(u, m(entity), id)))
      else Err("UnsupportedOperationException")
  }

  /** `remove` of one index. */
  function IndexRemove<K(!new), T>(ix: Index<K, T>, entity: T, id: K): (r: Index<K, T>)
    ensures KindOf(r) == KindOf(ix)
  {
    match ix
    case Equal(m, b) => Equal(m, BucketRemove(b, m(entity), id))
    case Sorted(m, b) => Sorted(m, BucketRemove(b, m(entity), id))
    case UniqSorted(m, u) => UniqSorted(m, u - m(entity))
  }

  /** Appending an entity that is not cached yet keeps the index in agreement with the larger cache. */
  lemma AgreesAppend<K(!new), T>(ix: Index<K, T>, cache: map<K, T>, entity: T, id: K)
    requires Agrees(ix, cache) && id !in cache
    requires IndexAppend(ix, entity, id).Ok?
    ensures Agrees(IndexAppend(ix, entity, id).value, cache[id := entity])
  {
    match ix
    case Equal(m, b) => BucketsInsert(cache, m, id, entity);
    case Sorted(m, b) => BucketsInsert(cache, m, id, entity);
    case UniqSorted(m, u) => UniqInsert(u, cache, m, id, entity);
  }

  /** Removing a cached entity keeps the index in agreement with the smaller cache. */
  lemma AgreesRemove<K(!new), T>(ix: Index<K, T>, cache: map<K, T>, id: K)
    requires Agrees(ix, cache) && id in cache
    ensures Agrees(IndexRemove(ix, cache[id], id), cache - {id})
  {
    match ix
    case Equal(m, b) => BucketsDelete(cache, m, id);
    case Sorted(m, b) => BucketsDelete(cache, m, id);
    case UniqSorted(m, u) => UniqDelete(u, cache, m, id);
  }

  /** An equality or sorted index never rejects an entity. */
  lemma OnlyUniqueIndexesReject<K(!new), T>(ix: Index<K, T>, entity: T, id: K)
    ensures !ix.UniqSorted? ==> IndexAppend(ix, entity, id).Ok?
  {
  }

  /**
   * In a unique index that agrees with the cache, replacing the entity at `id`
   * is rejected exactly when the new entity shares a key with another cached
   * entity.
   */
  lemma UniqReplaceRejects<K(!new), T>(ix: Index<K, T>, cache: map<K, T>, id: K, entity: T)
    requires ix.UniqSorted? && Agrees(ix, cache) && id in cache
    ensures IndexAppend(IndexRemove(ix, cache[id], id), entity, id).Err?
        <==> exists other, x :: other in cache && other != id && x in ix.uniqMapper(entity) && x in ix.uniqMapper(cache[other])
  {
    var m := ix.uniqMapper;
    var rest := ix.uniq - m(cache[id]);
    UniqDelete(ix.uniq, cache, m, id);
    if !(m(entity) !! rest.Keys) {
      var x := Common(m(entity), rest.Keys);
      assert rest[x] in cache - {id} && x in m(cache[rest[x]]);
    }
    forall other, x | other in cache && other != id && x in m(entity) && x in m(cache[other])
      ensures !(m(entity) !! rest.Keys)
    {
      assert x in rest;
    }
  }

  /** Appending a new entity to every index keeps every index in agreement with the larger cache. */
  lemma AllAgreeAfterInsert<N, K(!new), T>(before: map<N, Index<K, T>>, after: map<N, Index<K, T>>,
                                        cache: map<K, T>, id: K, entity: T)
    requires forall n :: n in before ==> Agrees(before[n], cache)
    requires id !in cache && after.Keys == before.Keys
    requires forall n :: n in after ==> Ok(after[n]) == IndexAppend(before[n], entity, id)
    ensures forall n :: n in after ==> Agrees(after[n], cache[id := entity])
  {
    forall n | n in after ensures Agrees(after[n], cache[id := entity]) {
      AgreesAppend(before[n], cache, entity, id);
    }
  }

  /** Moving every index from the cached entity to its replacement keeps every index in agreement. */
  lemma AllAgreeAfterReplace<N, K(!new), T>(before: map<N, Index<K, T>>, after: map<N, Index<K, T>>,
                                         cache: map<K, T>, id: K, entity: T)
    requires forall n :: n in before ==> Agrees(before[n], cache)
    requires id in cache && after.Keys == before.Keys
    requires forall n :: n in after ==> Ok(after[n]) == IndexAppend(IndexRemove(before[n], cache[id], id), entity, id)
    ensures forall n :: n in after ==> Agrees(after[n], cache[id := entity])
  {
    forall n | n in after ensures Agrees(after[n], cache[id := entity]) {
      AgreesReplace(before[n], cache, id, entity);
    }
  }

  /** Removing the cached entity and appending its replacement keeps one index in agreement. */
  lemma AgreesReplace<K(!new), T>(ix: Index<K, T>, cache: map<K, T>, id: K, entity: T)
    requires Agrees(ix, cache) && id in cache
    requires IndexAppend(IndexRemove(ix, cache[id], id), entity, id).Ok?
    ensures Agrees(IndexAppend(IndexRemove(ix, cache[id], id), entity, id).value, cache[id := entity])
  {
    var rest := cache - {id};
    AgreesRemove(ix, cache, id);
    AgreesAppend(IndexRemove(ix, cache[id], id), rest, entity, id);
    assert rest[id := entity] == cache[id := entity];
  }

  class IndexedHashMap<N(==), K(==,!new), T> {
    /** `BaseEntity.getId()`. */
    const idOf: T -> K
    var cache: map<K, T>
    var index: map<N, Index<K, T>>
    /** The kind and mapper each index was created with. */
    ghost var kinds: map<N, IndexKind<T>>

    /**
     * Every entity is cached under its own id, every index agrees with the
     * cache and keeps the kind it was created with.
     */
    ghost predicate Valid()
      reads this
    {
      && (forall k :: k in cache ==> idOf(cache[k]) == k)
      && (forall n {:trigger Agrees(index[n], cache)} :: n in index ==> Agrees(index[n], cache))
      && kinds.Keys == index.Keys
      && (forall n {:trigger KindOf(index[n])} :: n in index ==> KindOf(index[n]) == kinds[n])
    }

    constructor(idOf: T -> K)
      ensures this.idOf == idOf && cache == map[] && index == map[] && kinds == map[]
      ensures Valid()
    {
      this.idOf := idOf;
      cache := map[];
      index := map[];
      kinds := map[];
    }

    /**
     * `createIndex`: the name now denotes a new, empty index of the kind,
     * replacing any index of that name. The new index is filled only by later
     * puts, so it agrees with the cache only when the cache is empty.
     */
    method CreateIndex(name: N, kind: IndexKind<T>)
      modifies this
      ensures cache == old(cache)
      ensures index == old(index)[name := NewIndex(kind)]
      ensures kinds == old(kinds)[name := kind]
      ensures old(Valid()) && cache == map[] ==> Valid()
    {
      index := index[name := NewIndex(kind)];
      kinds := kinds[name := kind];
      assert KindOf(index[name]) == kind;
    }

    /** `get`: the cached entity, if any. */
    function Get(id: K): (r: Option<T>)
      reads this
      ensures r.Some? <==> id in cache
      ensures r.Some? ==> r.value == cache[id]
    {
      if id in cache then Some(cache[id]) else None
    }

    /**
     * `indexGet`: the ids under the key. A missing index name is a null
     * dereference; a sorted index looked up with a non-number cannot compare it.
     * On a valid store, an equality index yields exactly the cached entities
     * its mapper files under the key.
     */
    function IndexGet(name: N, key: LookupKey): (r: Result<set<K>>)
      reads this
      ensures name !in index ==> r.Err?
      ensures name in index && index[name].Equal? ==> r.Ok?
      ensures name in index && index[name].Equal? && key.Number? ==> r == Ok({})
      ensures name in index && !index[name].Equal? ==> r.Ok? == key.Number?
      ensures Valid() && r.Ok? && index[name].Equal? && key.Key? ==>
        forall k :: k in r.value <==> k in cache && key.key in index[name].equalMapper(cache[k])
      ensures Valid() && r.Ok? && index[name].Sorted? ==>
        forall k :: k in r.value <==> k in cache && key.n in index[name].sortedMapper(cache[k])
      ensures Valid() && r.Ok? && index[name].UniqSorted? ==>
        forall k :: k in r.value <==> k in cache && key.n in index[name].uniqMapper(cache[k])
    {
      if name !in index then Err("NullPointerException")
      else
        assert Valid() ==> Agrees(index[name], cache);
        match (index[name], key)
        case (Equal(_, b), Key(x)) => Ok(BucketGet(b, x))
        case (Sorted(_, b), Number(n)) => Ok(BucketGet(b, n))
        case (UniqSorted(_, u), Number(n)) => Ok(if n in u then {u[n]} else {})
        case (Equal(_, _), Number(_)) => Ok({})
        case _ => Err("ClassCastException")
    }

    /**
     * `indexGetAfter`: the ids under keys at or above `n`. An equality index
     * throws. On a valid store these are the cached entities with such a key.
     */
    function IndexGetAfter(name: N, n: int): (r: Result<set<K>>)
      reads this
      ensures r.Ok? <==> name in index && !index[name].Equal?
      ensures Valid() && r.Ok? && index[name].Sorted? ==>
        forall k :: k in r.value <==> k in cache && exists x :: x >= n && x in index[name].sortedMapper(cache[k])
      ensures Valid() && r.Ok? && index[name].UniqSorted? ==>
        forall k :: k in r.value <==> k in cache && exists x :: x >= n && x in index[name].uniqMapper(cache[k])
    {
      if name !in index then Err("NullPointerException")
      else
        assert Valid() ==> Agrees(index[name], cache);
        match index[name]
        case Equal(_, _) => Err("UnsupportedOperationException")
        case Sorted(_, b) => Ok(IdsFrom(b, n))
        case UniqSorted(m, u) =>
          assert UniqConsistent(u, cache, m) ==> forall k :: k in UniqFrom(u, n) <==> k in cache && exists x :: x >= n && x in m(cache[k]) by {
            if UniqConsistent(u, cache, m) {
              UniqRanges(u, cache, m, n);
            }
          }
          Ok(UniqFrom(u, n))
    }

    /**
     * `indexGetBefore`: the ids under keys strictly below `n`. An equality
     * index throws. On a valid store these are the cached entities with such a key.
     */
    function IndexGetBefore(name: N, n: int): (r: Result<set<K>>)
      reads this
      ensures r.Ok? <==> name in index && !index[name].Equal?
      ensures Valid() && r.Ok? && index[name].Sorted? ==>
        forall k :: k in r.value <==> k in cache && exists x :: x < n && x in index[name].sortedMapper(cache[k])
      ensures Valid() && r.Ok? && index[name].UniqSorted? ==>
        forall k :: k in r.value <==> k in cache && exists x :: x < n && x in index[name].uniqMapper(cache[k])
    {
      if name !in index then Err("NullPointerException")
      else
        assert Valid() ==> Agrees(index[name], cache);
        match index[name]
        case Equal(_, _) => Err("UnsupportedOperationException")
        case Sorted(_, b) => Ok(IdsBefore(b, n))
        case UniqSorted(m, u) =>
          assert UniqConsistent(u, cache, m) ==> forall k :: k in UniqBefore(u, n) <==> k in cache && exists x :: x < n && x in m(cache[k]) by {
            if UniqConsistent(u, cache, m) {
              UniqRanges(u, cache, m, n);
            }
          }
          Ok(UniqBefore(u, n))
    }

    /**
     * The index loop of `put` for a new entity: append it to every index,
     * stopping at the first unique index that rejects it.
     */
    method AppendToIndexes(entity: T) returns (r: Result<()>)
      modifies this
      ensures cache == old(cache)
      ensures index.Keys == old(index.Keys)
      ensures kinds == old(kinds)
      ensures forall n {:trigger KindOf(index[n])} :: n in index ==> KindOf(index[n]) == KindOf(old(index)[n])
      ensures r.Ok? <==> forall n :: n in old(index) ==> IndexAppend(old(index)[n], entity, idOf(entity)).Ok?
      ensures r.Ok? ==> forall n :: n in index ==> Ok(index[n]) == IndexAppend(old(index)[n], entity, idOf(entity))
    {
      var names := index.Keys;
      while names != {}
        invariant names <= index.Keys == old(index.Keys)
        invariant cache == old(cache)
        invariant forall n :: n in index && n !in names ==> IndexAppend(old(index)[n], entity, idOf(entity)) == Ok(index[n])
        invariant forall n :: n in names ==> index[n] == old(index)[n]
        invariant forall n :: n in index ==> KindOf(index[n]) == KindOf(old(index)[n])
        invariant kinds == old(kinds)
        decreases names
      {
        var n :| n in names;
        var appended := IndexAppend(index[n], entity, idOf(entity));
        if appended.Err? {
          return Err(appended.error);
        }
        index := index[n := appended.value];
        names := names - {n};
      }
      return Ok(());
    }

    /**
     * The index loop of `put` for an update: in every index remove the old
     * entity and append the new one, stopping at the first unique index that
     * rejects it.
     */
    method MoveInIndexes(oldEntity: T, entity: T) returns (r: Result<()>)
      modifies this
      ensures cache == old(cache)
      ensures index.Keys == old(index.Keys)
      ensures kinds == old(kinds)
      ensures forall n {:trigger KindOf(index[n])} :: n in index ==> KindOf(index[n]) == KindOf(old(index)[n])
      ensures r.Ok? <==> forall n :: n in old(index) ==>
        IndexAppend(IndexRemove(old(index)[n], oldEntity, idOf(oldEntity)), entity, idOf(entity)).Ok?
      ensures r.Ok? ==> forall n :: n in index ==>
        Ok(index[n]) == IndexAppend(IndexRemove(old(index)[n], oldEntity, idOf(oldEntity)), entity, idOf(entity))
    {
      var names := index.Keys;
      while names != {}
        invariant names <= index.Keys == old(index.Keys)
        invariant cache == old(cache)
        invariant forall n :: n in index && n !in names ==>
          IndexAppend(IndexRemove(old(index)[n], oldEntity, idOf(oldEntity)), entity, idOf(entity)) == Ok(index[n])
        invariant forall n :: n in names ==> index[n] == old(index)[n]
        invariant forall n :: n in index ==> KindOf(index[n]) == KindOf(old(index)[n])
        invariant kinds == old(kinds)
        decreases names
      {
        var n :| n in names;
        var removed := IndexRemove(index[n], oldEntity, idOf(oldEntity));
        var appended := IndexAppend(removed, entity, idOf(entity));
        if appended.Err? {
          return Err(appended.error);
        }
        index := index[n := appended.value];
        names := names - {n};
      }
      return Ok(());
    }

    /**
     * `put`: with the id absent, the insert trigger's entity is stored and
     * appended to every index; with it present, the update trigger sees the
     * cached entity and, unless it declines, its result replaces it and every
     * index moves from the old entity to the new. `Some` says an entity was
     * stored, which is when the caller's `after` runs. A unique index that
     * already holds one of the new keys throws once the cache is written.
     */
    method Put(entityId: K, insert: Option<T>, update: T -> Option<T>) returns (r: Result<Option<T>>)
      requires Valid()
      modifies this
      ensures index.Keys == old(index.Keys)
      ensures kinds == old(kinds)
      ensures entityId !in old(cache) && insert.None? ==> r == Ok(None)
      ensures entityId in old(cache) && update(old(cache)[entityId]).None? ==> r == Ok(None)
      ensures r == Ok(None) ==> cache == old(cache) && index == old(index)
      ensures r.Ok? && r.value.Some? ==>
        && r.value == (if entityId in old(cache) then update(old(cache)[entityId]) else insert)
        && cache == old(cache)[entityId := r.value.value]
      ensures r.Err? ==>
        var e := if entityId in old(cache) then update(old(cache)[entityId]) else insert;
        e.Some? && cache == old(cache)[entityId := e.value]
      ensures r.Ok? && r.value.Some? && idOf(r.value.value) == entityId ==> Valid()
      ensures entityId !in old(cache) && insert.Some? && r.Ok? ==> r == Ok(insert)
      ensures entityId in old(cache) && update(old(cache)[entityId]).Some? && r.Ok? ==> r == Ok(update(old(cache)[entityId]))
      ensures entityId !in old(cache) && insert.Some? ==>
        (r.Ok? <==> forall n :: n in old(index) ==> IndexAppend(old(index)[n], insert.value, idOf(insert.value)).Ok?)
      ensures entityId in old(cache) && update(old(cache)[entityId]).Some? ==>
        (r.Ok? <==> forall n :: n in old(index) ==>
           IndexAppend(IndexRemove(old(index)[n], old(cache)[entityId], idOf(old(cache)[entityId])),
                       update(old(cache)[entityId]).value, idOf(update(old(cache)[entityId]).value)).Ok?)
    {
      if entityId in cache {
        var oldEntity := cache[entityId];
        var entity := update(oldEntity);
        if entity.None? {
          return Ok(None);
        }
        cache := cache[entityId := entity.value];
        var moved := MoveInIndexes(oldEntity, entity.value);
        if moved.Err? {
          return Err(moved.error);
        }
        r := Ok(entity);
        if idOf(entity.value) == entityId {
          AllAgreeAfterReplace(old(index), index, old(cache), entityId, entity.value);
        }
      } else {
        if insert.None? {
          return Ok(None);
        }
        var entity := insert.value;
        cache := cache[entityId := entity];
        var appended := AppendToIndexes(entity);
        if appended.Err? {
          return Err(appended.error);
        }
        r := Ok(insert);
        if idOf(entity) == entityId {
          AllAgreeAfterInsert(old(index), index, old(cache), entityId, entity);
        }
      }
    }

    /**
     * `remove`: the cached entity, now gone from the cache and from every
     * index; an absent id returns nothing and changes nothing.
     */
    method Remove(id: K) returns (r: Option<T>)
      requires Valid()
      modifies this
      ensures Valid()
      ensures r == old(Get(id))
      ensures cache == old(cache) - {id}
      ensures index.Keys == old(index.Keys)
      ensures kinds == old(kinds)
      ensures r.None? ==> index == old(index)
    {
      if id !in cache {
        assert cache == old(cache) - {id};
        return None;
      }
      var oldEntity := cache[id];
      assert idOf(oldEntity) == id;
      cache := cache - {id};
      var names := index.Keys;
      while names != {}
        invariant names <= index.Keys == old(index.Keys)
        invariant cache == old(cache) - {id}
        invariant forall n :: n in index && n !in names ==> index[n] == IndexRemove(old(index)[n], oldEntity, idOf(oldEntity))
        invariant forall n :: n in names ==> index[n] == old(index)[n]
        invariant kinds == old(kinds)
        decreases names
      {
        var n :| n in names;
        index := index[n := IndexRemove(index[n], oldEntity, idOf(oldEntity))];
        names := names - {n};
      }
      forall n | n in index ensures Agrees(index[n], cache) && KindOf(index[n]) == kinds[n] {
        AgreesRemove(old(index)[n], old(cache), id);
        assert KindOf(old(index)[n]) == kinds[n];
      }
      r := Some(oldEntity);
    }
  }
}
