/**
 * The entity service (src/main/java/ru/keich/mon/servicemanager/entity/EntityService.java):
 * an indexed store of entities with a version counter, deletion by id, by a
 * list of ids and by source generation, and an AND-only query.
 */
module EntityServices {
  import opened Wrappers
  import opened IndexContents
  import opened Store
  import opened Entities
  import opened QueryFilter
  import opened EntityQueries

  /**
   * The names of the entity store's indexes: the five the entity service
   * creates and the three the item service adds.
   */
  datatype IndexName = VERSION | SOURCE | SOURCE_KEY | DELETED_ON | FIELDS | FILTERS_EQL | PARENTS | NAME

  /** The mappers the constructor passes to `createIndex`. */
  function IdOf<T>(baseOf: T -> Entity): (f: T -> string)
  {
    t => baseOf(t).id
  }

  function VersionMapper<T>(baseOf: T -> Entity): (f: T -> set<int>)
  {
    t => VersionKeys(baseOf(t))
  }

  function SourceMapper<T>(baseOf: T -> Entity): (f: T -> set<IndexKey>)
  {
    t => SourceKeys(baseOf(t))
  }

  function SourceKeyMapper<T>(baseOf: T -> Entity): (f: T -> set<IndexKey>)
  {
    t => SourceKeyKeys(baseOf(t))
  }

  function DeletedOnMapper<T>(baseOf: T -> Entity): (f: T -> set<int>)
  {
    t => DeletedOnKeys(baseOf(t))
  }

  function FieldsMapper<T>(baseOf: T -> Entity): (f: T -> set<IndexKey>)
  {
    t => FieldKeys(baseOf(t))
  }

  /** Each index has the kind and the mapper the constructor gave it. */
  ghost predicate Shaped<T>(kinds: map<IndexName, IndexKind<T>>, baseOf: T -> Entity)
  {
    && {VERSION, SOURCE, SOURCE_KEY, DELETED_ON, FIELDS} <= kinds.Keys
    && kinds[VERSION] == UNIQ_SORTED(VersionMapper(baseOf))
    && kinds[SOURCE] == EQUAL(SourceMapper(baseOf))
    && kinds[SOURCE_KEY] == EQUAL(SourceKeyMapper(baseOf))
    && kinds[DELETED_ON] == SORTED(DeletedOnMapper(baseOf))
    && kinds[FIELDS] == EQUAL(FieldsMapper(baseOf))
  }

  /** The ids of `source` whose source key is not `sourceKey`: what a prune deletes. */
  function Stale<T>(cache: map<string, T>, baseOf: T -> Entity, source: string, sourceKey: string): (r: set<string>)
    ensures forall id :: id in r <==>
      id in cache && baseOf(cache[id]).source == source && baseOf(cache[id]).sourceKey != sourceKey
  {
    set id | id in cache && baseOf(cache[id]).source == source && baseOf(cache[id]).sourceKey != sourceKey
  }

  /** The cache after a prune of `source` down to generation `sourceKey`. */
  function Prune<T>(cache: map<string, T>, baseOf: T -> Entity, source: string, sourceKey: string): (r: map<string, T>)
    ensures r.Keys <= cache.Keys
    ensures forall id :: id in r ==> r[id] == cache[id]
  {
    cache - Stale(cache, baseOf, source, sourceKey)
  }

  /** A prune never touches an entity of another source. */
  lemma PruneKeepsOtherSources<T>(cache: map<string, T>, baseOf: T -> Entity, source: string, sourceKey: string, id: string)
    requires id in cache && baseOf(cache[id]).source != source
    ensures id in Prune(cache, baseOf, source, sourceKey)
  {
  }

  /** Within the source, exactly the entities of generation `sourceKey` survive. */
  lemma PruneKeepsGeneration<T>(cache: map<string, T>, baseOf: T -> Entity, source: string, sourceKey: string, id: string)
    requires id in cache && baseOf(cache[id]).source == source
    ensures id in Prune(cache, baseOf, source, sourceKey) <==> baseOf(cache[id]).sourceKey == sourceKey
  {
  }

  /** Pruning twice with the same arguments deletes nothing more. */
  lemma PruneIdempotent<T>(cache: map<string, T>, baseOf: T -> Entity, source: string, sourceKey: string)
    ensures Prune(Prune(cache, baseOf, source, sourceKey), baseOf, source, sourceKey) == Prune(cache, baseOf, source, sourceKey)
  {
    var p := Prune(cache, baseOf, source, sourceKey);
    assert Stale(p, baseOf, source, sourceKey) == {};
  }

  /**
   * The ids `deleteByIds` deletes, in list order: each listed id that is
   * cached and not listed earlier.
   */
  function Removed<T>(cache: map<string, T>, ids: seq<string>): (d: seq<string>)
    ensures |d| <= |ids|
  {
    if ids == [] then []
    else
      var earlier := ids[..|ids| - 1];
      var x := ids[|ids| - 1];
      Removed(cache, earlier) + (if x in cache && x !in earlier then [x] else [])
  }

  /**
   * Exactly the listed ids that were cached are deleted, each once.
   */
  lemma {:induction false} RemovedExact<T>(cache: map<string, T>, ids: seq<string>)
    ensures forall i :: 0 <= i < |Removed(cache, ids)| ==> Removed(cache, ids)[i] in cache && Removed(cache, ids)[i] in ids
    ensures forall i, j :: 0 <= i < j < |Removed(cache, ids)| ==> Removed(cache, ids)[i] != Removed(cache, ids)[j]
    ensures forall x :: x in ids && x in cache ==> x in Removed(cache, ids)
  {
    if ids != [] {
      var earlier := ids[..|ids| - 1];
      var x := ids[|ids| - 1];
      RemovedExact(cache, earlier);
      var d := Removed(cache, earlier);
      assert forall y :: y in ids <==> y in earlier || y == x by {
        assert ids == earlier + [x];
      }
      if x in cache && x !in earlier {
        assert x !in d;
        assert Removed(cache, ids) == d + [x];
      }
    }
  }

  /** The ids a list holds. */
  function Elems(ids: seq<string>): (r: set<string>)
    ensures forall x :: x in r <==> x in ids
  {
    set x | x in ids
  }

  /** One more id of the list is gone. */
  lemma DeleteStep(ids: seq<string>, i: int)
    requires 0 <= i < |ids|
    ensures Elems(ids[..i]) + {ids[i]} == Elems(ids[..i + 1])
  {
    assert ids[..i + 1] == ids[..i] + [ids[i]];
  }

  /** A list without repeats has as many elements as it has distinct ids. */
  lemma {:induction false} DistinctCard(s: seq<string>)
    requires forall i, j :: 0 <= i < j < |s| ==> s[i] != s[j]
    ensures |Elems(s)| == |s|
  {
    if s != [] {
      DistinctCard(s[1..]);
      assert Elems(s) == Elems(s[1..]) + {s[0]};
      assert s[0] !in Elems(s[1..]);
    }
  }

  /**
   * `isEntityEqual`: the hash codes first, then `equals`. When equal values
   * hash alike, as Java's contract for `hashCode` demands, this is `equals` itself.
   */
  function IsEntityEqual<T(!new)>(stored: T, entity: T, hash: T -> int, equals: (T, T) -> bool): (r: bool)
    ensures r ==> equals(stored, entity)
    ensures (forall a, b :: equals(a, b) ==> hash(a) == hash(b)) ==> (r <==> equals(stored, entity))
  {
    hash(stored) == hash(entity) && equals(stored, entity)
  }

  class EntityService<T(!new)> {
    /** The entity part of a stored value. */
    const baseOf: T -> Entity
    const entityCache: IndexedHashMap<IndexName, string, T>
    var incrementVersion: int

    ghost predicate Valid()
      reads this, entityCache
    {
      && entityCache.Valid()
      && entityCache.idOf == IdOf(baseOf)
      && Shaped(entityCache.kinds, baseOf)
      && incrementVersion >= 1
    }

    /** The constructor creates the five indexes over an empty cache; versions start at 1. */
    constructor(baseOf: T -> Entity)
      ensures Valid() && fresh(entityCache)
      ensures this.baseOf == baseOf && entityCache.cache == map[] && incrementVersion == 1
    {
      this.baseOf := baseOf;
      var c := new IndexedHashMap<IndexName, string, T>(IdOf(baseOf));
      entityCache := c;
      incrementVersion := 1;
      new;
      c.CreateIndex(VERSION, UNIQ_SORTED(VersionMapper(baseOf)));
      c.CreateIndex(SOURCE, EQUAL(SourceMapper(baseOf)));
      c.CreateIndex(SOURCE_KEY, EQUAL(SourceKeyMapper(baseOf)));
      c.CreateIndex(DELETED_ON, SORTED(DeletedOnMapper(baseOf)));
      c.CreateIndex(FIELDS, EQUAL(FieldsMapper(baseOf)));
    }

    /** `getNextVersion`: the counter's value, after which it moves on by one. */
    method GetNextVersion() returns (v: int)
      requires Valid()
      modifies this
      ensures Valid()
      ensures v == old(incrementVersion) && v >= 1
      ensures incrementVersion == v + 1
    {
      v := incrementVersion;
      incrementVersion := incrementVersion + 1;
    }

    /** `findById`. */
    function FindById(id: string): (r: Option<T>)
      reads this, entityCache
      ensures r.Some? <==> id in entityCache.cache
      ensures r.Some? ==> r.value == entityCache.cache[id]
    {
      entityCache.Get(id)
    }

    /** `deleteById`: the removed entity, if there was one. */
    method DeleteById(id: string) returns (r: Option<T>)
      requires Valid()
      modifies entityCache
      ensures Valid()
      ensures r == old(FindById(id))
      ensures entityCache.cache == old(entityCache.cache) - {id}
    {
      r := entityCache.Remove(id);
    }

    /** `deleteByIds`: deletes each listed id and returns the entities that were present, in list order. */
    method DeleteByIds(ids: seq<string>) returns (r: seq<T>)
      requires Valid()
      modifies entityCache
      ensures Valid()
      ensures entityCache.cache == old(entityCache.cache) - Elems(ids)
      ensures var d := Removed(old(entityCache.cache), ids);
        |r| == |d| && forall i :: 0 <= i < |r| ==> d[i] in old(entityCache.cache) && r[i] == old(entityCache.cache)[d[i]]
    {
      ghost var start := entityCache.cache;
      ghost var done: seq<string> := [];
      r := [];
      var i := 0;
      while i < |ids|
        invariant 0 <= i <= |ids|
        invariant Valid()
        invariant entityCache.cache == start - Elems(ids[..i])
        invariant done == Removed(start, ids[..i])
        invariant |r| == |done| && forall j :: 0 <= j < |r| ==> done[j] in start && r[j] == start[done[j]]
      {
        var e := DeleteById(ids[i]);
        DeleteStep(ids, i);
        assert ids[..i + 1][..i] == ids[..i];
        if e.Some? {
          done := done + [ids[i]];
          r := r + [e.value];
        }
        i := i + 1;
      }
      assert ids[..i] == ids;
    }

    /** The source index lists exactly the cached entities of a source. */
    lemma SourceIndexLists(source: string)
      requires Valid()
      ensures entityCache.IndexGet(SOURCE, Key(Text(source))).Ok?
      ensures forall k :: k in entityCache.IndexGet(SOURCE, Key(Text(source))).value <==>
        k in entityCache.cache && baseOf(entityCache.cache[k]).source == source
    {
      var ix := entityCache.index[SOURCE];
      assert KindOf(ix) == entityCache.kinds[SOURCE] == EQUAL(SourceMapper(baseOf));
      assert ix.Equal? && ix.equalMapper == SourceMapper(baseOf);
      assert forall t :: ix.equalMapper(t) == SourceKeys(baseOf(t));
    }

    /** The source-key index lists exactly the cached entities of a generation. */
    lemma SourceKeyIndexLists(sourceKey: string)
      requires Valid()
      ensures entityCache.IndexGet(SOURCE_KEY, Key(Text(sourceKey))).Ok?
      ensures forall k :: k in entityCache.IndexGet(SOURCE_KEY, Key(Text(sourceKey))).value <==>
        k in entityCache.cache && baseOf(entityCache.cache[k]).sourceKey == sourceKey
    {
      var ix := entityCache.index[SOURCE_KEY];
      assert KindOf(ix) == entityCache.kinds[SOURCE_KEY] == EQUAL(SourceKeyMapper(baseOf));
      assert ix.Equal? && ix.equalMapper == SourceKeyMapper(baseOf);
      assert forall t :: ix.equalMapper(t) == SourceKeyKeys(baseOf(t));
    }

    /** The ids the two indexes give for a prune are exactly the stale ones. */
    lemma StaleFromIndexes(source: string, sourceKey: string)
      requires Valid()
      ensures entityCache.IndexGet(SOURCE, Key(Text(source))).Ok?
      ensures entityCache.IndexGet(SOURCE_KEY, Key(Text(sourceKey))).Ok?
      ensures entityCache.IndexGet(SOURCE, Key(Text(source))).value
            - entityCache.IndexGet(SOURCE_KEY, Key(Text(sourceKey))).value
           == Stale(entityCache.cache, baseOf, source, sourceKey)
    {
      SourceIndexLists(source);
      SourceKeyIndexLists(sourceKey);
    }

    /** Cached entities carry their own id. */
    lemma CachedIds()
      requires Valid()
      ensures forall k :: k in entityCache.cache ==> baseOf(entityCache.cache[k]).id == k
    {
      forall k | k in entityCache.cache ensures baseOf(entityCache.cache[k]).id == k {
        assert entityCache.idOf(entityCache.cache[k]) == k;
      }
    }

    /** Deletes every id of a set of cached ids, returning each deleted entity once. */
    method DeleteAll(ids: set<string>) returns (r: seq<T>, ghost order: seq<string>)
      requires Valid() && ids <= entityCache.cache.Keys
      modifies entityCache
      ensures Valid()
      ensures entityCache.cache == old(entityCache.cache) - ids
      ensures |r| == |order| == |ids|
      ensures forall i :: 0 <= i < |r| ==> order[i] in ids && r[i] == old(entityCache.cache)[order[i]]
      ensures forall i, j :: 0 <= i < j < |r| ==> order[i] != order[j]
    {
      ghost var start := entityCache.cache;
      var todo := ids;
      r := [];
      order := [];
      while todo != {}
        invariant Valid()
        invariant todo <= ids
        invariant entityCache.cache == start - (ids - todo)
        invariant |order| == |r|
        invariant forall x :: x in order <==> x in ids - todo
        invariant forall i :: 0 <= i < |r| ==> order[i] in start && r[i] == start[order[i]]
        invariant forall i, j :: 0 <= i < j < |order| ==> order[i] != order[j]
        decreases todo
      {
        var id :| id in todo;
        var e := DeleteById(id);
        assert ids - (todo - {id}) == (ids - todo) + {id};
        r := r + [e.value];
        order := order + [id];
        todo := todo - {id};
      }
      DistinctCard(order);
      assert Elems(order) == ids;
    }

    /**
     * `deleteBySourceAndSourceKeyNot`: the ids the source index lists minus
     * those the source-key index lists are deleted, and their entities returned.
     */
    method DeleteBySourceAndSourceKeyNot(source: string, sourceKey: string) returns (r: seq<T>)
      requires Valid()
      modifies entityCache
      ensures Valid()
      ensures entityCache.cache == Prune(old(entityCache.cache), baseOf, source, sourceKey)
      ensures var stale := Stale(old(entityCache.cache), baseOf, source, sourceKey);
        && |r| == |stale|
        && (forall i :: 0 <= i < |r| ==> baseOf(r[i]).id in stale && r[i] == old(entityCache.cache)[baseOf(r[i]).id])
        && (forall i, j :: 0 <= i < j < |r| ==> baseOf(r[i]).id != baseOf(r[j]).id)
    {
      StaleFromIndexes(source, sourceKey);
      CachedIds();
      var sourceIndex := entityCache.IndexGet(SOURCE, Key(Text(source)));
      var sourceKeyIndex := entityCache.IndexGet(SOURCE_KEY, Key(Text(sourceKey)));
      var stale := sourceIndex.value - sourceKeyIndex.value;
      ghost var order;
      r, order := DeleteAll(stale);
    }

    /** The version index lists exactly the cached entities of the versions in range. */
    lemma VersionIndexLists(n: int)
      requires Valid()
      ensures entityCache.IndexGetAfter(VERSION, n).Ok?
      ensures forall k :: k in entityCache.IndexGetAfter(VERSION, n).value <==>
        k in entityCache.cache && baseOf(entityCache.cache[k]).version >= n
      ensures entityCache.IndexGetBefore(VERSION, n).Ok?
      ensures forall k :: k in entityCache.IndexGetBefore(VERSION, n).value <==>
        k in entityCache.cache && baseOf(entityCache.cache[k]).version < n
      ensures entityCache.IndexGet(VERSION, Number(n)).Ok?
      ensures forall k :: k in entityCache.IndexGet(VERSION, Number(n)).value <==>
        k in entityCache.cache && baseOf(entityCache.cache[k]).version == n
    {
      var ix := entityCache.index[VERSION];
      assert KindOf(ix) == entityCache.kinds[VERSION] == UNIQ_SORTED(VersionMapper(baseOf));
      assert ix.UniqSorted? && ix.uniqMapper == VersionMapper(baseOf);
      assert forall t :: ix.uniqMapper(t) == VersionKeys(baseOf(t));
    }

    /** The deletion index lists exactly the cached entities deleted in range. */
    lemma DeletedOnIndexLists(t: int)
      requires Valid()
      ensures entityCache.IndexGetAfter(DELETED_ON, t).Ok?
      ensures forall k :: k in entityCache.IndexGetAfter(DELETED_ON, t).value <==>
        k in entityCache.cache && (var d := baseOf(entityCache.cache[k]).deletedOn; d.Some? && d.value >= t)
      ensures entityCache.IndexGetBefore(DELETED_ON, t).Ok?
      ensures forall k :: k in entityCache.IndexGetBefore(DELETED_ON, t).value <==>
        k in entityCache.cache && (var d := baseOf(entityCache.cache[k]).deletedOn; d.Some? && d.value < t)
      ensures entityCache.IndexGet(DELETED_ON, Number(t)).Ok?
      ensures forall k :: k in entityCache.IndexGet(DELETED_ON, Number(t)).value <==>
        k in entityCache.cache && baseOf(entityCache.cache[k]).deletedOn == Some(t)
    {
      var ix := entityCache.index[DELETED_ON];
      assert KindOf(ix) == entityCache.kinds[DELETED_ON] == SORTED(DeletedOnMapper(baseOf));
      assert ix.Sorted? && ix.sortedMapper == DeletedOnMapper(baseOf);
      assert forall t :: ix.sortedMapper(t) == DeletedOnKeys(baseOf(t));
    }

    /** One producer of `query`: the ids its index lookup gives for the value. */
    function Produce(f: Filter, parseInstant: string -> Option<int>): (r: Result<set<string>>)
      reads this, entityCache
      requires Valid() && ProducerOf(f.id).Some?
      ensures r.Err? <==> ArgumentOf(f, parseInstant).Err?
    {
      VersionIndexLists(VersionMin);
      SourceIndexLists(f.value);
      SourceKeyIndexLists(f.value);
      match ArgumentOf(f, parseInstant)
      case Err(e) => Err(e)
      case Ok(arg) =>
        match ProducerOf(f.id).value
        case AllVersions => entityCache.IndexGetAfter(VERSION, VersionMin)
        case SourceEq => entityCache.IndexGet(SOURCE, Key(Text(f.value)))
        case SourceKeyEq => entityCache.IndexGet(SOURCE_KEY, Key(Text(f.value)))
        case VersionGt => VersionIndexLists(arg.n); entityCache.IndexGetAfter(VERSION, arg.n)
        case VersionLt => VersionIndexLists(arg.n); entityCache.IndexGetBefore(VERSION, arg.n)
        case VersionEq => VersionIndexLists(arg.n); entityCache.IndexGet(VERSION, Number(arg.n))
        case DeletedOnGt => DeletedOnIndexLists(arg.n); entityCache.IndexGetAfter(DELETED_ON, arg.n)
        case DeletedOnLt => DeletedOnIndexLists(arg.n); entityCache.IndexGetBefore(DELETED_ON, arg.n)
        case DeletedOnEq => DeletedOnIndexLists(arg.n); entityCache.IndexGet(DELETED_ON, Number(arg.n))
    }

    /** A producer gives exactly the cached entities it lists. */
    lemma ProduceLists(f: Filter, parseInstant: string -> Option<int>)
      requires Valid() && ProducerOf(f.id).Some?
      ensures Produce(f, parseInstant).Ok? ==> forall id :: id in Produce(f, parseInstant).value <==>
        id in entityCache.cache && Lists(ProducerOf(f.id).value, baseOf(entityCache.cache[id]), ArgumentOf(f, parseInstant).value)
    {
      var arg := ArgumentOf(f, parseInstant);
      if arg.Ok? {
        match ProducerOf(f.id).value
        case AllVersions => VersionIndexLists(VersionMin);
        case SourceEq => SourceIndexLists(f.value);
        case SourceKeyEq => SourceKeyIndexLists(f.value);
        case VersionGt => VersionIndexLists(arg.value.n);
        case VersionLt => VersionIndexLists(arg.value.n);
        case VersionEq => VersionIndexLists(arg.value.n);
        case DeletedOnGt => DeletedOnIndexLists(arg.value.n);
        case DeletedOnLt => DeletedOnIndexLists(arg.value.n);
        case DeletedOnEq => DeletedOnIndexLists(arg.value.n);
      }
    }

    /**
     * The `reduce` of `query`: the intersection of the producers' id sets,
     * or the exception of the first producer whose value cannot be read.
     */
    function Intersect(ps: seq<Filter>, parseInstant: string -> Option<int>): (r: Result<set<string>>)
      reads this, entityCache
      requires Valid() && |ps| >= 1
      requires forall i :: 0 <= i < |ps| ==> ProducerOf(ps[i].id).Some?
      ensures r.Ok? <==> AllParse(ps, parseInstant)
      ensures r.Ok? ==> forall id :: id in r.value <==>
        id in entityCache.cache && ListedByAll(ps, baseOf(entityCache.cache[id]), parseInstant)
      decreases |ps|
    {
      ProduceLists(ps[0], parseInstant);
      match Produce(ps[0], parseInstant)
      case Err(e) => Err(e)
      case Ok(a) =>
        if |ps| == 1 then Ok(a)
        else
          var r := Intersect(ps[1..], parseInstant);
          assert forall i :: 1 <= i < |ps| ==> ps[i] == ps[1..][i - 1];
          if r.Err? then Err(r.error) else Ok(a * r.value)
    }

    /**
     * `query`: the cached entities every producer lists (the all-versions
     * producer when the query has none) that every filter rule keeps.
     */
    function Query(filters: seq<Filter>, parseInstant: string -> Option<int>): (r: Result<map<string, T>>)
      reads this, entityCache
      requires Valid()
    {
      match Intersect(Producers(filters), parseInstant)
      case Err(e) => Err(e)
      case Ok(ids) =>
        var out := map id | id in ids && id in entityCache.cache :: entityCache.cache[id];
        ApplyRules(out, baseOf, RuleFilters(filters), parseInstant)
    }

    /**
     * A query answers exactly the cached entities that every producer lists
     * and every filter keeps.
     */
    lemma QueryAnswers(filters: seq<Filter>, parseInstant: string -> Option<int>)
      requires Valid()
      ensures var r := Query(filters, parseInstant);
        r.Ok? ==> forall id :: id in r.value <==>
          && id in entityCache.cache
          && ListedByAll(Producers(filters), baseOf(entityCache.cache[id]), parseInstant)
          && KeptByAll(RuleFilters(filters), baseOf(entityCache.cache[id]), parseInstant)
      ensures var r := Query(filters, parseInstant);
        r.Ok? ==> forall id :: id in r.value ==> r.value[id] == entityCache.cache[id]
    {
      var ps := Producers(filters);
      var ids := Intersect(ps, parseInstant);
      if ids.Ok? {
        var out := map id | id in ids.value && id in entityCache.cache :: entityCache.cache[id];
        assert Query(filters, parseInstant) == ApplyRules(out, baseOf, RuleFilters(filters), parseInstant);
        assert forall id :: id in out <==> id in entityCache.cache && ListedByAll(ps, baseOf(entityCache.cache[id]), parseInstant);
      }
    }

    /** A query fails only when a producer's value cannot be read or a filter throws on a cached entity. */
    lemma QueryFails(filters: seq<Filter>, parseInstant: string -> Option<int>)
      requires Valid()
      ensures Query(filters, parseInstant).Err? && AllParse(Producers(filters), parseInstant) ==>
        exists i, id :: 0 <= i < |RuleFilters(filters)| && id in entityCache.cache &&
          Keep(RuleOf(RuleFilters(filters)[i].id).value, baseOf(entityCache.cache[id]), RuleFilters(filters)[i].value, parseInstant).Err?
    {
      var ps := Producers(filters);
      var rs := RuleFilters(filters);
      var ids := Intersect(ps, parseInstant);
      if ids.Ok? {
        var out := map id | id in ids.value && id in entityCache.cache :: entityCache.cache[id];
        var r := ApplyRules(out, baseOf, rs, parseInstant);
        assert Query(filters, parseInstant) == r;
        if r.Err? {
          var i, id :| 0 <= i < |rs| && id in out && Keep(RuleOf(rs[i].id).value, baseOf(out[id]), rs[i].value, parseInstant).Err?;
          assert id in entityCache.cache && out[id] == entityCache.cache[id];
          assert Keep(RuleOf(rs[i].id).value, baseOf(entityCache.cache[id]), rs[i].value, parseInstant).Err?;
        }
      }
    }

    /** A query without producers or filters answers every entity of version at least VERSION_MIN. */
    lemma QueryWithoutFilters(parseInstant: string -> Option<int>)
      requires Valid()
      ensures Query([], parseInstant).Ok?
      ensures forall id :: id in Query([], parseInstant).value <==>
        id in entityCache.cache && baseOf(entityCache.cache[id]).version >= VersionMin
    {
      var ps := Producers([]);
      assert ps == [Filter(ProducerIdAll, "")];
      assert AllParse(ps, parseInstant);
      assert ProducerOf(ps[0].id) == Some(AllVersions);
      assert ArgumentOf(ps[0], parseInstant) == Ok(Plain(""));
      forall id | id in entityCache.cache
        ensures ListedByAll(ps, baseOf(entityCache.cache[id]), parseInstant) <==> baseOf(entityCache.cache[id]).version >= VersionMin
      {
        var e := baseOf(entityCache.cache[id]);
        assert Lists(AllVersions, e, Plain("")) <==> e.version >= VersionMin;
      }
    }
  }
}
