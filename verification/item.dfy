/**
 * A monitored item (src/main/java/ru/keich/mon/servicemanager/item/Item.java):
 * an entity with field values, status rules, event filters and child ids,
 * together with its index mappers, its `equals`/`hashCode` pair and the
 * lookup of the first filter an event's fields satisfy.
 *
 * The item's status is a mutable field in Java; it is kept by the item
 * service in a table of its own (see item_service.dfy), so `Item` here holds
 * everything but the status.
 */
module Items {
  import opened Wrappers
  import opened Store
  import opened Entities
  import opened ItemRules
  import opened ItemFilters

  /**
   * The entity part carries the item's id, version, source, source key, time
   * stamps, replication history and field values. `name` belongs to the
   * revision of Item that ItemService.java is written against.
   */
  datatype Item = Item(
    base: Entity,
    name: string,
    rules: map<string, ItemRule>,
    filters: map<string, ItemFilter>,
    children: set<string>,
    hasChildren: bool)

  /** The flag `hasChildren` says whether there are children. */
  predicate WellFormed(item: Item)
  {
    item.hasChildren <==> item.children != {}
  }

  /**
   * The JSON constructor: null maps become empty maps and null or empty
   * children become the empty set. The entity starts at version 0 with both
   * time stamps at `now` (the constructor's `Instant.now()`), no deletion
   * time and an empty history.
   */
  function NewItem(id: string, source: string, sourceKey: string,
                   fields: Option<map<string, string>>, rules: Option<map<string, ItemRule>>,
                   filters: Option<map<string, ItemFilter>>, children: Option<set<string>>, now: int): (r: Item)
    ensures r.base.id == id && r.base.source == source && r.base.sourceKey == sourceKey
    ensures r.base.fields == (if fields.Some? then fields.value else map[])
    ensures r.rules == (if rules.Some? then rules.value else map[])
    ensures r.filters == (if filters.Some? then filters.value else map[])
    ensures r.hasChildren <==> children.Some? && children.value != {}
    ensures r.children == (if r.hasChildren then children.value else {})
    ensures r.base.version == 0 && r.base.deletedOn.None? && r.base.createdOn == Some(now) && r.base.updatedOn == Some(now)
    ensures WellFormed(r)
  {
    var hasChildren := children.Some? && children.value != {};
    Item(
      Entity(id, 0, source, sourceKey, Some(now), Some(now), None, {}, if fields.Some? then fields.value else map[]),
      "",
      if rules.Some? then rules.value else map[],
      if filters.Some? then filters.value else map[],
      if hasChildren then children.value else {},
      hasChildren)
  }

  /** Giving an empty map or set is the same as giving none. */
  lemma NewItemEmptyIsNull(id: string, source: string, sourceKey: string, now: int)
    ensures NewItem(id, source, sourceKey, Some(map[]), Some(map[]), Some(map[]), Some({}), now)
         == NewItem(id, source, sourceKey, None, None, None, None, now)
  {
  }

  // ---------------------------------------------------------------------------
  // equals and hashCode
  // ---------------------------------------------------------------------------

  /** `AbstractMap.equals`: the same size, and each entry's value equal to the other map's value at that key. */
  function MapEquals<V(==,!new)>(a: map<string, V>, b: map<string, V>, eq: (V, V) -> bool): (r: bool)
    ensures (forall x, y :: eq(x, y) <==> x == y) ==> (r <==> a == b)
  {
    if |a| != |b| then false
    else
      var r := forall k :: k in a ==> k in b && eq(a[k], b[k]);
      assert r ==> a.Keys == b.Keys by {
        if r {
          SubsetOfSameSize(a.Keys, b.Keys);
        }
      }
      r
  }

  /** A subset with as many elements as the set is the set itself. */
  lemma SubsetOfSameSize<X>(s: set<X>, t: set<X>)
    requires s <= t && |s| == |t|
    ensures s == t
  {
    assert |t - s| == |t| - |s|;
  }

  /**
   * `equals`: the base entity's id, source and source key, then the sizes of
   * the filter and rule maps, then the field, rule and filter maps. Children,
   * name, version, time stamps, history and status take no part.
   */
  function ItemEquals(a: Item, b: Item): (r: bool)
    ensures r <==> SameEntity(a.base, b.base) && a.base.fields == b.base.fields && a.rules == b.rules && a.filters == b.filters
  {
    && SameEntity(a.base, b.base)
    && |a.filters| == |b.filters|
    && |a.rules| == |b.rules|
    && SameEntity(a.base, b.base)
    && a.base.fields == b.base.fields
    && MapEquals(a.rules, b.rules, RuleEquals)
    && MapEquals(a.filters, b.filters, FilterEquals)
  }

  /** `equals` is an equivalence. */
  lemma ItemEqualsEquivalence(a: Item, b: Item, c: Item)
    ensures ItemEquals(a, a)
    ensures ItemEquals(a, b) ==> ItemEquals(b, a)
    ensures ItemEquals(a, b) && ItemEquals(b, c) ==> ItemEquals(a, c)
  {
  }

  /** Changing what `equals` ignores leaves an item equal to itself before the change. */
  lemma ItemEqualsIgnores(a: Item, name: string, children: set<string>, version: int, updatedOn: Option<int>,
                          deletedOn: Option<int>, fromHistory: set<string>)
    ensures ItemEquals(a, a.(name := name, children := children, hasChildren := children != {},
                             base := a.base.(version := version, updatedOn := updatedOn, deletedOn := deletedOn, fromHistory := fromHistory)))
  {
  }

  const TwoTo32: int := 0x1_0000_0000

  /** Java `int` arithmetic: the value reduced into -2^31..2^31-1. */
  function Int32(x: int): (r: int)
    ensures -0x8000_0000 <= r < 0x8000_0000
    ensures (r - x) % TwoTo32 == 0
  {
    (x + 0x8000_0000) % TwoTo32 - 0x8000_0000
  }

  /** `String.hashCode`: s[0]*31^(n-1) + ... + s[n-1] in `int` arithmetic. */
  function StringHash(s: string): (h: int)
    ensures -0x8000_0000 <= h < 0x8000_0000
  {
    if s == [] then 0 else Int32(31 * StringHash(s[..|s| - 1]) + s[|s| - 1] as int)
  }

  /** `Entity.hashCode` over `BaseEntity.hashCode`: the id, then the source, then the source key. */
  function EntityHash(e: Entity): int
  {
    Int32(31 * Int32(31 * StringHash(e.id) + StringHash(e.source)) + StringHash(e.sourceKey))
  }

  /** `hashCode`: the entity hash, then the sizes of the field, filter and rule maps. */
  function ItemHash(item: Item): int
  {
    Int32(41 * Int32(41 * Int32(41 * EntityHash(item.base) + |item.base.fields|) + |item.filters|) + |item.rules|)
  }

  /** `hashCode` is consistent with `equals`: equal items hash alike. */
  lemma EqualItemsHashAlike(a: Item, b: Item)
    requires ItemEquals(a, b)
    ensures ItemHash(a) == ItemHash(b)
  {
  }

  // ---------------------------------------------------------------------------
  // Index mappers
  // ---------------------------------------------------------------------------

  /** `getFiltersForIndex`: every equal-field entry of every filter. */
  function FiltersForIndex(item: Item): (r: set<IndexKey>)
    ensures forall x :: x in r ==> x.Entry?
    ensures forall n, v :: Entry(n, v) in r <==>
      exists f :: f in item.filters && n in item.filters[f].equalFields && item.filters[f].equalFields[n] == v
  {
    set f, n | f in item.filters && n in item.filters[f].equalFields :: Entry(n, item.filters[f].equalFields[n])
  }

  /** `getParentsForIndex`: the children, so an item is found under each of its children's ids. */
  function ParentsForIndex(item: Item): (r: set<IndexKey>)
    ensures forall x :: x in r ==> x.Text?
    ensures forall c :: Text(c) in r <==> c in item.children
  {
    set c | c in item.children :: Text(c)
  }

  /** `getNameForIndex`: the name as the only key. */
  function NameForIndex(item: Item): (r: set<IndexKey>)
    ensures forall x :: x in r <==> x == Text(item.name)
  {
    {Text(item.name)}
  }

  /**
   * A filter with at least one equal-field that matches an event's fields
   * shares an entry with them in the filter index, so the item is found by
   * looking the event's field entries up there.
   */
  lemma MatchingFilterIsIndexed(item: Item, f: string, fields: map<string, string>)
    requires f in item.filters && item.filters[f].equalFields != map[]
    requires Matches(item.filters[f].equalFields, fields)
    ensures exists n :: n in fields && Entry(n, fields[n]) in FiltersForIndex(item)
  {
    var eq := item.filters[f].equalFields;
    var n :| n in eq;
    assert Entry(n, eq[n]) in FiltersForIndex(item);
  }

  // ---------------------------------------------------------------------------
  // findFiltersByEqualFields
  // ---------------------------------------------------------------------------

  /** `order` lists the filter names, as the iteration over the filter map visits them. */
  predicate IterationOrder(order: seq<string>, filters: map<string, ItemFilter>)
  {
    && (forall i :: 0 <= i < |order| ==> order[i] in filters)
    && (forall f :: f in filters ==> f in order)
  }

  /** The first filter in `order` that the fields satisfy. */
  function FirstMatch(filters: map<string, ItemFilter>, order: seq<string>, fields: map<string, string>): (r: Option<ItemFilter>)
    requires forall i :: 0 <= i < |order| ==> order[i] in filters
    ensures r.Some? ==> r.value in filters.Values && Matches(r.value.equalFields, fields)
    ensures r.None? <==> forall i :: 0 <= i < |order| ==> !Matches(filters[order[i]].equalFields, fields)
    decreases |order|
  {
    if order == [] then None
    else if Matches(filters[order[0]].equalFields, fields) then Some(filters[order[0]])
    else
      var r := FirstMatch(filters, order[1..], fields);
      assert forall i :: 1 <= i < |order| ==> order[i] == order[1..][i - 1];
      r
  }

  /** The filter found comes from the first position of `order` whose filter matches. */
  lemma {:induction false} FirstMatchIsFirst(filters: map<string, ItemFilter>, order: seq<string>, fields: map<string, string>)
    requires forall i :: 0 <= i < |order| ==> order[i] in filters
    requires FirstMatch(filters, order, fields).Some?
    ensures exists i :: (0 <= i < |order| && filters[order[i]] == FirstMatch(filters, order, fields).value &&
      forall j :: 0 <= j < i ==> !Matches(filters[order[j]].equalFields, fields))
  {
    if !Matches(filters[order[0]].equalFields, fields) {
      FirstMatchIsFirst(filters, order[1..], fields);
      var i :| 0 <= i < |order[1..]| && filters[order[1..][i]] == FirstMatch(filters, order[1..], fields).value &&
        forall j :: 0 <= j < i ==> !Matches(filters[order[1..][j]].equalFields, fields);
      assert filters[order[i + 1]] == FirstMatch(filters, order, fields).value;
      forall j | 0 <= j < i + 1
        ensures !Matches(filters[order[j]].equalFields, fields)
      {
        if j > 0 {
          assert order[j] == order[1..][j - 1];
        }
      }
    } else {
      assert filters[order[0]] == FirstMatch(filters, order, fields).value;
    }
  }

  /** Over a complete iteration order, nothing is found exactly when no filter of the item matches. */
  lemma FirstMatchNone(filters: map<string, ItemFilter>, order: seq<string>, fields: map<string, string>)
    requires IterationOrder(order, filters)
    ensures FirstMatch(filters, order, fields).None? <==> forall f :: f in filters ==> !Matches(filters[f].equalFields, fields)
  {
    if FirstMatch(filters, order, fields).None? {
      forall f | f in filters
        ensures !Matches(filters[f].equalFields, fields)
      {
        var i :| 0 <= i < |order| && order[i] == f;
      }
    }
  }

  /**
   * `findFiltersByEqualFields`: visits the filters in `order` and, for each,
   * its equal-fields until one is missing from `fields` or has another value;
   * returns the first filter all of whose equal-fields are present and equal.
   */
  method FindFiltersByEqualFields(item: Item, order: seq<string>, fields: map<string, string>) returns (r: Option<ItemFilter>)
    requires IterationOrder(order, item.filters)
    ensures r == FirstMatch(item.filters, order, fields)
  {
    var i := 0;
    while i < |order|
      invariant 0 <= i <= |order|
      invariant FirstMatch(item.filters, order[i..], fields) == FirstMatch(item.filters, order, fields)
    {
      var filter := item.filters[order[i]];
      var matched := true;
      var names := filter.equalFields.Keys;
      while names != {}
        invariant names <= filter.equalFields.Keys
        invariant forall n :: n in filter.equalFields && n !in names ==> n in fields && fields[n] == filter.equalFields[n]
        decreases names
      {
        var n :| n in names;
        if n !in fields {
          matched := false;
          break;
        }
        if fields[n] != filter.equalFields[n] {
          matched := false;
          break;
        }
        names := names - {n};
      }
      assert matched <==> Matches(filter.equalFields, fields);
      if matched {
        return Some(filter);
      }
      assert order[i..][1..] == order[i + 1..];
      i := i + 1;
    }
    return None;
  }
}
