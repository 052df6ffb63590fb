/**
 * The common part of items and events (src/main/java/ru/keich/mon/servicemanager/entity/Entity.java)
 * and the keys it is indexed under. Instants are integers on one time line.
 */
module Entities {
  import opened Wrappers
  import opened Store

  datatype Entity = Entity(
    id: string,
    version: int,
    source: string,
    sourceKey: string,
    createdOn: Option<int>,
    updatedOn: Option<int>,
    deletedOn: Option<int>,
    fromHistory: set<string>,
    fields: map<string, string>)

  /** `getSourceForIndex`: the source as the only key. */
  function SourceKeys(e: Entity): (r: set<IndexKey>)
    ensures forall x :: x in r <==> x == Text(e.source)
  {
    {Text(e.source)}
  }

  /** `getSourceKeyForIndex`: the source key as the only key. */
  function SourceKeyKeys(e: Entity): (r: set<IndexKey>)
    ensures forall x :: x in r <==> x == Text(e.sourceKey)
  {
    {Text(e.sourceKey)}
  }

  /** `getVersionForIndex`: the version as the only key. */
  function VersionKeys(e: Entity): (r: set<int>)
    ensures forall x :: x in r <==> x == e.version
  {
    {e.version}
  }

  /** `getDeletedOnForIndex`: the deletion time, or no key at all for a live entity. */
  function DeletedOnKeys(e: Entity): (r: set<int>)
    ensures e.deletedOn.None? <==> r == {}
    ensures forall x :: x in r <==> e.deletedOn == Some(x)
  {
    if e.deletedOn.None? then {} else {e.deletedOn.value}
  }

  /** `getFieldsForIndex`: one entry key per field. */
  function FieldKeys(e: Entity): (r: set<IndexKey>)
    ensures forall n, v :: Entry(n, v) in r <==> n in e.fields && e.fields[n] == v
    ensures forall x :: x in r ==> x.Entry?
  {
    set n | n in e.fields :: Entry(n, e.fields[n])
  }

  /** `equals`: the same id, source and source key. */
  predicate SameEntity(a: Entity, b: Entity)
  {
    a.id == b.id && a.source == b.source && a.sourceKey == b.sourceKey
  }
}
