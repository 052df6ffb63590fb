/**
 * The link between an item and one of its events
 * (src/main/java/ru/keich/mon/servicemanager/eventrelation/EventRelation.java):
 * the pair of ids is the relation's id, and the relation carries the status
 * the event has for the item.
 */
module EventRelations {
  import opened Status
  import opened QueryPredicates

  datatype EventRelationId = EventRelationId(itemId: string, eventId: string)

  datatype EventRelation = EventRelation(id: EventRelationId, status: BaseStatus)

  /** The key of the event-id index: the relation's event id. */
  function EventIdsForCache(relation: EventRelation): set<string>
  {
    {relation.id.eventId}
  }

  /** The key of the item-id index: the relation's item id. */
  function ItemIdsForCache(relation: EventRelation): set<string>
  {
    {relation.id.itemId}
  }

  /** The key of the item-status index: the relation itself. */
  function ItemStatusForCache(relation: EventRelation): set<EventRelation>
  {
    {relation}
  }

  /**
   * `compareTo`, by its sign: item ids ascending, then the more severe status
   * first, then event ids ascending. Only identical relations compare equal.
   */
  function CompareTo(a: EventRelation, b: EventRelation): (c: int)
    ensures -1 <= c <= 1
    ensures a.id.itemId != b.id.itemId ==> c == CompareStrings(a.id.itemId, b.id.itemId)
    ensures a.id.itemId == b.id.itemId && Ordinal(a.status) > Ordinal(b.status) ==> c == -1
    ensures a.id.itemId == b.id.itemId && Ordinal(a.status) < Ordinal(b.status) ==> c == 1
    ensures a.id.itemId == b.id.itemId && a.status == b.status ==> c == CompareStrings(a.id.eventId, b.id.eventId)
    ensures c == 0 <==> a == b
  {
    var ret := CompareStrings(a.id.itemId, b.id.itemId);
    if ret == 0 then
      var byStatus := if Ordinal(a.status) > Ordinal(b.status) then -1 else if Ordinal(a.status) < Ordinal(b.status) then 1 else 0;
      if byStatus == 0 then
        OrdinalInjective(a.status, b.status);
        CompareStrings(a.id.eventId, b.id.eventId)
      else byStatus
    else ret
  }

  /** Comparing the other way round flips the sign, as `Comparable` requires. */
  lemma CompareToAntisymmetric(a: EventRelation, b: EventRelation)
    ensures CompareTo(a, b) == -CompareTo(b, a)
  {
    CompareStringsAntisymmetric(a.id.itemId, b.id.itemId);
    CompareStringsAntisymmetric(a.id.eventId, b.id.eventId);
  }

  /** Within one item, the relations with the most severe status come first. */
  lemma MoreSevereFirst(a: EventRelation, b: EventRelation)
    requires a.id.itemId == b.id.itemId && LessThen(b.status, a.status)
    ensures CompareTo(a, b) < 0 && CompareTo(b, a) > 0
  {
  }
}
