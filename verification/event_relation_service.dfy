/**
 * The relations between items and the events their rules matched
 * (src/main/java/ru/keich/mon/servicemanager/eventrelation/EventRelationService.java),
 * together with the per-item max entry to the event of highest status.
 *
 * The relation cache is a map from relation id to relation; the two EQUAL
 * indexes of the source (by event id and by item id) are read as the sets of
 * cached ids with that event id or item id, which is what an EQUAL index over
 * a singleton key function holds.
 */
module EventRelationServices {
  import opened Status
  import opened EventRelations

  type RelationCache = map<EventRelationId, EventRelation>

  /** Every cached relation is stored under its own id. */
  ghost predicate WellKeyed(cache: RelationCache)
  {
    forall id :: id in cache ==> cache[id].id == id
  }

  /** `indexGet(itemToRel, itemId)`: the ids of the relations of one item. */
  function ItemRelations(cache: RelationCache, itemId: string): set<EventRelationId>
  {
    set id | id in cache && id.itemId == itemId
  }

  /** `indexGet(eventToRel, eventId)`: the ids of the relations of one event. */
  function EventRelationsOf(cache: RelationCache, eventId: string): set<EventRelationId>
  {
    set id | id in cache && id.eventId == eventId
  }

  ghost predicate HasRelations(cache: RelationCache, itemId: string)
  {
    exists id :: id in cache && id.itemId == itemId
  }

  /** The stored status of a relation, CLEAR when there is none. */
  function StatusOf(cache: RelationCache, itemId: string, eventId: string): (s: BaseStatus)
    ensures EventRelationId(itemId, eventId) !in cache ==> s == CLEAR
    ensures EventRelationId(itemId, eventId) in cache ==> s == cache[EventRelationId(itemId, eventId)].status
  {
    var id := EventRelationId(itemId, eventId);
    if id in cache then cache[id].status else CLEAR
  }

  /** The relation (itemId, eventId) exists and no relation of the item is more severe. */
  ghost predicate IsMaxEvent(cache: RelationCache, itemId: string, eventId: string)
  {
    EventRelationId(itemId, eventId) in cache &&
    forall id :: id in cache && id.itemId == itemId ==>
      LessThenOrEqual(cache[id].status, cache[EventRelationId(itemId, eventId)].status)
  }

  /** The max entry map is right about one item: present exactly when the item has relations, naming a most severe one. */
  ghost predicate Tracked(cache: RelationCache, maxIds: map<string, string>, itemId: string)
  {
    (itemId in maxIds <==> HasRelations(cache, itemId)) &&
    (itemId in maxIds ==> IsMaxEvent(cache, itemId, maxIds[itemId]))
  }

  ghost predicate MaxTracked(cache: RelationCache, maxIds: map<string, string>)
  {
    forall itemId :: Tracked(cache, maxIds, itemId)
  }

  /** Two caches that hold the same relations for an item agree on everything said about that item. */
  lemma SameItemView(a: RelationCache, b: RelationCache, maxIds: map<string, string>, itemId: string)
    requires forall id: EventRelationId :: id.itemId == itemId ==> (id in a <==> id in b)
    requires forall id :: id in a && id.itemId == itemId ==> a[id] == b[id]
    ensures HasRelations(a, itemId) == HasRelations(b, itemId)
    ensures Tracked(a, maxIds, itemId) == Tracked(b, maxIds, itemId)
  {
    if HasRelations(a, itemId) {
      var id :| id in a && id.itemId == itemId;
      assert id in b;
    }
    if HasRelations(b, itemId) {
      var id :| id in b && id.itemId == itemId;
      assert id in a;
    }
  }

  /** What `addCalculateMaxStatus` does to the max entry of the item. */
  datatype MaxUpdate = Keep | Point(eventId: string) | Rescan

  /**
   * `addCalculateMaxStatus` as written: it runs after the new relation is
   * stored, so the "old" status it reads for the added event is already the
   * new one, and a lowered max event never causes a rescan.
   */
  function AddMaxUpdateAsWritten(after: RelationCache, maxIds: map<string, string>,
                                 itemId: string, eventId: string, newStatus: BaseStatus): (u: MaxUpdate)
    ensures itemId !in maxIds <==> u == Point(eventId)
    ensures itemId in maxIds && maxIds[itemId] == eventId && StatusOf(after, itemId, eventId) == newStatus ==> u == Keep
  {
    if itemId !in maxIds then Point(eventId)
    else
      var maxEventId := maxIds[itemId];
      var oldStatus := StatusOf(after, itemId, eventId);
      if maxEventId == eventId && LessThenOrEqual(oldStatus, newStatus) then Keep
      else
        var maxStatus := StatusOf(after, itemId, maxEventId);
        if LessThenOrEqual(newStatus, maxStatus) then Keep else Rescan
  }

  /**
   * An item with a CRITICAL max event e1 and a WARNING event e2: lowering e1
   * to CLEAR keeps e1 as the max, so the item reports CLEAR although e2 is
   * WARNING.
   */
  lemma AddAsWrittenLosesMax()
    ensures var i1 := EventRelationId("i", "e1");
            var i2 := EventRelationId("i", "e2");
            var before := map[i1 := EventRelation(i1, CRITICAL), i2 := EventRelation(i2, WARNING)];
            var maxIds := map["i" := "e1"];
            var after := before[i1 := EventRelation(i1, CLEAR)];
            WellKeyed(before) && MaxTracked(before, maxIds) &&
            AddMaxUpdateAsWritten(after, maxIds, "i", "e1", CLEAR) == Keep &&
            !MaxTracked(after, maxIds) &&
            StatusOf(after, "i", maxIds["i"]) == CLEAR && StatusOf(after, "i", "e2") == WARNING
  {
    var i1 := EventRelationId("i", "e1");
    var i2 := EventRelationId("i", "e2");
    var before := map[i1 := EventRelation(i1, CRITICAL), i2 := EventRelation(i2, WARNING)];
    var maxIds := map["i" := "e1"];
    var after := before[i1 := EventRelation(i1, CLEAR)];
    forall itemId ensures Tracked(before, maxIds, itemId) {
      if itemId == "i" {
        assert i1 in before && i1.itemId == itemId;
      }
    }
    assert i2 in after && i2.itemId == "i" && !LessThenOrEqual(after[i2].status, after[i1].status);
    assert !Tracked(after, maxIds, "i");
  }

  /**
   * The intended decision: it compares against the status stored before the
   * update, and rescans when the max event itself is lowered.
   */
  function AddMaxUpdate(before: RelationCache, maxIds: map<string, string>,
                        itemId: string, eventId: string, newStatus: BaseStatus): (u: MaxUpdate)
    ensures itemId !in maxIds <==> u == Point(eventId)
    ensures itemId in maxIds && maxIds[itemId] == eventId ==>
              (u == Rescan <==> LessThen(newStatus, StatusOf(before, itemId, eventId)))
    ensures itemId in maxIds && maxIds[itemId] != eventId ==>
              (u == Rescan <==> LessThen(StatusOf(before, itemId, maxIds[itemId]), newStatus))
  {
    if itemId !in maxIds then Point(eventId)
    else
      var maxEventId := maxIds[itemId];
      if maxEventId == eventId then
        if LessThenOrEqual(StatusOf(before, itemId, eventId), newStatus) then Keep else Rescan
      else if LessThenOrEqual(newStatus, StatusOf(before, itemId, maxEventId)) then Keep else Rescan
  }

  /** The cache after `add` stores the relation. */
  function Stored(cache: RelationCache, itemId: string, eventId: string, status: BaseStatus): (r: RelationCache)
    ensures r.Keys == cache.Keys + {EventRelationId(itemId, eventId)}
    ensures WellKeyed(cache) ==> WellKeyed(r)
  {
    var id := EventRelationId(itemId, eventId);
    cache[id := EventRelation(id, status)]
  }

  /**
   * The corrected decision keeps the max entries right: a kept or pointed entry
   * names a most severe event of the new cache, and a rescan may settle on
   * any most severe event.
   */
  lemma AddKeepsTracking(before: RelationCache, maxIds: map<string, string>,
                         itemId: string, eventId: string, status: BaseStatus, rescanned: string)
    requires WellKeyed(before) && MaxTracked(before, maxIds)
    ensures var after := Stored(before, itemId, eventId, status);
            match AddMaxUpdate(before, maxIds, itemId, eventId, status)
            case Keep => MaxTracked(after, maxIds)
            case Point(e) => MaxTracked(after, maxIds[itemId := e])
            case Rescan => IsMaxEvent(after, itemId, rescanned) ==> MaxTracked(after, maxIds[itemId := rescanned])
  {
    var after := Stored(before, itemId, eventId, status);
    var id := EventRelationId(itemId, eventId);
    var u := AddMaxUpdate(before, maxIds, itemId, eventId, status);
    var m := match u case Keep => maxIds case Point(e) => maxIds[itemId := e] case Rescan => maxIds[itemId := rescanned];
    if u.Rescan? && !IsMaxEvent(after, itemId, rescanned) {
      return;
    }
    forall i ensures Tracked(after, m, i) {
      if i != itemId {
        assert Tracked(before, maxIds, i);
        SameItemView(before, after, maxIds, i);
        SameItemView(before, after, m, i);
      } else {
        assert id in after && id.itemId == i;
        match u
        case Rescan =>
        case Point(e) =>
          assert !HasRelations(before, itemId) by { assert Tracked(before, maxIds, itemId); }
          assert forall id' :: id' in before ==> id'.itemId != itemId;
        case Keep =>
          assert Tracked(before, maxIds, itemId);
          var maxId := EventRelationId(itemId, maxIds[itemId]);
          forall id' | id' in after && id'.itemId == itemId
            ensures LessThenOrEqual(after[id'].status, after[maxId].status)
          {
            if id' != id { assert id' in before; }
          }
      }
    }
  }

  /** The cache after `remove` drops one relation. */
  function Dropped(cache: RelationCache, id: EventRelationId): (r: RelationCache)
    ensures r.Keys == cache.Keys - {id}
    ensures WellKeyed(cache) ==> WellKeyed(r)
  {
    cache - {id}
  }

  /** Removing an item's last relation and its max entry keeps the max entries right. */
  lemma RemoveLastRelation(before: RelationCache, maxIds: map<string, string>, id: EventRelationId)
    requires WellKeyed(before) && MaxTracked(before, maxIds)
    requires ItemRelations(Dropped(before, id), id.itemId) == {}
    ensures !HasRelations(Dropped(before, id), id.itemId)
    ensures MaxTracked(Dropped(before, id), maxIds - {id.itemId})
  {
    var after := Dropped(before, id);
    var m := maxIds - {id.itemId};
    forall i ensures Tracked(after, m, i) {
      if i != id.itemId {
        assert Tracked(before, maxIds, i);
        SameItemView(before, after, maxIds, i);
        SameItemView(before, after, m, i);
      }
    }
  }

  /** Removing an item's max event and pointing at a rescanned most severe event keeps the max entries right. */
  lemma RemoveMaxEvent(before: RelationCache, maxIds: map<string, string>, id: EventRelationId, rescanned: string)
    requires WellKeyed(before) && MaxTracked(before, maxIds)
    requires IsMaxEvent(Dropped(before, id), id.itemId, rescanned)
    ensures MaxTracked(Dropped(before, id), maxIds[id.itemId := rescanned])
  {
    var after := Dropped(before, id);
    var m := maxIds[id.itemId := rescanned];
    forall i ensures Tracked(after, m, i) {
      if i != id.itemId {
        assert Tracked(before, maxIds, i);
        SameItemView(before, after, maxIds, i);
        SameItemView(before, after, m, i);
      } else {
        assert EventRelationId(i, rescanned) in after;
      }
    }
  }

  /** Removing a relation that is not the item's max, while others remain, leaves the max entries right as they are. */
  lemma RemoveOtherEvent(before: RelationCache, maxIds: map<string, string>, id: EventRelationId)
    requires WellKeyed(before) && MaxTracked(before, maxIds)
    requires ItemRelations(Dropped(before, id), id.itemId) != {}
    requires !(id.itemId in maxIds && maxIds[id.itemId] == id.eventId)
    ensures MaxTracked(Dropped(before, id), maxIds)
  {
    var after := Dropped(before, id);
    forall i ensures Tracked(after, maxIds, i) {
      assert Tracked(before, maxIds, i);
      if i != id.itemId {
        SameItemView(before, after, maxIds, i);
      } else {
        var w :| w in ItemRelations(after, i);
        assert w in before && w.itemId == i;
      }
    }
  }

  /** The cache with the relations of one item removed, except those of the events still to go. */
  function ItemDropped(cache: RelationCache, itemId: string, remaining: set<string>): RelationCache
  {
    map id | id in cache && (id.itemId != itemId || id.eventId in remaining) :: cache[id]
  }

  lemma ItemDroppedStep(cache: RelationCache, itemId: string, remaining: set<string>, eventId: string)
    ensures Dropped(ItemDropped(cache, itemId, remaining), EventRelationId(itemId, eventId)) ==
            ItemDropped(cache, itemId, remaining - {eventId})
  {
  }

  /** The cache with the relations of one event removed, except those of the items still to go. */
  function EventDropped(cache: RelationCache, eventId: string, remaining: set<string>): RelationCache
  {
    map id | id in cache && (id.eventId != eventId || id.itemId in remaining) :: cache[id]
  }

  lemma EventDroppedStep(cache: RelationCache, eventId: string, remaining: set<string>, itemId: string)
    ensures Dropped(EventDropped(cache, eventId, remaining), EventRelationId(itemId, eventId)) ==
            EventDropped(cache, eventId, remaining - {itemId})
  {
  }

  class EventRelationService {
    var relationCache: RelationCache
    var maxStatusEventId: map<string, string>

    ghost predicate Valid()
      reads this
    {
      WellKeyed(relationCache) && MaxTracked(relationCache, maxStatusEventId)
    }

    constructor()
      ensures relationCache == map[] && maxStatusEventId == map[]
      ensures Valid()
    {
      relationCache := map[];
      maxStatusEventId := map[];
    }

    /**
     * `findEventIdWithMaxStatus`: a most severe event of the item, "" when
     * the item has no relation. Of equally severe relations the one scanned
     * last wins; the scan order is the index's and is left open here.
     */
    method FindEventIdWithMaxStatus(itemId: string) returns (eventId: string)
      requires WellKeyed(relationCache)
      ensures HasRelations(relationCache, itemId) ==> IsMaxEvent(relationCache, itemId, eventId)
      ensures !HasRelations(relationCache, itemId) ==> eventId == ""
    {
      var all := ItemRelations(relationCache, itemId);
      var todo := all;
      eventId := "";
      var maxStatus := CLEAR;
      while todo != {}
        invariant todo <= all
        invariant todo == all ==> eventId == "" && maxStatus == CLEAR
        invariant todo != all ==> EventRelationId(itemId, eventId) in all - todo &&
                                  relationCache[EventRelationId(itemId, eventId)].status == maxStatus
        invariant forall id :: id in all - todo ==> LessThenOrEqual(relationCache[id].status, maxStatus)
        decreases todo
      {
        var id :| id in todo;
        var relation := relationCache[id];
        if LessThenOrEqual(maxStatus, relation.status) {
          eventId, maxStatus := id.eventId, relation.status;
        }
        todo := todo - {id};
      }
      if HasRelations(relationCache, itemId) {
        var w :| w in relationCache && w.itemId == itemId;
        assert w in all;
      }
    }

    /**
     * `add`: stores the relation unless the same status is already stored,
     * then updates the item's max entry: an item's first relation becomes
     * its max event.
     */
    method Add(itemId: string, eventId: string, status: BaseStatus)
      requires Valid()
      modifies this
      ensures Valid()
      ensures relationCache == Stored(old(relationCache), itemId, eventId, status)
      ensures maxStatusEventId - {itemId} == old(maxStatusEventId) - {itemId}
      ensures itemId !in old(maxStatusEventId) ==> itemId in maxStatusEventId && maxStatusEventId[itemId] == eventId
      ensures StatusOf(old(relationCache), itemId, eventId) == status && EventRelationId(itemId, eventId) in old(relationCache) ==>
                maxStatusEventId == old(maxStatusEventId)
    {
      var id := EventRelationId(itemId, eventId);
      if id in relationCache && relationCache[id].status == status {
        assert relationCache[id] == EventRelation(id, status);
        assert Tracked(relationCache, maxStatusEventId, itemId);
        assert HasRelations(relationCache, itemId) by { assert id.itemId == itemId; }
        return;
      }
      var update := AddMaxUpdate(relationCache, maxStatusEventId, itemId, eventId, status);
      var before := relationCache;
      relationCache := Stored(relationCache, itemId, eventId, status);
      match update
      case Keep =>
        AddKeepsTracking(before, maxStatusEventId, itemId, eventId, status, "");
      case Point(e) =>
        AddKeepsTracking(before, maxStatusEventId, itemId, eventId, status, "");
        maxStatusEventId := maxStatusEventId[itemId := e];
      case Rescan =>
        var e := FindEventIdWithMaxStatus(itemId);
        assert id in relationCache;
        AddKeepsTracking(before, maxStatusEventId, itemId, eventId, status, e);
        maxStatusEventId := maxStatusEventId[itemId := e];
    }

    /**
     * `remove`: drops the relation; an item left without relations loses its
     * max entry, and removing the item's max event rescans for a new one.
     */
    method Remove(id: EventRelationId)
      requires Valid()
      modifies this
      ensures Valid()
      ensures relationCache == Dropped(old(relationCache), id)
      ensures maxStatusEventId - {id.itemId} == old(maxStatusEventId) - {id.itemId}
      ensures !HasRelations(relationCache, id.itemId) ==> id.itemId !in maxStatusEventId
      ensures id.itemId in old(maxStatusEventId) && old(maxStatusEventId)[id.itemId] != id.eventId &&
              HasRelations(relationCache, id.itemId) ==>
                id.itemId in maxStatusEventId && maxStatusEventId[id.itemId] == old(maxStatusEventId)[id.itemId]
    {
      var before := relationCache;
      var maxIds := maxStatusEventId;
      relationCache := Dropped(before, id);
      var itemId := id.itemId;
      if ItemRelations(relationCache, itemId) == {} {
        RemoveLastRelation(before, maxIds, id);
        maxStatusEventId := maxIds - {itemId};
      } else if itemId in maxIds && maxIds[itemId] == id.eventId {
        var e := FindEventIdWithMaxStatus(itemId);
        var w :| w in ItemRelations(relationCache, itemId);
        assert w in relationCache && w.itemId == itemId;
        RemoveMaxEvent(before, maxIds, id, e);
        maxStatusEventId := maxIds[itemId := e];
      } else {
        RemoveOtherEvent(before, maxIds, id);
      }
    }

    /** `itemRemoved`: removes every relation of the item. */
    method ItemRemoved(itemId: string)
      requires Valid()
      modifies this
      ensures Valid()
      ensures relationCache == map id | id in old(relationCache) && id.itemId != itemId :: old(relationCache)[id]
      ensures itemId !in maxStatusEventId
    {
      var eventIds := GetEventIds(itemId);
      var todo := eventIds;
      ghost var original := relationCache;
      assert relationCache == ItemDropped(original, itemId, todo);
      while todo != {}
        invariant Valid()
        invariant relationCache == ItemDropped(original, itemId, todo)
        decreases todo
      {
        var eventId :| eventId in todo;
        ItemDroppedStep(original, itemId, todo, eventId);
        Remove(EventRelationId(itemId, eventId));
        todo := todo - {eventId};
      }
      assert !HasRelations(relationCache, itemId);
      assert Tracked(relationCache, maxStatusEventId, itemId);
    }

    /** `eventRemoved`: removes the relation of the event with every item. */
    method EventRemoved(eventId: string)
      requires Valid()
      modifies this
      ensures Valid()
      ensures relationCache == map id | id in old(relationCache) && id.eventId != eventId :: old(relationCache)[id]
      ensures forall itemId :: itemId in maxStatusEventId ==> maxStatusEventId[itemId] != eventId
    {
      var itemIds := GetItemIds(eventId);
      var todo := itemIds;
      ghost var original := relationCache;
      assert relationCache == EventDropped(original, eventId, todo);
      while todo != {}
        invariant Valid()
        invariant relationCache == EventDropped(original, eventId, todo)
        decreases todo
      {
        var itemId :| itemId in todo;
        EventDroppedStep(original, eventId, todo, itemId);
        Remove(EventRelationId(itemId, eventId));
        todo := todo - {itemId};
      }
      forall itemId | itemId in maxStatusEventId ensures maxStatusEventId[itemId] != eventId {
        assert Tracked(relationCache, maxStatusEventId, itemId);
      }
    }

    /** `getItemIds`: the items related to the event. */
    function GetItemIds(eventId: string): (r: set<string>)
      reads this
      ensures WellKeyed(relationCache) ==> forall itemId :: itemId in r <==> EventRelationId(itemId, eventId) in relationCache
    {
      set id | id in EventRelationsOf(relationCache, eventId) :: id.itemId
    }

    /** `getEventIds`: the events related to the item. */
    function GetEventIds(itemId: string): (r: set<string>)
      reads this
      ensures WellKeyed(relationCache) ==> forall eventId :: eventId in r <==> EventRelationId(itemId, eventId) in relationCache
    {
      set id | id in ItemRelations(relationCache, itemId) :: id.eventId
    }

    /**
     * `getMaxStatus`: the status of the recorded max event, CLEAR when none is
     * recorded. With the max entries right, that is the highest status among the
     * item's relations.
     */
    function GetMaxStatus(itemId: string): (r: BaseStatus)
      reads this
      ensures itemId !in maxStatusEventId ==> r == CLEAR
      ensures Valid() ==> forall id :: id in relationCache && id.itemId == itemId ==> LessThenOrEqual(relationCache[id].status, r)
      ensures Valid() && r != CLEAR ==> exists id :: id in relationCache && id.itemId == itemId && relationCache[id].status == r
    {
      if itemId in maxStatusEventId then
        assert Valid() ==> Tracked(relationCache, maxStatusEventId, itemId);
        StatusOf(relationCache, itemId, maxStatusEventId[itemId])
      else
        assert Valid() ==> Tracked(relationCache, maxStatusEventId, itemId);
        CLEAR
    }
  }
}
