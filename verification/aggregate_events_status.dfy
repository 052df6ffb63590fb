/**
 * The aggregate of the event statuses of one item
 * (src/main/java/ru/keich/mon/servicemanager/item/AggregateEventsStatus.java).
 * An aggregate is immutable: adding or removing an event builds a new one from
 * the old, dropping on the way the entries removed more than 300 seconds ago.
 * Instants are integers counting seconds, and the clock reading is the
 * parameter `now`.
 */
module AggregateEvents {
  import opened Wrappers
  import opened Status

  /** How long, in seconds, a removed event is remembered. */
  const PurgeSeconds: int := 300

  /** The status of one event, and when it was removed (`null` while it is live). */
  datatype ResultStatus = ResultStatus(status: BaseStatus, deletedOn: Option<int>)

  datatype AggregateEventsStatus = AggregateEventsStatus(
    statuses: map<string, ResultStatus>,
    maxStatus: BaseStatus,
    activeEventsIds: set<string>)

  predicate IsDeleted(r: ResultStatus)
  {
    r.deletedOn.Some?
  }

  /** A removed entry whose removal is older than `horizon`. */
  predicate Expired(r: ResultStatus, horizon: int)
  {
    r.deletedOn.Some? && r.deletedOn.value < horizon
  }

  /** The ids of the entries that are not removed. */
  function LiveIds(m: map<string, ResultStatus>): set<string>
  {
    set id | id in m && !IsDeleted(m[id])
  }

  /** Some live entry carries the status numbered `o`. */
  predicate LiveAt(m: map<string, ResultStatus>, o: int)
  {
    exists id :: id in m && !IsDeleted(m[id]) && Ordinal(m[id].status) == o
  }

  /** The most severe status among the live entries; CLEAR when there is none. */
  function MaxLive(m: map<string, ResultStatus>): (r: BaseStatus)
    ensures forall id :: id in m && !IsDeleted(m[id]) ==> Ordinal(m[id].status) <= Ordinal(r)
    ensures r == CLEAR || exists id :: id in m && !IsDeleted(m[id]) && m[id].status == r
  {
    var present := o => LiveAt(m, o);
    var h := Highest(5, present);
    assert forall id :: id in m && !IsDeleted(m[id]) ==> Ordinal(m[id].status) <= h by {
      forall id | id in m && !IsDeleted(m[id])
        ensures Ordinal(m[id].status) <= h
      {
        assert present(Ordinal(m[id].status));
      }
    }
    assert h != 0 ==> exists id :: id in m && !IsDeleted(m[id]) && m[id].status == FromInteger(h) by {
      if h != 0 {
        var id :| id in m && !IsDeleted(m[id]) && Ordinal(m[id].status) == h;
        FromIntegerOrdinal(m[id].status);
      }
    }
    FromInteger(h)
  }

  /** `s` bounds every live entry and is CLEAR or carried by one of them. */
  predicate MaxOf(m: map<string, ResultStatus>, s: BaseStatus)
  {
    && (forall id :: id in m && !IsDeleted(m[id]) ==> Ordinal(m[id].status) <= Ordinal(s))
    && (s == CLEAR || exists id :: id in m && !IsDeleted(m[id]) && m[id].status == s)
  }

  /** Only the maximum is a maximum. */
  lemma MaxLiveUnique(m: map<string, ResultStatus>, s: BaseStatus)
    requires MaxOf(m, s)
    ensures s == MaxLive(m)
  {
    var r := MaxLive(m);
    assert Ordinal(r) <= Ordinal(s);
    assert Ordinal(s) <= Ordinal(r);
    OrdinalInjective(r, s);
  }

  /** A live entry under a fresh id: the maximum becomes its status if that is more severe. */
  lemma MaxOfWithLive(m: map<string, ResultStatus>, s: BaseStatus, id: string, e: ResultStatus)
    requires MaxOf(m, s) && id !in m && !IsDeleted(e)
    ensures MaxOf(m[id := e], if LessThen(s, e.status) then e.status else s)
    ensures LiveIds(m[id := e]) == LiveIds(m) + {id}
  {
    var m' := m[id := e];
    var r := if LessThen(s, e.status) then e.status else s;
    forall k | k in m' && !IsDeleted(m'[k])
      ensures Ordinal(m'[k].status) <= Ordinal(r)
    {
      if k != id {
        assert m'[k] == m[k];
      }
    }
    if r != CLEAR && r == s && r != e.status {
      var k :| k in m && !IsDeleted(m[k]) && m[k].status == s;
      assert m'[k] == m[k];
    }
    assert r == e.status ==> m'[id].status == r;
  }

  /** A removed entry under a fresh id changes no maximum. */
  lemma MaxOfWithDeleted(m: map<string, ResultStatus>, s: BaseStatus, id: string, e: ResultStatus)
    requires MaxOf(m, s) && id !in m && IsDeleted(e)
    ensures MaxOf(m[id := e], s)
    ensures LiveIds(m[id := e]) == LiveIds(m)
  {
    var m' := m[id := e];
    forall k | k in m' && !IsDeleted(m'[k])
      ensures Ordinal(m'[k].status) <= Ordinal(s)
    {
      assert m'[k] == m[k];
    }
    if s != CLEAR {
      var k :| k in m && !IsDeleted(m[k]) && m[k].status == s;
      assert m'[k] == m[k];
    }
  }

  /** The aggregate keeps its live ids and its maximum in step with its entries. */
  predicate Consistent(a: AggregateEventsStatus)
  {
    a.activeEventsIds == LiveIds(a.statuses) && a.maxStatus == MaxLive(a.statuses)
  }

  /** The no-argument constructor: no entries, no active ids, maximum CLEAR. */
  function Empty(): (r: AggregateEventsStatus)
    ensures r.maxStatus == CLEAR && r.activeEventsIds == {} && r.statuses == map[]
    ensures Consistent(r)
  {
    AggregateEventsStatus(map[], CLEAR, {})
  }

  /** The entries `update` carries over: all but `eventId` and those removed before `horizon`. */
  function Kept(statuses: map<string, ResultStatus>, eventId: string, horizon: int): map<string, ResultStatus>
  {
    map id | id in statuses && id != eventId && !Expired(statuses[id], horizon) :: statuses[id]
  }

  /**
   * `update`: copies every entry except `eventId` and the entries removed
   * more than 300 seconds before `now`, collecting on the way the live ids
   * and the most severe live status.
   */
  method Update(statuses: map<string, ResultStatus>, eventId: string, now: int)
    returns (kept: map<string, ResultStatus>, maxStatus: BaseStatus, ids: set<string>)
    ensures kept == Kept(statuses, eventId, now - PurgeSeconds)
    ensures ids == LiveIds(kept)
    ensures maxStatus == MaxLive(kept)
  {
    var horizon := now - PurgeSeconds;
    kept, maxStatus, ids := map[], CLEAR, {};
    var todo := statuses.Keys;
    while todo != {}
      invariant todo <= statuses.Keys
      invariant kept == KeptOutside(statuses, todo, eventId, horizon)
      invariant ids == LiveIds(kept)
      invariant MaxOf(kept, maxStatus)
      decreases |todo|
    {
      var id :| id in todo;
      var e := statuses[id];
      KeptStep(statuses, todo, id, eventId, horizon);
      if id != eventId {
        if IsDeleted(e) {
          if e.deletedOn.value >= horizon {
            MaxOfWithDeleted(kept, maxStatus, id, e);
            kept := kept[id := e];
          }
        } else {
          MaxOfWithLive(kept, maxStatus, id, e);
          if LessThen(maxStatus, e.status) {
            maxStatus := e.status;
          }
          ids := ids + {id};
          kept := kept[id := e];
        }
      }
      todo := todo - {id};
    }
    MaxLiveUnique(kept, maxStatus);
  }

  /** The part of `Kept` outside `todo`: what the loop of `update` has copied so far. */
  function KeptOutside(statuses: map<string, ResultStatus>, todo: set<string>, eventId: string, horizon: int): map<string, ResultStatus>
  {
    map id | id in statuses && id !in todo && id != eventId && !Expired(statuses[id], horizon) :: statuses[id]
  }

  /** One step of the copy loop. */
  lemma KeptStep(statuses: map<string, ResultStatus>, todo: set<string>, id: string, eventId: string, horizon: int)
    requires id in todo && id in statuses
    ensures id !in KeptOutside(statuses, todo, eventId, horizon)
    ensures KeptOutside(statuses, todo - {id}, eventId, horizon) ==
      if id != eventId && !Expired(statuses[id], horizon)
      then KeptOutside(statuses, todo, eventId, horizon)[id := statuses[id]]
      else KeptOutside(statuses, todo, eventId, horizon)
  {
  }

  /**
   * `addEventStatus`: the event becomes live with the given status, and the
   * maximum is the most severe live status, the new one included.
   */
  method AddEventStatus(a: AggregateEventsStatus, eventId: string, status: BaseStatus, now: int)
    returns (r: AggregateEventsStatus)
    ensures r.statuses == Kept(a.statuses, eventId, now - PurgeSeconds)[eventId := ResultStatus(status, None)]
    ensures Consistent(r)
    ensures eventId in r.activeEventsIds
    ensures Ordinal(status) <= Ordinal(r.maxStatus)
  {
    var kept, maxStatus, ids := Update(a.statuses, eventId, now);
    MaxOfWithLive(kept, maxStatus, eventId, ResultStatus(status, None));
    MaxLiveUnique(kept[eventId := ResultStatus(status, None)], if LessThen(maxStatus, status) then status else maxStatus);
    if LessThen(maxStatus, status) {
      maxStatus := status;
    }
    kept := kept[eventId := ResultStatus(status, None)];
    ids := ids + {eventId};
    r := AggregateEventsStatus(kept, maxStatus, ids);
  }

  /**
   * `removeEvent`: the event's entry stays, stamped removed at `now` with
   * its last status, and leaves the live ids and the maximum. An event the
   * aggregate does not hold makes the Java code fail on a null entry
   * (`None` here).
   */
  method RemoveEvent(a: AggregateEventsStatus, eventId: string, now: int) returns (r: Option<AggregateEventsStatus>)
    ensures r.None? <==> eventId !in a.statuses
    ensures r.Some? ==>
      && r.value.statuses == Kept(a.statuses, eventId, now - PurgeSeconds)[eventId := ResultStatus(a.statuses[eventId].status, Some(now))]
      && Consistent(r.value)
      && eventId !in r.value.activeEventsIds
  {
    if eventId !in a.statuses {
      return None;
    }
    var es := a.statuses[eventId];
    var kept, maxStatus, ids := Update(a.statuses, eventId, now);
    MaxOfWithDeleted(kept, maxStatus, eventId, ResultStatus(es.status, Some(now)));
    MaxLiveUnique(kept[eventId := ResultStatus(es.status, Some(now))], maxStatus);
    kept := kept[eventId := ResultStatus(es.status, Some(now))];
    r := Some(AggregateEventsStatus(kept, maxStatus, ids));
  }

  /** What `getAggEventsStatus` reports: the status of every entry not removed before `horizon`. */
  function Shown(statuses: map<string, ResultStatus>, horizon: int): map<string, BaseStatus>
  {
    map id | id in statuses && !Expired(statuses[id], horizon) :: statuses[id].status
  }

  /** `getAggEventsStatus`: the entries removed more than 300 seconds before `now` are left out. */
  method GetAggEventsStatus(a: AggregateEventsStatus, now: int) returns (out: map<string, BaseStatus>)
    ensures out == Shown(a.statuses, now - PurgeSeconds)
  {
    var horizon := now - PurgeSeconds;
    out := map[];
    var todo := a.statuses.Keys;
    while todo != {}
      invariant todo <= a.statuses.Keys
      invariant out == map id | id in a.statuses && id !in todo && !Expired(a.statuses[id], horizon) :: a.statuses[id].status
      decreases |todo|
    {
      var id :| id in todo;
      var e := a.statuses[id];
      if !(IsDeleted(e) && e.deletedOn.value < horizon) {
        out := out[id := e.status];
      }
      todo := todo - {id};
    }
  }

  /** The purge in `update` hides nothing `getAggEventsStatus` would show at the same time. */
  lemma ShownAfterPurge(statuses: map<string, ResultStatus>, eventId: string, horizon: int)
    ensures Shown(Kept(statuses, eventId, horizon), horizon) == Shown(statuses, horizon) - {eventId}
  {
  }

  /** After `addEventStatus` at `now`, the report is the old one with the event at its new status. */
  lemma ShownAfterAdd(statuses: map<string, ResultStatus>, eventId: string, status: BaseStatus, now: int)
    ensures var h := now - PurgeSeconds;
      Shown(Kept(statuses, eventId, h)[eventId := ResultStatus(status, None)], h) == Shown(statuses, h)[eventId := status]
  {
    var h := now - PurgeSeconds;
    ShownAfterPurge(statuses, eventId, h);
  }

  /** After `removeEvent` at `now`, the event is still reported, at its last status, for 300 seconds. */
  lemma ShownAfterRemove(statuses: map<string, ResultStatus>, eventId: string, now: int, later: int)
    requires eventId in statuses && now <= later <= now + PurgeSeconds
    ensures var removed := Kept(statuses, eventId, now - PurgeSeconds)[eventId := ResultStatus(statuses[eventId].status, Some(now))];
      eventId in Shown(removed, later - PurgeSeconds) && Shown(removed, later - PurgeSeconds)[eventId] == statuses[eventId].status
  {
  }

  /** Once 300 seconds have passed, the removed event is no longer reported. */
  lemma RemovedExpires(statuses: map<string, ResultStatus>, eventId: string, now: int, later: int)
    requires eventId in statuses && later > now + PurgeSeconds
    ensures var removed := Kept(statuses, eventId, now - PurgeSeconds)[eventId := ResultStatus(statuses[eventId].status, Some(now))];
      eventId !in Shown(removed, later - PurgeSeconds)
  {
  }
}
