/**
 * The part of the event history writer that decides what is written
 * (src/main/java/ru/keich/mon/servicemanager/history/EventHistoryService.java):
 * which changed events become history documents, how several stored
 * documents of one event are merged, and the version the next run starts
 * from. The history index itself is a parameter: the sequence of documents
 * it holds.
 */
module EventHistory {
  import opened Wrappers
  import opened Entities

  predicate IsDeleted(e: Entity)
  {
    e.deletedOn.Some?
  }

  /** The merge function of `getEventsByIdsInternal`: a deleted first copy wins, otherwise the second. */
  function Merge(first: Entity, second: Entity): (r: Entity)
    ensures r == first || r == second
    ensures IsDeleted(r) <==> IsDeleted(first) || IsDeleted(second)
  {
    if IsDeleted(first) then first else second
  }

  /** Folding the hits for one id through `Merge`, in the order the search returned them. */
  function MergeHits(hits: seq<Entity>): (r: Option<Entity>)
    ensures r.Some? <==> |hits| > 0
    ensures r.Some? ==> r.value in hits
    ensures r.Some? ==> (IsDeleted(r.value) <==> exists i :: 0 <= i < |hits| && IsDeleted(hits[i]))
  {
    if |hits| == 0 then None
    else
      var last := hits[|hits| - 1];
      match MergeHits(hits[..|hits| - 1])
      case None => Some(last)
      case Some(acc) =>
        assert forall i :: 0 <= i < |hits| - 1 ==> hits[..|hits| - 1][i] == hits[i];
        Some(Merge(acc, last))
  }

  /** The stored documents of one event id, in index order. */
  function HitsFor(documents: seq<Entity>, id: string): (r: seq<Entity>)
    ensures forall e :: e in r <==> e in documents && e.id == id
  {
    if |documents| == 0 then []
    else
      var rest := HitsFor(documents[1..], id);
      assert forall e :: e in documents <==> e == documents[0] || e in documents[1..];
      if documents[0].id == id then [documents[0]] + rest else rest
  }

  /** What the lookup of the incoming ids returns: one merged document per id that has any. */
  function Existing(documents: seq<Entity>, ids: set<string>): (r: map<string, Entity>)
    ensures forall id :: id in r <==> id in ids && exists e :: e in documents && e.id == id
    ensures forall id :: id in r ==> r[id] in documents && r[id].id == id
  {
    map id | id in ids && HitsFor(documents, id) != [] :: MergeHits(HitsFor(documents, id)).value
  }

  /** The filter of `sendHistoryInternal`: is the incoming event written, given the stored one? */
  predicate ShouldSend(event: Entity, stored: Option<Entity>)
  {
    match stored
    case None => true
    case Some(previous) => !IsDeleted(previous) && IsDeleted(event)
  }

  /** The incoming events the filter keeps, in their order. */
  function Selected(input: seq<Entity>, existing: map<string, Entity>): (r: seq<Entity>)
    ensures |r| <= |input|
    ensures forall e :: e in r <==> e in input && ShouldSend(e, if e.id in existing then Some(existing[e.id]) else None)
  {
    if |input| == 0 then []
    else
      var e := input[0];
      var rest := Selected(input[1..], existing);
      assert forall x :: x in input <==> x == e || x in input[1..];
      if ShouldSend(e, if e.id in existing then Some(existing[e.id]) else None) then [e] + rest else rest
  }

  function Ids(input: seq<Entity>): (r: set<string>)
    ensures forall id :: id in r <==> exists e :: e in input && e.id == id
  {
    set e | e in input :: e.id
  }

  /** The highest version of a non-empty batch. */
  function MaxVersion(input: seq<Entity>): (v: int)
    requires |input| > 0
    ensures forall e :: e in input ==> e.version <= v
    ensures exists e :: e in input && e.version == v
  {
    if |input| == 1 then input[0].version
    else
      var rest := MaxVersion(input[1..]);
      assert forall x :: x in input <==> x == input[0] || x in input[1..];
      if input[0].version >= rest then input[0].version else rest
  }

  /** A new event, one never written before, is written. */
  lemma NewEventSent(documents: seq<Entity>, input: seq<Entity>, e: Entity)
    requires e in input && forall d :: d in documents ==> d.id != e.id
    ensures e in Selected(input, Existing(documents, Ids(input)))
  {
  }

  /** Once a deleted document of an event is stored, nothing more of that event is written. */
  lemma NothingAfterDeletion(documents: seq<Entity>, input: seq<Entity>, e: Entity, d: Entity)
    requires d in documents && d.id == e.id && IsDeleted(d)
    ensures e !in Selected(input, Existing(documents, Ids(input)))
  {
    var hits := HitsFor(documents, e.id);
    if e in input {
      assert d in hits;
      var i :| 0 <= i < |hits| && hits[i] == d;
      assert IsDeleted(MergeHits(hits).value);
    }
  }

  /** While a live document of an event is stored and none deleted, only the deletion of the event is written. */
  lemma OnlyDeletionAfterLive(documents: seq<Entity>, input: seq<Entity>, e: Entity)
    requires exists d :: d in documents && d.id == e.id
    requires forall d :: d in documents && d.id == e.id ==> !IsDeleted(d)
    ensures e in Selected(input, Existing(documents, Ids(input))) <==> e in input && IsDeleted(e)
  {
    var hits := HitsFor(documents, e.id);
    if e in input {
      var m := MergeHits(hits).value;
      assert m in hits;
      assert !IsDeleted(m);
    }
  }

  class EventHistoryService {
    var maxVersion: int

    constructor()
      ensures maxVersion == 0
    {
      maxVersion := 0;
    }

    /**
     * `sendHistoryInternal`: fetches the events changed since `maxVersion`;
     * an empty batch changes nothing, otherwise `maxVersion` becomes the
     * batch's highest version and the events the filter keeps are written.
     */
    method SendHistoryInternal(fetch: int -> seq<Entity>, documents: seq<Entity>) returns (written: seq<Entity>)
      modifies this
      ensures var input := fetch(old(maxVersion));
              if |input| == 0 then maxVersion == old(maxVersion) && written == []
              else maxVersion == MaxVersion(input) && written == Selected(input, Existing(documents, Ids(input)))
    {
      var input := fetch(maxVersion);
      if |input| == 0 {
        return [];
      }
      maxVersion := MaxVersion(input);
      var existing := Existing(documents, Ids(input));
      written := Selected(input, existing);
    }
  }
}
