/**
 * What the feeder scripts under scripts/ have in common: the JSON objects they
 * POST to the item and event endpoints, the four requests every run ends with,
 * the Zabbix severity table, the conversion of a Zabbix problem into an event,
 * and the grouping of Zabbix hosts by host group shared by
 * scripts/load_obj_zabbix.py and scripts/load_obj_zabbix_v2.py.
 *
 * The server is seen only through what `bySourceAndSourceKeyNot` reads: the
 * source and the source key stored for each id.
 */
module Feeds {
  import opened Wrappers
  import opened Status
  import opened Entities
  import EntityServices

  /** A named filter of a posted item: `{'byHostId': {'equalFields': {...}}}`. */
  datatype Filter = Filter(name: string, equalFields: map<string, string>)

  /** One posted item object; a key the script leaves out of the object is `None`. */
  datatype PostedItem = PostedItem(
    id: string,
    source: string,
    sourceKey: string,
    name: Option<string>,
    fields: map<string, string>,
    filters: Option<Filter>,
    children: Option<seq<string>>)

  /** One posted event object; `status` is the status name the server parses. */
  datatype PostedEvent = PostedEvent(
    id: string,
    source: string,
    sourceKey: string,
    fields: map<string, string>,
    status: string,
    eventType: string)

  /** The ids of a batch of posted items. */
  function ItemIds(items: seq<PostedItem>): (r: set<string>)
    ensures forall i :: 0 <= i < |items| ==> items[i].id in r
    ensures forall id :: id in r ==> exists i :: 0 <= i < |items| && items[i].id == id
  {
    set i | 0 <= i < |items| :: items[i].id
  }

  function EventIds(events: seq<PostedEvent>): (r: set<string>)
    ensures forall i :: 0 <= i < |events| ==> events[i].id in r
    ensures forall id :: id in r ==> exists i :: 0 <= i < |events| && events[i].id == id
  {
    set i | 0 <= i < |events| :: events[i].id
  }

  /** Every child named by an item of the batch is in `ids`. */
  predicate ChildrenWithin(items: seq<PostedItem>, ids: set<string>)
  {
    forall i :: 0 <= i < |items| && items[i].children.Some? ==>
      forall c :: c in items[i].children.value ==> c in ids
  }

  /** Every child named by a posted item is itself a posted item. */
  predicate ChildrenPosted(items: seq<PostedItem>)
  {
    ChildrenWithin(items, ItemIds(items))
  }

  lemma ItemIdsConcat(a: seq<PostedItem>, b: seq<PostedItem>)
    ensures ItemIds(a + b) == ItemIds(a) + ItemIds(b)
  {
    forall id | id in ItemIds(a + b) ensures id in ItemIds(a) + ItemIds(b) {
      var i :| 0 <= i < |a + b| && (a + b)[i].id == id;
      if i >= |a| {
        assert b[i - |a|].id == id;
      }
    }
    forall id | id in ItemIds(a) ensures id in ItemIds(a + b) {
      var i :| 0 <= i < |a| && a[i].id == id;
      assert (a + b)[i].id == id;
    }
    forall id | id in ItemIds(b) ensures id in ItemIds(a + b) {
      var i :| 0 <= i < |b| && b[i].id == id;
      assert (a + b)[|a| + i].id == id;
    }
  }

  lemma ChildrenWithinConcat(a: seq<PostedItem>, b: seq<PostedItem>, s: set<string>, t: set<string>)
    requires ChildrenWithin(a, s) && ChildrenWithin(b, t)
    ensures ChildrenWithin(a + b, s + t)
  {
    forall i | 0 <= i < |a + b| && (a + b)[i].children.Some?
      ensures forall c :: c in (a + b)[i].children.value ==> c in s + t
    {
      if i >= |a| {
        assert (a + b)[i] == b[i - |a|];
      }
    }
  }

  /** Every object of the batch belongs to the run's source and generation. */
  predicate ItemsOf(items: seq<PostedItem>, source: string, sourceKey: string)
  {
    forall i :: 0 <= i < |items| ==> items[i].source == source && items[i].sourceKey == sourceKey
  }

  predicate EventsOf(events: seq<PostedEvent>, source: string, sourceKey: string)
  {
    forall i :: 0 <= i < |events| ==> events[i].source == source && events[i].sourceKey == sourceKey
  }

  // ---------------------------------------------------------------------
  // The four requests and their effect on the server
  // ---------------------------------------------------------------------

  /** The source and the generation stored for one id. */
  datatype Origin = Origin(source: string, sourceKey: string)

  /** The part of the server's state the feed relies on: the origin of every item and every event. */
  datatype Server = Server(items: map<string, Origin>, events: map<string, Origin>)

  datatype Step =
    | PostItems(items: seq<PostedItem>)
    | PruneItems(source: string, sourceKey: string)
    | PostEvents(events: seq<PostedEvent>)
    | PruneEvents(source: string, sourceKey: string)

  /**
   * The requests a run sends, in order: the items, the prune of older item
   * generations, the events, the prune of older event generations. Each is
   * sent whatever the answer to the previous one was.
   */
  function Publish(source: string, sourceKey: string, items: seq<PostedItem>, events: seq<PostedEvent>): seq<Step>
  {
    [PostItems(items), PruneItems(source, sourceKey), PostEvents(events), PruneEvents(source, sourceKey)]
  }

  /** The id and origin of each posted object, in posting order. */
  function ItemOrigins(items: seq<PostedItem>): (r: seq<(string, Origin)>)
    ensures |r| == |items|
    ensures forall i :: 0 <= i < |items| ==> r[i] == (items[i].id, Origin(items[i].source, items[i].sourceKey))
  {
    seq(|items|, i requires 0 <= i < |items| => (items[i].id, Origin(items[i].source, items[i].sourceKey)))
  }

  function EventOrigins(events: seq<PostedEvent>): (r: seq<(string, Origin)>)
    ensures |r| == |events|
    ensures forall i :: 0 <= i < |events| ==> r[i] == (events[i].id, Origin(events[i].source, events[i].sourceKey))
  {
    seq(|events|, i requires 0 <= i < |events| => (events[i].id, Origin(events[i].source, events[i].sourceKey)))
  }

  function PostedKeys(posted: seq<(string, Origin)>): (r: set<string>)
    ensures forall i :: 0 <= i < |posted| ==> posted[i].0 in r
    ensures forall id :: id in r ==> exists i :: 0 <= i < |posted| && posted[i].0 == id
  {
    set i | 0 <= i < |posted| :: posted[i].0
  }

  /** Every object of the batch was posted with origin `o`. */
  predicate AllOrigin(posted: seq<(string, Origin)>, o: Origin)
  {
    forall i :: 0 <= i < |posted| ==> posted[i].1 == o
  }

  /** Storing a batch: each posted id now carries the origin it was posted with, every other id keeps its own. */
  function PostAll(store: map<string, Origin>, posted: seq<(string, Origin)>): (r: map<string, Origin>)
    ensures forall id :: id in r <==> id in store || id in PostedKeys(posted)
    ensures forall id :: id in r && id !in PostedKeys(posted) ==> r[id] == store[id]
    ensures forall o :: AllOrigin(posted, o) ==> forall id :: id in PostedKeys(posted) ==> r[id] == o
    decreases |posted|
  {
    if |posted| == 0 then store
    else
      assert PostedKeys(posted) == {posted[0].0} + PostedKeys(posted[1..]) by {
        forall id | id in PostedKeys(posted) ensures id in {posted[0].0} + PostedKeys(posted[1..]) {
          var i :| 0 <= i < |posted| && posted[i].0 == id;
          if i > 0 {
            assert posted[1..][i - 1] == posted[i];
          }
        }
      }
      assert forall o :: AllOrigin(posted, o) ==> AllOrigin(posted[1..], o);
      PostAll(store[posted[0].0 := posted[0].1], posted[1..])
  }

  /** What `bySourceAndSourceKeyNot` deletes: every id of the source stored with another generation. */
  function PruneOrigins(store: map<string, Origin>, source: string, sourceKey: string): (r: map<string, Origin>)
    ensures forall id :: id in r <==> id in store && (store[id].source != source || store[id].sourceKey == sourceKey)
    ensures forall id :: id in r ==> r[id] == store[id]
  {
    map id | id in store && (store[id].source != source || store[id].sourceKey == sourceKey) :: store[id]
  }

  /** The origins a cache of entities stores. */
  function OriginsOf<T>(cache: map<string, T>, baseOf: T -> Entity): (r: map<string, Origin>)
    ensures r.Keys == cache.Keys
    ensures forall id :: id in r ==> r[id] == Origin(baseOf(cache[id]).source, baseOf(cache[id]).sourceKey)
  {
    map id | id in cache :: Origin(baseOf(cache[id]).source, baseOf(cache[id]).sourceKey)
  }

  /** The feed's view of a prune agrees with the entity service's `deleteBySourceAndSourceKeyNot`. */
  lemma PruneMatchesService<T>(cache: map<string, T>, baseOf: T -> Entity, source: string, sourceKey: string)
    ensures OriginsOf(EntityServices.Prune(cache, baseOf, source, sourceKey), baseOf)
         == PruneOrigins(OriginsOf(cache, baseOf), source, sourceKey)
  {
    var lhs := OriginsOf(EntityServices.Prune(cache, baseOf, source, sourceKey), baseOf);
    var rhs := PruneOrigins(OriginsOf(cache, baseOf), source, sourceKey);
    forall id | id in lhs
      ensures id in rhs && lhs[id] == rhs[id]
    {
      assert id !in EntityServices.Stale(cache, baseOf, source, sourceKey);
    }
    forall id | id in rhs
      ensures id in lhs
    {
      assert id !in EntityServices.Stale(cache, baseOf, source, sourceKey);
    }
  }

  function Apply(server: Server, step: Step): Server
  {
    match step
    case PostItems(items) => server.(items := PostAll(server.items, ItemOrigins(items)))
    case PruneItems(source, sourceKey) => server.(items := PruneOrigins(server.items, source, sourceKey))
    case PostEvents(events) => server.(events := PostAll(server.events, EventOrigins(events)))
    case PruneEvents(source, sourceKey) => server.(events := PruneOrigins(server.events, source, sourceKey))
  }

  function Run(server: Server, steps: seq<Step>): Server
    decreases |steps|
  {
    if |steps| == 0 then server else Run(Apply(server, steps[0]), steps[1..])
  }

  /** After a post and a prune of one kind, the source holds exactly the posted ids, and other sources keep theirs. */
  lemma PostThenPrune(store: map<string, Origin>, posted: seq<(string, Origin)>, ids: set<string>, source: string, sourceKey: string)
    requires AllOrigin(posted, Origin(source, sourceKey)) && ids == PostedKeys(posted)
    requires forall id :: id in store && store[id].source == source ==> store[id].sourceKey != sourceKey
    ensures var r := PruneOrigins(PostAll(store, posted), source, sourceKey);
            (forall id :: id in r && r[id].source == source <==> id in ids) &&
            (forall id :: id in store && store[id].source != source && id !in ids ==> id in r && r[id] == store[id])
  {
  }

  lemma ItemKeys(items: seq<PostedItem>)
    ensures PostedKeys(ItemOrigins(items)) == ItemIds(items)
  {
    var io := ItemOrigins(items);
    forall id | id in ItemIds(items) ensures id in PostedKeys(io) {
      var i :| 0 <= i < |items| && items[i].id == id;
      assert io[i].0 == id;
    }
  }

  lemma EventKeys(events: seq<PostedEvent>)
    ensures PostedKeys(EventOrigins(events)) == EventIds(events)
  {
    var eo := EventOrigins(events);
    forall id | id in EventIds(events) ensures id in PostedKeys(eo) {
      var i :| 0 <= i < |events| && events[i].id == id;
      assert eo[i].0 == id;
    }
  }

  /** The items end as posted then pruned, the events likewise; neither request of one kind touches the other. */
  lemma RunPublish(before: Server, source: string, sourceKey: string, items: seq<PostedItem>, events: seq<PostedEvent>)
    ensures Run(before, Publish(source, sourceKey, items, events)) ==
            Server(PruneOrigins(PostAll(before.items, ItemOrigins(items)), source, sourceKey),
                   PruneOrigins(PostAll(before.events, EventOrigins(events)), source, sourceKey))
  {
    var steps := Publish(source, sourceKey, items, events);
    var s1 := Apply(before, steps[0]);
    var s2 := Apply(s1, steps[1]);
    var s3 := Apply(s2, steps[2]);
    var s4 := Apply(s3, steps[3]);
    assert Run(before, steps) == Run(s1, steps[1..]);
    assert Run(s1, steps[1..]) == Run(s2, steps[2..]) by { assert steps[1..][1..] == steps[2..]; }
    assert Run(s2, steps[2..]) == Run(s3, steps[3..]) by { assert steps[2..][1..] == steps[3..]; }
    assert Run(s3, steps[3..]) == Run(s4, []) by { assert steps[3..][1..] == []; }
  }

  /**
   * A run converges: when no item or event of the source was stored with the
   * run's (fresh) generation, afterwards the source holds exactly the items and
   * the events the run posted, and what other sources stored is untouched.
   */
  lemma FeedConverges(before: Server, source: string, sourceKey: string, items: seq<PostedItem>, events: seq<PostedEvent>)
    requires ItemsOf(items, source, sourceKey) && EventsOf(events, source, sourceKey)
    requires forall id :: id in before.items && before.items[id].source == source ==> before.items[id].sourceKey != sourceKey
    requires forall id :: id in before.events && before.events[id].source == source ==> before.events[id].sourceKey != sourceKey
    ensures var after := Run(before, Publish(source, sourceKey, items, events));
            (forall id :: id in after.items && after.items[id].source == source <==> id in ItemIds(items)) &&
            (forall id :: id in after.events && after.events[id].source == source <==> id in EventIds(events)) &&
            (forall id :: id in before.items && before.items[id].source != source && id !in ItemIds(items) ==>
               id in after.items && after.items[id] == before.items[id]) &&
            (forall id :: id in before.events && before.events[id].source != source && id !in EventIds(events) ==>
               id in after.events && after.events[id] == before.events[id])
  {
    RunPublish(before, source, sourceKey, items, events);
    ItemKeys(items);
    EventKeys(events);
    assert AllOrigin(ItemOrigins(items), Origin(source, sourceKey));
    assert AllOrigin(EventOrigins(events), Origin(source, sourceKey));
    PostThenPrune(before.items, ItemOrigins(items), ItemIds(items), source, sourceKey);
    PostThenPrune(before.events, EventOrigins(events), EventIds(events), source, sourceKey);
  }

  // ---------------------------------------------------------------------
  // Zabbix problems
  // ---------------------------------------------------------------------

  /** The constants both Zabbix scripts start with. */
  const ZabbixSource := "pyzabbix"
  const ZabbixId := "zabbix"
  const ZabbixName := "Zabbix"
  const ZabbixUrl := "https://localhost/zabbix/api_jsonrpc.php"
  /** The id of the root item every script posts. */
  const RootId := "1"

  /** `severityToStr`: the Zabbix severity code to the status name posted. */
  const SeverityToStr: map<string, string> :=
    map["0" := "INDETERMINATE", "1" := "INFORMATION", "2" := "INFORMATION",
        "3" := "WARNING", "4" := "MAJOR", "5" := "CRITICAL"]

  /**
   * The server reads every posted severity as the intended status, never as
   * CLEAR; codes 0 and 1 are shifted one level up from the server's own digit
   * reading, codes 2 to 5 agree with it.
   */
  lemma SeverityStatuses()
    ensures SeverityToStr.Keys == {"0", "1", "2", "3", "4", "5"}
    ensures FromString(SeverityToStr["0"]) == INDETERMINATE
    ensures FromString(SeverityToStr["1"]) == INFORMATION && FromString(SeverityToStr["2"]) == INFORMATION
    ensures FromString(SeverityToStr["3"]) == WARNING && FromString(SeverityToStr["4"]) == MAJOR
    ensures FromString(SeverityToStr["5"]) == CRITICAL
  {
    assert FromString("INDETERMINATE") == INDETERMINATE;
    assert FromString("INFORMATION") == INFORMATION;
    assert FromString("WARNING") == WARNING;
    assert FromString("MAJOR") == MAJOR;
    assert FromString("CRITICAL") == CRITICAL;
  }

  /** No severity is posted as CLEAR; codes 2 to 5 read the same as the server's digit spelling. */
  lemma SeverityNeverClear(code: string)
    requires code in SeverityToStr
    ensures FromString(SeverityToStr[code]) != CLEAR
    ensures code != "0" && code != "1" ==> FromString(SeverityToStr[code]) == FromString(code)
  {
    SeverityStatuses();
    assert FromString("2") == INFORMATION && FromString("3") == WARNING;
    assert FromString("4") == MAJOR && FromString("5") == CRITICAL;
  }

  /** The first host of a problem, as `selectHosts` returns it. */
  datatype ProblemHost = ProblemHost(hostid: string, name: string)

  /**
   * One result of `event.get`: its scalar attributes, whether it carries the
   * `urls` list, and the `hosts` list when present.
   */
  datatype Problem = Problem(fields: map<string, string>, hasUrls: bool, hosts: Option<seq<ProblemHost>>)

  /** The keys the script adds to an event's fields. */
  const EventExtraKeys: set<string> := {"summary", "hostid", "node"}

  /**
   * The loop body over `problems`: the event posted for one problem, or the
   * exception Python raises on a missing key, an unknown severity or an empty
   * host list.
   */
  function EventOf(problem: Problem, source: string, sourceKey: string): (r: Result<PostedEvent>)
    ensures r.Ok? <==>
      "eventid" in problem.fields && "severity" in problem.fields && problem.fields["severity"] in SeverityToStr &&
      problem.hosts.Some? && |problem.hosts.value| > 0 && problem.hasUrls && "name" in problem.fields
    ensures r.Ok? ==>
      var e := r.value;
      var host := problem.hosts.value[0];
      e.id == problem.fields["eventid"] && e.source == source && e.sourceKey == sourceKey &&
      e.status == SeverityToStr[problem.fields["severity"]] && e.eventType == "PROBLEM" &&
      e.fields.Keys == problem.fields.Keys + EventExtraKeys &&
      e.fields["summary"] == problem.fields["name"] && e.fields["hostid"] == host.hostid && e.fields["node"] == host.name &&
      (forall k :: k in problem.fields && k !in EventExtraKeys ==> e.fields[k] == problem.fields[k])
    ensures r.Err? ==> r.error == "KeyError" || r.error == "IndexError"
  {
    if "eventid" !in problem.fields then Err("KeyError")
    else if "severity" !in problem.fields || problem.fields["severity"] !in SeverityToStr then Err("KeyError")
    else if problem.hosts.None? then Err("KeyError")
    else if |problem.hosts.value| == 0 then Err("IndexError")
    else if !problem.hasUrls then Err("KeyError")
    else if "name" !in problem.fields then Err("KeyError")
    else
      var host := problem.hosts.value[0];
      var fields := problem.fields["summary" := problem.fields["name"]]["hostid" := host.hostid]["node" := host.name];
      Ok(PostedEvent(problem.fields["eventid"], source, sourceKey, fields, SeverityToStr[problem.fields["severity"]], "PROBLEM"))
  }

  /** The events of a batch of problems none of which raises. */
  function EventsFor(problems: seq<Problem>, source: string, sourceKey: string): (r: seq<PostedEvent>)
    requires forall i :: 0 <= i < |problems| ==> EventOf(problems[i], source, sourceKey).Ok?
    ensures |r| == |problems|
    ensures forall i :: 0 <= i < |problems| ==> r[i] == EventOf(problems[i], source, sourceKey).value
    ensures EventsOf(r, source, sourceKey)
  {
    seq(|problems|, i requires 0 <= i < |problems| && EventOf(problems[i], source, sourceKey).Ok? =>
      EventOf(problems[i], source, sourceKey).value)
  }

  /**
   * The loop over `problems`: one event per problem in order, or the exception
   * of the first problem that raises one (then nothing is posted at all).
   */
  method BuildEvents(problems: seq<Problem>, source: string, sourceKey: string) returns (r: Result<seq<PostedEvent>>)
    ensures r.Ok? <==> forall i :: 0 <= i < |problems| ==> EventOf(problems[i], source, sourceKey).Ok?
    ensures r.Ok? ==> r.value == EventsFor(problems, source, sourceKey)
    ensures r.Err? ==>
              exists i :: 0 <= i < |problems| && EventOf(problems[i], source, sourceKey).Err? &&
                          r.error == EventOf(problems[i], source, sourceKey).error &&
                          forall j :: 0 <= j < i ==> EventOf(problems[j], source, sourceKey).Ok?
  {
    var events: seq<PostedEvent> := [];
    for i := 0 to |problems|
      invariant |events| == i
      invariant forall j :: 0 <= j < i ==>
                  EventOf(problems[j], source, sourceKey).Ok? && events[j] == EventOf(problems[j], source, sourceKey).value
    {
      var e := EventOf(problems[i], source, sourceKey);
      if e.Err? {
        return Err(e.error);
      }
      events := events + [e.value];
    }
    assert events == EventsFor(problems, source, sourceKey);
    return Ok(events);
  }

  // ---------------------------------------------------------------------
  // Zabbix hosts grouped by host group
  // ---------------------------------------------------------------------

  /** A host group as `selectGroups: 'extend'` returns it; `attributes` are its other keys. */
  datatype HostGroup = HostGroup(groupid: string, name: string, attributes: map<string, string>)

  /** A host with the output `['hostid', 'name', 'description']` and its groups. */
  datatype Host = Host(hostid: string, name: string, description: string, groups: seq<HostGroup>)

  /** A group collected from the hosts, with the `children` host ids appended to it. */
  datatype GroupEntry = GroupEntry(group: HostGroup, children: seq<string>)

  /** A Python dict keyed by group id: its keys in insertion order, and its entries. */
  datatype Grouping = Grouping(order: seq<string>, entries: map<string, GroupEntry>)

  /** A Python dict's key order: no key twice, and exactly the keys of the map. */
  predicate OrderedKeys<V>(order: seq<string>, m: map<string, V>)
  {
    (forall i, j :: 0 <= i < j < |order| ==> order[i] != order[j]) &&
    (forall k :: k in m ==> k in order) &&
    (forall i :: 0 <= i < |order| ==> order[i] in m)
  }

  /** One (group, host) pair met while walking the hosts and their groups. */
  datatype Membership = Membership(group: HostGroup, hostid: string)

  function HostPairs(host: Host): (r: seq<Membership>)
    ensures |r| == |host.groups|
    ensures forall k :: 0 <= k < |host.groups| ==> r[k] == Membership(host.groups[k], host.hostid)
  {
    seq(|host.groups|, k requires 0 <= k < |host.groups| => Membership(host.groups[k], host.hostid))
  }

  /** The pairs in the order the nested loop meets them. */
  function Memberships(hosts: seq<Host>): seq<Membership>
  {
    if |hosts| == 0 then [] else Memberships(hosts[..|hosts| - 1]) + HostPairs(hosts[|hosts| - 1])
  }

  /** One pass of the inner loop body: append the host to a known group, or add the group with it. */
  function Insert(g: Grouping, m: Membership): Grouping
  {
    var gid := m.group.groupid;
    if gid in g.entries then
      Grouping(g.order, g.entries[gid := g.entries[gid].(children := g.entries[gid].children + [m.hostid])])
    else
      Grouping(g.order + [gid], g.entries[gid := GroupEntry(m.group, [m.hostid])])
  }

  /** The dict the loop builds from the pairs met so far. */
  function GroupingOf(pairs: seq<Membership>): (r: Grouping)
    ensures OrderedKeys(r.order, r.entries)
  {
    if |pairs| == 0 then Grouping([], map[])
    else Insert(GroupingOf(pairs[..|pairs| - 1]), pairs[|pairs| - 1])
  }

  lemma GroupingOfSnoc(met: seq<Membership>, m: Membership)
    ensures GroupingOf(met + [m]) == Insert(GroupingOf(met), m)
  {
    assert (met + [m])[..|met|] == met;
  }

  /** The host ids paired with group `gid`, in the order met. */
  function MembersOf(pairs: seq<Membership>, gid: string): (r: seq<string>)
    ensures forall h :: h in r ==> exists i :: 0 <= i < |pairs| && pairs[i].group.groupid == gid && pairs[i].hostid == h
    ensures forall i :: 0 <= i < |pairs| && pairs[i].group.groupid == gid ==> pairs[i].hostid in r
  {
    if |pairs| == 0 then []
    else
      var prev := pairs[..|pairs| - 1];
      assert forall i :: 0 <= i < |prev| ==> prev[i] == pairs[i];
      MembersOf(prev, gid) + (if pairs[|pairs| - 1].group.groupid == gid then [pairs[|pairs| - 1].hostid] else [])
  }

  /** The first group object met with id `gid`: the one the dict keeps. */
  function FirstGroup(pairs: seq<Membership>, gid: string): Option<HostGroup>
  {
    if |pairs| == 0 then None
    else
      match FirstGroup(pairs[..|pairs| - 1], gid)
      case Some(g) => Some(g)
      case None => if pairs[|pairs| - 1].group.groupid == gid then Some(pairs[|pairs| - 1].group) else None
  }

  /**
   * The dict holds a group exactly when some pair names it; it keeps the first
   * group object met with that id, and its children are the host ids paired
   * with it, in order.
   */
  lemma {:induction false} GroupingIsMembership(pairs: seq<Membership>, gid: string)
    ensures gid in GroupingOf(pairs).entries <==> FirstGroup(pairs, gid).Some?
    ensures FirstGroup(pairs, gid).None? ==> MembersOf(pairs, gid) == []
    ensures gid in GroupingOf(pairs).entries ==>
              GroupingOf(pairs).entries[gid] == GroupEntry(FirstGroup(pairs, gid).value, MembersOf(pairs, gid))
  {
    if |pairs| > 0 {
      var prev := pairs[..|pairs| - 1];
      GroupingIsMembership(prev, gid);
      var m := pairs[|pairs| - 1];
      if m.group.groupid == gid {
        assert MembersOf(pairs, gid) == MembersOf(prev, gid) + [m.hostid];
      } else {
        assert MembersOf(pairs, gid) == MembersOf(prev, gid);
      }
    }
  }

  lemma {:induction false} FirstGroupIsFirst(pairs: seq<Membership>, gid: string)
    ensures FirstGroup(pairs, gid).Some? <==> exists i :: 0 <= i < |pairs| && pairs[i].group.groupid == gid
    ensures FirstGroup(pairs, gid).Some? ==>
              exists i :: 0 <= i < |pairs| && pairs[i].group == FirstGroup(pairs, gid).value && pairs[i].group.groupid == gid &&
                forall j :: 0 <= j < i ==> pairs[j].group.groupid != gid
  {
    if |pairs| > 0 {
      var prev := pairs[..|pairs| - 1];
      FirstGroupIsFirst(prev, gid);
      assert forall i :: 0 <= i < |prev| ==> prev[i] == pairs[i];
    }
  }

  lemma {:induction false} MembershipsOf(hosts: seq<Host>, i: int, k: int)
    requires 0 <= i < |hosts| && 0 <= k < |hosts[i].groups|
    ensures exists n :: 0 <= n < |Memberships(hosts)| && Memberships(hosts)[n] == Membership(hosts[i].groups[k], hosts[i].hostid)
  {
    var prev := hosts[..|hosts| - 1];
    var pairs := Memberships(hosts);
    if i == |hosts| - 1 {
      var n := |Memberships(prev)| + k;
      assert pairs[n] == HostPairs(hosts[i])[k];
    } else {
      assert prev[i] == hosts[i];
      MembershipsOf(prev, i, k);
      var n :| 0 <= n < |Memberships(prev)| && Memberships(prev)[n] == Membership(hosts[i].groups[k], hosts[i].hostid);
      assert pairs[n] == Memberships(prev)[n];
    }
  }

  /** Every pair met comes from one of the hosts and one of its groups. */
  lemma {:induction false} MembershipSource(hosts: seq<Host>, n: int) returns (i: int, k: int)
    requires 0 <= n < |Memberships(hosts)|
    ensures 0 <= i < |hosts| && 0 <= k < |hosts[i].groups|
    ensures Memberships(hosts)[n] == Membership(hosts[i].groups[k], hosts[i].hostid)
  {
    var prev := hosts[..|hosts| - 1];
    if n < |Memberships(prev)| {
      i, k := MembershipSource(prev, n);
      assert hosts[i] == prev[i];
    } else {
      i, k := |hosts| - 1, n - |Memberships(prev)|;
      assert Memberships(hosts)[n] == HostPairs(hosts[i])[k];
    }
  }

  /** Every host id is listed among the children of each group the host belongs to. */
  lemma HostListedInItsGroups(hosts: seq<Host>, i: int, k: int)
    requires 0 <= i < |hosts| && 0 <= k < |hosts[i].groups|
    ensures var g := GroupingOf(Memberships(hosts));
            hosts[i].groups[k].groupid in g.entries && hosts[i].hostid in g.entries[hosts[i].groups[k].groupid].children
  {
    var pairs := Memberships(hosts);
    var gid := hosts[i].groups[k].groupid;
    MembershipsOf(hosts, i, k);
    var n :| 0 <= n < |pairs| && pairs[n] == Membership(hosts[i].groups[k], hosts[i].hostid);
    FirstGroupIsFirst(pairs, gid);
    GroupingIsMembership(pairs, gid);
  }

  /** The dict holds exactly the groups some host belongs to. */
  lemma GroupsOfHosts(hosts: seq<Host>, gid: string)
    ensures gid in GroupingOf(Memberships(hosts)).entries <==>
            exists i, k :: 0 <= i < |hosts| && 0 <= k < |hosts[i].groups| && hosts[i].groups[k].groupid == gid
  {
    var pairs := Memberships(hosts);
    GroupingIsMembership(pairs, gid);
    FirstGroupIsFirst(pairs, gid);
    if gid in GroupingOf(pairs).entries {
      var n :| 0 <= n < |pairs| && pairs[n].group.groupid == gid;
      var i, k := MembershipSource(hosts, n);
    }
    if exists i, k :: 0 <= i < |hosts| && 0 <= k < |hosts[i].groups| && hosts[i].groups[k].groupid == gid {
      var i, k :| 0 <= i < |hosts| && 0 <= k < |hosts[i].groups| && hosts[i].groups[k].groupid == gid;
      HostListedInItsGroups(hosts, i, k);
    }
  }

  /** A member of a group was met paired with it. */
  lemma {:induction false} PairOfMember(pairs: seq<Membership>, gid: string, c: string) returns (n: int)
    requires c in MembersOf(pairs, gid)
    ensures 0 <= n < |pairs| && pairs[n].group.groupid == gid && pairs[n].hostid == c
  {
    var prev := pairs[..|pairs| - 1];
    if c in MembersOf(prev, gid) {
      n := PairOfMember(prev, gid, c);
    } else {
      n := |pairs| - 1;
    }
  }

  /** Every child of a group is the id of one of the hosts. */
  lemma GroupChildrenAreHosts(hosts: seq<Host>, gid: string, c: string)
    requires gid in GroupingOf(Memberships(hosts)).entries && c in GroupingOf(Memberships(hosts)).entries[gid].children
    ensures exists i :: 0 <= i < |hosts| && hosts[i].hostid == c
  {
    var pairs := Memberships(hosts);
    GroupingIsMembership(pairs, gid);
    var n := PairOfMember(pairs, gid, c);
    var i, k := MembershipSource(hosts, n);
  }

  lemma MembershipsSnoc(hosts: seq<Host>, i: int)
    requires 0 <= i < |hosts|
    ensures Memberships(hosts[..i + 1]) == Memberships(hosts[..i]) + HostPairs(hosts[i])
  {
    assert hosts[..i + 1][..i] == hosts[..i];
  }

  lemma PrefixStep<T>(done: seq<T>, pairs: seq<T>, k: int)
    requires 0 <= k < |pairs|
    ensures done + pairs[..k + 1] == (done + pairs[..k]) + [pairs[k]]
  {
    assert pairs[..k + 1] == pairs[..k] + [pairs[k]];
  }

  function HostIds(hosts: seq<Host>): (r: set<string>)
    ensures forall i :: 0 <= i < |hosts| ==> hosts[i].hostid in r
  {
    set i | 0 <= i < |hosts| :: hosts[i].hostid
  }

  /** Every child listed in the dict is the id of a host. */
  predicate ChildrenAreHosts(grouping: Grouping, hosts: seq<Host>)
  {
    forall gid, c :: gid in grouping.entries && c in grouping.entries[gid].children ==> c in HostIds(hosts)
  }

  /** Every host is listed among the children of each of its groups. */
  predicate ListsHosts(grouping: Grouping, hosts: seq<Host>)
  {
    forall i, k :: 0 <= i < |hosts| && 0 <= k < |hosts[i].groups| ==>
      hosts[i].groups[k].groupid in grouping.entries &&
      hosts[i].hostid in grouping.entries[hosts[i].groups[k].groupid].children
  }

  lemma GroupingListsHosts(hosts: seq<Host>)
    ensures ListsHosts(GroupingOf(Memberships(hosts)), hosts)
  {
    forall i, k | 0 <= i < |hosts| && 0 <= k < |hosts[i].groups|
      ensures var g := GroupingOf(Memberships(hosts));
              hosts[i].groups[k].groupid in g.entries && hosts[i].hostid in g.entries[hosts[i].groups[k].groupid].children
    {
      HostListedInItsGroups(hosts, i, k);
    }
  }

  lemma GroupingChildrenAreHosts(hosts: seq<Host>)
    ensures ChildrenAreHosts(GroupingOf(Memberships(hosts)), hosts)
  {
    var grouping := GroupingOf(Memberships(hosts));
    forall gid, c | gid in grouping.entries && c in grouping.entries[gid].children
      ensures c in HostIds(hosts)
    {
      GroupChildrenAreHosts(hosts, gid, c);
    }
  }

  /** The item posted for a host: its id, its fields, and the `byHostId` filter on its id. */
  function HostItem(host: Host, source: string, sourceKey: string, named: bool): PostedItem
  {
    PostedItem(host.hostid, source, sourceKey, if named then Some(host.name) else None,
               map["hostid" := host.hostid, "name" := host.name, "description" := host.description],
               Some(Filter("byHostId", map["hostid" := host.hostid])), None)
  }

  /** The inner loop over one host's groups: the host joins each of its groups, in order. */
  method AddHostGroups(grouping: Grouping, host: Host, ghost done: seq<Membership>) returns (r: Grouping)
    requires grouping == GroupingOf(done)
    ensures r == GroupingOf(done + HostPairs(host))
  {
    r := grouping;
    ghost var met := done;
    ghost var pairs := HostPairs(host);
    assert done + pairs[..0] == done;
    for k := 0 to |host.groups|
      invariant met == done + pairs[..k]
      invariant r == GroupingOf(met)
    {
      var group := host.groups[k];
      PrefixStep(done, pairs, k);
      GroupingOfSnoc(met, Membership(group, host.hostid));
      met := met + [Membership(group, host.hostid)];
      if group.groupid in r.entries {
        var entry := r.entries[group.groupid];
        r := r.(entries := r.entries[group.groupid := entry.(children := entry.children + [host.hostid])]);
      } else {
        r := Grouping(r.order + [group.groupid], r.entries[group.groupid := GroupEntry(group, [host.hostid])]);
      }
    }
    assert pairs[..|host.groups|] == pairs;
  }

  /** The host items, one per host in order. */
  function HostItems(hosts: seq<Host>, source: string, sourceKey: string, named: bool): (r: seq<PostedItem>)
    ensures |r| == |hosts|
    ensures forall i :: 0 <= i < |hosts| ==> r[i] == HostItem(hosts[i], source, sourceKey, named)
  {
    seq(|hosts|, i requires 0 <= i < |hosts| => HostItem(hosts[i], source, sourceKey, named))
  }

  /** The host items carry exactly the host ids, and name no children. */
  lemma HostItemsIds(hosts: seq<Host>, source: string, sourceKey: string, named: bool)
    ensures ItemIds(HostItems(hosts, source, sourceKey, named)) == HostIds(hosts)
    ensures ChildrenWithin(HostItems(hosts, source, sourceKey, named), {})
  {
    var items := HostItems(hosts, source, sourceKey, named);
    forall id | id in ItemIds(items) ensures id in HostIds(hosts) {
      var i :| 0 <= i < |items| && items[i].id == id;
    }
  }

  /**
   * The loop over `hosts`: groups the hosts by host group, in the order the
   * groups are first met, and posts one item per host (with its `name` when
   * `named`, as the first script does).
   */
  method GroupHosts(hosts: seq<Host>, source: string, sourceKey: string, named: bool) returns (grouping: Grouping, items: seq<PostedItem>)
    ensures grouping == GroupingOf(Memberships(hosts))
    ensures items == HostItems(hosts, source, sourceKey, named)
  {
    grouping := Grouping([], map[]);
    items := [];
    for i := 0 to |hosts|
      invariant grouping == GroupingOf(Memberships(hosts[..i]))
      invariant |items| == i
      invariant forall j :: 0 <= j < i ==> items[j] == HostItem(hosts[j], source, sourceKey, named)
    {
      var host := hosts[i];
      MembershipsSnoc(hosts, i);
      grouping := AddHostGroups(grouping, host, Memberships(hosts[..i]));
      items := items + [HostItem(host, source, sourceKey, named)];
    }
    assert hosts[..|hosts|] == hosts;
    assert items == HostItems(hosts, source, sourceKey, named);
  }

  /** A host item is found by the `byHostId` filter on its own id, and names no children. */
  lemma HostItemShape(host: Host, source: string, sourceKey: string, named: bool)
    ensures var item := HostItem(host, source, sourceKey, named);
            item.id == host.hostid && item.filters == Some(Filter("byHostId", map["hostid" := item.id])) &&
            item.fields.Keys == {"hostid", "name", "description"} && item.fields["hostid"] == item.id &&
            item.children.None? && (named <==> item.name == Some(host.name))
  {
  }
}
