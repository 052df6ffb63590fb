/**
 * The first Zabbix feeder (scripts/load_obj_zabbix.py): one item per host, one
 * item per host group whose children are its hosts, a `zabbix` item whose
 * children are the groups, and the root item `1` above it.
 */
module ZabbixFlatFeed {
  import opened Wrappers
  import opened Feeds

  /** The fields of a group item: the group's own keys, without the `children` key added to it. */
  function GroupFields(group: HostGroup): (r: map<string, string>)
    ensures "children" !in r
    ensures "groupid" in r && "name" in r && r["groupid"] == group.groupid && r["name"] == group.name
  {
    (group.attributes - {"children"})["groupid" := group.groupid]["name" := group.name]
  }

  function GroupItem(gid: string, entry: GroupEntry, sourceKey: string): PostedItem
  {
    PostedItem(gid, ZabbixSource, sourceKey, Some(entry.group.name), GroupFields(entry.group), None, Some(entry.children))
  }

  function ZabbixItem(groupIds: seq<string>, sourceKey: string): PostedItem
  {
    PostedItem(ZabbixId, ZabbixSource, sourceKey, Some(ZabbixName), map["name" := ZabbixName, "zabbix_url" := ZabbixUrl], None, Some(groupIds))
  }

  function RootItem(sourceKey: string): PostedItem
  {
    PostedItem(RootId, ZabbixSource, sourceKey, Some("ROOT"), map["name" := "ROOT"], None, Some([ZabbixId]))
  }

  /** One group item per dict key, in key order. */
  function GroupItems(grouping: Grouping, sourceKey: string): (r: seq<PostedItem>)
    requires OrderedKeys(grouping.order, grouping.entries)
    ensures |r| == |grouping.order|
    ensures forall k :: 0 <= k < |r| ==> r[k] == GroupItem(grouping.order[k], grouping.entries[grouping.order[k]], sourceKey)
  {
    seq(|grouping.order|, k requires 0 <= k < |grouping.order| => GroupItem(grouping.order[k], grouping.entries[grouping.order[k]], sourceKey))
  }

  /** The objects posted from the hosts and a groups dict: hosts, groups, `zabbix`, root. */
  function Assemble(hosts: seq<Host>, grouping: Grouping, sourceKey: string): (r: seq<PostedItem>)
    requires OrderedKeys(grouping.order, grouping.entries)
    ensures |r| == |hosts| + |grouping.order| + 2
  {
    HostItems(hosts, ZabbixSource, sourceKey, true) + GroupItems(grouping, sourceKey) +
    [ZabbixItem(grouping.order, sourceKey), RootItem(sourceKey)]
  }

  /** Everything the script posts to the item endpoint, in order. */
  function FlatItems(hosts: seq<Host>, sourceKey: string): seq<PostedItem>
  {
    Assemble(hosts, GroupingOf(Memberships(hosts)), sourceKey)
  }

  /**
   * The loop over the groups dict: one item per group, in key order, and the
   * list of group ids that becomes the children of the `zabbix` item.
   */
  method EmitGroups(grouping: Grouping, sourceKey: string) returns (items: seq<PostedItem>, groupIds: seq<string>)
    requires OrderedKeys(grouping.order, grouping.entries)
    ensures items == GroupItems(grouping, sourceKey)
    ensures groupIds == grouping.order
  {
    items := [];
    groupIds := [];
    for k := 0 to |grouping.order|
      invariant groupIds == grouping.order[..k]
      invariant |items| == k
      invariant forall j :: 0 <= j < k ==> items[j] == GroupItem(grouping.order[j], grouping.entries[grouping.order[j]], sourceKey)
    {
      var gid := grouping.order[k];
      var entry := grouping.entries[gid];
      groupIds := groupIds + [gid];
      items := items + [GroupItem(gid, entry, sourceKey)];
    }
    assert grouping.order[..|grouping.order|] == grouping.order;
    assert items == GroupItems(grouping, sourceKey);
  }

  /**
   * The whole run: the requests it sends, or the exception a malformed problem
   * raises before anything is sent.
   */
  method Feed(hosts: seq<Host>, problems: seq<Problem>, sourceKey: string) returns (r: Result<seq<Step>>)
    ensures r.Ok? <==> forall i :: 0 <= i < |problems| ==> EventOf(problems[i], ZabbixSource, sourceKey).Ok?
    ensures r.Ok? ==> r.value == Publish(ZabbixSource, sourceKey, FlatItems(hosts, sourceKey), EventsFor(problems, ZabbixSource, sourceKey))
  {
    var grouping, hostItems := GroupHosts(hosts, ZabbixSource, sourceKey, true);
    var groupItems, groupIds := EmitGroups(grouping, sourceKey);
    var objs := hostItems + groupItems + [ZabbixItem(groupIds, sourceKey), RootItem(sourceKey)];
    var events := BuildEvents(problems, ZabbixSource, sourceKey);
    if events.Err? {
      return Err(events.error);
    }
    return Ok(Publish(ZabbixSource, sourceKey, objs, events.value));
  }

  /** Every posted item belongs to the run's source and generation. */
  lemma FlatItemsOfRun(hosts: seq<Host>, sourceKey: string)
    ensures ItemsOf(FlatItems(hosts, sourceKey), ZabbixSource, sourceKey)
  {
  }

  /** Where each kind of item sits in the posted list. */
  lemma AssembledAt(hosts: seq<Host>, grouping: Grouping, sourceKey: string, i: int)
    requires OrderedKeys(grouping.order, grouping.entries)
    requires 0 <= i < |hosts| + |grouping.order| + 2
    ensures var h := |hosts|;
            var n := h + |grouping.order|;
            var item := Assemble(hosts, grouping, sourceKey)[i];
            (i < h ==> item == HostItem(hosts[i], ZabbixSource, sourceKey, true)) &&
            (h <= i < n ==> item == GroupItem(grouping.order[i - h], grouping.entries[grouping.order[i - h]], sourceKey)) &&
            (i == n ==> item == ZabbixItem(grouping.order, sourceKey)) &&
            (i == n + 1 ==> item == RootItem(sourceKey))
  {
  }

  /**
   * The `zabbix` item's children are the group ids in the order first met,
   * each once, and exactly the groups some host belongs to; the root's only
   * child is `zabbix`.
   */
  lemma FlatShape(hosts: seq<Host>, sourceKey: string, gid: string)
    ensures var grouping := GroupingOf(Memberships(hosts));
            var items := FlatItems(hosts, sourceKey);
            var n := |hosts| + |grouping.order|;
            |items| == n + 2 &&
            items[n].id == ZabbixId && items[n].children == Some(grouping.order) &&
            items[n + 1].id == RootId && items[n + 1].children == Some([ZabbixId]) &&
            (forall i, j :: 0 <= i < j < |grouping.order| ==> grouping.order[i] != grouping.order[j]) &&
            (gid in grouping.order <==>
               exists i, k :: 0 <= i < |hosts| && 0 <= k < |hosts[i].groups| && hosts[i].groups[k].groupid == gid)
  {
    var grouping := GroupingOf(Memberships(hosts));
    var n := |hosts| + |grouping.order|;
    AssembledAt(hosts, grouping, sourceKey, n);
    AssembledAt(hosts, grouping, sourceKey, n + 1);
    GroupsOfHosts(hosts, gid);
  }

  /** The item of the k-th group: the group id, its name, its fields without `children`, its hosts as children. */
  lemma AssembledGroupAt(hosts: seq<Host>, grouping: Grouping, sourceKey: string, k: int)
    requires OrderedKeys(grouping.order, grouping.entries)
    requires 0 <= k < |grouping.order|
    ensures var item := Assemble(hosts, grouping, sourceKey)[|hosts| + k];
            var gid := grouping.order[k];
            item.id == gid && item.name == Some(grouping.entries[gid].group.name) &&
            "children" !in item.fields && item.children == Some(grouping.entries[gid].children)
  {
    AssembledAt(hosts, grouping, sourceKey, |hosts| + k);
  }

  /**
   * Each group item has the group id and no `children` key among its fields;
   * its children are every host of the group.
   */
  lemma GroupItemChildren(hosts: seq<Host>, sourceKey: string, k: int)
    requires 0 <= k < |GroupingOf(Memberships(hosts)).order|
    ensures var grouping := GroupingOf(Memberships(hosts));
            var item := FlatItems(hosts, sourceKey)[|hosts| + k];
            var gid := grouping.order[k];
            item.id == gid && "children" !in item.fields && item.children.Some? &&
            forall i, g :: 0 <= i < |hosts| && 0 <= g < |hosts[i].groups| && hosts[i].groups[g].groupid == gid ==>
              hosts[i].hostid in item.children.value
  {
    AssembledGroupAt(hosts, GroupingOf(Memberships(hosts)), sourceKey, k);
    GroupingListsHosts(hosts);
  }

  lemma GroupItemsChildren(hosts: seq<Host>, grouping: Grouping, sourceKey: string)
    requires OrderedKeys(grouping.order, grouping.entries) && ChildrenAreHosts(grouping, hosts)
    ensures ChildrenWithin(GroupItems(grouping, sourceKey), HostIds(hosts))
  {
  }

  lemma GroupItemsIds(grouping: Grouping, sourceKey: string)
    requires OrderedKeys(grouping.order, grouping.entries)
    ensures ItemIds(GroupItems(grouping, sourceKey)) == grouping.entries.Keys
  {
    var items := GroupItems(grouping, sourceKey);
    forall id | id in grouping.entries ensures id in ItemIds(items) {
      var k :| 0 <= k < |grouping.order| && grouping.order[k] == id;
      assert items[k].id == id;
    }
  }

  /** The assembled objects name only assembled objects as children. */
  lemma AssembledChildrenPosted(hosts: seq<Host>, grouping: Grouping, sourceKey: string)
    requires OrderedKeys(grouping.order, grouping.entries) && ChildrenAreHosts(grouping, hosts)
    ensures ChildrenPosted(Assemble(hosts, grouping, sourceKey))
  {
    var hostItems := HostItems(hosts, ZabbixSource, sourceKey, true);
    var groupItems := GroupItems(grouping, sourceKey);
    var tail := [ZabbixItem(grouping.order, sourceKey), RootItem(sourceKey)];
    HostItemsIds(hosts, ZabbixSource, sourceKey, true);
    GroupItemsIds(grouping, sourceKey);
    GroupItemsChildren(hosts, grouping, sourceKey);
    assert ChildrenWithin(tail, grouping.entries.Keys + {ZabbixId});
    assert tail[0].id == ZabbixId && tail[1].id == RootId;
    assert ItemIds(tail) == {ZabbixId, RootId};
    ChildrenWithinConcat(hostItems, groupItems, {}, HostIds(hosts));
    ChildrenWithinConcat(hostItems + groupItems, tail, HostIds(hosts), grouping.entries.Keys + {ZabbixId});
    ItemIdsConcat(hostItems, groupItems);
    ItemIdsConcat(hostItems + groupItems, tail);
  }

  /** Every child named by any posted item is itself posted. */
  lemma FlatChildrenPosted(hosts: seq<Host>, sourceKey: string)
    ensures ChildrenPosted(FlatItems(hosts, sourceKey))
  {
    GroupingChildrenAreHosts(hosts);
    AssembledChildrenPosted(hosts, GroupingOf(Memberships(hosts)), sourceKey);
  }
}
