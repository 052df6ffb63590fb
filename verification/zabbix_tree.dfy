/**
 * The second Zabbix feeder (scripts/load_obj_zabbix_v2.py): host groups named
 * like paths ("Linux/Web/Front") become a tree of items, one node per path
 * prefix, below a `zabbix` node below the root item `1`; each group's hosts
 * hang below the node of its full path.
 */
module ZabbixTreeFeed {
  import opened Wrappers
  import opened Feeds

  // ---------------------------------------------------------------------
  // Group names as paths
  // ---------------------------------------------------------------------

  /** Python's `str.split(sep)`: the pieces between separators, empty ones included. */
  function Split(s: string, sep: char): (r: seq<string>)
    ensures |r| >= 1
    ensures forall i :: 0 <= i < |r| ==> sep !in r[i]
    decreases |s|
  {
    if |s| == 0 then [""]
    else
      var rest := Split(s[1..], sep);
      if s[0] == sep then [""] + rest
      else [[s[0]] + rest[0]] + rest[1..]
  }

  /** `sep.join(parts)`. */
  function Join(parts: seq<string>, sep: char): string
    requires |parts| >= 1
  {
    if |parts| == 1 then parts[0] else parts[0] + [sep] + Join(parts[1..], sep)
  }

  /** Splitting loses nothing: joining the pieces gives the name back. */
  lemma {:induction false} JoinSplit(s: string, sep: char)
    ensures Join(Split(s, sep), sep) == s
    decreases |s|
  {
    if |s| > 0 {
      var rest := Split(s[1..], sep);
      JoinSplit(s[1..], sep);
      if s[0] == sep {
        assert ([""] + rest)[1..] == rest;
        assert s == [s[0]] + s[1..];
      } else {
        var parts := [[s[0]] + rest[0]] + rest[1..];
        if |rest| > 1 {
          assert parts[1..] == rest[1..];
          assert Join(rest, sep) == rest[0] + [sep] + Join(rest[1..], sep);
          assert Join(parts, sep) == [s[0]] + (rest[0] + [sep] + Join(rest[1..], sep));
        }
        assert s == [s[0]] + s[1..];
      }
    }
  }

  /** The node id of a path: `'__' + segment` for each segment, concatenated. */
  function PathId(segs: seq<string>): string
  {
    if |segs| == 0 then "" else PathId(segs[..|segs| - 1]) + "__" + segs[|segs| - 1]
  }

  lemma PathIdSnoc(segs: seq<string>, k: int)
    requires 0 <= k < |segs|
    ensures PrefixId(segs, k) == PathId(segs[..k]) + "__" + segs[k]
  {
    assert segs[..k + 1][..k] == segs[..k];
  }

  /** One step of `Split`: the first character starts a new piece or extends the first one. */
  lemma SplitCons(c: char, s: string, sep: char)
    ensures Split([c] + s, sep) ==
      if c == sep then [""] + Split(s, sep)
      else [[c] + Split(s, sep)[0]] + Split(s, sep)[1..]
  {
    assert ([c] + s)[1..] == s;
  }

  lemma SplitThreeSegments()
    ensures Split("A/B/C", '/') == ["A", "B", "C"]
  {
    SplitCons('C', "", '/');
    assert "C" == ['C'] + "" && ['C'] + "" == "C";
    SplitCons('/', "C", '/');
    assert "/C" == ['/'] + "C";
    SplitCons('B', "/C", '/');
    assert "B/C" == ['B'] + "/C" && ['B'] + "" == "B";
    SplitCons('/', "B/C", '/');
    assert "/B/C" == ['/'] + "B/C";
    assert Split("/B/C", '/') == ["", "B", "C"];
    SplitCons('A', "/B/C", '/');
    assert "A/B/C" == ['A'] + "/B/C" && ['A'] + "" == "A";
  }

  /** A group named "A/B/C" yields the nodes "__A", "__A__B" and "__A__B__C". */
  lemma PrefixIdsExample()
    ensures Split("A/B/C", '/') == ["A", "B", "C"]
    ensures PrefixId(["A", "B", "C"], 0) == "__A"
    ensures PrefixId(["A", "B", "C"], 1) == "__A__B"
    ensures PrefixId(["A", "B", "C"], 2) == "__A__B__C"
  {
    SplitThreeSegments();
    assert ["A", "B", "C"][..1] == ["A"];
    assert ["A", "B", "C"][..2] == ["A", "B"];
    assert ["A", "B", "C"][..3] == ["A", "B", "C"];
    assert PathId(["A"]) == "__A" by { assert ["A"][..0] == []; }
    assert PathId(["A", "B"]) == "__A__B" by { assert ["A", "B"][..1] == ["A"]; }
  }

  lemma SplitTwoSegments()
    ensures Split("a/b", '/') == ["a", "b"]
  {
    SplitCons('b', "", '/');
    assert "b" == ['b'] + "" && ['b'] + "" == "b";
    SplitCons('/', "b", '/');
    assert "/b" == ['/'] + "b";
    SplitCons('a', "/b", '/');
    assert "a/b" == ['a'] + "/b" && ['a'] + "" == "a";
  }

  lemma SplitNoSlash()
    ensures Split("a__b", '/') == ["a__b"]
  {
    SplitCons('b', "", '/');
    assert "b" == ['b'] + "" && ['b'] + "" == "b";
    SplitCons('_', "b", '/');
    assert "_b" == ['_'] + "b";
    SplitCons('_', "_b", '/');
    assert "__b" == ['_'] + "_b";
    SplitCons('a', "__b", '/');
    assert "a__b" == ['a'] + "__b";
  }

  /**
   * Node ids do not tell paths apart when a segment contains "__": the group
   * "a__b" and the group "a/b" end on the same node.
   */
  lemma PathIdsCollide()
    ensures Split("a__b", '/') != Split("a/b", '/')
    ensures PathId(Split("a__b", '/')) == PathId(Split("a/b", '/'))
  {
    SplitTwoSegments();
    SplitNoSlash();
    assert PathId(["a__b"]) == "__a__b" by { assert ["a__b"][..0] == []; }
    assert PathId(["a", "b"]) == "__a__b" by { assert ["a", "b"][..1] == ["a"]; assert ["a"][..0] == []; }
  }

  // ---------------------------------------------------------------------
  // The tree of nodes (`kGroups`)
  // ---------------------------------------------------------------------

  /** A node: the fields it is posted with, and its children (the keys of a dict, in insertion order). */
  datatype Node = Node(fields: map<string, string>, children: seq<string>)

  /** `kGroups`: node ids in insertion order, and the nodes. */
  datatype Tree = Tree(order: seq<string>, nodes: map<string, Node>)

  predicate Distinct(s: seq<string>)
  {
    forall i, j :: 0 <= i < j < |s| ==> s[i] != s[j]
  }

  /** `children[c] = 1` on a dict: a new key goes to the end, a present one stays where it is. */
  function AddChild(children: seq<string>, c: string): (r: seq<string>)
    ensures Distinct(children) ==> Distinct(r)
    ensures forall x :: x in r <==> x in children || x == c
  {
    if c in children then children else children + [c]
  }

  /** `kGroups[parent]['children'][child] = 1`. */
  function Link(t: Tree, parent: string, child: string): Tree
    requires parent in t.nodes
  {
    Tree(t.order, t.nodes[parent := t.nodes[parent].(children := AddChild(t.nodes[parent].children, child))])
  }

  /** `kGroups[id] = {...}` for an id not yet present. */
  function Create(t: Tree, id: string, fields: map<string, string>): Tree
  {
    Tree(t.order + [id], t.nodes[id := Node(fields, [])])
  }

  /** The tree before any group: the `zabbix` node alone. */
  function InitialTree(): Tree
  {
    Tree([ZabbixId], map[ZabbixId := Node(map["name" := ZabbixName, "zabbix_url" := ZabbixUrl], [])])
  }

  /** A well-formed dict: ordered keys, the `zabbix` node present, no child listed twice. */
  ghost predicate Wf(t: Tree)
  {
    OrderedKeys(t.order, t.nodes) && ZabbixId in t.nodes &&
    (forall n :: n in t.nodes ==> Distinct(t.nodes[n].children))
  }

  /** Every child is a node, or a host placed below that very node (a pair of `links`). */
  ghost predicate Closed(t: Tree, links: set<(string, string)>)
  {
    forall n, c :: n in t.nodes && c in t.nodes[n].children ==> c in t.nodes || (n, c) in links
  }

  /** `b` extends `a`: no node disappears or changes its fields, no child disappears. */
  ghost predicate Grows(a: Tree, b: Tree)
  {
    forall n :: n in a.nodes ==>
      n in b.nodes && b.nodes[n].fields == a.nodes[n].fields &&
      forall c :: c in a.nodes[n].children ==> c in b.nodes[n].children
  }

  /** The node above the k-th segment's node: `zabbix` for the first. */
  function ParentOf(segs: seq<string>, k: nat): string
    requires k <= |segs|
  {
    if k == 0 then ZabbixId else PathId(segs[..k])
  }

  /** The node id of the path's first j + 1 segments. */
  function PrefixId(segs: seq<string>, j: nat): string
    requires j < |segs|
  {
    PathId(segs[..j + 1])
  }

  /** The first k prefixes of the path exist, each a child of the one before. */
  ghost predicate Linked(t: Tree, segs: seq<string>, k: nat)
    requires k <= |segs|
  {
    forall j :: 0 <= j < k ==>
      PrefixId(segs, j) in t.nodes && ParentOf(segs, j) in t.nodes &&
      PrefixId(segs, j) in t.nodes[ParentOf(segs, j)].children
  }

  /** A group is placed: its whole path is linked, and its hosts are children of the last node. */
  ghost predicate Placed(t: Tree, name: string, children: seq<string>)
  {
    var segs := Split(name, '/');
    Linked(t, segs, |segs|) && PathId(segs) in t.nodes &&
    forall c :: c in children ==> c in t.nodes[PathId(segs)].children
  }

  lemma GrowsTrans(a: Tree, b: Tree, c: Tree)
    requires Grows(a, b) && Grows(b, c)
    ensures Grows(a, c)
  {
  }

  lemma LinkKeeps(t: Tree, parent: string, child: string, links: set<(string, string)>)
    requires Wf(t) && parent in t.nodes
    ensures Wf(Link(t, parent, child)) && Grows(t, Link(t, parent, child))
    ensures child in Link(t, parent, child).nodes[parent].children
    ensures Closed(t, links) && (child in t.nodes || (parent, child) in links) ==> Closed(Link(t, parent, child), links)
  {
  }

  lemma CreateKeeps(t: Tree, id: string, fields: map<string, string>, links: set<(string, string)>)
    requires Wf(t) && id !in t.nodes
    ensures Wf(Create(t, id, fields)) && Grows(t, Create(t, id, fields))
    ensures id in Create(t, id, fields).nodes
    ensures Closed(t, links) ==> Closed(Create(t, id, fields), links)
  {
    var r := Create(t, id, fields);
    assert forall k :: k in r.nodes ==> k in r.order;
  }

  lemma LinkedGrows(a: Tree, b: Tree, segs: seq<string>, k: nat)
    requires k <= |segs| && Grows(a, b) && Linked(a, segs, k)
    ensures Linked(b, segs, k)
  {
    forall j | 0 <= j < k
      ensures PrefixId(segs, j) in b.nodes && ParentOf(segs, j) in b.nodes
      ensures PrefixId(segs, j) in b.nodes[ParentOf(segs, j)].children
    {
      var p := ParentOf(segs, j);
      assert p in a.nodes && PrefixId(segs, j) in a.nodes[p].children;
    }
  }

  lemma PlacedGrows(a: Tree, b: Tree, name: string, children: seq<string>)
    requires Grows(a, b) && Placed(a, name, children)
    ensures Placed(b, name, children)
  {
    var segs := Split(name, '/');
    LinkedGrows(a, b, segs, |segs|);
  }

  /** The fields of a node a group creates: the segment as name, and the group it came from. */
  function PrefixFields(segment: string, name: string): map<string, string>
  {
    map["name" := segment, "fromGroup" := name]
  }

  /** One turn of the walk down a path: create the k-th prefix node if missing, then link it below its parent. */
  function WalkTo(t: Tree, segs: seq<string>, k: nat, name: string): Tree
    requires k < |segs| && ParentOf(segs, k) in t.nodes
  {
    var gid := PrefixId(segs, k);
    var created := if gid in t.nodes then t else Create(t, gid, PrefixFields(segs[k], name));
    Link(created, ParentOf(segs, k), gid)
  }

  /** A linked path grows by one prefix when that prefix is linked below the last. */
  lemma LinkedExtend(t: Tree, r: Tree, segs: seq<string>, k: nat)
    requires k < |segs| && Grows(t, r) && Linked(t, segs, k)
    requires ParentOf(segs, k) in r.nodes && PrefixId(segs, k) in r.nodes
    requires PrefixId(segs, k) in r.nodes[ParentOf(segs, k)].children
    ensures Linked(r, segs, k + 1)
  {
    forall j | 0 <= j < k + 1
      ensures PrefixId(segs, j) in r.nodes && ParentOf(segs, j) in r.nodes
      ensures PrefixId(segs, j) in r.nodes[ParentOf(segs, j)].children
    {
      if j < k {
        var p := ParentOf(segs, j);
        assert p in t.nodes && PrefixId(segs, j) in t.nodes[p].children;
      }
    }
  }

  lemma WalkStep(t0: Tree, t: Tree, segs: seq<string>, k: nat, name: string, links: set<(string, string)>)
    requires k < |segs|
    requires Wf(t) && Closed(t, links) && Grows(t0, t)
    requires ParentOf(segs, k) in t.nodes && Linked(t, segs, k)
    ensures Wf(WalkTo(t, segs, k, name)) && Closed(WalkTo(t, segs, k, name), links)
    ensures Grows(t0, WalkTo(t, segs, k, name))
    ensures ParentOf(segs, k + 1) in WalkTo(t, segs, k, name).nodes && Linked(WalkTo(t, segs, k, name), segs, k + 1)
  {
    var gid := PrefixId(segs, k);
    var parent := ParentOf(segs, k);
    var created := if gid in t.nodes then t else Create(t, gid, PrefixFields(segs[k], name));
    if gid !in t.nodes {
      CreateKeeps(t, gid, PrefixFields(segs[k], name), links);
    }
    assert Wf(created) && Closed(created, links) && Grows(t, created) && gid in created.nodes;
    var r := Link(created, parent, gid);
    LinkKeeps(created, parent, gid, links);
    GrowsTrans(t, created, r);
    GrowsTrans(t0, t, r);
    assert ParentOf(segs, k + 1) == gid;
    LinkedExtend(t, r, segs, k);
  }

  // ---------------------------------------------------------------------
  // The exact shape of the tree
  // ---------------------------------------------------------------------

  /** The ids of the path's first k prefixes. */
  ghost function PrefixNodes(segs: seq<string>, k: nat): set<string>
    requires k <= |segs|
  {
    set j | 0 <= j < k :: PrefixId(segs, j)
  }

  /** The links of the path's first k prefixes: each below the one before, the first below `zabbix`. */
  ghost function PrefixLinks(segs: seq<string>, k: nat): set<(string, string)>
    requires k <= |segs|
  {
    set j | 0 <= j < k :: (ParentOf(segs, j), PrefixId(segs, j))
  }

  /** The nodes a group's name makes: one per prefix of its path. */
  ghost function PathNodes(name: string): set<string>
  {
    PrefixNodes(Split(name, '/'), |Split(name, '/')|)
  }

  /** The links a group's name makes along its path. */
  ghost function PathLinks(name: string): set<(string, string)>
  {
    PrefixLinks(Split(name, '/'), |Split(name, '/')|)
  }

  /** The links a group's hosts make: each below the node of the full path. */
  ghost function GroupHostLinks(name: string, children: seq<string>): set<(string, string)>
  {
    set c | c in children :: (PathId(Split(name, '/')), c)
  }

  /** The node `n` was created by the group `name` at one of the path's first k prefixes. */
  ghost predicate CreatedAt(fields: map<string, string>, segs: seq<string>, k: nat, name: string, n: string)
    requires k <= |segs|
  {
    exists j :: 0 <= j < k && PrefixId(segs, j) == n && fields == PrefixFields(segs[j], name)
  }

  /** The node `n` holds the fields the group `name` creates it with. */
  ghost predicate CreatedBy(fields: map<string, string>, name: string, n: string)
  {
    CreatedAt(fields, Split(name, '/'), |Split(name, '/')|, name, n)
  }

  /** The node `n`, if in `t`, has the children it had in `t0` and those `links` give it. */
  ghost predicate NodeExact(t0: Tree, t: Tree, links: set<(string, string)>, n: string, c: string)
  {
    n in t.nodes ==> (c in t.nodes[n].children <==> (n in t0.nodes && c in t0.nodes[n].children) || (n, c) in links)
  }

  /** While walking a path, the tree is `t0` plus the first k prefixes and their links. */
  ghost predicate WalkedExactly(t0: Tree, t: Tree, segs: seq<string>, k: nat, name: string)
    requires k <= |segs|
  {
    && t.nodes.Keys == t0.nodes.Keys + PrefixNodes(segs, k)
    && (forall n, c :: NodeExact(t0, t, PrefixLinks(segs, k), n, c))
    && (forall n :: n in t.nodes && n !in t0.nodes ==> CreatedAt(t.nodes[n].fields, segs, k, name, n))
  }

  /** The children of a node after linking `child` below `parent`. */
  lemma LinkChildren(t: Tree, parent: string, child: string, n: string, c: string)
    requires parent in t.nodes && n in t.nodes
    ensures c in Link(t, parent, child).nodes[n].children <==> c in t.nodes[n].children || (n == parent && c == child)
  {
  }

  /** The walk's next prefix extends the prefix ids and links by exactly one. */
  lemma PrefixStep(segs: seq<string>, k: nat)
    requires k < |segs|
    ensures PrefixNodes(segs, k + 1) == PrefixNodes(segs, k) + {PrefixId(segs, k)}
    ensures PrefixLinks(segs, k + 1) == PrefixLinks(segs, k) + {(ParentOf(segs, k), PrefixId(segs, k))}
  {
  }

  /** The tree the k-th turn of the walk starts from, after creating the prefix node if missing. */
  function Created(t: Tree, segs: seq<string>, k: nat, name: string): Tree
    requires k < |segs|
  {
    if PrefixId(segs, k) in t.nodes then t else Create(t, PrefixId(segs, k), PrefixFields(segs[k], name))
  }

  /** The children of a node the walk had before this turn. */
  lemma WalkChildrenOld(t0: Tree, t: Tree, segs: seq<string>, k: nat, name: string, n: string, c: string)
    requires k < |segs| && ParentOf(segs, k) in t.nodes && n in t.nodes
    requires NodeExact(t0, t, PrefixLinks(segs, k), n, c)
    ensures NodeExact(t0, WalkTo(t, segs, k, name), PrefixLinks(segs, k + 1), n, c)
  {
    var created := Created(t, segs, k, name);
    assert WalkTo(t, segs, k, name) == Link(created, ParentOf(segs, k), PrefixId(segs, k));
    assert created.nodes[n] == t.nodes[n];
    PrefixStep(segs, k);
    LinkChildren(created, ParentOf(segs, k), PrefixId(segs, k), n, c);
  }

  /** The children of the node this turn creates: none yet, and no link of the path starts there. */
  lemma WalkChildrenNew(t0: Tree, t: Tree, segs: seq<string>, k: nat, name: string, c: string)
    requires k < |segs| && PrefixId(segs, k) !in t.nodes && t0.nodes.Keys <= t.nodes.Keys
    requires forall j :: 0 <= j <= k ==> ParentOf(segs, j) in t.nodes
    ensures NodeExact(t0, WalkTo(t, segs, k, name), PrefixLinks(segs, k + 1), PrefixId(segs, k), c)
  {
    var gid := PrefixId(segs, k);
    var created := Created(t, segs, k, name);
    assert WalkTo(t, segs, k, name) == Link(created, ParentOf(segs, k), gid);
    assert created.nodes[gid].children == [];
    LinkChildren(created, ParentOf(segs, k), gid, gid, c);
  }

  /** The fields of a node a turn of the walk leaves off `t0`. */
  lemma WalkFields(t0: Tree, t: Tree, segs: seq<string>, k: nat, name: string, n: string)
    requires k < |segs| && ParentOf(segs, k) in t.nodes
    requires WalkedExactly(t0, t, segs, k, name)
    requires n in WalkTo(t, segs, k, name).nodes && n !in t0.nodes
    ensures CreatedAt(WalkTo(t, segs, k, name).nodes[n].fields, segs, k + 1, name, n)
  {
    var r := WalkTo(t, segs, k, name);
    var created := Created(t, segs, k, name);
    assert r == Link(created, ParentOf(segs, k), PrefixId(segs, k));
    if n in t.nodes {
      var j :| 0 <= j < k && PrefixId(segs, j) == n && t.nodes[n].fields == PrefixFields(segs[j], name);
      assert r.nodes[n].fields == t.nodes[n].fields;
    } else {
      assert n == PrefixId(segs, k) && r.nodes[n].fields == PrefixFields(segs[k], name);
    }
  }

  /** The nodes after a turn of the walk: those before and the next prefix. */
  lemma WalkKeys(t: Tree, segs: seq<string>, k: nat, name: string)
    requires k < |segs| && ParentOf(segs, k) in t.nodes
    ensures WalkTo(t, segs, k, name).nodes.Keys == t.nodes.Keys + {PrefixId(segs, k)}
  {
  }

  /** One turn of the walk keeps the children of every node exact. */
  lemma WalkNodeExact(t0: Tree, t: Tree, segs: seq<string>, k: nat, name: string, n: string, c: string)
    requires k < |segs| && ParentOf(segs, k) in t.nodes && Linked(t, segs, k)
    requires t0.nodes.Keys <= t.nodes.Keys && NodeExact(t0, t, PrefixLinks(segs, k), n, c)
    ensures NodeExact(t0, WalkTo(t, segs, k, name), PrefixLinks(segs, k + 1), n, c)
  {
    if n in t.nodes {
      WalkChildrenOld(t0, t, segs, k, name, n, c);
    } else if n == PrefixId(segs, k) {
      assert forall j :: 0 <= j <= k ==> ParentOf(segs, j) in t.nodes;
      WalkChildrenNew(t0, t, segs, k, name, c);
    }
  }

  /** One turn of the walk keeps the children of every node exact. */
  lemma WalkChildrenExact(t0: Tree, t: Tree, r: Tree, segs: seq<string>, k: nat, name: string, links: set<(string, string)>)
    requires k < |segs| && ParentOf(segs, k) in t.nodes && Linked(t, segs, k)
    requires t0.nodes.Keys <= t.nodes.Keys && forall n, c :: NodeExact(t0, t, PrefixLinks(segs, k), n, c)
    requires r == WalkTo(t, segs, k, name) && links == PrefixLinks(segs, k + 1)
    ensures forall n, c :: NodeExact(t0, r, links, n, c)
  {
    forall n, c
      ensures NodeExact(t0, r, links, n, c)
    {
      WalkNodeExact(t0, t, segs, k, name, n, c);
    }
  }

  /** One turn of the walk leaves every new node with the fields of its first creation. */
  lemma WalkFieldsExact(t0: Tree, t: Tree, r: Tree, segs: seq<string>, k: nat, name: string)
    requires k < |segs| && ParentOf(segs, k) in t.nodes
    requires WalkedExactly(t0, t, segs, k, name)
    requires r == WalkTo(t, segs, k, name)
    ensures forall n :: n in r.nodes && n !in t0.nodes ==> CreatedAt(r.nodes[n].fields, segs, k + 1, name, n)
  {
    forall n | n in r.nodes && n !in t0.nodes
      ensures CreatedAt(r.nodes[n].fields, segs, k + 1, name, n)
    {
      WalkFields(t0, t, segs, k, name, n);
    }
  }

  /** One turn of the walk adds exactly the next prefix id to the nodes walked so far. */
  lemma WalkKeysExact(t0: Tree, t: Tree, r: Tree, segs: seq<string>, k: nat, name: string)
    requires k < |segs| && ParentOf(segs, k) in t.nodes
    requires t.nodes.Keys == t0.nodes.Keys + PrefixNodes(segs, k)
    requires r == WalkTo(t, segs, k, name)
    ensures r.nodes.Keys == t0.nodes.Keys + PrefixNodes(segs, k + 1)
  {
    PrefixStep(segs, k);
    WalkKeys(t, segs, k, name);
  }

  /** One turn of the walk adds exactly the next prefix and its link. */
  lemma WalkExact(t0: Tree, t: Tree, r: Tree, segs: seq<string>, k: nat, name: string)
    requires k < |segs| && ParentOf(segs, k) in t.nodes && Linked(t, segs, k)
    requires WalkedExactly(t0, t, segs, k, name)
    requires r == WalkTo(t, segs, k, name)
    ensures WalkedExactly(t0, r, segs, k + 1, name)
  {
    WalkKeysExact(t0, t, r, segs, k, name);
    WalkChildrenExact(t0, t, r, segs, k, name, PrefixLinks(segs, k + 1));
    WalkFieldsExact(t0, t, r, segs, k, name);
  }

  /** The node `n`, if in both trees, has the children it had in `t0`, and the hosts `linked` when it is `parent`. */
  ghost predicate HostExact(t0: Tree, t: Tree, parent: string, linked: seq<string>, n: string, c: string)
  {
    n in t.nodes && n in t0.nodes ==>
      (c in t.nodes[n].children <==> c in t0.nodes[n].children || (n == parent && c in linked))
  }

  /** Linking the hosts `linked` adds exactly those children to `parent`. */
  ghost predicate HostsLinkedExactly(t0: Tree, t: Tree, parent: string, linked: seq<string>)
  {
    && t.nodes.Keys == t0.nodes.Keys
    && (forall n, c :: HostExact(t0, t, parent, linked, n, c))
    && (forall n :: n in t.nodes ==> t.nodes[n].fields == t0.nodes[n].fields)
  }

  /** Linking the next host keeps the count exact. */
  lemma LinkHostExact(t0: Tree, t: Tree, parent: string, children: seq<string>, m: nat)
    requires m < |children| && parent in t.nodes
    requires HostsLinkedExactly(t0, t, parent, children[..m])
    ensures HostsLinkedExactly(t0, Link(t, parent, children[m]), parent, children[..m + 1])
  {
    var r := Link(t, parent, children[m]);
    assert children[..m + 1] == children[..m] + [children[m]];
    var linked := children[..m + 1];
    forall n, c
      ensures HostExact(t0, r, parent, linked, n, c)
    {
      if n in r.nodes && n in t0.nodes {
        assert HostExact(t0, t, parent, children[..m], n, c);
        LinkChildren(t, parent, children[m], n, c);
        assert c in children[..m + 1] <==> c in children[..m] || c == children[m];
      }
    }
  }

  /**
   * `t` is `t0` plus exactly one group: the nodes of its path are added, the
   * links of its path and of its hosts are the only new children, every such
   * link starts at a node, and each added node holds the fields the group
   * creates it with.
   */
  ghost predicate AddsGroup(t0: Tree, t: Tree, name: string, children: seq<string>)
  {
    && t.nodes.Keys == t0.nodes.Keys + PathNodes(name)
    && (forall n, c :: NodeExact(t0, t, PathLinks(name) + GroupHostLinks(name, children), n, c))
    && (forall n, c :: (n, c) in PathLinks(name) || (n, c) in GroupHostLinks(name, children) ==> n in t.nodes)
    && (forall n :: n in t.nodes && n !in t0.nodes ==> CreatedBy(t.nodes[n].fields, name, n))
  }

  /** The children after a walked path and the group's hosts: those of `t0`, the path's links and the host links. */
  lemma GroupChildrenExact(t0: Tree, walked: Tree, t: Tree, segs: seq<string>, children: seq<string>, n: string, c: string)
    requires NodeExact(t0, walked, PrefixLinks(segs, |segs|), n, c)
    requires HostsLinkedExactly(walked, t, PathId(segs), children)
    requires n in t.nodes
    ensures c in t.nodes[n].children <==>
      (n in t0.nodes && c in t0.nodes[n].children) || (n, c) in PrefixLinks(segs, |segs|) || (n == PathId(segs) && c in children)
  {
    assert n in walked.nodes;
    assert HostExact(walked, t, PathId(segs), children, n, c);
  }

  /** The host links of a group, read off its path's id. */
  lemma GroupHostLinksAt(name: string, segs: seq<string>, children: seq<string>, n: string, c: string)
    requires segs == Split(name, '/')
    ensures (n, c) in GroupHostLinks(name, children) <==> n == PathId(segs) && c in children
  {
  }

  /** The children after a walked path and the group's hosts, for every node at once. */
  lemma GroupNodesExact(t0: Tree, walked: Tree, t: Tree, name: string, segs: seq<string>, children: seq<string>)
    requires segs == Split(name, '/')
    requires forall n, c :: NodeExact(t0, walked, PrefixLinks(segs, |segs|), n, c)
    requires HostsLinkedExactly(walked, t, PathId(segs), children)
    ensures forall n, c :: NodeExact(t0, t, PathLinks(name) + GroupHostLinks(name, children), n, c)
  {
    var all := PathLinks(name) + GroupHostLinks(name, children);
    assert PathLinks(name) == PrefixLinks(segs, |segs|);
    forall n, c
      ensures NodeExact(t0, t, all, n, c)
    {
      if n in t.nodes {
        GroupChildrenExact(t0, walked, t, segs, children, n, c);
        GroupHostLinksAt(name, segs, children, n, c);
      }
    }
  }

  /** Every link a walked group makes starts at a node. */
  lemma GroupLinksFrom(walked: Tree, t: Tree, name: string, segs: seq<string>, children: seq<string>)
    requires segs == Split(name, '/')
    requires Linked(walked, segs, |segs|) && PathId(segs) in walked.nodes && t.nodes.Keys == walked.nodes.Keys
    ensures forall n, c :: (n, c) in PathLinks(name) || (n, c) in GroupHostLinks(name, children) ==> n in t.nodes
  {
    assert PathLinks(name) == PrefixLinks(segs, |segs|);
    forall n, c | (n, c) in PathLinks(name) || (n, c) in GroupHostLinks(name, children)
      ensures n in t.nodes
    {
      if (n, c) in PrefixLinks(segs, |segs|) {
        var j :| 0 <= j < |segs| && (n, c) == (ParentOf(segs, j), PrefixId(segs, j));
      } else {
        GroupHostLinksAt(name, segs, children, n, c);
      }
    }
  }

  /** The nodes after a walked group: those of `t0` and the path's prefixes. */
  lemma GroupKeys(t0: Tree, walked: Tree, t: Tree, name: string, segs: seq<string>)
    requires segs == Split(name, '/')
    requires walked.nodes.Keys == t0.nodes.Keys + PrefixNodes(segs, |segs|) && t.nodes.Keys == walked.nodes.Keys
    ensures t.nodes.Keys == t0.nodes.Keys + PathNodes(name)
  {
  }

  /** The fields of a node a walked group adds. */
  lemma GroupFields(t0: Tree, walked: Tree, t: Tree, name: string, segs: seq<string>)
    requires segs == Split(name, '/')
    requires forall n :: n in walked.nodes && n !in t0.nodes ==> CreatedAt(walked.nodes[n].fields, segs, |segs|, name, n)
    requires t.nodes.Keys == walked.nodes.Keys
    requires forall n :: n in t.nodes ==> t.nodes[n].fields == walked.nodes[n].fields
    ensures forall n :: n in t.nodes && n !in t0.nodes ==> CreatedBy(t.nodes[n].fields, name, n)
  {
  }

  /** A walked path followed by the group's hosts: the tree is `t0` plus exactly that group. */
  lemma GroupExact(t0: Tree, walked: Tree, t: Tree, name: string, segs: seq<string>, children: seq<string>)
    requires segs == Split(name, '/')
    requires WalkedExactly(t0, walked, segs, |segs|, name)
    requires Linked(walked, segs, |segs|) && PathId(segs) in walked.nodes
    requires HostsLinkedExactly(walked, t, PathId(segs), children)
    ensures AddsGroup(t0, t, name, children)
  {
    GroupKeys(t0, walked, t, name, segs);
    GroupNodesExact(t0, walked, t, name, segs, children);
    GroupLinksFrom(walked, t, name, segs, children);
    GroupFields(t0, walked, t, name, segs);
  }

  /**
   * The loop body over one group: walks the path, creating each prefix node
   * that is missing (with the segment as name and the group as `fromGroup`),
   * links each prefix below the previous one, then hangs the group's hosts
   * below the last node.
   */
  method PlaceGroup(t0: Tree, name: string, children: seq<string>, ghost links: set<(string, string)>) returns (t: Tree)
    requires Wf(t0) && Closed(t0, links)
    requires forall c :: c in children ==> (PathId(Split(name, '/')), c) in links
    ensures Wf(t) && Closed(t, links) && Grows(t0, t)
    ensures Placed(t, name, children)
    ensures AddsGroup(t0, t, name, children)
  {
    t := t0;
    var segs := Split(name, '/');
    var parent := ZabbixId;
    var gid := "";
    assert PrefixNodes(segs, 0) == {} && PrefixLinks(segs, 0) == {};
    for k := 0 to |segs|
      invariant Wf(t) && Closed(t, links) && Grows(t0, t)
      invariant gid == PathId(segs[..k]) && parent == ParentOf(segs, k) && parent in t.nodes
      invariant Linked(t, segs, k)
      invariant WalkedExactly(t0, t, segs, k, name)
    {
      PathIdSnoc(segs, k);
      gid := gid + "__" + segs[k];
      ghost var before := t;
      WalkStep(t0, t, segs, k, name, links);
      WalkExact(t0, t, WalkTo(t, segs, k, name), segs, k, name);
      if gid !in t.nodes {
        t := Create(t, gid, PrefixFields(segs[k], name));
      }
      t := Link(t, parent, gid);
      assert t == WalkTo(before, segs, k, name);
      parent := gid;
    }
    assert segs[..|segs|] == segs;
    ghost var walked := t;
    t := LinkAll(t, parent, children, links);
    LinkedGrows(walked, t, segs, |segs|);
    GrowsTrans(t0, walked, t);
    GroupExact(t0, walked, t, name, segs, children);
  }

  /** Linking the next host keeps the tree well formed, closed and growing. */
  lemma LinkHostStep(t0: Tree, t: Tree, parent: string, children: seq<string>, m: nat, links: set<(string, string)>)
    requires m < |children| && (parent, children[m]) in links
    requires Wf(t) && Closed(t, links) && Grows(t0, t) && parent in t.nodes
    requires HostsLinkedExactly(t0, t, parent, children[..m])
    ensures Wf(Link(t, parent, children[m])) && Closed(Link(t, parent, children[m]), links)
    ensures Grows(t0, Link(t, parent, children[m]))
    ensures HostsLinkedExactly(t0, Link(t, parent, children[m]), parent, children[..m + 1])
  {
    LinkKeeps(t, parent, children[m], links);
    LinkHostExact(t0, t, parent, children, m);
    GrowsTrans(t0, t, Link(t, parent, children[m]));
  }

  /** Once every host is linked, each is a child of `parent`. */
  lemma HostsBelow(t0: Tree, t: Tree, parent: string, children: seq<string>)
    requires parent in t0.nodes && HostsLinkedExactly(t0, t, parent, children)
    ensures parent in t.nodes && forall c :: c in children ==> c in t.nodes[parent].children
  {
    forall c | c in children
      ensures c in t.nodes[parent].children
    {
      assert HostExact(t0, t, parent, children, parent, c);
    }
  }

  /** The loop over the group's hosts: each becomes a child of `parent`. */
  method LinkAll(t0: Tree, parent: string, children: seq<string>, ghost links: set<(string, string)>) returns (t: Tree)
    requires Wf(t0) && Closed(t0, links) && parent in t0.nodes
    requires forall c :: c in children ==> (parent, c) in links
    ensures Wf(t) && Closed(t, links) && Grows(t0, t) && parent in t.nodes
    ensures forall c :: c in children ==> c in t.nodes[parent].children
    ensures HostsLinkedExactly(t0, t, parent, children)
  {
    t := t0;
    for m := 0 to |children|
      invariant Wf(t) && Closed(t, links) && Grows(t0, t) && parent in t.nodes
      invariant HostsLinkedExactly(t0, t, parent, children[..m])
    {
      LinkHostStep(t0, t, parent, children, m, links);
      t := Link(t, parent, children[m]);
    }
    assert children[..|children|] == children;
    HostsBelow(t0, t, parent, children);
  }

  /** The pairs (last node of a group's path, host of the group). */
  ghost function HostLinks(grouping: Grouping): set<(string, string)>
  {
    set gid, c | gid in grouping.entries && c in grouping.entries[gid].children ::
      (PathId(Split(grouping.entries[gid].group.name, '/')), c)
  }

  /** What the loop over the groups dict guarantees of `kGroups`. */
  ghost predicate TreeOf(t: Tree, grouping: Grouping)
  {
    && Wf(t) && Closed(t, HostLinks(grouping)) && Grows(InitialTree(), t)
    && (forall gid :: gid in grouping.entries ==> Placed(t, grouping.entries[gid].group.name, grouping.entries[gid].children))
    && OrderedKeys(grouping.order, grouping.entries) && BuiltUpTo(t, grouping, |grouping.order|)
  }

  /** Every group's hosts are paired with the last node of its path. */
  ghost predicate LinksCover(grouping: Grouping, links: set<(string, string)>)
  {
    forall gid, c :: gid in grouping.entries && c in grouping.entries[gid].children ==>
      (PathId(Split(grouping.entries[gid].group.name, '/')), c) in links
  }

  lemma HostLinksCover(grouping: Grouping)
    ensures LinksCover(grouping, HostLinks(grouping))
  {
  }

  /** The groups of the first i keys are placed. */
  ghost predicate PlacedUpTo(t: Tree, grouping: Grouping, i: int)
    requires OrderedKeys(grouping.order, grouping.entries) && 0 <= i <= |grouping.order|
  {
    forall j :: 0 <= j < i ==>
      Placed(t, grouping.entries[grouping.order[j]].group.name, grouping.entries[grouping.order[j]].children)
  }

  lemma PlacedUpToStep(before: Tree, t: Tree, grouping: Grouping, i: int)
    requires OrderedKeys(grouping.order, grouping.entries) && 0 <= i < |grouping.order|
    requires PlacedUpTo(before, grouping, i) && Grows(before, t)
    requires Placed(t, grouping.entries[grouping.order[i]].group.name, grouping.entries[grouping.order[i]].children)
    ensures PlacedUpTo(t, grouping, i + 1)
  {
    forall j | 0 <= j < i
      ensures Placed(t, grouping.entries[grouping.order[j]].group.name, grouping.entries[grouping.order[j]].children)
    {
      PlacedGrows(before, t, grouping.entries[grouping.order[j]].group.name, grouping.entries[grouping.order[j]].children);
    }
  }

  lemma PlacedAll(t: Tree, grouping: Grouping)
    requires OrderedKeys(grouping.order, grouping.entries) && PlacedUpTo(t, grouping, |grouping.order|)
    ensures forall gid :: gid in grouping.entries ==> Placed(t, grouping.entries[gid].group.name, grouping.entries[gid].children)
  {
    forall gid | gid in grouping.entries
      ensures Placed(t, grouping.entries[gid].group.name, grouping.entries[gid].children)
    {
      var j :| 0 <= j < |grouping.order| && grouping.order[j] == gid;
    }
  }

  /** The name of the i-th group in key order. */
  ghost function GroupName(g: Grouping, i: int): string
    requires OrderedKeys(g.order, g.entries) && 0 <= i < |g.order|
  {
    g.entries[g.order[i]].group.name
  }

  /** The hosts of the i-th group in key order. */
  ghost function GroupChildren(g: Grouping, i: int): seq<string>
    requires OrderedKeys(g.order, g.entries) && 0 <= i < |g.order|
  {
    g.entries[g.order[i]].children
  }

  /** The nodes the paths of the first i groups make. */
  ghost function NodesUpTo(g: Grouping, i: int): set<string>
    requires OrderedKeys(g.order, g.entries) && 0 <= i <= |g.order|
    decreases i
  {
    if i == 0 then {} else NodesUpTo(g, i - 1) + PathNodes(GroupName(g, i - 1))
  }

  /** The links the paths and hosts of the first i groups make. */
  ghost function LinksUpTo(g: Grouping, i: int): set<(string, string)>
    requires OrderedKeys(g.order, g.entries) && 0 <= i <= |g.order|
    decreases i
  {
    if i == 0 then {}
    else LinksUpTo(g, i - 1) + PathLinks(GroupName(g, i - 1)) + GroupHostLinks(GroupName(g, i - 1), GroupChildren(g, i - 1))
  }

  /** The k-th group's path is the first to reach `n`, and `fields` are what it creates `n` with. */
  ghost predicate FirstCreatedBy(g: Grouping, fields: map<string, string>, n: string, k: int)
    requires OrderedKeys(g.order, g.entries) && 0 <= k < |g.order|
  {
    n in PathNodes(GroupName(g, k)) && n !in NodesUpTo(g, k) && CreatedBy(fields, GroupName(g, k), n)
  }

  /**
   * After the first i groups, `kGroups` is the `zabbix` node plus exactly the
   * nodes and links of those groups, and every other node holds the fields of
   * the group that reached it first.
   */
  ghost predicate BuiltUpTo(t: Tree, g: Grouping, i: int)
    requires OrderedKeys(g.order, g.entries) && 0 <= i <= |g.order|
  {
    && t.nodes.Keys == {ZabbixId} + NodesUpTo(g, i)
    && (forall n, c :: n in t.nodes ==> (c in t.nodes[n].children <==> (n, c) in LinksUpTo(g, i)))
    && (forall n, c :: (n, c) in LinksUpTo(g, i) ==> n in t.nodes)
    && (forall n :: n in t.nodes && n != ZabbixId ==> exists k :: 0 <= k < i && FirstCreatedBy(g, t.nodes[n].fields, n, k))
  }

  lemma BuiltInitially(g: Grouping)
    requires OrderedKeys(g.order, g.entries)
    ensures BuiltUpTo(InitialTree(), g, 0)
  {
  }

  /** The children of one node after one more group. */
  lemma BuiltChildrenStep(before: Tree, t: Tree, g: Grouping, i: int, n: string, c: string)
    requires OrderedKeys(g.order, g.entries) && 0 <= i < |g.order|
    requires BuiltUpTo(before, g, i) && AddsGroup(before, t, GroupName(g, i), GroupChildren(g, i))
    requires n in t.nodes
    ensures c in t.nodes[n].children <==> (n, c) in LinksUpTo(g, i + 1)
  {
    assert NodeExact(before, t, PathLinks(GroupName(g, i)) + GroupHostLinks(GroupName(g, i), GroupChildren(g, i)), n, c);
    if (n, c) in LinksUpTo(g, i) {
      assert n in before.nodes;
    }
  }

  /** The fields of one node after one more group. */
  lemma BuiltFieldsStep(before: Tree, t: Tree, g: Grouping, i: int, n: string)
    requires OrderedKeys(g.order, g.entries) && 0 <= i < |g.order|
    requires BuiltUpTo(before, g, i) && AddsGroup(before, t, GroupName(g, i), GroupChildren(g, i)) && Grows(before, t)
    requires n in t.nodes && n != ZabbixId
    ensures exists k :: 0 <= k < i + 1 && FirstCreatedBy(g, t.nodes[n].fields, n, k)
  {
    if n in before.nodes {
      var k :| 0 <= k < i && FirstCreatedBy(g, before.nodes[n].fields, n, k);
      assert FirstCreatedBy(g, t.nodes[n].fields, n, k);
    } else {
      assert FirstCreatedBy(g, t.nodes[n].fields, n, i);
    }
  }

  /** Placing the next group keeps the tree exactly the groups placed so far. */
  lemma BuiltStep(before: Tree, t: Tree, g: Grouping, i: int)
    requires OrderedKeys(g.order, g.entries) && 0 <= i < |g.order|
    requires BuiltUpTo(before, g, i) && AddsGroup(before, t, GroupName(g, i), GroupChildren(g, i)) && Grows(before, t)
    ensures BuiltUpTo(t, g, i + 1)
  {
    forall n, c | n in t.nodes
      ensures c in t.nodes[n].children <==> (n, c) in LinksUpTo(g, i + 1)
    {
      BuiltChildrenStep(before, t, g, i, n, c);
    }
    forall n | n in t.nodes && n != ZabbixId
      ensures exists k :: 0 <= k < i + 1 && FirstCreatedBy(g, t.nodes[n].fields, n, k)
    {
      BuiltFieldsStep(before, t, g, i, n);
    }
  }

  /** The loop over the groups dict, in key order. */
  method BuildTree(grouping: Grouping, ghost links: set<(string, string)>) returns (t: Tree)
    requires OrderedKeys(grouping.order, grouping.entries) && LinksCover(grouping, links)
    ensures Wf(t) && Closed(t, links) && Grows(InitialTree(), t)
    ensures forall gid :: gid in grouping.entries ==> Placed(t, grouping.entries[gid].group.name, grouping.entries[gid].children)
    ensures BuiltUpTo(t, grouping, |grouping.order|)
  {
    t := InitialTree();
    BuiltInitially(grouping);
    for i := 0 to |grouping.order|
      invariant Wf(t) && Closed(t, links) && Grows(InitialTree(), t)
      invariant PlacedUpTo(t, grouping, i)
      invariant BuiltUpTo(t, grouping, i)
    {
      var entry := grouping.entries[grouping.order[i]];
      ghost var before := t;
      t := PlaceGroup(t, entry.group.name, entry.children, links);
      GrowsTrans(InitialTree(), before, t);
      PlacedUpToStep(before, t, grouping, i);
      BuiltStep(before, t, grouping, i);
    }
    PlacedAll(t, grouping);
  }

  // ---------------------------------------------------------------------
  // Emission and the whole run
  // ---------------------------------------------------------------------

  function NodeItem(id: string, node: Node, sourceKey: string): PostedItem
  {
    PostedItem(id, ZabbixSource, sourceKey, None, node.fields, None, Some(node.children))
  }

  function TreeRootItem(sourceKey: string): PostedItem
  {
    PostedItem(RootId, ZabbixSource, sourceKey, None, map["name" := "ROOT"], None, Some([ZabbixId]))
  }

  /** One item per node, in the dict's order. */
  function NodeItems(t: Tree, sourceKey: string): (r: seq<PostedItem>)
    requires OrderedKeys(t.order, t.nodes)
    ensures |r| == |t.order|
    ensures forall k :: 0 <= k < |r| ==> r[k] == NodeItem(t.order[k], t.nodes[t.order[k]], sourceKey)
  {
    seq(|t.order|, k requires 0 <= k < |t.order| => NodeItem(t.order[k], t.nodes[t.order[k]], sourceKey))
  }

  /** Everything posted to the item endpoint: the hosts, the nodes, the root. */
  function TreeItems(hosts: seq<Host>, t: Tree, sourceKey: string): seq<PostedItem>
    requires OrderedKeys(t.order, t.nodes)
  {
    HostItems(hosts, ZabbixSource, sourceKey, false) + NodeItems(t, sourceKey) + [TreeRootItem(sourceKey)]
  }

  /** The loop over `kGroups`: one item per node, its children the keys of its children dict. */
  method EmitTree(t: Tree, sourceKey: string) returns (items: seq<PostedItem>)
    requires OrderedKeys(t.order, t.nodes)
    ensures items == NodeItems(t, sourceKey)
  {
    items := [];
    for k := 0 to |t.order|
      invariant |items| == k
      invariant forall j :: 0 <= j < k ==> items[j] == NodeItem(t.order[j], t.nodes[t.order[j]], sourceKey)
    {
      var id := t.order[k];
      var node := t.nodes[id];
      items := items + [NodeItem(id, node, sourceKey)];
    }
  }

  /**
   * The whole run: the requests it sends, or the exception a malformed problem
   * raises before anything is sent; `tree` is the `kGroups` it built.
   */
  method Feed(hosts: seq<Host>, problems: seq<Problem>, sourceKey: string) returns (r: Result<seq<Step>>, ghost tree: Tree)
    ensures TreeOf(tree, GroupingOf(Memberships(hosts)))
    ensures r.Ok? <==> forall i :: 0 <= i < |problems| ==> EventOf(problems[i], ZabbixSource, sourceKey).Ok?
    ensures r.Ok? ==> r.value == Publish(ZabbixSource, sourceKey, TreeItems(hosts, tree, sourceKey), EventsFor(problems, ZabbixSource, sourceKey))
  {
    var grouping, hostItems := GroupHosts(hosts, ZabbixSource, sourceKey, false);
    HostLinksCover(grouping);
    var t := BuildTree(grouping, HostLinks(grouping));
    tree := t;
    var nodeItems := EmitTree(t, sourceKey);
    var objs := hostItems + nodeItems + [TreeRootItem(sourceKey)];
    var events := BuildEvents(problems, ZabbixSource, sourceKey);
    if events.Err? {
      return Err(events.error), tree;
    }
    return Ok(Publish(ZabbixSource, sourceKey, objs, events.value)), tree;
  }

  // ---------------------------------------------------------------------
  // Properties of the posted tree
  // ---------------------------------------------------------------------

  /** The node items carry exactly the node ids. */
  lemma NodeItemsKeys(t: Tree, sourceKey: string)
    requires OrderedKeys(t.order, t.nodes)
    ensures ItemIds(NodeItems(t, sourceKey)) == t.nodes.Keys
  {
    var items := NodeItems(t, sourceKey);
    forall id | id in t.nodes ensures id in ItemIds(items) {
      var k :| 0 <= k < |t.order| && t.order[k] == id;
      assert items[k].id == id;
    }
  }

  /** The node items name only nodes, or hosts placed below them, as children. */
  lemma NodeItemsChildren(t: Tree, sourceKey: string, hostIds: set<string>, links: set<(string, string)>)
    requires Wf(t) && Closed(t, links)
    requires forall n, c :: (n, c) in links ==> c in hostIds
    ensures ChildrenWithin(NodeItems(t, sourceKey), t.nodes.Keys + hostIds)
  {
    var items := NodeItems(t, sourceKey);
    forall i | 0 <= i < |items| && items[i].children.Some?
      ensures forall c :: c in items[i].children.value ==> c in t.nodes.Keys + hostIds
    {
      var n := t.order[i];
      assert items[i].children.value == t.nodes[n].children;
    }
  }

  /** A host placed below a node is a host of the run. */
  lemma LinksToHosts(hosts: seq<Host>)
    ensures forall n, c :: (n, c) in HostLinks(GroupingOf(Memberships(hosts))) ==> c in HostIds(hosts)
  {
    GroupingChildrenAreHosts(hosts);
  }

  /** Host items, node items and the root, put together, name only posted items as children. */
  lemma AssembledTreeClosed(hostItems: seq<PostedItem>, t: Tree, sourceKey: string, links: set<(string, string)>)
    requires ChildrenWithin(hostItems, {}) && Wf(t) && Closed(t, links)
    requires forall n, c :: (n, c) in links ==> c in ItemIds(hostItems)
    ensures ChildrenPosted(hostItems + NodeItems(t, sourceKey) + [TreeRootItem(sourceKey)])
  {
    var hostIds := ItemIds(hostItems);
    var nodeItems := NodeItems(t, sourceKey);
    var tail := [TreeRootItem(sourceKey)];
    NodeItemsKeys(t, sourceKey);
    NodeItemsChildren(t, sourceKey, hostIds, links);
    assert ChildrenWithin(tail, t.nodes.Keys);
    ChildrenWithinConcat(hostItems, nodeItems, {}, t.nodes.Keys + hostIds);
    ChildrenWithinConcat(hostItems + nodeItems, tail, t.nodes.Keys + hostIds, t.nodes.Keys);
    ItemIdsConcat(hostItems, nodeItems);
    ItemIdsConcat(hostItems + nodeItems, tail);
  }

  /** Every child named by any posted item is itself posted: the tree has no dangling link. */
  lemma TreeChildrenPosted(hosts: seq<Host>, t: Tree, sourceKey: string)
    requires TreeOf(t, GroupingOf(Memberships(hosts)))
    ensures ChildrenPosted(TreeItems(hosts, t, sourceKey))
  {
    LinksToHosts(hosts);
    HostItemsIds(hosts, ZabbixSource, sourceKey, false);
    AssembledTreeClosed(HostItems(hosts, ZabbixSource, sourceKey, false), t, sourceKey, HostLinks(GroupingOf(Memberships(hosts))));
  }

  /**
   * Of every group of the hosts, each path prefix is a node, each a child of
   * the one before (the first a child of `zabbix`), and each host of the group
   * is a child of the node of the full path; a host listed below a node that is
   * not itself a node belongs to a group whose path ends there.
   */
  lemma GroupPlaced(hosts: seq<Host>, t: Tree, i: int, k: int)
    requires TreeOf(t, GroupingOf(Memberships(hosts)))
    requires 0 <= i < |hosts| && 0 <= k < |hosts[i].groups|
    ensures var grouping := GroupingOf(Memberships(hosts));
            var gid := hosts[i].groups[k].groupid;
            gid in grouping.entries &&
            var segs := Split(grouping.entries[gid].group.name, '/');
            Linked(t, segs, |segs|) && PathId(segs) in t.nodes && hosts[i].hostid in t.nodes[PathId(segs)].children
  {
    GroupingListsHosts(hosts);
  }

  /** A child that is not a node is a host of a group whose path ends at that very node. */
  lemma HostsOnlyAtTheirNode(grouping: Grouping, t: Tree, n: string, c: string)
    requires Closed(t, HostLinks(grouping))
    requires n in t.nodes && c in t.nodes[n].children && c !in t.nodes
    ensures exists gid :: gid in grouping.entries && c in grouping.entries[gid].children &&
              n == PathId(Split(grouping.entries[gid].group.name, '/'))
  {
    assert (n, c) in HostLinks(grouping);
    var gid, h :| gid in grouping.entries && h in grouping.entries[gid].children &&
      (n, c) == (PathId(Split(grouping.entries[gid].group.name, '/')), h);
  }

  /** The root's only child is `zabbix`, and the `zabbix` node keeps the fields it started with. */
  lemma TreeTop(hosts: seq<Host>, t: Tree, sourceKey: string)
    requires TreeOf(t, GroupingOf(Memberships(hosts)))
    ensures var items := TreeItems(hosts, t, sourceKey);
            items[|items| - 1].id == RootId && items[|items| - 1].children == Some([ZabbixId]) &&
            ZabbixId in t.nodes && t.nodes[ZabbixId].fields == map["name" := ZabbixName, "zabbix_url" := ZabbixUrl]
  {
  }

  // ---------------------------------------------------------------------
  // The tree a grouping determines
  // ---------------------------------------------------------------------

  /** A node of the first i groups is on the path of one of them. */
  lemma {:induction false} NodesUpToMember(g: Grouping, i: int, n: string)
    requires OrderedKeys(g.order, g.entries) && 0 <= i <= |g.order|
    ensures n in NodesUpTo(g, i) <==> exists k :: 0 <= k < i && n in PathNodes(GroupName(g, k))
    decreases i
  {
    if i > 0 {
      NodesUpToMember(g, i - 1, n);
    }
  }

  /** A link of the first i groups is on the path, or below the last node, of one of them. */
  lemma {:induction false} LinksUpToMember(g: Grouping, i: int, n: string, c: string)
    requires OrderedKeys(g.order, g.entries) && 0 <= i <= |g.order|
    ensures (n, c) in LinksUpTo(g, i) <==>
      exists k :: 0 <= k < i && ((n, c) in PathLinks(GroupName(g, k)) || (n, c) in GroupHostLinks(GroupName(g, k), GroupChildren(g, k)))
    decreases i
  {
    if i > 0 {
      LinksUpToMember(g, i - 1, n, c);
    }
  }

  /** A group of the dict is the group at some position of its key order. */
  lemma GroupsByKey(g: Grouping, n: string, c: string)
    requires OrderedKeys(g.order, g.entries)
    ensures (exists gid :: gid in g.entries && n in PathNodes(g.entries[gid].group.name)) <==>
            (exists k :: 0 <= k < |g.order| && n in PathNodes(GroupName(g, k)))
    ensures (exists gid :: gid in g.entries &&
              ((n, c) in PathLinks(g.entries[gid].group.name) ||
               (n, c) in GroupHostLinks(g.entries[gid].group.name, g.entries[gid].children))) <==>
            (exists k :: 0 <= k < |g.order| &&
              ((n, c) in PathLinks(GroupName(g, k)) || (n, c) in GroupHostLinks(GroupName(g, k), GroupChildren(g, k))))
  {
    forall gid | gid in g.entries
      ensures exists k :: 0 <= k < |g.order| && g.order[k] == gid
    {
    }
    forall k | 0 <= k < |g.order|
      ensures g.order[k] in g.entries && GroupName(g, k) == g.entries[g.order[k]].group.name
    {
    }
  }

  /** The nodes of the tree: `zabbix` and every prefix of every group's path, and nothing else. */
  lemma TreeNodes(t: Tree, grouping: Grouping, n: string)
    requires TreeOf(t, grouping)
    ensures n in t.nodes <==>
      n == ZabbixId || exists gid :: gid in grouping.entries && n in PathNodes(grouping.entries[gid].group.name)
  {
    assert t.nodes.Keys == {ZabbixId} + NodesUpTo(grouping, |grouping.order|);
    NodesUpToMember(grouping, |grouping.order|, n);
    GroupsByKey(grouping, n, "");
  }

  /**
   * The children of a node: the next prefix of a path through it, or a host
   * of a group whose path ends there, and nothing else.
   */
  lemma TreeChildren(t: Tree, grouping: Grouping, n: string, c: string)
    requires TreeOf(t, grouping) && n in t.nodes
    ensures c in t.nodes[n].children <==>
      exists gid :: gid in grouping.entries &&
        ((n, c) in PathLinks(grouping.entries[gid].group.name) ||
         (n, c) in GroupHostLinks(grouping.entries[gid].group.name, grouping.entries[gid].children))
  {
    assert c in t.nodes[n].children <==> (n, c) in LinksUpTo(grouping, |grouping.order|);
    LinksUpToMember(grouping, |grouping.order|, n, c);
    GroupsByKey(grouping, n, c);
  }

  /** Each prefix adds at least the two characters of `__` to the id. */
  lemma {:induction false} PrefixIdLonger(segs: seq<string>, i: nat, j: nat)
    requires i < j < |segs|
    ensures |PrefixId(segs, i)| < |PrefixId(segs, j)|
    decreases j
  {
    PathIdSnoc(segs, j);
    assert segs[..j + 1][..j] == segs[..j];
    if i < j - 1 {
      PrefixIdLonger(segs, i, j - 1);
    }
  }

  /** A group creates any node of its path with one set of fields only. */
  lemma CreatedByUnique(name: string, n: string, f1: map<string, string>, f2: map<string, string>)
    requires CreatedBy(f1, name, n) && CreatedBy(f2, name, n)
    ensures f1 == f2
  {
    var segs := Split(name, '/');
    var j1 :| 0 <= j1 < |segs| && PrefixId(segs, j1) == n && f1 == PrefixFields(segs[j1], name);
    var j2 :| 0 <= j2 < |segs| && PrefixId(segs, j2) == n && f2 == PrefixFields(segs[j2], name);
    if j1 < j2 {
      PrefixIdLonger(segs, j1, j2);
    } else if j2 < j1 {
      PrefixIdLonger(segs, j2, j1);
    }
  }

  /** Only one group is the first to reach a node. */
  lemma FirstCreatedUnique(g: Grouping, n: string, f1: map<string, string>, f2: map<string, string>, k1: int, k2: int)
    requires OrderedKeys(g.order, g.entries) && 0 <= k1 < |g.order| && 0 <= k2 < |g.order|
    requires FirstCreatedBy(g, f1, n, k1) && FirstCreatedBy(g, f2, n, k2)
    ensures k1 == k2 && f1 == f2
  {
    NodesUpToMember(g, k1, n);
    NodesUpToMember(g, k2, n);
    CreatedByUnique(GroupName(g, k1), n, f1, f2);
  }

  /**
   * The grouping determines the tree up to the order of its dicts: two trees
   * built from it have the same nodes, each with the same fields and the same
   * children.
   */
  lemma TreeOfUnique(t1: Tree, t2: Tree, grouping: Grouping)
    requires TreeOf(t1, grouping) && TreeOf(t2, grouping)
    ensures t1.nodes.Keys == t2.nodes.Keys
    ensures forall n :: n in t1.nodes ==> t1.nodes[n].fields == t2.nodes[n].fields
    ensures forall n, c :: n in t1.nodes ==> (c in t1.nodes[n].children <==> c in t2.nodes[n].children)
  {
    forall n | n in t1.nodes
      ensures t1.nodes[n].fields == t2.nodes[n].fields
    {
      if n != ZabbixId {
        var k1 :| 0 <= k1 < |grouping.order| && FirstCreatedBy(grouping, t1.nodes[n].fields, n, k1);
        var k2 :| 0 <= k2 < |grouping.order| && FirstCreatedBy(grouping, t2.nodes[n].fields, n, k2);
        FirstCreatedUnique(grouping, n, t1.nodes[n].fields, t2.nodes[n].fields, k1, k2);
      }
    }
  }
}
