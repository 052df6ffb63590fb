/**
 * The load-test feeder (scripts/load_obj_random.py): a fixed tree of items,
 * a root with a number of parents, each parent with a number of children,
 * all numbered by one counter, and one event per number below the final
 * counter with a randomly drawn status. The random draws are a parameter.
 */
module RandomFeed {
  import opened Wrappers
  import opened Status
  import opened Decimal
  import opened Feeds

  const RandomSource := "pyrandom"
  /** `range(1000)` of the outer loop and `range(10)` of the inner one. */
  const Parents: nat := 1000
  const ChildrenPer: nat := 10
  /** The first number `getItemId` hands out; "1" is kept for the root. */
  const FirstNumber: nat := 2

  // ---------------------------------------------------------------------
  // Numbering
  // ---------------------------------------------------------------------

  /** The number the k-th parent gets: each parent and its c children use c + 1 numbers. */
  function ParentNumber(k: nat, c: nat): nat
  {
    FirstNumber + k * (c + 1)
  }

  lemma ParentNumberStep(k: nat, c: nat)
    ensures ParentNumber(k + 1, c) == ParentNumber(k, c) + c + 1
    ensures FirstNumber <= ParentNumber(k, c)
  {
    assert (k + 1) * (c + 1) == k * (c + 1) + c + 1;
  }

  lemma ParentNumberPrev(n: nat, c: nat)
    requires n > 0
    ensures ParentNumber(n - 1, c) + c + 1 == ParentNumber(n, c)
    ensures FirstNumber <= ParentNumber(n - 1, c)
  {
    ParentNumberStep(n - 1, c);
  }

  /** A later parent's number lies beyond every number of an earlier parent's block. */
  lemma {:induction false} ParentNumberGrows(a: nat, b: nat, c: nat)
    requires a < b
    ensures ParentNumber(a, c) + c + 1 <= ParentNumber(b, c)
    decreases b
  {
    ParentNumberStep(b - 1, c);
    if a < b - 1 {
      ParentNumberGrows(a, b - 1, c);
    }
  }

  /** The ids of `count` consecutive numbers from `first`. */
  function Ids(first: nat, count: nat): (r: seq<string>)
    ensures |r| == count
    ensures forall j :: 0 <= j < count ==> r[j] == NatToString(first + j)
  {
    seq(count, j requires 0 <= j < count => NatToString(first + j))
  }

  // ---------------------------------------------------------------------
  // The posted items
  // ---------------------------------------------------------------------

  /** `{'byId': {'equalFields': {'itemId': id}}}`. */
  function ByIdFilter(id: string): Filter
  {
    Filter("byId", map["itemId" := id])
  }

  function ChildItem(id: string, sourceKey: string): PostedItem
  {
    PostedItem(id, RandomSource, sourceKey, Some("Child" + id), map["name" := "Child" + id], Some(ByIdFilter(id)), None)
  }

  function ParentItem(id: string, children: seq<string>, sourceKey: string): PostedItem
  {
    PostedItem(id, RandomSource, sourceKey, Some("Parent" + id), map["name" := "Parent" + id], Some(ByIdFilter(id)), Some(children))
  }

  function RandomRootItem(children: seq<string>, sourceKey: string): PostedItem
  {
    PostedItem(RootId, RandomSource, sourceKey, Some("ROOT"), map["name" := "ROOT"], None, Some(children))
  }

  function ChildItems(ids: seq<string>, sourceKey: string): (r: seq<PostedItem>)
    ensures |r| == |ids|
    ensures forall j :: 0 <= j < |ids| ==> r[j] == ChildItem(ids[j], sourceKey)
  {
    seq(|ids|, j requires 0 <= j < |ids| => ChildItem(ids[j], sourceKey))
  }

  /** What one turn of the outer loop appends: the parent's children, then the parent. */
  function Block(k: nat, c: nat, sourceKey: string): seq<PostedItem>
  {
    var children := Ids(ParentNumber(k, c) + 1, c);
    ChildItems(children, sourceKey) + [ParentItem(NatToString(ParentNumber(k, c)), children, sourceKey)]
  }

  /** What the first n turns of the outer loop append. */
  function Blocks(n: nat, c: nat, sourceKey: string): (r: seq<PostedItem>)
  {
    if n == 0 then [] else Blocks(n - 1, c, sourceKey) + Block(n - 1, c, sourceKey)
  }

  /** `rootChildren` after n turns. */
  function ParentIds(n: nat, c: nat): (r: seq<string>)
    ensures |r| == n
    ensures forall k :: 0 <= k < n ==> r[k] == NatToString(ParentNumber(k, c))
  {
    seq(n, k requires 0 <= k < n => NatToString(ParentNumber(k, c)))
  }

  /** All the items posted, for n parents of c children each. */
  function RandomItems(n: nat, c: nat, sourceKey: string): seq<PostedItem>
  {
    Blocks(n, c, sourceKey) + [RandomRootItem(ParentIds(n, c), sourceKey)]
  }

  /** The inner loop: c children numbered from `counter0`, each appended to `objs0`. */
  method AddChildren(objs0: seq<PostedItem>, counter0: nat, c: nat, sourceKey: string)
      returns (objs: seq<PostedItem>, counter: nat, children: seq<string>)
    ensures children == Ids(counter0, c)
    ensures objs == objs0 + ChildItems(children, sourceKey)
    ensures counter == counter0 + c
  {
    objs := objs0;
    counter := counter0;
    children := [];
    for j := 0 to c
      invariant children == Ids(counter0, j)
      invariant objs == objs0 + ChildItems(children, sourceKey)
      invariant counter == counter0 + j
    {
      var childId := NatToString(counter);
      counter := counter + 1;
      children := children + [childId];
      objs := objs + [ChildItem(childId, sourceKey)];
    }
  }

  /** One turn of the outer loop appends block k and the k-th parent's id. */
  lemma LoopStep(k: nat, c: nat, sourceKey: string)
    ensures Blocks(k, c, sourceKey) + ChildItems(Ids(ParentNumber(k, c) + 1, c), sourceKey)
              + [ParentItem(NatToString(ParentNumber(k, c)), Ids(ParentNumber(k, c) + 1, c), sourceKey)]
            == Blocks(k + 1, c, sourceKey)
    ensures ParentIds(k, c) + [NatToString(ParentNumber(k, c))] == ParentIds(k + 1, c)
    ensures ParentNumber(k + 1, c) == ParentNumber(k, c) + c + 1
  {
    ParentNumberStep(k, c);
  }

  /** The outer loop and the root: the items, and the counter's final value. */
  method BuildItems(n: nat, c: nat, sourceKey: string) returns (objs: seq<PostedItem>, itemCounter: nat)
    ensures objs == RandomItems(n, c, sourceKey)
    ensures itemCounter == ParentNumber(n, c)
  {
    objs := [];
    var rootChildren: seq<string> := [];
    itemCounter := FirstNumber;
    for parentCount := 0 to n
      invariant objs == Blocks(parentCount, c, sourceKey)
      invariant rootChildren == ParentIds(parentCount, c)
      invariant itemCounter == ParentNumber(parentCount, c)
    {
      var parentId := NatToString(itemCounter);
      itemCounter := itemCounter + 1;
      rootChildren := rootChildren + [parentId];
      var children;
      objs, itemCounter, children := AddChildren(objs, itemCounter, c, sourceKey);
      objs := objs + [ParentItem(parentId, children, sourceKey)];
      LoopStep(parentCount, c, sourceKey);
    }
    objs := objs + [RandomRootItem(rootChildren, sourceKey)];
  }

  // ---------------------------------------------------------------------
  // The posted events
  // ---------------------------------------------------------------------

  /** `getEventStatusRandom` on the drawn number r. */
  function RandomStatus(r: int): string
  {
    if r == 1 then "INDETERMINATE"
    else if r == 2 then "INFORMATION"
    else if r == 3 then "WARNING"
    else if r == 4 then "MAJOR"
    else if r == 5 then "CRITICAL"
    else "CLEAR"
  }

  /** The server reads the status of draw r as the status numbered r; anything outside 1..5 would be CLEAR. */
  lemma RandomStatusMeaning(r: int)
    ensures FromString(RandomStatus(r)) == if 1 <= r <= 5 then FromInteger(r) else CLEAR
    ensures 1 <= r <= 5 ==> RandomStatus(r) == Name(FromInteger(r)) && FromString(RandomStatus(r)) != CLEAR
  {
  }

  function RandomEvent(eventId: string, itemId: string, status: string, sourceKey: string): PostedEvent
  {
    PostedEvent(eventId, RandomSource, sourceKey,
                map["itemId" := itemId, "node" := "Item " + itemId, "summary" := "Test message for " + itemId],
                status, "PROBLEM")
  }

  /** One event per number below `count`, the i-th with the status of the i-th draw. */
  function RandomEvents(count: nat, sourceKey: string, draw: nat -> int): (r: seq<PostedEvent>)
    ensures |r| == count
    ensures forall i :: 0 <= i < count ==>
              r[i].id == NatToString(i) && "itemId" in r[i].fields && r[i].fields["itemId"] == NatToString(i) &&
              r[i].status == RandomStatus(draw(i))
  {
    var r := seq(count, i requires 0 <= i < count => RandomEvent(NatToString(i), NatToString(i), RandomStatus(draw(i)), sourceKey));
    assert forall i :: 0 <= i < count ==> r[i] == RandomEvent(NatToString(i), NatToString(i), RandomStatus(draw(i)), sourceKey);
    r
  }

  /** The event loop: `eventCounter` and the loop variable advance together. */
  method BuildRandomEvents(count: nat, sourceKey: string, draw: nat -> int) returns (events: seq<PostedEvent>)
    ensures events == RandomEvents(count, sourceKey, draw)
  {
    events := [];
    var eventCounter := 0;
    for itemId := 0 to count
      invariant eventCounter == itemId
      invariant events == RandomEvents(itemId, sourceKey, draw)
    {
      var eventId := NatToString(eventCounter);
      eventCounter := eventCounter + 1;
      var status := RandomStatus(draw(itemId));
      events := events + [RandomEvent(eventId, NatToString(itemId), status, sourceKey)];
    }
  }

  /** The whole run: the requests it sends, given the random draws. */
  method Feed(sourceKey: string, draw: nat -> int) returns (steps: seq<Step>)
    ensures steps == Publish(RandomSource, sourceKey, RandomItems(Parents, ChildrenPer, sourceKey),
                             RandomEvents(ParentNumber(Parents, ChildrenPer), sourceKey, draw))
  {
    var objs, itemCounter := BuildItems(Parents, ChildrenPer, sourceKey);
    var events := BuildRandomEvents(itemCounter, sourceKey, draw);
    steps := Publish(RandomSource, sourceKey, objs, events);
  }

  // ---------------------------------------------------------------------
  // Properties
  // ---------------------------------------------------------------------

  /** A run posts 11001 items (1000 parents, 10000 children, the root) and 11002 events. */
  lemma RunSizes(sourceKey: string, draw: nat -> int)
    ensures |RandomItems(Parents, ChildrenPer, sourceKey)| == 11001
    ensures |RandomEvents(ParentNumber(Parents, ChildrenPer), sourceKey, draw)| == 11002
  {
    BlocksLength(Parents, ChildrenPer, sourceKey);
  }

  lemma {:induction false} BlocksLength(n: nat, c: nat, sourceKey: string)
    ensures |Blocks(n, c, sourceKey)| == ParentNumber(n, c) - FirstNumber
  {
    if n > 0 {
      BlocksLength(n - 1, c, sourceKey);
      ParentNumberStep(n - 1, c);
    }
  }

  /** The ids of the numbers in [lo, hi). */
  ghost function NumberIds(lo: nat, hi: nat): set<string>
  {
    set m: nat | lo <= m < hi :: NatToString(m)
  }

  /** The items of a block carry the block's numbers: the parent's, then its children's. */
  lemma BlockIds(n: nat, c: nat, sourceKey: string)
    requires n > 0
    ensures ItemIds(Block(n - 1, c, sourceKey)) == NumberIds(ParentNumber(n - 1, c), ParentNumber(n, c))
  {
    var k := n - 1;
    var b := Block(k, c, sourceKey);
    var p := ParentNumber(k, c);
    ParentNumberPrev(n, c);
    forall id | id in NumberIds(p, p + c + 1) ensures id in ItemIds(b) {
      var m: nat :| p <= m < p + c + 1 && id == NatToString(m);
      if m == p {
        assert b[c].id == id;
      } else {
        assert b[m - p - 1].id == id;
      }
    }
    forall id | id in ItemIds(b) ensures id in NumberIds(p, p + c + 1) {
      var i :| 0 <= i < |b| && b[i].id == id;
      if i == c {
        assert id == NatToString(p);
      } else {
        assert id == NatToString(p + 1 + i);
      }
    }
  }

  lemma NumberIdsSplit(lo: nat, mid: nat, hi: nat)
    requires lo <= mid <= hi
    ensures NumberIds(lo, mid) + NumberIds(mid, hi) == NumberIds(lo, hi)
  {
    forall id | id in NumberIds(lo, hi) ensures id in NumberIds(lo, mid) + NumberIds(mid, hi) {
      var m: nat :| lo <= m < hi && id == NatToString(m);
      if m < mid {
        assert id in NumberIds(lo, mid);
      } else {
        assert id in NumberIds(mid, hi);
      }
    }
  }

  /** The first n blocks carry exactly the numbers from 2 up to the next parent's. */
  lemma {:induction false} BlocksIds(n: nat, c: nat, sourceKey: string)
    ensures ItemIds(Blocks(n, c, sourceKey)) == NumberIds(FirstNumber, ParentNumber(n, c))
  {
    if n == 0 {
      assert NumberIds(FirstNumber, FirstNumber) == {};
    } else {
      BlocksIds(n - 1, c, sourceKey);
      BlockIds(n, c, sourceKey);
      ParentNumberPrev(n, c);
      IdsStep(Blocks(n - 1, c, sourceKey), Block(n - 1, c, sourceKey), FirstNumber, ParentNumber(n - 1, c), ParentNumber(n, c));
    }
  }

  lemma IdsStep(a: seq<PostedItem>, b: seq<PostedItem>, lo: nat, mid: nat, hi: nat)
    requires lo <= mid <= hi && ItemIds(a) == NumberIds(lo, mid) && ItemIds(b) == NumberIds(mid, hi)
    ensures ItemIds(a + b) == NumberIds(lo, hi)
  {
    ItemIdsConcat(a, b);
    NumberIdsSplit(lo, mid, hi);
  }

  /** Ids of different numbers differ. */
  lemma NumberIdsDisjoint(a: nat, b: nat, c: nat, d: nat)
    requires b <= c
    ensures NumberIds(a, b) !! NumberIds(c, d)
  {
    forall id | id in NumberIds(a, b) && id in NumberIds(c, d) ensures false {
      var m1: nat :| a <= m1 < b && id == NatToString(m1);
      var m2: nat :| c <= m2 < d && id == NatToString(m2);
      NatToStringInjective(m1, m2);
    }
  }

  /** No two items share an id. */
  predicate UniqueIds(items: seq<PostedItem>)
  {
    forall i, j :: 0 <= i < j < |items| ==> items[i].id != items[j].id
  }

  /** A batch never has more ids than items. */
  lemma {:induction false} ItemIdsAtMost(items: seq<PostedItem>)
    ensures |ItemIds(items)| <= |items|
  {
    if |items| > 0 {
      var init := items[..|items| - 1];
      ItemIdsAtMost(init);
      assert items == init + [items[|items| - 1]];
      ItemIdsConcat(init, [items[|items| - 1]]);
      assert [items[|items| - 1]][0].id == items[|items| - 1].id;
      assert ItemIds([items[|items| - 1]]) == {items[|items| - 1].id};
    }
  }

  /** A batch with as many ids as items has no two items with the same id. */
  lemma CountedIdsUnique(items: seq<PostedItem>)
    requires |ItemIds(items)| == |items|
    ensures UniqueIds(items)
  {
    forall i, j | 0 <= i < j < |items| ensures items[i].id != items[j].id {
      if items[i].id == items[j].id {
        var rest := items[..j] + items[j + 1..];
        assert items == items[..j] + [items[j]] + items[j + 1..];
        ItemIdsConcat(items[..j] + [items[j]], items[j + 1..]);
        ItemIdsConcat(items[..j], [items[j]]);
        ItemIdsConcat(items[..j], items[j + 1..]);
        assert [items[j]][0].id == items[j].id;
        assert ItemIds([items[j]]) == {items[j].id};
        assert items[..j][i].id == items[j].id;
        assert ItemIds(items) == ItemIds(rest);
        ItemIdsAtMost(rest);
        assert false;
      }
    }
  }

  /** The numbers in [lo, hi) give hi - lo different ids. */
  lemma {:induction false} NumberIdsCount(lo: nat, hi: nat)
    requires lo <= hi
    ensures |NumberIds(lo, hi)| == hi - lo
    decreases hi
  {
    if lo < hi {
      NumberIdsCount(lo, hi - 1);
      NumberIdsSplit(lo, hi - 1, hi);
      NumberIdsDisjoint(lo, hi - 1, hi - 1, hi);
      assert NumberIds(hi - 1, hi) == {NatToString(hi - 1)};
    } else {
      assert NumberIds(lo, hi) == {};
    }
  }

  /** Appending the root "1" to items numbered from 2 keeps the ids apart. */
  lemma AppendRoot(a: seq<PostedItem>, root: PostedItem, hi: nat)
    requires FirstNumber <= hi && ItemIds(a) == NumberIds(FirstNumber, hi) && root.id == RootId
    ensures ItemIds(a + [root]) == NumberIds(FirstNumber, hi) + {RootId}
    ensures |ItemIds(a + [root])| == |NumberIds(FirstNumber, hi)| + 1
  {
    var r := [root];
    ItemIdsConcat(a, r);
    assert r[0].id == RootId;
    assert ItemIds(r) == {RootId};
    assert RootId == NatToString(1);
    assert RootId in NumberIds(1, 2);
    NumberIdsDisjoint(1, 2, FirstNumber, hi);
  }

  /** Every posted item has an id of its own: the root "1" and one number from 2 on per other item. */
  lemma RandomItemsIds(n: nat, c: nat, sourceKey: string)
    ensures ItemIds(RandomItems(n, c, sourceKey)) == NumberIds(FirstNumber, ParentNumber(n, c)) + {RootId}
    ensures UniqueIds(RandomItems(n, c, sourceKey))
  {
    BlocksIds(n, c, sourceKey);
    BlocksLength(n, c, sourceKey);
    NumberIdsCount(FirstNumber, ParentNumber(n, c));
    AppendRoot(Blocks(n, c, sourceKey), RandomRootItem(ParentIds(n, c), sourceKey), ParentNumber(n, c));
    CountedIdsUnique(RandomItems(n, c, sourceKey));
  }

  lemma IndexOf(items: seq<PostedItem>, item: PostedItem) returns (i: nat)
    requires item in items
    ensures i < |items| && items[i] == item
  {
    i :| 0 <= i < |items| && items[i] == item;
  }

  /** Which turn of the loop appended a given block item, and at which place. */
  lemma {:induction false} InBlocks(n: nat, c: nat, sourceKey: string, item: PostedItem) returns (k: nat, o: nat)
    requires item in Blocks(n, c, sourceKey)
    ensures k < n && o <= c && item == Block(k, c, sourceKey)[o]
  {
    var prefix := Blocks(n - 1, c, sourceKey);
    var b := Block(n - 1, c, sourceKey);
    if item in prefix {
      k, o := InBlocks(n - 1, c, sourceKey, item);
    } else {
      k := n - 1;
      o := IndexOf(b, item);
    }
  }

  /** The children an item of a block names: none for a child, the block's children for its parent. */
  lemma BlockItemChildren(k: nat, c: nat, sourceKey: string, o: nat)
    requires o <= c
    ensures var item := Block(k, c, sourceKey)[o];
            if o < c then item.children.None?
            else item.children == Some(Ids(ParentNumber(k, c) + 1, c))
  {
  }

  lemma ChildrenWithinMore(items: seq<PostedItem>, s: set<string>, t: set<string>)
    requires ChildrenWithin(items, s) && s <= t
    ensures ChildrenWithin(items, t)
  {
  }

  /** A block's children name nothing; its parent names only ids of `s`. */
  lemma ChildItemsWithin(ids: seq<string>, parent: PostedItem, sourceKey: string, s: set<string>)
    requires parent.children.Some? && forall x :: x in parent.children.value ==> x in s
    ensures ChildrenWithin(ChildItems(ids, sourceKey) + [parent], s)
  {
    var b := ChildItems(ids, sourceKey) + [parent];
    forall i | 0 <= i < |b| && b[i].children.Some?
      ensures forall x :: x in b[i].children.value ==> x in s
    {
      assert b[i] == parent;
    }
  }

  /** The children's ids of the parent numbered p lie in [p, p + c + 1). */
  lemma IdsWithin(p: nat, c: nat, hi: nat)
    requires hi == p + c + 1
    ensures forall x :: x in Ids(p + 1, c) ==> x in NumberIds(p, hi)
  {
    forall x | x in Ids(p + 1, c) ensures x in NumberIds(p, hi) {
      var j :| 0 <= j < c && x == Ids(p + 1, c)[j];
      assert x == NatToString(p + 1 + j);
    }
  }

  /** The children a block names carry the block's own numbers. */
  lemma BlockChildrenWithin(n: nat, c: nat, sourceKey: string)
    requires n > 0
    ensures ChildrenWithin(Block(n - 1, c, sourceKey), NumberIds(ParentNumber(n - 1, c), ParentNumber(n, c)))
  {
    var p := ParentNumber(n - 1, c);
    ParentNumberPrev(n, c);
    IdsWithin(p, c, ParentNumber(n, c));
    var children := Ids(p + 1, c);
    ChildItemsWithin(children, ParentItem(NatToString(p), children, sourceKey), sourceKey, NumberIds(p, ParentNumber(n, c)));
  }

  /** The children the first n blocks name are numbered below the next parent's number. */
  lemma {:induction false} BlocksChildrenWithin(n: nat, c: nat, sourceKey: string)
    ensures ChildrenWithin(Blocks(n, c, sourceKey), NumberIds(FirstNumber, ParentNumber(n, c)))
  {
    if n > 0 {
      BlocksChildrenWithin(n - 1, c, sourceKey);
      BlockChildrenWithin(n, c, sourceKey);
      ParentNumberPrev(n, c);
      WithinStep(Blocks(n - 1, c, sourceKey), Block(n - 1, c, sourceKey), FirstNumber, ParentNumber(n - 1, c), ParentNumber(n, c));
    }
  }

  lemma WithinStep(a: seq<PostedItem>, b: seq<PostedItem>, lo: nat, mid: nat, hi: nat)
    requires lo <= mid <= hi && ChildrenWithin(a, NumberIds(lo, mid)) && ChildrenWithin(b, NumberIds(mid, hi))
    ensures ChildrenWithin(a + b, NumberIds(lo, hi))
  {
    ChildrenWithinConcat(a, b, NumberIds(lo, mid), NumberIds(mid, hi));
    NumberIdsSplit(lo, mid, hi);
  }

  /** The root names the parents, all numbered below the final counter. */
  lemma RootChildrenWithin(n: nat, c: nat, sourceKey: string)
    ensures ChildrenWithin([RandomRootItem(ParentIds(n, c), sourceKey)], NumberIds(FirstNumber, ParentNumber(n, c)))
  {
    var r := [RandomRootItem(ParentIds(n, c), sourceKey)];
    forall x | x in ParentIds(n, c) ensures x in NumberIds(FirstNumber, ParentNumber(n, c)) {
      var k :| 0 <= k < n && x == ParentIds(n, c)[k];
      ParentNumberGrows(k, n, c);
      assert x == NatToString(ParentNumber(k, c));
    }
    assert r[0].children.value == ParentIds(n, c);
  }

  /** Every child named by any posted item is itself posted. */
  lemma RandomChildrenPosted(n: nat, c: nat, sourceKey: string)
    ensures ChildrenPosted(RandomItems(n, c, sourceKey))
  {
    var ids := NumberIds(FirstNumber, ParentNumber(n, c));
    BlocksChildrenWithin(n, c, sourceKey);
    RootChildrenWithin(n, c, sourceKey);
    ChildrenWithinConcat(Blocks(n, c, sourceKey), [RandomRootItem(ParentIds(n, c), sourceKey)], ids, ids);
    assert ids + ids == ids;
    RandomItemsIds(n, c, sourceKey);
    ChildrenWithinMore(RandomItems(n, c, sourceKey), ids, ItemIds(RandomItems(n, c, sourceKey)));
  }

  /** A child named by an item of block k is numbered strictly inside the block, and the item is the block's parent. */
  lemma BlockChildNumber(k: nat, c: nat, sourceKey: string, o: nat, x: string) returns (m: nat)
    requires o <= c && Block(k, c, sourceKey)[o].children.Some? && x in Block(k, c, sourceKey)[o].children.value
    ensures o == c && x == NatToString(m) && ParentNumber(k, c) < m < ParentNumber(k + 1, c)
    ensures Block(k, c, sourceKey)[o].id != RootId
  {
    BlockItemChildren(k, c, sourceKey, o);
    ParentNumberStep(k, c);
    var p := ParentNumber(k, c);
    var j :| 0 <= j < c && x == Ids(p + 1, c)[j];
    m := p + 1 + j;
    assert RootId == NatToString(1);
    NatToStringInjective(1, p);
  }

  /** The children an item names: those of a parent, or the parents for the root. */
  lemma ChildNumber(n: nat, c: nat, sourceKey: string, item: PostedItem, x: string) returns (m: nat, k: nat)
    requires item in RandomItems(n, c, sourceKey) && item.children.Some? && x in item.children.value
    ensures x == NatToString(m) && k < n
    ensures item.id == RootId ==> item == RandomRootItem(ParentIds(n, c), sourceKey) && m == ParentNumber(k, c)
    ensures item.id != RootId ==> item == Block(k, c, sourceKey)[c] && ParentNumber(k, c) < m < ParentNumber(k + 1, c)
  {
    if item in Blocks(n, c, sourceKey) {
      var o;
      k, o := InBlocks(n, c, sourceKey, item);
      m := BlockChildNumber(k, c, sourceKey, o, x);
    } else {
      assert item == RandomRootItem(ParentIds(n, c), sourceKey);
      k :| 0 <= k < n && x == ParentIds(n, c)[k];
      m := ParentNumber(k, c);
    }
  }

  /** No id is the child of two items: the items form a tree, not a graph with shared nodes. */
  lemma OneParent(n: nat, c: nat, sourceKey: string, a: PostedItem, b: PostedItem, x: string)
    requires a in RandomItems(n, c, sourceKey) && a.children.Some? && x in a.children.value
    requires b in RandomItems(n, c, sourceKey) && b.children.Some? && x in b.children.value
    ensures a == b
  {
    var ma, ka := ChildNumber(n, c, sourceKey, a, x);
    var mb, kb := ChildNumber(n, c, sourceKey, b, x);
    NatToStringInjective(ma, mb);
    if a.id != RootId && b.id != RootId {
      if ka < kb {
        ParentNumberGrows(ka, kb, c);
      } else if kb < ka {
        ParentNumberGrows(kb, ka, c);
      }
    } else if a.id == RootId && b.id != RootId {
      ParentNumbersApart(ka, kb, c);
    } else if a.id != RootId {
      ParentNumbersApart(kb, ka, c);
    }
  }

  /** A parent's number never falls strictly inside another parent's block. */
  lemma ParentNumbersApart(k: nat, k2: nat, c: nat)
    ensures !(ParentNumber(k2, c) < ParentNumber(k, c) < ParentNumber(k2 + 1, c))
  {
    ParentNumberStep(k2, c);
    if k < k2 {
      ParentNumberGrows(k, k2, c);
    } else if k > k2 + 1 {
      ParentNumberGrows(k2 + 1, k, c);
    }
  }

  /** Every item but the root is the child of some item: the root reaches everything. */
  lemma EveryItemHasParent(n: nat, c: nat, sourceKey: string, item: PostedItem)
    requires item in Blocks(n, c, sourceKey)
    ensures exists p :: p in RandomItems(n, c, sourceKey) && p.children.Some? && item.id in p.children.value
  {
    var items := RandomItems(n, c, sourceKey);
    var k, o := InBlocks(n, c, sourceKey, item);
    if o < c {
      var parent := Block(k, c, sourceKey)[c];
      assert parent in Blocks(n, c, sourceKey) by { BlockInBlocks(n, c, sourceKey, k); }
      assert item.id == Ids(ParentNumber(k, c) + 1, c)[o];
      assert parent in items;
    } else {
      var root := items[|items| - 1];
      assert item.id == ParentIds(n, c)[k];
    }
  }

  lemma {:induction false} BlockInBlocks(n: nat, c: nat, sourceKey: string, k: nat)
    requires k < n
    ensures forall item :: item in Block(k, c, sourceKey) ==> item in Blocks(n, c, sourceKey)
  {
    if k < n - 1 {
      BlockInBlocks(n - 1, c, sourceKey, k);
    }
  }

  /** Each event carries its own number as id and as `itemId`; the events cover every item number and the root. */
  lemma EventsMatchItems(n: nat, c: nat, sourceKey: string, draw: nat -> int)
    ensures var events := RandomEvents(ParentNumber(n, c), sourceKey, draw);
            forall id :: id in ItemIds(RandomItems(n, c, sourceKey)) ==>
              exists i :: 0 <= i < |events| && events[i].fields["itemId"] == id
  {
    var events := RandomEvents(ParentNumber(n, c), sourceKey, draw);
    RandomItemsIds(n, c, sourceKey);
    forall id | id in NumberIds(FirstNumber, ParentNumber(n, c)) + {RootId}
      ensures exists i :: 0 <= i < |events| && events[i].fields["itemId"] == id
    {
      if id == RootId {
        assert events[1].fields["itemId"] == NatToString(1);
      } else {
        var m: nat :| FirstNumber <= m < ParentNumber(n, c) && id == NatToString(m);
        assert events[m].fields["itemId"] == id;
      }
    }
  }

  /** The first event names item "0", which no posted item has. */
  lemma EventZeroNamesNoItem(n: nat, c: nat, sourceKey: string, draw: nat -> int)
    ensures RandomEvents(ParentNumber(n, c), sourceKey, draw)[0].fields["itemId"] == "0"
    ensures "0" !in ItemIds(RandomItems(n, c, sourceKey))
  {
    RandomItemsIds(n, c, sourceKey);
    assert NatToString(0) == "0";
    forall m: nat | FirstNumber <= m < ParentNumber(n, c) ensures NatToString(m) != "0" {
      NatToStringInjective(m, 0);
    }
  }

  /** With draws from `random.randint(1, 5)`, no event is posted as CLEAR. */
  lemma NoClearEvents(count: nat, sourceKey: string, draw: nat -> int)
    requires forall i :: 1 <= draw(i) <= 5
    ensures var events := RandomEvents(count, sourceKey, draw);
            forall i :: 0 <= i < count ==> FromString(events[i].status) == FromInteger(draw(i)) != CLEAR
  {
    forall i | 0 <= i < count ensures FromString(RandomEvents(count, sourceKey, draw)[i].status) == FromInteger(draw(i)) != CLEAR {
      RandomStatusMeaning(draw(i));
    }
  }
}
