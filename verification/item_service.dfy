/**
 * The item service (src/main/java/ru/keich/mon/servicemanager/item/ItemService.java):
 * the entity service over items, three more indexes, the status of an item
 * worked out from its children and its events and pushed up to its parents,
 * the upsert of items, and the walks over children.
 *
 * Each item's status is kept in the table `status`, standing for the mutable
 * `status` field of the cached Item objects. The maximum status of an item's
 * events (`EventRelationService.getMaxStatus`) is the parameter `eventMax`.
 */
module ItemServices {
  import opened Wrappers
  import opened Status
  import opened Store
  import opened Entities
  import opened ItemRules
  import opened ItemFilters
  import opened Items
  import opened EntityServices

  /** The entity part of an item. */
  function ItemBase(): (f: Item -> Entity)
  {
    (i: Item) => i.base
  }

  /** The mappers of the three indexes the item service adds. */
  function FiltersMapper(): (f: Item -> set<IndexKey>)
  {
    (i: Item) => FiltersForIndex(i)
  }

  function ParentsMapper(): (f: Item -> set<IndexKey>)
  {
    (i: Item) => ParentsForIndex(i)
  }

  function NameMapper(): (f: Item -> set<IndexKey>)
  {
    (i: Item) => NameForIndex(i)
  }

  // ---------------------------------------------------------------------------
  // Status from the children
  // ---------------------------------------------------------------------------

  /** The status the table holds for an id; CLEAR for one it does not hold. */
  function StatusIn(status: map<string, BaseStatus>, id: string): BaseStatus
  {
    if id in status then status[id] else CLEAR
  }

  /** A child that is cached and not marked deleted. */
  predicate Live(cache: map<string, Item>, id: string)
  {
    id in cache && cache[id].base.deletedOn.None?
  }

  /** The status number of a live child. */
  predicate LiveChildAt(item: Item, cache: map<string, Item>, status: map<string, BaseStatus>, o: int)
  {
    exists c :: c in item.children && Live(cache, c) && Ordinal(StatusIn(status, c)) == o
  }

  /**
   * `calculateEntityStatusDefault`: the highest status number among the
   * children that are cached and not deleted, 0 when there is none.
   */
  function DefaultStatus(item: Item, cache: map<string, Item>, status: map<string, BaseStatus>): (r: nat)
    ensures r < Length
    ensures forall c :: c in item.children && Live(cache, c) ==> Ordinal(StatusIn(status, c)) <= r
    ensures r == 0 || LiveChildAt(item, cache, status, r)
  {
    var present := o => LiveChildAt(item, cache, status, o);
    var r := Highest(5, present);
    assert forall c :: c in item.children && Live(cache, c) ==> Ordinal(StatusIn(status, c)) <= r by {
      forall c | c in item.children && Live(cache, c)
        ensures Ordinal(StatusIn(status, c)) <= r
      {
        assert present(Ordinal(StatusIn(status, c)));
      }
    }
    r
  }

  /** The live children at or above the rule's status threshold. */
  function Qualifying(item: Item, rule: ItemRule, cache: map<string, Item>, status: map<string, BaseStatus>): (q: set<string>)
    ensures forall c :: c in q <==>
      c in item.children && Live(cache, c) && Ordinal(StatusIn(status, c)) >= Ordinal(rule.statusThreshold)
  {
    set c | c in item.children && Live(cache, c) && Ordinal(StatusIn(status, c)) >= Ordinal(rule.statusThreshold)
  }

  /**
   * A CLUSTER rule fires when the qualifying children make up at least
   * `valueThreshold` percent of all child ids, missing and deleted ones
   * included, the percentage rounded down.
   */
  predicate ClusterFires(item: Item, rule: ItemRule, cache: map<string, Item>, status: map<string, BaseStatus>)
  {
    item.children != {} && 100 * |Qualifying(item, rule, cache, status)| / |item.children| >= rule.valueThreshold
  }

  /**
   * `calculateEntityStatusAsCluster`: 0 without children or below the
   * threshold; when the rule fires, its result status if it uses one, and
   * otherwise the lowest status number among the qualifying children (0 when
   * none qualifies).
   */
  function ClusterStatus(item: Item, rule: ItemRule, cache: map<string, Item>, status: map<string, BaseStatus>): (r: nat)
    ensures r < Length
    ensures !ClusterFires(item, rule, cache, status) ==> r == 0
    ensures ClusterFires(item, rule, cache, status) && rule.usingResultStatus ==> r == Ordinal(rule.resultStatus)
    ensures ClusterFires(item, rule, cache, status) && !rule.usingResultStatus ==>
      var q := Qualifying(item, rule, cache, status);
      && (q == {} ==> r == 0)
      && (q != {} ==> (exists c :: c in q && Ordinal(StatusIn(status, c)) == r) &&
                      forall c :: c in q ==> r <= Ordinal(StatusIn(status, c)))
  {
    var overal := |item.children|;
    if overal <= 0 then 0
    else
      var q := Qualifying(item, rule, cache, status);
      var percent := 100 * |q| / overal;
      if percent >= rule.valueThreshold then
        if rule.usingResultStatus then Ordinal(rule.resultStatus)
        else
          var present := o => exists c :: c in q && Ordinal(StatusIn(status, c)) == o;
          var r := Lowest(0, present);
          assert q != {} ==> exists j :: 0 <= j <= 5 && present(j) by {
            if q != {} {
              var c :| c in q;
              assert present(Ordinal(StatusIn(status, c)));
            }
          }
          assert forall c :: c in q ==> r <= Ordinal(StatusIn(status, c)) by {
            forall c | c in q
              ensures r <= Ordinal(StatusIn(status, c))
            {
              assert present(Ordinal(StatusIn(status, c)));
            }
          }
          r
      else 0
  }

  /** The status one rule gives: CLUSTER rules count, every other rule takes the default. */
  function RuleStatus(item: Item, rule: ItemRule, cache: map<string, Item>, status: map<string, BaseStatus>): (r: nat)
    ensures r < Length
  {
    match rule.ruleType
    case CLUSTER => ClusterStatus(item, rule, cache, status)
    case DEFAULT => DefaultStatus(item, cache, status)
  }

  /**
   * `calculateStatusByChild`: the highest status any rule gives, and the
   * default computation when the item has no rules.
   */
  function StatusByChild(item: Item, cache: map<string, Item>, status: map<string, BaseStatus>): (r: nat)
    ensures r < Length
    ensures item.rules == map[] ==> r == DefaultStatus(item, cache, status)
    ensures item.rules != map[] ==>
      && (exists n :: n in item.rules && RuleStatus(item, item.rules[n], cache, status) == r)
      && (forall n :: n in item.rules ==> RuleStatus(item, item.rules[n], cache, status) <= r)
  {
    if item.rules == map[] then DefaultStatus(item, cache, status)
    else
      var present := o => exists n :: n in item.rules && RuleStatus(item, item.rules[n], cache, status) == o;
      var r := Highest(5, present);
      assert forall n :: n in item.rules ==> RuleStatus(item, item.rules[n], cache, status) <= r by {
        forall n | n in item.rules
          ensures RuleStatus(item, item.rules[n], cache, status) <= r
        {
          assert present(RuleStatus(item, item.rules[n], cache, status));
        }
      }
      assert present(r) by {
        var n :| n in item.rules;
        if r == 0 {
          assert RuleStatus(item, item.rules[n], cache, status) == 0;
        }
      }
      r
  }

  /**
   * The status `calculateStatus` settles on: the status from the children
   * or the item's event maximum, whichever is more severe.
   */
  function NewStatus(item: Item, cache: map<string, Item>, status: map<string, BaseStatus>, eventMax: BaseStatus): (r: BaseStatus)
    ensures Ordinal(r) >= StatusByChild(item, cache, status) && Ordinal(r) >= Ordinal(eventMax)
    ensures Ordinal(r) == StatusByChild(item, cache, status) || r == eventMax
  {
    Max(FromInteger(StatusByChild(item, cache, status)), Some(eventMax))
  }

  /** With no rules and no children, an item's status is its event maximum. */
  lemma LeafTakesEventStatus(item: Item, cache: map<string, Item>, status: map<string, BaseStatus>, eventMax: BaseStatus)
    requires item.rules == map[] && item.children == {}
    ensures NewStatus(item, cache, status, eventMax) == eventMax
  {
    FromIntegerOrdinal(eventMax);
    OrdinalInjective(NewStatus(item, cache, status, eventMax), eventMax);
  }

  /**
   * A CLUSTER rule that does not use a result status never gives more than
   * the default computation over the same children.
   */
  lemma ClusterBelowDefault(item: Item, rule: ItemRule, cache: map<string, Item>, status: map<string, BaseStatus>)
    requires !rule.usingResultStatus
    ensures ClusterStatus(item, rule, cache, status) <= DefaultStatus(item, cache, status)
  {
    var q := Qualifying(item, rule, cache, status);
    if ClusterFires(item, rule, cache, status) && q != {} {
      var c :| c in q;
    }
  }

  /**
   * When every child is live and at or above the threshold, a rule with a
   * threshold of at most 100 percent fires.
   */
  lemma ClusterFiresWhenAllQualify(item: Item, rule: ItemRule, cache: map<string, Item>, status: map<string, BaseStatus>)
    requires item.children != {} && rule.valueThreshold <= 100
    requires forall c :: c in item.children ==> Live(cache, c) && Ordinal(StatusIn(status, c)) >= Ordinal(rule.statusThreshold)
    ensures ClusterFires(item, rule, cache, status)
  {
    var q := Qualifying(item, rule, cache, status);
    assert q == item.children;
    WholeIsHundredPercent(|item.children|);
  }

  /** All of `n` things are 100 percent of them. */
  lemma WholeIsHundredPercent(n: int)
    requires n > 0
    ensures 100 * n / n == 100
  {
    var d := 100 * n / n;
    var m := 100 * n % n;
    assert n * d + m == 100 * n && 0 <= m < n;
    assert n * (100 - d) == m;
  }

  // ---------------------------------------------------------------------------
  // The walk over the children
  // ---------------------------------------------------------------------------

  /**
   * The ids `findAllItemsById` collects from `id` when the ids in `history`
   * are already on the path: `id` itself if it is cached, then what each
   * child not on the path collects.
   */
  ghost function Reach(cache: map<string, Item>, id: string, history: set<string>): set<string>
    decreases cache.Keys - history, 0
  {
    if id !in cache || id in history then {}
    else {id} + ReachAll(cache, cache[id].children, history + {id})
  }

  /** What the ids in `ids` collect together. */
  ghost function ReachAll(cache: map<string, Item>, ids: set<string>, history: set<string>): set<string>
    decreases cache.Keys - history, 1
  {
    set c, x | c in ids && x in Reach(cache, c, history) :: x
  }

  /** Everything collected is cached. */
  lemma {:induction false} ReachCached(cache: map<string, Item>, id: string, history: set<string>)
    ensures Reach(cache, id, history) <= cache.Keys
    decreases cache.Keys - history
  {
    if id in cache && id !in history {
      forall c | c in cache[id].children {
        ReachCached(cache, c, history + {id});
      }
    }
  }

  /**
   * The collected ids are closed under cached children: a cached child of a
   * collected id that is not on the starting path is collected too.
   */
  lemma {:induction false} ReachClosed(cache: map<string, Item>, id: string, history: set<string>, x: string, c: string)
    requires x in Reach(cache, id, history) && x in cache
    requires c in cache[x].children && c in cache && c !in history
    ensures c in Reach(cache, id, history)
    decreases cache.Keys - history
  {
    var h := history + {id};
    if c == id {
    } else if x == id {
      assert c in Reach(cache, c, h);
    } else {
      var d :| d in cache[id].children && x in Reach(cache, d, h);
      ReachClosed(cache, d, h, x, c);
    }
  }

  /**
   * The collected ids are the least such set: any set holding `id` and
   * closed under cached children holds all of them.
   */
  lemma {:induction false} ReachLeast(cache: map<string, Item>, id: string, history: set<string>, s: set<string>)
    requires id in s
    requires forall x, c :: x in s && x in cache && c in cache[x].children ==> c in s
    ensures Reach(cache, id, history) <= s
    decreases cache.Keys - history
  {
    if id in cache && id !in history {
      forall c | c in cache[id].children {
        ReachLeast(cache, c, history + {id}, s);
      }
    }
  }

  /** One more child's share of the walk. */
  lemma ReachAllAdd(cache: map<string, Item>, ids: set<string>, c: string, history: set<string>)
    ensures ReachAll(cache, ids + {c}, history) == ReachAll(cache, ids, history) + Reach(cache, c, history)
  {
  }

  // ---------------------------------------------------------------------------
  // The walk up the parents
  // ---------------------------------------------------------------------------

  /** `p` is a live item listing `x` among its children: `findParents(x)` after the deletedOn filter. */
  predicate LiveParent(cache: map<string, Item>, p: string, x: string)
  {
    Live(cache, p) && x in cache[p].children
  }

  /** The live parents of `id`. */
  ghost function LiveParents(cache: map<string, Item>, id: string): set<string>
  {
    set p | p in cache && LiveParent(cache, p, id)
  }

  /**
   * The ids `calculateStatus` may reach from `id` when the ids in `history`
   * are on the path: `id` itself if it is cached, then what each live parent
   * not on the path reaches.
   */
  ghost function Up(cache: map<string, Item>, id: string, history: set<string>): set<string>
    decreases cache.Keys - history, 0
  {
    if id !in cache || id in history then {}
    else {id} + UpAll(cache, LiveParents(cache, id), history + {id})
  }

  /** What the ids in `ids` reach together. */
  ghost function UpAll(cache: map<string, Item>, ids: set<string>, history: set<string>): set<string>
    decreases cache.Keys - history, 1
  {
    set p, x | p in ids && x in Up(cache, p, history) :: x
  }

  /** The walk up never enters the path, and past its start it meets only live items. */
  lemma {:induction false} UpShape(cache: map<string, Item>, id: string, history: set<string>, y: string)
    requires y in Up(cache, id, history)
    ensures y in cache && y !in history
    ensures y == id || Live(cache, y)
    decreases cache.Keys - history
  {
    if y != id {
      var p :| p in LiveParents(cache, id) && y in Up(cache, p, history + {id});
      UpShape(cache, p, history + {id}, y);
    }
  }

  /** `rank` strictly decreases from every cached item to each of its cached children. */
  ghost predicate Ranks(cache: map<string, Item>, rank: map<string, nat>)
  {
    cache.Keys <= rank.Keys &&
    forall p, c :: p in cache && c in cache && c in cache[p].children ==> rank[c] < rank[p]
  }

  /** The items and their children form no cycle. */
  ghost predicate Acyclic(cache: map<string, Item>)
  {
    exists rank :: Ranks(cache, rank)
  }

  /** Walking up never lowers the rank. */
  lemma {:induction false} UpRank(cache: map<string, Item>, rank: map<string, nat>, id: string, history: set<string>, y: string)
    requires Ranks(cache, rank) && y in Up(cache, id, history)
    ensures id in cache && y in cache && rank[y] >= rank[id]
    decreases cache.Keys - history
  {
    UpShape(cache, id, history, y);
    if y != id {
      var p :| p in LiveParents(cache, id) && y in Up(cache, p, history + {id});
      UpRank(cache, rank, p, history + {id}, y);
    }
  }

  /** Without cycles, nothing reached from a parent of `id` is a child of `id`. */
  lemma UpAvoidsChildren(cache: map<string, Item>, id: string, p: string, history: set<string>, y: string)
    requires Acyclic(cache) && id in cache && LiveParent(cache, p, id)
    requires y in Up(cache, p, history)
    ensures y !in cache[id].children
  {
    var rank :| Ranks(cache, rank);
    UpRank(cache, rank, p, history, y);
    UpShape(cache, p, history, y);
  }

  /** The statuses of the item's children agree in the two tables. */
  predicate ChildrenAgree(item: Item, s1: map<string, BaseStatus>, s2: map<string, BaseStatus>)
  {
    forall c :: c in item.children ==> StatusIn(s1, c) == StatusIn(s2, c)
  }

  lemma DefaultStatusLocal(item: Item, cache: map<string, Item>, s1: map<string, BaseStatus>, s2: map<string, BaseStatus>)
    requires ChildrenAgree(item, s1, s2)
    ensures DefaultStatus(item, cache, s1) == DefaultStatus(item, cache, s2)
  {
    var r1, r2 := DefaultStatus(item, cache, s1), DefaultStatus(item, cache, s2);
    if r1 != 0 {
      var c :| c in item.children && Live(cache, c) && Ordinal(StatusIn(s1, c)) == r1;
      assert r1 <= r2;
    }
    if r2 != 0 {
      var c :| c in item.children && Live(cache, c) && Ordinal(StatusIn(s2, c)) == r2;
      assert r2 <= r1;
    }
  }

  lemma ClusterStatusLocal(item: Item, rule: ItemRule, cache: map<string, Item>, s1: map<string, BaseStatus>, s2: map<string, BaseStatus>)
    requires ChildrenAgree(item, s1, s2)
    ensures ClusterStatus(item, rule, cache, s1) == ClusterStatus(item, rule, cache, s2)
  {
    var q := Qualifying(item, rule, cache, s1);
    assert q == Qualifying(item, rule, cache, s2);
    var r1, r2 := ClusterStatus(item, rule, cache, s1), ClusterStatus(item, rule, cache, s2);
    if ClusterFires(item, rule, cache, s1) && !rule.usingResultStatus && q != {} {
      var c1 :| c1 in q && Ordinal(StatusIn(s1, c1)) == r1;
      var c2 :| c2 in q && Ordinal(StatusIn(s2, c2)) == r2;
      assert r2 <= Ordinal(StatusIn(s2, c1)) && r1 <= Ordinal(StatusIn(s1, c2));
    }
  }

  /** The status from the children reads the status table only at the item's children. */
  lemma StatusByChildLocal(item: Item, cache: map<string, Item>, s1: map<string, BaseStatus>, s2: map<string, BaseStatus>)
    requires ChildrenAgree(item, s1, s2)
    ensures StatusByChild(item, cache, s1) == StatusByChild(item, cache, s2)
  {
    if item.rules == map[] {
      DefaultStatusLocal(item, cache, s1, s2);
    } else {
      var r1, r2 := StatusByChild(item, cache, s1), StatusByChild(item, cache, s2);
      var n1 :| n1 in item.rules && RuleStatus(item, item.rules[n1], cache, s1) == r1;
      var n2 :| n2 in item.rules && RuleStatus(item, item.rules[n2], cache, s2) == r2;
      RuleStatusLocal(item, item.rules[n1], cache, s1, s2);
      RuleStatusLocal(item, item.rules[n2], cache, s1, s2);
    }
  }

  /** A rule reads the status table only at the item's children. */
  lemma RuleStatusLocal(item: Item, rule: ItemRule, cache: map<string, Item>, s1: map<string, BaseStatus>, s2: map<string, BaseStatus>)
    requires ChildrenAgree(item, s1, s2)
    ensures RuleStatus(item, rule, cache, s1) == RuleStatus(item, rule, cache, s2)
  {
    DefaultStatusLocal(item, cache, s1, s2);
    ClusterStatusLocal(item, rule, cache, s1, s2);
  }

  /**
   * The new status of an item reads the status table only at the item's
   * children: two tables agreeing there give the same new status.
   */
  lemma NewStatusLocal(item: Item, cache: map<string, Item>, s1: map<string, BaseStatus>, s2: map<string, BaseStatus>, eventMax: BaseStatus)
    requires ChildrenAgree(item, s1, s2)
    ensures NewStatus(item, cache, s1, eventMax) == NewStatus(item, cache, s2, eventMax)
  {
    StatusByChildLocal(item, cache, s1, s2);
  }

  /** The item holds the status its children and its events give it. */
  ghost predicate Settled(cache: map<string, Item>, status: map<string, BaseStatus>, v: string, eventMax: string -> BaseStatus)
  {
    v in cache && v in status && status[v] == NewStatus(cache[v], cache, status, eventMax(v))
  }

  /**
   * One recalculation from a parent keeps the items settled before it
   * settled: an item it did not reach kept its status, and since it is a
   * live item off the path, none of its children changed either.
   */
  lemma SettledKept(cache: map<string, Item>, before: map<string, BaseStatus>, after: map<string, BaseStatus>,
                    done: set<string>, reached: set<string>, history: set<string>, eventMax: string -> BaseStatus)
    requires after.Keys == before.Keys
    requires forall v :: v in done ==> Settled(cache, before, v, eventMax) && Live(cache, v) && v !in history
    requires forall k :: k in after && after[k] != before[k] ==> k in reached
    requires forall x, q :: x in after && after[x] != before[x] && LiveParent(cache, q, x) ==> q in history || q in reached
    requires forall v :: v in reached ==> Settled(cache, after, v, eventMax)
    ensures forall v :: v in done + reached ==> Settled(cache, after, v, eventMax)
  {
    forall v | v in done && v !in reached
      ensures Settled(cache, after, v, eventMax)
    {
      forall c | c in cache[v].children
        ensures StatusIn(before, c) == StatusIn(after, c)
      {
        if c in after && after[c] != before[c] {
          assert LiveParent(cache, v, c);
        }
      }
      NewStatusLocal(cache[v], cache, before, after, eventMax(v));
    }
  }

  /**
   * What `calculateStatus` on `id`, with `history` as the path, promises of the
   * status table `s0` before and `s1` after, `visited` being the items it
   * recomputed: the item takes its new status; when that equals the old one
   * nothing changes; nothing on the path changes; the visited items are the
   * item and items on the walk up from it; only visited items change; every
   * live parent of a changed item is visited or on the path; and when the
   * items form no cycle, every visited item is settled in `s1`.
   */
  ghost predicate Recalculated(cache: map<string, Item>, id: string, history: set<string>,
                               s0: map<string, BaseStatus>, s1: map<string, BaseStatus>,
                               visited: set<string>, eventMax: string -> BaseStatus)
    requires id in cache && id in s0
  {
    && s1.Keys == s0.Keys
    && s1[id] == NewStatus(cache[id], cache, s0, eventMax(id))
    && (forall k :: k in history && k in s0 ==> s1[k] == s0[k])
    && (NewStatus(cache[id], cache, s0, eventMax(id)) == s0[id] ==> s1 == s0)
    && id in visited && visited <= Up(cache, id, history)
    && (forall k :: k in s1 && s1[k] != s0[k] ==> k in visited)
    && (forall x, p :: x in s1 && s1[x] != s0[x] && LiveParent(cache, p, x) ==> p in history || p in visited)
    && (Acyclic(cache) ==> forall v :: v in visited ==> Settled(cache, s1, v, eventMax))
  }

  /** When the new status equals the old one, `calculateStatus` changes nothing and visits only the item. */
  lemma RecalculatedNothing(cache: map<string, Item>, id: string, history: set<string>,
                            s0: map<string, BaseStatus>, eventMax: string -> BaseStatus)
    requires id in cache && id in s0 && id !in history
    requires NewStatus(cache[id], cache, s0, eventMax(id)) == s0[id]
    ensures Recalculated(cache, id, history, s0, s0, {id}, eventMax)
  {
    assert id in Up(cache, id, history);
    if Acyclic(cache) {
      assert Settled(cache, s0, id, eventMax);
    }
  }

  /**
   * What `calculateStatus`'s loop over the parents of `id` keeps: the items
   * the recursion reached lie on the walk up from `id`, are live and off the
   * path; every item changed since `start` was reached, and each of its live
   * parents was reached or is on the path; so is each live parent of `id`
   * already taken from `parents`; and without cycles every reached item is
   * settled and is no child of `id`.
   */
  ghost predicate ParentsLoop(cache: map<string, Item>, id: string, h: set<string>,
                              start: map<string, BaseStatus>, s: map<string, BaseStatus>,
                              all: set<string>, parents: set<string>, reached: set<string>, eventMax: string -> BaseStatus)
    requires id in cache
  {
    && parents <= all
    && reached <= UpAll(cache, LiveParents(cache, id), h)
    && (forall k :: k in reached ==> Live(cache, k) && k !in h)
    && (forall k :: k in s && k in start && s[k] != start[k] ==> k in reached)
    && (forall x, q :: x in s && x in start && s[x] != start[x] && LiveParent(cache, q, x) ==> q in h || q in reached)
    && (forall q :: q in all - parents && LiveParent(cache, q, id) ==> q in h || q in reached)
    && (Acyclic(cache) ==> forall v :: v in reached ==> Settled(cache, s, v, eventMax) && v !in cache[id].children)
  }

  /** A parent that is missing, deleted or on the path is passed over. */
  lemma SkippedParent(cache: map<string, Item>, id: string, p: string, h: set<string>,
                      start: map<string, BaseStatus>, s: map<string, BaseStatus>,
                      all: set<string>, parents: set<string>, reached: set<string>, eventMax: string -> BaseStatus)
    requires id in cache && p in parents && (!Live(cache, p) || p in h)
    requires ParentsLoop(cache, id, h, start, s, all, parents, reached, eventMax)
    ensures ParentsLoop(cache, id, h, start, s, all, parents - {p}, reached, eventMax)
  {
  }

  /**
   * One turn of `calculateStatus`'s loop that recomputes the live parent `p`:
   * what the recursion from `p` reached joins what was reached before.
   */
  lemma RecalculatedParent(cache: map<string, Item>, id: string, p: string, h: set<string>,
                           before: map<string, BaseStatus>, after: map<string, BaseStatus>, start: map<string, BaseStatus>,
                           all: set<string>, parents: set<string>, reached: set<string>, vis: set<string>, eventMax: string -> BaseStatus)
    requires id in cache && p in parents && Live(cache, p) && p !in h
    requires forall q :: q in all <==> q in cache && id in cache[q].children
    requires after.Keys == before.Keys == start.Keys
    requires ParentsLoop(cache, id, h, start, before, all, parents, reached, eventMax)
    requires p in before && Recalculated(cache, p, h, before, after, vis, eventMax)
    ensures ParentsLoop(cache, id, h, start, after, all, parents - {p}, reached + vis, eventMax)
  {
    assert LiveParent(cache, p, id) && p in LiveParents(cache, id);
    forall y | y in vis
      ensures y in UpAll(cache, LiveParents(cache, id), h) && Live(cache, y) && y !in h
    {
      UpShape(cache, p, h, y);
    }
    if Acyclic(cache) {
      SettledKept(cache, before, after, reached, vis, h, eventMax);
      forall y | y in vis
        ensures y !in cache[id].children
      {
        UpAvoidsChildren(cache, id, p, h, y);
      }
    }
  }

  /**
   * What `calculateStatus` promises once its loop has recomputed every live
   * parent of the changed item `id` that is not on the path.
   */
  lemma CalculatedAll(cache: map<string, Item>, id: string, history: set<string>,
                      s0: map<string, BaseStatus>, start: map<string, BaseStatus>, s1: map<string, BaseStatus>,
                      all: set<string>, reached: set<string>, eventMax: string -> BaseStatus)
    requires id in cache && id !in history && id in s0
    requires start == s0[id := NewStatus(cache[id], cache, s0, eventMax(id))] && s1.Keys == start.Keys
    requires forall q :: q in all <==> q in cache && id in cache[q].children
    requires NewStatus(cache[id], cache, s0, eventMax(id)) != s0[id]
    requires ParentsLoop(cache, id, history + {id}, start, s1, all, {}, reached, eventMax)
    ensures Recalculated(cache, id, history, s0, s1, {id} + reached, eventMax)
  {
    assert id !in reached && s1[id] == start[id];
    CalculatedChanges(cache, id, history, s0, start, s1, all, reached, eventMax);
    CalculatedUp(cache, id, history, reached);
    if Acyclic(cache) {
      CalculatedSettled(cache, id, s0, s1, reached, eventMax);
    }
  }

  /** The items the loop reached, with the item itself, lie on the walk up from it. */
  lemma CalculatedUp(cache: map<string, Item>, id: string, history: set<string>, reached: set<string>)
    requires id in cache && id !in history
    requires reached <= UpAll(cache, LiveParents(cache, id), history + {id})
    ensures {id} + reached <= Up(cache, id, history)
  {
  }

  /** After the loop, only the item and what the loop reached differ from the table before the call. */
  lemma CalculatedChanges(cache: map<string, Item>, id: string, history: set<string>,
                          s0: map<string, BaseStatus>, start: map<string, BaseStatus>, s1: map<string, BaseStatus>,
                          all: set<string>, reached: set<string>, eventMax: string -> BaseStatus)
    requires id in cache && id !in history && id in s0 && id !in reached
    requires start == s0[id := NewStatus(cache[id], cache, s0, eventMax(id))] && s1.Keys == start.Keys
    requires forall q :: q in all <==> q in cache && id in cache[q].children
    requires ParentsLoop(cache, id, history + {id}, start, s1, all, {}, reached, eventMax)
    ensures forall k :: k in history && k in s0 ==> s1[k] == s0[k]
    ensures forall k :: k in s1 && s1[k] != s0[k] ==> k == id || k in reached
    ensures forall x, p :: x in s1 && s1[x] != s0[x] && LiveParent(cache, p, x) ==> p in history || p == id || p in reached
  {
    forall x, p | x in s1 && s1[x] != s0[x] && LiveParent(cache, p, x)
      ensures p in history || p == id || p in reached
    {
      if x == id {
        assert p in all;
      } else {
        assert s1[x] != start[x];
      }
    }
  }

  /** Without cycles, the changed item is settled once its parents are: none of them is its child. */
  lemma CalculatedSettled(cache: map<string, Item>, id: string, s0: map<string, BaseStatus>, s1: map<string, BaseStatus>,
                          reached: set<string>, eventMax: string -> BaseStatus)
    requires id in cache && id in s0 && s1.Keys == s0.Keys && Acyclic(cache)
    requires s1[id] == NewStatus(cache[id], cache, s0, eventMax(id))
    requires forall k :: k in s1 && s1[k] != s0[k] ==> k == id || k in reached
    requires forall v :: v in reached ==> v !in cache[id].children
    ensures Settled(cache, s1, id, eventMax)
  {
    var rank :| Ranks(cache, rank);
    assert id !in cache[id].children;
    forall c | c in cache[id].children
      ensures StatusIn(s0, c) == StatusIn(s1, c)
    {
      assert c != id && c !in reached;
    }
    NewStatusLocal(cache[id], cache, s0, s1, eventMax(id));
  }

  class ItemService {
    const service: EntityService<Item>
    /** `replication.nodename`, added to the history of every stored item. */
    const nodeName: string
    /** The status of each item. */
    var status: map<string, BaseStatus>

    /** The cached items. */
    function Cache(): map<string, Item>
      reads service, service.entityCache
    {
      service.entityCache.cache
    }

    /**
     * The entity service is valid over items, the three extra indexes have
     * their mappers, and every cached version is below the next one to hand out.
     */
    ghost predicate Indexed()
      reads service, service.entityCache
    {
      && service.Valid()
      && service.baseOf == ItemBase()
      && ItemKinds(service.entityCache.kinds)
      && VersionsBelow(Cache(), service.incrementVersion)
    }

    /** The store is indexed and every cached item has a status. */
    ghost predicate Valid()
      reads this, service, service.entityCache
    {
      Indexed() && Cache().Keys <= status.Keys
    }

    /** The entity service's constructor, then the filter, parent and name indexes. */
    constructor(nodeName: string)
      ensures Valid() && fresh(service) && fresh(service.entityCache)
      ensures this.nodeName == nodeName && Cache() == map[] && status == map[]
    {
      this.nodeName := nodeName;
      var s := new EntityService<Item>(ItemBase());
      service := s;
      status := map[];
      new;
      ghost var k0 := s.entityCache.kinds;
      s.entityCache.CreateIndex(FILTERS_EQL, EQUAL(FiltersMapper()));
      s.entityCache.CreateIndex(PARENTS, EQUAL(ParentsMapper()));
      s.entityCache.CreateIndex(NAME, EQUAL(NameMapper()));
      ItemIndexesAdded(k0);
    }

    /**
     * `calculateStatus`: the item's new status is the status from its
     * children or its event maximum, whichever is more severe. Only when that
     * differs from its current status is it stored and every live parent not
     * already on the path (`history`) recomputed, each with the path grown by
     * the item. `visited` holds the items recomputed: the item and what the
     * recursion reached.
     *
     * Only recomputed items change, and they lie on the walk up from the item
     * (`Up`), so nothing on the path changes. Every live parent of an item
     * whose status changed is recomputed or on the path. When the items form
     * no cycle, every recomputed item ends settled: its status is what its
     * children and events give it in the final table.
     */
    method CalculateStatus(id: string, history: set<string>, eventMax: string -> BaseStatus) returns (ghost visited: set<string>)
      requires Valid() && id in Cache() && id !in history
      modifies this
      ensures Valid() && id in old(status)
      ensures Recalculated(Cache(), id, history, old(status), status, visited, eventMax)
      decreases Cache().Keys - history
    {
      var item := Cache()[id];
      var maxStatus := NewStatus(item, Cache(), status, eventMax(id));
      visited := {id};
      if maxStatus == status[id] {
        RecalculatedNothing(Cache(), id, history, status, eventMax);
      } else {
        var h := history + {id};
        status := status[id := maxStatus];
        ghost var start := status;
        ghost var cache := Cache();
        assert KindOf(service.entityCache.index[PARENTS]) == service.entityCache.kinds[PARENTS];
        var found := service.entityCache.IndexGet(PARENTS, Key(Text(id)));
        var parents := found.value;
        ghost var all := parents;
        assert forall q :: q in all <==> q in cache && id in cache[q].children;
        ghost var reached: set<string> := {};
        while parents != {}
          invariant Valid() && Cache() == cache && status.Keys == start.Keys
          invariant ParentsLoop(cache, id, h, start, status, all, parents, reached, eventMax)
          decreases parents
        {
          var p :| p in parents;
          var parent := service.FindById(p);
          if parent.Some? && parent.value.base.deletedOn.None? && p !in h {
            ghost var before := status;
            var vis := CalculateStatus(p, h, eventMax);
            RecalculatedParent(cache, id, p, h, before, status, start, all, parents, reached, vis, eventMax);
            reached := reached + vis;
          } else {
            SkippedParent(cache, id, p, h, start, status, all, parents, reached, eventMax);
          }
          parents := parents - {p};
        }
        visited := visited + reached;
        CalculatedAll(cache, id, history, old(status), start, status, all, reached, eventMax);
      }
    }

    /** `findChildren`: each child id once, skipping ids that are not cached. */
    function FindChildren(item: Item): (r: map<string, Item>)
      reads this, service, service.entityCache
      ensures r.Keys == item.children * Cache().Keys
      ensures forall c :: c in r ==> r[c] == Cache()[c]
    {
      map c | c in item.children && c in Cache() :: Cache()[c]
    }

    /**
     * `findAllItemsById`: adds `parentId` and, through the children not on
     * the path, everything below it to `out`; the path guards against cycles.
     * The items are given by their ids.
     */
    method FindAllItemsById(parentId: string, out: set<string>, history: set<string>) returns (r: set<string>)
      requires Valid() && parentId !in history
      ensures r == out + Reach(Cache(), parentId, history)
      decreases Cache().Keys - history
    {
      var parent := service.FindById(parentId);
      if parent.None? {
        return out;
      }
      var h := history + {parentId};
      r := out + {parentId};
      var todo := parent.value.children;
      while todo != {}
        invariant todo <= parent.value.children
        invariant r == out + {parentId} + ReachAll(Cache(), parent.value.children - todo, h)
        decreases todo
      {
        var c :| c in todo;
        ReachAllAdd(Cache(), parent.value.children - todo, c, h);
        if c !in h {
          r := FindAllItemsById(c, r, h);
        }
        assert parent.value.children - (todo - {c}) == parent.value.children - todo + {c};
        todo := todo - {c};
      }
    }

    /** The new item `addOrUpdate` stores for an id not yet cached. */
    static function Inserted(item: Item, version: int, fromHistory: set<string>): (r: Item)
      ensures ItemEquals(r, item) && r.children == item.children && r.name == item.name
      ensures r.base.version == version && r.base.fromHistory == fromHistory
      ensures r.base.createdOn == item.base.createdOn && r.base.updatedOn == item.base.updatedOn
      ensures r.base.deletedOn == item.base.deletedOn
    {
      item.(base := item.base.(version := version, fromHistory := fromHistory))
    }

    /** The item `addOrUpdate` stores in place of a cached one: created when it was, updated `now`. */
    static function Updated(stored: Item, item: Item, version: int, fromHistory: set<string>, now: int): (r: Item)
      ensures ItemEquals(r, item) && r.children == item.children && r.name == item.name
      ensures r.base.version == version && r.base.fromHistory == fromHistory
      ensures r.base.createdOn == stored.base.createdOn && r.base.updatedOn == Some(now)
      ensures r.base.deletedOn == item.base.deletedOn
    {
      item.(base := item.base.(version := version, fromHistory := fromHistory, createdOn := stored.base.createdOn, updatedOn := Some(now)))
    }

    /**
     * `addOrUpdate`. A new id gets the next version, the item's history plus
     * this node, and status CLEAR; an item `isEntityEqual` to the cached one
     * changes nothing; any other item replaces the cached one with the next
     * version, the cached creation time, `now` as update time and the cached
     * status. Whenever an item was stored its status is recalculated and the
     * change travels up to its live parents (`Recalculated`, with `visited`
     * the items recomputed).
     */
    method AddOrUpdate(item: Item, now: int, eventMax: string -> BaseStatus) returns (ghost visited: set<string>)
      requires Valid()
      modifies this, service, service.entityCache
      ensures Valid()
      ensures var id := item.base.id;
        var v := old(service.incrementVersion);
        var fromHistory := item.base.fromHistory + {nodeName};
        id !in old(Cache()) ==>
          && Cache() == old(Cache())[id := Inserted(item, v, fromHistory)]
          && service.incrementVersion == v + 1
          && status[id] == NewStatus(Cache()[id], Cache(), old(status)[id := CLEAR], eventMax(id))
          && Recalculated(Cache(), id, {}, old(status)[id := CLEAR], status, visited, eventMax)
      ensures var id := item.base.id;
        id in old(Cache()) && IsEntityEqual(old(Cache())[id], item, ItemHash, ItemEquals) ==>
          && Cache() == old(Cache())
          && service.incrementVersion == old(service.incrementVersion)
          && status == old(status)
      ensures var id := item.base.id;
        var v := old(service.incrementVersion);
        var fromHistory := item.base.fromHistory + {nodeName};
        id in old(Cache()) && !IsEntityEqual(old(Cache())[id], item, ItemHash, ItemEquals) ==>
          && Cache() == old(Cache())[id := Updated(old(Cache())[id], item, v, fromHistory, now)]
          && service.incrementVersion == v + 1
          && status[id] == NewStatus(Cache()[id], Cache(), old(status), eventMax(id))
          && Recalculated(Cache(), id, {}, old(status), status, visited, eventMax)
    {
      var id := item.base.id;
      var fromHistory := item.base.fromHistory + {nodeName};
      var existing := service.FindById(id);
      visited := {};
      if existing.None? {
        visited := Insert(Inserted(item, service.incrementVersion, fromHistory), eventMax);
      } else if !IsEntityEqual(existing.value, item, ItemHash, ItemEquals) {
        visited := Replace(Updated(existing.value, item, service.incrementVersion, fromHistory, now), eventMax);
      }
    }

    /**
     * The insert path of `addOrUpdate`: the new item takes the next version
     * and status CLEAR, then its status is recalculated.
     */
    method Insert(inserted: Item, eventMax: string -> BaseStatus) returns (ghost visited: set<string>)
      requires Valid() && inserted.base.id !in Cache() && inserted.base.version == service.incrementVersion
      modifies this, service, service.entityCache
      ensures Valid()
      ensures Cache() == old(Cache())[inserted.base.id := inserted]
      ensures service.incrementVersion == old(service.incrementVersion) + 1
      ensures status[inserted.base.id] == NewStatus(Cache()[inserted.base.id], Cache(), old(status)[inserted.base.id := CLEAR], eventMax(inserted.base.id))
      ensures Recalculated(Cache(), inserted.base.id, {}, old(status)[inserted.base.id := CLEAR], status, visited, eventMax)
    {
      var id := inserted.base.id;
      PutInserted(inserted);
      status := status[id := CLEAR];
      visited := CalculateStatus(id, {}, eventMax);
    }

    /** `put` of a new item under the next version: the store stays indexed. */
    method PutInserted(inserted: Item)
      requires Indexed() && inserted.base.id !in Cache() && inserted.base.version == service.incrementVersion
      modifies service, service.entityCache
      ensures Indexed()
      ensures Cache() == old(Cache())[inserted.base.id := inserted]
      ensures service.incrementVersion == old(service.incrementVersion) + 1
    {
      VersionsBelowAfterPut(Cache(), inserted, service.incrementVersion);
      StoreInsert(inserted);
      var v := service.GetNextVersion();
    }

    /** The `put` call itself: every index accepts the new item, so the store takes it. */
    method StoreInsert(inserted: Item)
      requires Indexed() && inserted.base.id !in Cache() && inserted.base.version == service.incrementVersion
      modifies service.entityCache
      ensures service.entityCache.Valid()
      ensures service.entityCache.cache == old(service.entityCache.cache)[inserted.base.id := inserted]
      ensures service.entityCache.kinds == old(service.entityCache.kinds)
    {
      IndexesAccept(inserted);
      var stored := service.entityCache.Put(inserted.base.id, Some(inserted), _ => None);
      assert stored == Ok(Some(inserted));
    }

    /**
     * The update path of `addOrUpdate`: the replacement takes the next
     * version and keeps the cached item's status, then its status is
     * recalculated.
     */
    method Replace(updated: Item, eventMax: string -> BaseStatus) returns (ghost visited: set<string>)
      requires Valid() && updated.base.id in Cache() && updated.base.version == service.incrementVersion
      modifies this, service, service.entityCache
      ensures Valid()
      ensures Cache() == old(Cache())[updated.base.id := updated]
      ensures service.incrementVersion == old(service.incrementVersion) + 1
      ensures status[updated.base.id] == NewStatus(Cache()[updated.base.id], Cache(), old(status), eventMax(updated.base.id))
      ensures Recalculated(Cache(), updated.base.id, {}, old(status), status, visited, eventMax)
    {
      PutReplacement(updated);
      visited := CalculateStatus(updated.base.id, {}, eventMax);
    }

    /** `put` of a replacement under the next version: the store stays indexed. */
    method PutReplacement(updated: Item)
      requires Indexed() && updated.base.id in Cache() && updated.base.version == service.incrementVersion
      modifies service, service.entityCache
      ensures Indexed()
      ensures Cache() == old(Cache())[updated.base.id := updated]
      ensures service.incrementVersion == old(service.incrementVersion) + 1
    {
      VersionsBelowAfterPut(Cache(), updated, service.incrementVersion);
      StoreReplacement(updated);
      var v := service.GetNextVersion();
    }

    /** The `put` call itself: every index accepts the replacement, so the store takes it. */
    method StoreReplacement(updated: Item)
      requires Indexed() && updated.base.id in Cache() && updated.base.version == service.incrementVersion
      modifies service.entityCache
      ensures service.entityCache.Valid()
      ensures service.entityCache.cache == old(service.entityCache.cache)[updated.base.id := updated]
      ensures service.entityCache.kinds == old(service.entityCache.kinds)
    {
      IndexesAcceptReplacement(updated.base.id, updated);
      var stored := service.entityCache.Put(updated.base.id, None, _ => Some(updated));
      assert stored == Ok(Some(updated));
    }

    /** Every index takes an item carrying the next version. */
    lemma IndexesAccept(entity: Item)
      requires Indexed()
      requires entity.base.version == service.incrementVersion
      ensures forall n :: n in service.entityCache.index ==>
        IndexAppend(service.entityCache.index[n], entity, service.entityCache.idOf(entity)).Ok?
    {
      var ix := service.entityCache.index;
      forall n | n in ix
        ensures IndexAppend(ix[n], entity, service.entityCache.idOf(entity)).Ok?
      {
        if ix[n].UniqSorted? {
          assert KindOf(ix[n]) == service.entityCache.kinds[n];
          assert n == VERSION;
          assert Agrees(ix[n], Cache());
        }
      }
    }

    /** Every index takes, in place of a cached item, an item carrying the next version. */
    lemma IndexesAcceptReplacement(id: string, entity: Item)
      requires Indexed()
      requires id in Cache() && entity.base.version == service.incrementVersion
      ensures var m := service.entityCache; var stored := m.cache[id];
        forall n :: n in m.index ==> IndexAppend(IndexRemove(m.index[n], stored, m.idOf(stored)), entity, m.idOf(entity)).Ok?
    {
      var ix := service.entityCache.index;
      var idOf := service.entityCache.idOf;
      forall n | n in ix
        ensures IndexAppend(IndexRemove(ix[n], Cache()[id], idOf(Cache()[id])), entity, idOf(entity)).Ok?
      {
        if ix[n].UniqSorted? {
          assert KindOf(ix[n]) == service.entityCache.kinds[n];
          assert n == VERSION;
          assert Agrees(ix[n], Cache());
        }
      }
    }
  }

  /** The three item indexes exist with the item mappers. */
  ghost predicate ItemKinds(kinds: map<IndexName, IndexKind<Item>>)
  {
    && {FILTERS_EQL, PARENTS, NAME} <= kinds.Keys
    && kinds[FILTERS_EQL] == EQUAL(FiltersMapper())
    && kinds[PARENTS] == EQUAL(ParentsMapper())
    && kinds[NAME] == EQUAL(NameMapper())
  }

  /** Adding the three item indexes to the entity indexes keeps those and makes the item ones. */
  lemma ItemIndexesAdded(k0: map<IndexName, IndexKind<Item>>)
    requires Shaped(k0, ItemBase())
    ensures var k := k0[FILTERS_EQL := EQUAL(FiltersMapper())][PARENTS := EQUAL(ParentsMapper())][NAME := EQUAL(NameMapper())];
      Shaped(k, ItemBase()) && ItemKinds(k)
  {
  }

  /** Every cached item carries a version below `bound`: the next version is fresh. */
  ghost predicate VersionsBelow(cache: map<string, Item>, bound: int)
  {
    forall id :: id in cache ==> cache[id].base.version < bound
  }

  /** Storing an item of version `v` keeps every version below `v + 1`. */
  lemma VersionsBelowAfterPut(cache: map<string, Item>, item: Item, v: int)
    requires VersionsBelow(cache, v) && item.base.version == v
    ensures VersionsBelow(cache[item.base.id := item], v + 1)
  {
  }

  /** For items, `isEntityEqual` is `equals`, because equal items hash alike. */
  lemma ItemsEqualIffEntityEqual(stored: Item, item: Item)
    ensures IsEntityEqual(stored, item, ItemHash, ItemEquals) <==> ItemEquals(stored, item)
  {
    forall a, b | ItemEquals(a, b)
      ensures ItemHash(a) == ItemHash(b)
    {
      EqualItemsHashAlike(a, b);
    }
  }
}
