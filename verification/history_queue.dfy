/**
 * The queue that collects history records until they are written out in
 * batches (src/main/java/ru/keich/mon/servicemanager/history/HistoryQueueImp.java).
 * The consumer of `poll` is modelled by the sequence of lists it is handed.
 */
module HistoryQueues {

  /** The size at which `poll` hands a list over: `list.size() >= limit` fires after one element when the limit is below 1. */
  function BatchSize(limit: int): (b: nat)
    ensures b >= 1 && b >= limit
    ensures b == 1 || b - 1 < limit
  {
    if limit >= 1 then limit else 1
  }

  /** The lists a drain of `queued` hands over, as a function of the queue. */
  function Batches<T>(queued: seq<T>, size: nat): seq<seq<T>>
    requires size >= 1
    decreases |queued|
  {
    if |queued| == 0 then []
    else if |queued| <= size then [queued]
    else [queued[..size]] + Batches(queued[size..], size)
  }

  function Flatten<T>(lists: seq<seq<T>>): seq<T>
  {
    if |lists| == 0 then [] else lists[0] + Flatten(lists[1..])
  }

  lemma FlattenAppend<T>(a: seq<seq<T>>, b: seq<seq<T>>)
    ensures Flatten(a + b) == Flatten(a) + Flatten(b)
  {
    if |a| > 0 {
      assert (a + b)[0] == a[0];
      assert (a + b)[1..] == a[1..] + b;
      FlattenAppend(a[1..], b);
    } else {
      assert a + b == b;
    }
  }

  /** Handing over the batches in order gives back the queue in FIFO order. */
  lemma {:induction false} BatchesConcatenate<T>(queued: seq<T>, size: nat)
    requires size >= 1
    ensures Flatten(Batches(queued, size)) == queued
    decreases |queued|
  {
    if |queued| > size {
      BatchesConcatenate(queued[size..], size);
      assert queued == queued[..size] + queued[size..];
    }
  }

  /**
   * No batch is empty, every batch but the last has exactly the batch size,
   * and the last has at most that many elements.
   */
  lemma {:induction false} BatchesSized<T>(queued: seq<T>, size: nat)
    requires size >= 1
    ensures forall i :: 0 <= i < |Batches(queued, size)| ==> 0 < |Batches(queued, size)[i]| <= size
    ensures forall i :: 0 <= i < |Batches(queued, size)| - 1 ==> |Batches(queued, size)[i]| == size
    decreases |queued|
  {
    if |queued| > size {
      BatchesSized(queued[size..], size);
      var rest := Batches(queued[size..], size);
      var r := Batches(queued, size);
      assert r == [queued[..size]] + rest;
      forall i | 0 <= i < |r| ensures 0 < |r[i]| <= size && (i < |r| - 1 ==> |r[i]| == size) {
        if i > 0 {
          assert r[i] == rest[i - 1];
          assert 0 < |rest[i - 1]| <= size;
        } else {
          assert r[0] == queued[..size];
        }
      }
    } else if |queued| > 0 {
      assert Batches(queued, size) == [queued];
    }
  }

  /** There are as many batches as the queue length divided by the batch size, rounded up. */
  lemma {:induction false} BatchesCount<T>(queued: seq<T>, size: nat)
    requires size >= 1
    ensures |queued| <= |Batches(queued, size)| * size < |queued| + size
    decreases |queued|
  {
    if |queued| > size {
      var rest := |Batches(queued[size..], size)|;
      BatchesCount(queued[size..], size);
      assert |Batches(queued, size)| == rest + 1;
      assert (rest + 1) * size == rest * size + size;
    }
  }

  /** A full batch at the front of what is left splits off. */
  lemma BatchesSplit<T>(queued: seq<T>, size: nat)
    requires size >= 1 && |queued| >= size
    ensures Batches(queued, size) == [queued[..size]] + Batches(queued[size..], size)
  {
    if |queued| == size {
      assert queued[..size] == queued;
    }
  }

  class HistoryQueue<T> {
    var queue: seq<T>
    const limit: int

    constructor(limit: int)
      ensures this.limit == limit && queue == []
    {
      this.limit := limit;
      queue := [];
    }

    /** `add`: the value goes to the tail. */
    method Add(value: T)
      modifies this
      ensures queue == old(queue) + [value]
    {
      queue := queue + [value];
    }

    /**
     * `poll`: drains the queue completely, handing over a list whenever it
     * reaches the limit and the remainder, if any, at the end.
     */
    method Poll() returns (handed: seq<seq<T>>)
      modifies this
      ensures queue == []
      ensures handed == Batches(old(queue), BatchSize(limit))
    {
      var size := BatchSize(limit);
      ghost var queued := queue;
      var list: seq<T> := [];
      handed := [];
      assert list + queue == queue;
      while queue != []
        invariant |list| < size
        invariant handed + Batches(list + queue, size) == Batches(queued, size)
        decreases |queue|
      {
        var element := queue[0];
        assert list + queue == (list + [element]) + queue[1..];
        queue := queue[1..];
        list := list + [element];
        if |list| >= limit {
          assert |list| == size;
          BatchesSplit(list + queue, size);
          assert (list + queue)[..size] == list;
          assert (list + queue)[size..] == queue;
          assert Batches(list + queue, size) == [list] + Batches(queue, size);
          assert [] + queue == queue;
          assert handed + ([list] + Batches(queue, size)) == (handed + [list]) + Batches(queue, size);
          handed := handed + [list];
          list := [];
        }
      }
      assert list + queue == list;
      if |list| > 0 {
        handed := handed + [list];
      }
    }
  }
}
