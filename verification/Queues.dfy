/** The two places where threads hand each other work (work.c): the queue of jobs and the list of
    thread_data, as objects whose methods are the regions run under their mutexes. */
module Queues {
  import opened Sums
  import opened Monitors

  datatype Op<T> = Put(item: T) | Get

  /** What is waiting, and what has been taken so far, in order. */
  datatype Trace<T> = Trace(items: seq<T>, taken: seq<T>)

  function Puts<T>(ops: seq<Op<T>>): seq<T> {
    if ops == [] then []
    else
      var before, last := Puts(ops[..|ops| - 1]), ops[|ops| - 1];
      if last.Put? then before + [last.item] else before
  }

  function Took<T>(t: Trace<T>): Trace<T> {
    if t.items == [] then t else Trace(t.items[1..], t.taken + [t.items[0]])
  }

  /** Insertion at the tail, removal at the head. */
  function Fifo<T>(ops: seq<Op<T>>): Trace<T>
    decreases |ops|
  {
    if ops == [] then Trace([], [])
    else
      var before, last := Fifo(ops[..|ops| - 1]), ops[|ops| - 1];
      if last.Put? then Trace(before.items + [last.item], before.taken) else Took(before)
  }

  /** Insertion and removal at the head. */
  function Lifo<T>(ops: seq<Op<T>>): Trace<T>
    decreases |ops|
  {
    if ops == [] then Trace([], [])
    else
      var before, last := Lifo(ops[..|ops| - 1]), ops[|ops| - 1];
      if last.Put? then Trace([last.item] + before.items, before.taken) else Took(before)
  }

  /** Jobs are taken in the order in which they were queued, each once, and none is lost. */
  lemma {:induction false} FirstInFirstOut<T>(ops: seq<Op<T>>)
    ensures Fifo(ops).taken + Fifo(ops).items == Puts(ops)
    decreases |ops|
  {
    if ops != [] {
      var before, last := Fifo(ops[..|ops| - 1]), ops[|ops| - 1];
      FirstInFirstOut(ops[..|ops| - 1]);
      if last.Put? {
        assert before.taken + (before.items + [last.item]) == before.taken + before.items + [last.item];
      }
    }
  }

  /** Every item put on the list is there or has been taken, exactly as often as it was put. */
  lemma {:induction false} NothingLost<T>(ops: seq<Op<T>>, f: T -> nat)
    ensures Sum(Lifo(ops).items, f) + Sum(Lifo(ops).taken, f) == Sum(Puts(ops), f)
    decreases |ops|
  {
    if ops != [] {
      var before, last := Lifo(ops[..|ops| - 1]), ops[|ops| - 1];
      NothingLost(ops[..|ops| - 1], f);
      if last.Put? {
        SumConcat([last.item], before.items, f);
        SumConcat(Puts(ops[..|ops| - 1]), [last.item], f);
      } else if before.items != [] {
        SumConcat(before.taken, [before.items[0]], f);
        SumOne(before.items[0], f);
      }
    }
  }

  /** The items put are numbered in order of arrival. */
  predicate Numbered(ops: seq<Op<nat>>) {
    forall k :: 0 <= k < |Puts(ops)| ==> Puts(ops)[k] == k
  }

  /** A taken thread_data is the newest of those waiting. */
  lemma {:induction false} LastInFirstOut(ops: seq<Op<nat>>)
    requires Numbered(ops)
    ensures forall i, j :: 0 <= i < j < |Lifo(ops).items| ==> Lifo(ops).items[i] > Lifo(ops).items[j]
    ensures forall i :: 0 <= i < |Lifo(ops).items| ==> Lifo(ops).items[i] < |Puts(ops)|
    decreases |ops|
  {
    if ops != [] {
      var init, last := ops[..|ops| - 1], ops[|ops| - 1];
      assert forall k :: 0 <= k < |Puts(init)| ==> Puts(init)[k] == Puts(ops)[k];
      LastInFirstOut(init);
      if last.Put? {
        assert Puts(ops)[|Puts(init)|] == last.item;
      }
    }
  }

  /** The work queue; ops is its history. */
  class WorkQueue<T> {
    var items: seq<T>
    ghost var ops: seq<Op<T>>

    ghost predicate Valid()
      reads this
    {
      items == Fifo(ops).items
    }

    constructor ()
      ensures Valid() && ops == []
    {
      items := [];
      ops := [];
    }

    method Enqueue(job: T)
      requires Valid()
      modifies this
      ensures Valid() && ops == old(ops) + [Put(job)]
    {
      items := items + [job];
      ops := ops + [Put(job)];
      assert ops[..|ops| - 1] == old(ops);
    }

    /** One pass of the loop around the wait: the job taken, or an order to wait. */
    method TryDequeue() returns (r: Outcome<T>)
      requires Valid()
      modifies this
      ensures Valid() && ops == old(ops) + [Get]
      ensures r.MustWait? <==> old(items) == []
      ensures r.MustWait? ==> items == old(items)
      ensures !r.MustWait? ==> r.Taken? && Fifo(ops).taken == Fifo(old(ops)).taken + [r.item]
    {
      ops := ops + [Get];
      assert ops[..|ops| - 1] == old(ops);
      if items == [] {
        return MustWait;
      }
      r := Taken(items[0]);
      items := items[1..];
    }
  }

  /** The thread_data list between main and the readers. */
  class TdList<T> {
    var items: seq<T>
    ghost var ops: seq<Op<T>>

    ghost predicate Valid()
      reads this
    {
      items == Lifo(ops).items
    }

    constructor ()
      ensures Valid() && ops == []
    {
      items := [];
      ops := [];
    }

    method Enqueue(td: T)
      requires Valid()
      modifies this
      ensures Valid() && ops == old(ops) + [Put(td)]
    {
      items := [td] + items;
      ops := ops + [Put(td)];
      assert ops[..|ops| - 1] == old(ops);
    }

    method TryDequeue() returns (r: Outcome<T>)
      requires Valid()
      modifies this
      ensures Valid() && ops == old(ops) + [Get]
      ensures r.MustWait? <==> old(items) == []
      ensures r.MustWait? ==> items == old(items)
      ensures !r.MustWait? ==> r.Taken? && Lifo(ops).taken == Lifo(old(ops)).taken + [r.item]
    {
      ops := ops + [Get];
      assert ops[..|ops| - 1] == old(ops);
      if items == [] {
        return MustWait;
      }
      r := Taken(items[0]);
      items := items[1..];
    }
  }
}
