/** The thread_data pool as an object (td_pool.c): the design of the buffer pool with a cap of sixteen,
    which bounds the requests in flight. Each method is one region run under the pool's mutex. */
module TdPools {
  import opened Monitors
  import opened PoolSpec

  /** What a request carries from thread to thread: here, its client. */
  class ThreadData {
    var client: int

    constructor () {
      client := -1;
    }
  }

  class TdPool {
    var pool: seq<PoolEntry<ThreadData>>
    var inuse: nat
    var num: nat

    /** Entries are only ever added at the head, so an entry's age numbers it. */
    ghost function IdAt(i: nat): nat
      requires i < |pool|
      reads this
    {
      |pool| - 1 - i
    }

    ghost function Value(): Pool
      reads this
    {
      Pool(seq(|pool|, i requires 0 <= i < |pool| reads this => Entry(IdAt(i), pool[i].inuse)), inuse, num)
    }

    ghost predicate Distinct()
      reads this
    {
      forall i, j :: 0 <= i < j < |pool| ==> pool[i].item != pool[j].item
    }

    ghost predicate Valid()
      reads this
    {
      PoolSpec.Valid(Value(), TD_POOL_MAX_TD) && Distinct()
    }

    ghost function Items(): set<ThreadData>
      reads this
    {
      set e | e in pool :: e.item
    }

    /** The thread_data handed out and not given back. */
    ghost function Held(): set<ThreadData>
      reads this
    {
      set e | e in pool && e.inuse :: e.item
    }

    ghost function TdOf(id: nat): ThreadData
      requires id < |pool|
      reads this
    {
      pool[|pool| - 1 - id].item
    }

    constructor ()
      ensures Valid() && Value() == PoolSpec.INITIAL && Held() == {}
    {
      pool := [];
      inuse := 0;
      num := 0;
      new;
      assert Value() == Pool([], 0, 0) && Held() == {};
      var _ := Populate();
      InitialIsValid(TD_POOL_MAX_TD);
    }

    /** Adds four fresh thread_data at the head, unless the pool is at its cap. */
    method Populate() returns (waits: bool)
      requires |pool| == num && Distinct()
      modifies this`pool, this`num
      ensures waits <==> old(num) == TD_POOL_MAX_TD
      ensures waits ==> pool == old(pool) && num == old(num)
      ensures !waits ==> Value() == Grown(old(Value()))
      ensures Distinct() && |pool| == num
      ensures |pool| >= |old(pool)| && pool[|pool| - |old(pool)|..] == old(pool)
      ensures Held() == old(Held()) && Items() >= old(Items())
      ensures forall td :: td in Items() - old(Items()) ==> fresh(td)
    {
      if num == TD_POOL_MAX_TD {
        return true;
      }
      ghost var value := Value();
      AddFour();
      num := num + AMP;
      FreshEntries(old(num), AMP);
      assert Value().entries == Fresh(old(num), AMP) + value.entries;
      return false;
    }

    /** The loop that makes four thread_data and inserts each at the head of the list. */
    method AddFour()
      requires Distinct()
      modifies this`pool
      ensures |pool| == |old(pool)| + AMP && pool[AMP..] == old(pool)
      ensures Distinct()
      ensures forall k :: 0 <= k < AMP ==> !pool[k].inuse
      ensures Held() == old(Held()) && Items() >= old(Items())
      ensures forall td :: td in Items() - old(Items()) ==> fresh(td)
    {
      ghost var before := pool;
      var i := 0;
      while i < AMP
        invariant 0 <= i <= AMP && |pool| == |before| + i
        invariant pool[i..] == before
        invariant Distinct()
        invariant forall k :: 0 <= k < i ==> !pool[k].inuse && fresh(pool[k].item)
        invariant forall e :: e in before ==> allocated(e.item)
      {
        var td := new ThreadData();
        forall e | e in pool ensures e.item != td {}
        pool := [PoolEntry(td, false)] + pool;
        i := i + 1;
      }
      assert forall e :: e in pool <==> e in pool[..AMP] || e in before;
    }

    /** The scan for a free entry that ends both ways of getting a thread_data. */
    method TakeFirstFree() returns (r: Outcome<ThreadData>)
      requires |pool| == num && Distinct()
      modifies this`pool, this`inuse
      ensures r.Null? <==> Take(old(Value())).Nothing?
      ensures r.Null? ==> Value() == old(Value()) && pool == old(pool)
      ensures !r.MustWait?
      ensures r.Taken? ==>
                && Value() == Take(old(Value())).pool
                && Take(old(Value())).id < |pool|
                && r.item == TdOf(Take(old(Value())).id)
      ensures |pool| == num && Distinct()
      ensures r.Taken? ==> r.item !in old(Held()) && Held() == old(Held()) + {r.item}
      ensures Items() == old(Items())
      ensures |pool| == |old(pool)| && forall k :: 0 <= k < |pool| ==> pool[k].item == old(pool)[k].item
    {
      hide FirstFree;
      ghost var value := Value();
      var i := 0;
      while i < |pool|
        invariant 0 <= i <= |pool| && Value() == value && pool == old(pool)
        invariant forall k :: 0 <= k < i ==> pool[k].inuse
      {
        if !pool[i].inuse {
          ScanStopsAt(value.entries, i);
          r := Taken(pool[i].item);
          assert pool[i] in pool;
          MarkedSets(pool, i, true);
          pool := pool[i := PoolEntry(pool[i].item, true)];
          inuse := inuse + 1;
          assert Value().entries == value.entries[i := Entry(value.entries[i].id, true)];
          assert forall k :: 0 <= k < |pool| && k != i ==> pool[k] in old(pool);
          return;
        }
        i := i + 1;
      }
      ScanStopsAt(value.entries, i);
      return Null;
    }

    /** Entering the pool for a thread_data. */
    method GetTd() returns (r: Outcome<ThreadData>)
      requires Valid()
      modifies this
      ensures Valid()
      ensures r.MustWait? <==> Enter(old(Value()), TD_POOL_MAX_TD).Wait?
      ensures !r.Null? && Value() == Enter(old(Value()), TD_POOL_MAX_TD).pool
      ensures r.Taken? ==>
                && Enter(old(Value()), TD_POOL_MAX_TD).Got? && Enter(old(Value()), TD_POOL_MAX_TD).id < |pool|
                && r.item == TdOf(Enter(old(Value()), TD_POOL_MAX_TD).id)
      ensures r.Taken? ==> r.item !in old(Held()) && Held() == old(Held()) + {r.item}
      ensures r.MustWait? ==> Held() == old(Held())
      ensures Items() >= old(Items())
      ensures forall td :: td in Items() - old(Items()) ==> fresh(td)
    {
      EnterHandsOut(Value(), TD_POOL_MAX_TD);
      if num <= inuse {
        var waits := Populate();
        if waits {
          if inuse == num {
            return MustWait;
          }
        }
      }
      r := TakeFirstFree();
    }

    /** Back from the condition variable, with the mutex held again. */
    method ResumeGetTd() returns (r: Outcome<ThreadData>)
      requires Valid()
      modifies this
      ensures Valid()
      ensures r.MustWait? <==> Resume(old(Value())).Wait?
      ensures !r.Null? && Value() == Resume(old(Value())).pool
      ensures r.Taken? ==>
                && Resume(old(Value())).Got? && Resume(old(Value())).id < |pool|
                && r.item == TdOf(Resume(old(Value())).id)
      ensures r.Taken? ==> r.item !in old(Held()) && Held() == old(Held()) + {r.item}
      ensures r.MustWait? ==> Held() == old(Held())
      ensures Items() == old(Items())
    {
      ResumeHandsOut(Value(), TD_POOL_MAX_TD);
      if inuse == num {
        return MustWait;
      }
      r := TakeFirstFree();
    }

    /** The scan for a thread_data's entry. */
    method Find(td: ThreadData) returns (i: nat)
      ensures i <= |pool|
      ensures i < |pool| ==> pool[i].item == td
      ensures forall k :: 0 <= k < i ==> pool[k].item != td
    {
      i := 0;
      while i < |pool| && pool[i].item != td
        invariant 0 <= i <= |pool|
        invariant forall k :: 0 <= k < i ==> pool[k].item != td
      {
        i := i + 1;
      }
    }

    /** What the join does to the entry it has found. */
    method MarkFree(i: nat)
      requires Valid() && i < |pool| && pool[i].inuse
      modifies this`pool, this`inuse
      ensures Valid() && |pool| == |old(pool)|
      ensures Held() == old(Held()) - {old(pool[i].item)} && Items() == old(Items())
      ensures Join(old(Value()), IdAt(i)) == Joined(Value())
    {
      hide Join, PoolSpec.Valid;
      ghost var value, before, id := Value(), pool, IdAt(i);
      MarkedPosition(value, TD_POOL_MAX_TD, i);
      MarkedSets(pool, i, false);
      pool := pool[i := PoolEntry(pool[i].item, false)];
      inuse := inuse - 1;
      assert Value().entries == value.entries[i := Entry(id, false)];
      assert forall k :: 0 <= k < |pool| && k != i ==> pool[k] == before[k] && pool[k] in before;
    }

    /** Gives a thread_data back. The source aborts on a thread_data that is unknown or not in use. */
    method JoinTd(td: ThreadData) returns (aborted: bool)
      requires Valid()
      modifies this
      ensures aborted <==> td !in old(Held())
      ensures Held() == old(Held()) - {td} && Items() == old(Items())
      ensures aborted ==> Value() == old(Value())
      ensures !aborted ==> Valid()
      ensures !aborted ==> forall id :: 0 <= id < |old(pool)| && old(TdOf(id)) == td ==> Join(old(Value()), id) == Joined(Value())
    {
      hide Join, PoolSpec.Valid;
      var i := Find(td);
      if i == |pool| || !pool[i].inuse {
        return true;
      }
      assert pool[i] == PoolEntry(td, true);
      ghost var at := IdAt(i);
      MarkFree(i);
      assert forall id :: 0 <= id < |old(pool)| && old(TdOf(id)) == td ==> id == at;
      return false;
    }
  }
}
