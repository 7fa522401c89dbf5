/** The buffer pool as an object (buffer_pool.c). Each method is one region run under the pool's
    mutex and is proved against the functions of PoolSpec, so that what the pipeline proves about
    those holds of these loops. */
module BufferPools {
  import opened Monitors
  import opened PoolSpec
  import opened Buffers

  class BufferPool {
    var pool: seq<PoolEntry<Buffer>>
    var inuse: nat
    var num: nat

    /** Entries are only ever added at the head, so an entry's age numbers it. */
    ghost function IdAt(i: nat): nat
      requires i < |pool|
      reads this
    {
      |pool| - 1 - i
    }

    ghost function Value(): Pool
      reads this
    {
      Pool(seq(|pool|, i requires 0 <= i < |pool| reads this => Entry(IdAt(i), pool[i].inuse)), inuse, num)
    }

    ghost predicate Distinct()
      reads this
    {
      forall i, j :: 0 <= i < j < |pool| ==> pool[i].item != pool[j].item
    }

    /** Free buffers are empty. */
    ghost predicate FreeEmpty()
      reads this, set e | e in pool :: e.item
    {
      forall e :: e in pool && !e.inuse ==> e.item.cursor == 0
    }

    ghost predicate Valid()
      reads this, set e | e in pool :: e.item
    {
      PoolSpec.Valid(Value(), MAX_BUFFERS) && Distinct() && FreeEmpty()
    }

    /** Every buffer of the pool is sound and no two share storage. */
    ghost predicate Storage()
      reads this, Buffers(), set b | b in Buffers() && b.p != null :: b.p
    {
      && (forall b :: b in Buffers() ==> b.Valid())
      && forall b, c :: b in Buffers() && c in Buffers() && b != c && b.p != null ==> b.p != c.p
    }

    ghost function Buffers(): set<Buffer>
      reads this
    {
      set e | e in pool :: e.item
    }

    /** The buffers handed out and not given back. */
    ghost function Held(): set<Buffer>
      reads this
    {
      set e | e in pool && e.inuse :: e.item
    }

    ghost function BufferOf(id: nat): Buffer
      requires id < |pool|
      reads this
    {
      pool[|pool| - 1 - id].item
    }

    constructor ()
      ensures Valid() && Value() == PoolSpec.INITIAL && Held() == {}
    {
      pool := [];
      inuse := 0;
      num := 0;
      new;
      assert Value() == Pool([], 0, 0) && Held() == {};
      var _ := Populate();
      InitialIsValid(MAX_BUFFERS);
    }

    /** A buffer without storage. */
    ghost predicate Blank(b: Buffer)
      reads b
    {
      b.p == null && b.size == 0 && b.cursor == 0
    }

    /** Adds four fresh buffers at the head, unless the pool is at its cap. */
    method Populate() returns (waits: bool)
      requires |pool| == num && Distinct() && FreeEmpty()
      modifies this`pool, this`num
      ensures waits <==> old(num) == MAX_BUFFERS
      ensures waits ==> pool == old(pool) && num == old(num)
      ensures !waits ==> Value() == Grown(old(Value()))
      ensures Distinct() && FreeEmpty() && |pool| == num
      ensures |pool| >= |old(pool)| && pool[|pool| - |old(pool)|..] == old(pool)
      ensures Held() == old(Held()) && Buffers() >= old(Buffers())
      ensures forall b :: b in Buffers() - old(Buffers()) ==> Blank(b) && fresh(b)
    {
      if num == MAX_BUFFERS {
        return true;
      }
      ghost var value := Value();
      AddFour();
      num := num + AMP;
      FreshEntries(old(num), AMP);
      assert Value().entries == Fresh(old(num), AMP) + value.entries;
      return false;
    }

    /** The loop that makes four buffers and inserts each at the head of the list. */
    method AddFour()
      requires Distinct() && FreeEmpty()
      modifies this`pool
      ensures |pool| == |old(pool)| + AMP && pool[AMP..] == old(pool)
      ensures Distinct() && FreeEmpty()
      ensures forall k :: 0 <= k < AMP ==> !pool[k].inuse
      ensures Held() == old(Held()) && Buffers() >= old(Buffers())
      ensures forall b :: b in Buffers() - old(Buffers()) ==> Blank(b) && fresh(b)
    {
      ghost var before := pool;
      var i := 0;
      while i < AMP
        invariant 0 <= i <= AMP && |pool| == |before| + i
        invariant pool[i..] == before
        invariant Distinct() && FreeEmpty()
        invariant forall k :: 0 <= k < i ==> !pool[k].inuse && Blank(pool[k].item) && fresh(pool[k].item)
        invariant forall e :: e in before ==> allocated(e.item)
      {
        var b := new Buffer();
        forall e | e in pool ensures e.item != b {}
        pool := [PoolEntry(b, false)] + pool;
        i := i + 1;
      }
      assert forall e :: e in pool <==> e in pool[..AMP] || e in before;
    }

    /** The scan for a free entry that ends both ways of getting a buffer. */
    method TakeFirstFree() returns (r: Outcome<Buffer>)
      requires |pool| == num && Distinct() && FreeEmpty()
      modifies this`pool, this`inuse
      ensures r.Null? <==> Take(old(Value())).Nothing?
      ensures r.Null? ==> Value() == old(Value()) && pool == old(pool)
      ensures !r.MustWait?
      ensures r.Taken? ==>
                && Value() == Take(old(Value())).pool
                && Take(old(Value())).id < |pool|
                && r.item == BufferOf(Take(old(Value())).id)
                && r.item.cursor == 0
      ensures |pool| == num && Distinct() && FreeEmpty()
      ensures r.Taken? ==> r.item !in old(Held()) && Held() == old(Held()) + {r.item}
      ensures Buffers() == old(Buffers())
      ensures |pool| == |old(pool)| && forall k :: 0 <= k < |pool| ==> pool[k].item == old(pool)[k].item
    {
      hide FirstFree;
      ghost var value := Value();
      var i := 0;
      while i < |pool|
        invariant 0 <= i <= |pool| && Value() == value && pool == old(pool)
        invariant forall k :: 0 <= k < i ==> pool[k].inuse
      {
        if !pool[i].inuse {
          ScanStopsAt(value.entries, i);
          r := Taken(pool[i].item);
          assert pool[i] in pool;
          MarkedSets(pool, i, true);
          pool := pool[i := PoolEntry(pool[i].item, true)];
          inuse := inuse + 1;
          assert Value().entries == value.entries[i := Entry(value.entries[i].id, true)];
          assert forall k :: 0 <= k < |pool| && k != i ==> pool[k] in old(pool);
          return;
        }
        i := i + 1;
      }
      ScanStopsAt(value.entries, i);
      return Null;
    }

    /** Entering the pool for a buffer. */
    method GetBuffer() returns (r: Outcome<Buffer>)
      requires Valid()
      modifies this
      ensures Valid()
      ensures r.MustWait? <==> Enter(old(Value()), MAX_BUFFERS).Wait?
      ensures !r.Null? && Value() == Enter(old(Value()), MAX_BUFFERS).pool
      ensures r.Taken? ==>
                && Enter(old(Value()), MAX_BUFFERS).Got? && Enter(old(Value()), MAX_BUFFERS).id < |pool|
                && r.item == BufferOf(Enter(old(Value()), MAX_BUFFERS).id) && r.item.cursor == 0
      ensures r.Taken? ==> r.item !in old(Held()) && Held() == old(Held()) + {r.item}
      ensures r.MustWait? ==> Held() == old(Held())
      ensures Buffers() >= old(Buffers())
      ensures forall b :: b in Buffers() - old(Buffers()) ==> Blank(b) && fresh(b)
    {
      EnterHandsOut(Value(), MAX_BUFFERS);
      if num <= inuse {
        var waits := Populate();
        if waits {
          if inuse == num {
            return MustWait;
          }
        }
      }
      r := TakeFirstFree();
    }

    /** Back from the condition variable, with the mutex held again. */
    method ResumeGetBuffer() returns (r: Outcome<Buffer>)
      requires Valid()
      modifies this
      ensures Valid()
      ensures r.MustWait? <==> Resume(old(Value())).Wait?
      ensures !r.Null? && Value() == Resume(old(Value())).pool
      ensures r.Taken? ==>
                && Resume(old(Value())).Got? && Resume(old(Value())).id < |pool|
                && r.item == BufferOf(Resume(old(Value())).id) && r.item.cursor == 0
      ensures r.Taken? ==> r.item !in old(Held()) && Held() == old(Held()) + {r.item}
      ensures r.MustWait? ==> Held() == old(Held())
      ensures Buffers() == old(Buffers())
    {
      ResumeHandsOut(Value(), MAX_BUFFERS);
      if inuse == num {
        return MustWait;
      }
      r := TakeFirstFree();
    }

    /** The scan for a buffer's entry. */
    method Find(b: Buffer) returns (i: nat)
      ensures i <= |pool|
      ensures i < |pool| ==> pool[i].item == b
      ensures forall k :: 0 <= k < i ==> pool[k].item != b
    {
      i := 0;
      while i < |pool| && pool[i].item != b
        invariant 0 <= i <= |pool|
        invariant forall k :: 0 <= k < i ==> pool[k].item != b
      {
        i := i + 1;
      }
    }

    /** What the join does to the entry it has found. */
    method MarkFree(i: nat)
      requires Valid() && i < |pool| && pool[i].inuse && pool[i].item.cursor == 0
      modifies this`pool, this`inuse
      ensures Valid() && |pool| == |old(pool)|
      ensures Held() == old(Held()) - {old(pool[i].item)} && Buffers() == old(Buffers())
      ensures Join(old(Value()), IdAt(i)) == Joined(Value())
    {
      hide Join, PoolSpec.Valid;
      ghost var value, before, id := Value(), pool, IdAt(i);
      MarkedPosition(value, MAX_BUFFERS, i);
      MarkedSets(pool, i, false);
      pool := pool[i := PoolEntry(pool[i].item, false)];
      inuse := inuse - 1;
      assert Value().entries == value.entries[i := Entry(id, false)];
      assert forall k :: 0 <= k < |pool| && k != i ==> pool[k] == before[k] && pool[k] in before;
    }

    /** Gives a buffer back, emptied. The source aborts on a buffer that is unknown or not in use. */
    method JoinBuffer(b: Buffer) returns (aborted: bool)
      requires Valid() && b.Valid()
      modifies this, b`cursor, b.p
      ensures aborted <==> b !in old(Held())
      ensures Held() == old(Held()) - {b} && Buffers() == old(Buffers())
      ensures aborted ==> Value() == old(Value())
      ensures !aborted ==> Valid() && b.Valid() && b.cursor == 0
      ensures !aborted ==> forall id :: 0 <= id < |old(pool)| && old(BufferOf(id)) == b ==> Join(old(Value()), id) == Joined(Value())
    {
      hide Join, PoolSpec.Valid;
      var i := Find(b);
      if i == |pool| || !pool[i].inuse {
        return true;
      }
      assert pool[i] == PoolEntry(b, true);
      ghost var value, at := Value(), IdAt(i);
      b.ZeroBuffer();
      assert Value() == value;
      MarkFree(i);
      assert forall id :: 0 <= id < |old(pool)| && old(BufferOf(id)) == b ==> id == at;
      return false;
    }
  }
}
