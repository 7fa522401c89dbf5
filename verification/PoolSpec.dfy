/** The two bounded pools (buffers and thread_data) share one design: a list of entries that
    grows four at a time up to a cap, a count of entries in use, and a condition variable on
    which a caller waits when every entry is taken. Each function below is one region that
    the source runs while holding the pool's mutex. */
module PoolSpec {
  import opened Sums

  const AMP: nat := 4
  const MAX_BUFFERS: nat := 64
  const TD_POOL_MAX_TD: nat := 16

  datatype Entry = Entry(id: nat, inuse: bool)

  datatype Pool = Pool(entries: seq<Entry>, inuse: nat, num: nat)

  /** Outcome of the locked region of a get: an entry is handed out, the caller goes to sleep
      on the condition variable, or the scan fails and the source returns NULL. */
  datatype GetResult = Got(pool: Pool, id: nat) | Wait(pool: Pool) | Nothing(pool: Pool)

  datatype JoinResult = Joined(pool: Pool) | Aborted

  /** k fresh free entries, each inserted at the head of the list. */
  function Fresh(first: nat, k: nat): seq<Entry> {
    if k == 0 then [] else [Entry(first + k - 1, false)] + Fresh(first, k - 1)
  }

  function Grown(p: Pool): Pool {
    Pool(Fresh(p.num, AMP) + p.entries, p.inuse, p.num + AMP)
  }

  const INITIAL: Pool := Grown(Pool([], 0, 0))

  /** Position of the first free entry, or the length of the list. */
  function FirstFree(entries: seq<Entry>): (i: nat)
    ensures i <= |entries|
    ensures i < |entries| ==> !entries[i].inuse
    ensures forall k :: 0 <= k < i ==> entries[k].inuse
  {
    if entries == [] || !entries[0].inuse then 0 else 1 + FirstFree(entries[1..])
  }

  /** Position of the first entry with this identity, or the length of the list. */
  function Position(entries: seq<Entry>, id: nat): (i: nat)
    ensures i <= |entries|
    ensures i < |entries| ==> entries[i].id == id
    ensures forall k :: 0 <= k < i ==> entries[k].id != id
  {
    if entries == [] || entries[0].id == id then 0 else 1 + Position(entries[1..], id)
  }

  function Take(p: Pool): GetResult {
    var i := FirstFree(p.entries);
    if i == |p.entries| then Nothing(p)
    else Got(Pool(p.entries[i := Entry(p.entries[i].id, true)], p.inuse + 1, p.num), p.entries[i].id)
  }

  /** A caller that has been woken tests the wait condition again. */
  function Resume(p: Pool): GetResult {
    if p.inuse == p.num then Wait(p) else Take(p)
  }

  /** A caller that enters the pool. */
  function Enter(p: Pool, cap: nat): GetResult {
    if p.num <= p.inuse then
      if p.num == cap then Resume(p) else Take(Grown(p))
    else Take(p)
  }

  /** Giving an entry back. The source aborts when the entry is unknown or not in use. */
  function Join(p: Pool, id: nat): JoinResult {
    var i := Position(p.entries, id);
    if i == |p.entries| || !p.entries[i].inuse || p.inuse == 0 then Aborted
    else Joined(Pool(p.entries[i := Entry(id, false)], p.inuse - 1, p.num))
  }

  function Marked(e: Entry): nat {
    if e.inuse then 1 else 0
  }

  function MarkedAs(id: nat): Entry -> nat {
    (e: Entry) => if e.inuse && e.id == id then 1 else 0
  }

  /** How often an identity is handed out and not given back: 0 or 1 in a valid pool. */
  function Uses(p: Pool, id: nat): nat {
    Sum(p.entries, MarkedAs(id))
  }

  function One(x: nat, y: nat): nat {
    if x == y then 1 else 0
  }

  predicate DistinctIds(entries: seq<Entry>) {
    forall i, j :: 0 <= i < j < |entries| ==> entries[i].id != entries[j].id
  }

  /** Whole batches of AMP entries. */
  predicate Batches(n: nat) {
    n % 4 == 0
  }

  predicate ValidCap(cap: nat) {
    cap > 0 && Batches(cap)
  }

  ghost predicate WellFormed(p: Pool) {
    && |p.entries| == p.num
    && Batches(p.num)
    && DistinctIds(p.entries)
    && (forall e :: e in p.entries ==> e.id < p.num)
    && p.inuse == Sum(p.entries, Marked)
  }

  ghost predicate Valid(p: Pool, cap: nat) {
    ValidCap(cap) && WellFormed(p) && 0 < p.num <= cap
  }

  lemma {:induction false} FreshEntries(first: nat, k: nat)
    ensures |Fresh(first, k)| == k
    ensures forall i :: 0 <= i < k ==> Fresh(first, k)[i] == Entry(first + k - 1 - i, false)
  {
    if k > 0 {
      FreshEntries(first, k - 1);
    }
  }

  lemma {:induction false} GrownIdsDistinct(p: Pool)
    requires DistinctIds(p.entries)
    requires forall e :: e in p.entries ==> e.id < p.num
    ensures DistinctIds(Grown(p).entries)
    ensures forall e :: e in Grown(p).entries ==> e.id < p.num + AMP
  {
    var added := Fresh(p.num, AMP);
    var grown := Grown(p).entries;
    FreshEntries(p.num, AMP);
    forall i, j | 0 <= i < j < |grown|
      ensures grown[i].id != grown[j].id
    {
      if j >= AMP {
        assert grown[j] == p.entries[j - AMP];
        assert grown[j].id < p.num;
        if i >= AMP {
          assert grown[i] == p.entries[i - AMP];
        }
      }
    }
  }

  lemma {:induction false} GrownUses(p: Pool, id: nat)
    ensures Uses(Grown(p), id) == Uses(p, id)
  {
    FreshEntries(p.num, AMP);
    SumZero(Fresh(p.num, AMP), MarkedAs(id));
    SumConcat(Fresh(p.num, AMP), p.entries, MarkedAs(id));
  }

  lemma {:induction false} GrownIsValid(p: Pool, cap: nat)
    requires ValidCap(cap) && WellFormed(p) && p.num < cap
    ensures Valid(Grown(p), cap)
  {
    FreshEntries(p.num, AMP);
    GrownIdsDistinct(p);
    SumZero(Fresh(p.num, AMP), Marked);
    SumConcat(Fresh(p.num, AMP), p.entries, Marked);
  }

  lemma {:induction false} InitialIsValid(cap: nat)
    requires ValidCap(cap)
    ensures Valid(INITIAL, cap) && INITIAL.num == AMP && INITIAL.inuse == 0
    ensures forall id :: Uses(INITIAL, id) == 0
  {
    var empty := Pool([], 0, 0);
    GrownIsValid(empty, cap);
    forall id ensures Uses(INITIAL, id) == 0 {
      GrownUses(empty, id);
    }
  }

  /** The number in use counts the entries in use, so it cannot exceed the entries. */
  lemma {:induction false} InUseWithin(p: Pool)
    requires WellFormed(p)
    ensures p.inuse <= p.num
    ensures p.inuse == p.num <==> (forall e :: e in p.entries ==> e.inuse)
  {
    SumAtMost(p.entries, Marked);
    assert forall e: Entry :: e.inuse <==> Marked(e) == 1;
  }

  /** Nobody can be handed an identity twice. */
  lemma {:induction false} UsedAtMostOnce(entries: seq<Entry>, id: nat)
    requires DistinctIds(entries)
    ensures Sum(entries, MarkedAs(id)) <= 1
    ensures forall i :: 0 <= i < |entries| && entries[i].id == id ==> Sum(entries, MarkedAs(id)) == Marked(entries[i])
    ensures (forall i :: 0 <= i < |entries| ==> entries[i].id != id) ==> Sum(entries, MarkedAs(id)) == 0
  {
    if entries != [] {
      UsedAtMostOnce(entries[1..], id);
      assert forall i :: 0 < i < |entries| ==> entries[i] == entries[1..][i - 1];
      assert forall i :: 0 <= i < |entries| - 1 ==> entries[1..][i] == entries[i + 1];
    }
  }

  lemma {:induction false} MarkKeepsIds(entries: seq<Entry>, i: nat, e: Entry, bound: nat)
    requires DistinctIds(entries) && i < |entries| && e.id == entries[i].id
    requires forall x :: x in entries ==> x.id < bound
    ensures DistinctIds(entries[i := e])
    ensures forall x :: x in entries[i := e] ==> x.id < bound
  {
    assert entries[i] in entries;
    assert forall j :: 0 <= j < |entries| ==> entries[i := e][j].id == entries[j].id;
  }

  /** Setting the mark of entry i changes the uses of its identity and of no other. */
  lemma {:induction false} MarkUses(entries: seq<Entry>, i: nat, inuse: bool, id: nat)
    requires DistinctIds(entries) && i < |entries|
    ensures Sum(entries[i := Entry(entries[i].id, inuse)], MarkedAs(id))
         == if entries[i].id == id then (if inuse then 1 else 0) else Sum(entries, MarkedAs(id))
  {
    SumUpdate(entries, i, Entry(entries[i].id, inuse), MarkedAs(id));
    UsedAtMostOnce(entries, id);
  }

  /** What handing out an entry of p must do. */
  ghost predicate HandsOut(p: Pool, g: GetResult, cap: nat) {
    && g.Got?
    && Valid(g.pool, cap)
    && g.pool.inuse == p.inuse + 1
    && g.id < g.pool.num
    && Uses(p, g.id) == 0
    && forall id :: Uses(g.pool, id) == Uses(p, id) + One(g.id, id)
  }

  /** Whenever the counters leave room, the scan finds a free entry: get never returns NULL. */
  lemma {:induction false} TakeFinds(p: Pool, cap: nat)
    requires Valid(p, cap) && p.inuse < p.num
    ensures HandsOut(p, Take(p), cap) && Take(p).pool.num == p.num
  {
    InUseWithin(p);
    var i := FirstFree(p.entries);
    var id := p.entries[i].id;
    assert p.entries[i] in p.entries;
    SumUpdate(p.entries, i, Entry(id, true), Marked);
    MarkKeepsIds(p.entries, i, Entry(id, true), p.num);
    UsedAtMostOnce(p.entries, id);
    forall x ensures Uses(Take(p).pool, x) == Uses(p, x) + One(id, x) {
      MarkUses(p.entries, i, true, x);
    }
  }

  /** The get region of a pool: it waits exactly when the pool is full and at its cap, it grows
      only when full, and otherwise hands out an identity that nobody holds. */
  lemma {:induction false} EnterHandsOut(p: Pool, cap: nat)
    requires Valid(p, cap)
    ensures Enter(p, cap).Wait? <==> p.inuse == p.num == cap
    ensures Enter(p, cap).Wait? ==> Enter(p, cap).pool == p
    ensures !Enter(p, cap).Wait? ==>
              && HandsOut(p, Enter(p, cap), cap)
              && Enter(p, cap).pool.num == if p.inuse == p.num then p.num + AMP else p.num
  {
    InUseWithin(p);
    if p.inuse == p.num {
      if p.num < cap {
        GrownIsValid(p, cap);
        TakeFinds(Grown(p), cap);
        forall id ensures Uses(Grown(p), id) == Uses(p, id) {
          GrownUses(p, id);
        }
      }
    } else {
      TakeFinds(p, cap);
    }
  }

  /** A woken caller goes back to sleep exactly when the pool is full, and never finds nothing. */
  lemma {:induction false} ResumeHandsOut(p: Pool, cap: nat)
    requires Valid(p, cap)
    ensures Resume(p).Wait? <==> p.inuse == p.num
    ensures Resume(p).Wait? ==> Resume(p).pool == p
    ensures !Resume(p).Wait? ==> HandsOut(p, Resume(p), cap) && Resume(p).pool.num == p.num
  {
    InUseWithin(p);
    if p.inuse != p.num {
      TakeFinds(p, cap);
    }
  }

  /** Giving back succeeds exactly for an identity in use. */
  lemma {:induction false} JoinGivesBack(p: Pool, cap: nat, id: nat)
    requires Valid(p, cap)
    ensures Join(p, id).Joined? <==> Uses(p, id) == 1
    ensures Join(p, id).Joined? ==>
              var q := Join(p, id).pool;
              && Valid(q, cap) && q.inuse == p.inuse - 1 && q.num == p.num
              && forall x :: Uses(p, x) == Uses(q, x) + One(id, x)
  {
    var i := Position(p.entries, id);
    UsedAtMostOnce(p.entries, id);
    if i < |p.entries| && p.entries[i].inuse {
      assert p.entries[i] in p.entries;
      SumContains(p.entries, i, Marked);
      SumUpdate(p.entries, i, Entry(id, false), Marked);
      MarkKeepsIds(p.entries, i, Entry(id, false), p.num);
      forall x ensures Uses(p, x) == Uses(Join(p, id).pool, x) + One(id, x) {
        MarkUses(p.entries, i, false, x);
      }
    }
  }

  /** Handing out and giving back restores the pool, list order included. */
  lemma {:induction false} TakeThenJoin(p: Pool, cap: nat)
    requires Valid(p, cap) && p.inuse < p.num
    ensures Take(p).Got? && Join(Take(p).pool, Take(p).id) == Joined(p)
  {
    TakeFinds(p, cap);
    var g := Take(p);
    var i := FirstFree(p.entries);
    assert g.pool.entries[i].id == g.id;
    assert Position(g.pool.entries, g.id) == i;
    assert g.pool.entries[i := Entry(g.id, false)] == p.entries;
  }

  // ---------- The list of entries in memory ----------

  datatype PoolEntry<T> = PoolEntry(item: T, inuse: bool)

  /** Marking one entry moves its buffer in or out of those handed out. */
  lemma {:induction false} MarkedSets<T>(pool: seq<PoolEntry<T>>, i: nat, inuse: bool)
    requires i < |pool| && forall j, k :: 0 <= j < k < |pool| ==> pool[j].item != pool[k].item
    ensures var after, b := pool[i := PoolEntry(pool[i].item, inuse)], pool[i].item;
            var others := (set e | e in pool && e.inuse :: e.item) - {b};
            && (set e | e in after && e.inuse :: e.item) == (if inuse then others + {b} else others)
            && (set e | e in after :: e.item) == (set e | e in pool :: e.item)
            && (b in (set e | e in pool && e.inuse :: e.item) <==> pool[i].inuse)
  {
    var after := pool[i := PoolEntry(pool[i].item, inuse)];
    assert forall k :: 0 <= k < |pool| && k != i ==> after[k] == pool[k] && after[k] in after;
    assert after[i] in after;
    assert forall e :: e in after ==> e == after[i] || e in pool;
  }

  /** An entry in use is where the specification's join looks for its identity. */
  lemma {:induction false} MarkedPosition(p: Pool, cap: nat, i: nat)
    requires Valid(p, cap) && i < |p.entries| && p.entries[i].inuse
    ensures p.inuse > 0
    ensures Join(p, p.entries[i].id) == Joined(Pool(p.entries[i := Entry(p.entries[i].id, false)], p.inuse - 1, p.num))
    ensures Valid(Join(p, p.entries[i].id).pool, cap)
  {
    UsedAtMostOnce(p.entries, p.entries[i].id);
    SumContains(p.entries, i, Marked);
    JoinGivesBack(p, cap, p.entries[i].id);
  }

  /** The scan and the specification agree on where they stop. */
  lemma {:induction false} ScanStopsAt(entries: seq<Entry>, i: nat)
    requires i <= |entries|
    requires forall k :: 0 <= k < i ==> entries[k].inuse
    requires i < |entries| ==> !entries[i].inuse
    ensures FirstFree(entries) == i
  {
    var first := FirstFree(entries);
    if first < i {
      assert false;
    }
  }
}
