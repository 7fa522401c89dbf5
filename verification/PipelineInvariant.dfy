/** What every step of the pipeline keeps: each resource has exactly one holder, each client is
    open in exactly one place or closed once, and no wakeup is lost. */
module PipelineInvariant {
  import opened Sums
  import opened PoolSpec
  import opened Pipeline

  // ---------- What a thread holds at each point ----------

  datatype Slot = Empty | Full(id: nat)

  function Input(pc: PC): Slot {
    match pc
    case RRead(_, input) => Full(input)
    case RGetErr(_, input) => Full(input)
    case RGetErrResp(_, input, _) => Full(input)
    case RErrWrite(_, input, _, _) => Full(input)
    case RJoinErr(_, input, _) => Full(input)
    case RClose(_, input) => Full(input)
    case RJoinInput(_, input) => Full(input)
    case RGetBody(_, input) => Full(input)
    case REnqueue(input, _) => Full(input)
    case RJoinHanded(input) => Full(input)
    case _ => Empty
  }

  function Err(pc: PC): Slot {
    match pc
    case RGetErrResp(_, _, err) => Full(err)
    case RErrWrite(_, _, err, _) => Full(err)
    case RJoinErr(_, _, err) => Full(err)
    case _ => Empty
  }

  function Resp(pc: PC): Slot {
    match pc
    case RErrWrite(_, _, _, resp) => Full(resp)
    case WWrite(_, resp) => Full(resp)
    case _ => Empty
  }

  function Body(pc: PC): Slot {
    match pc
    case REnqueue(_, job) => Full(job.body)
    case WProcess(job) => Full(job.body)
    case WGetResp(job) => Full(job.body)
    case WWrite(job, _) => Full(job.body)
    case WClose(job) => Full(job.body)
    case WJoinBody(job) => Full(job.body)
    case _ => Empty
  }

  function HeldTd(pc: PC): Slot {
    match pc
    case MEnqueue(td) => Full(td.id)
    case RGetInput(td) => Full(td.id)
    case RRead(td, _) => Full(td.id)
    case RGetErr(td, _) => Full(td.id)
    case RGetErrResp(td, _, _) => Full(td.id)
    case RErrWrite(td, _, _, _) => Full(td.id)
    case RJoinErr(td, _, _) => Full(td.id)
    case RClose(td, _) => Full(td.id)
    case RJoinInput(td, _) => Full(td.id)
    case RJoinTd(td) => Full(td.id)
    case RGetBody(td, _) => Full(td.id)
    case REnqueue(_, job) => Full(job.td.id)
    case WProcess(job) => Full(job.td.id)
    case WGetResp(job) => Full(job.td.id)
    case WWrite(job, _) => Full(job.td.id)
    case WClose(job) => Full(job.td.id)
    case WJoinBody(job) => Full(job.td.id)
    case WJoinTd(td) => Full(td.id)
    case _ => Empty
  }

  /** The client whose connection is still open and in this thread's care. */
  function OpenClient(pc: PC): Slot {
    match pc
    case MGetTd(client) => Full(client)
    case MEnqueue(td) => Full(td.client)
    case RGetInput(td) => Full(td.client)
    case RRead(td, _) => Full(td.client)
    case RGetErr(td, _) => Full(td.client)
    case RGetErrResp(td, _, _) => Full(td.client)
    case RErrWrite(td, _, _, _) => Full(td.client)
    case RJoinErr(td, _, _) => Full(td.client)
    case RClose(td, _) => Full(td.client)
    case RGetBody(td, _) => Full(td.client)
    case REnqueue(_, job) => Full(job.td.client)
    case WProcess(job) => Full(job.td.client)
    case WGetResp(job) => Full(job.td.client)
    case WWrite(job, _) => Full(job.td.client)
    case WClose(job) => Full(job.td.client)
    case _ => Empty
  }

  // ---------- Accounts: what is counted, who holds it, how much there is ----------

  /** The five accounts the server must balance: the holders of one buffer, of one thread_data, of
      one client connection, and the numbers of buffers and of thread_data out of their pools. */
  datatype Account =
    | BufferAcc(buffer: nat)
    | TdAcc(tdata: nat)
    | ClientAcc(client: nat)
    | BuffersAcc
    | TdsAcc

  function Is(slot: Slot, x: nat): nat {
    if slot == Full(x) then 1 else 0
  }

  function Some(slot: Slot): nat {
    if slot.Full? then 1 else 0
  }

  function At(pc: PC, a: Account): nat {
    match a
    case BufferAcc(b) => Is(Input(pc), b) + Is(Err(pc), b) + Is(Resp(pc), b) + Is(Body(pc), b)
    case TdAcc(t) => Is(HeldTd(pc), t)
    case ClientAcc(x) => Is(OpenClient(pc), x)
    case BuffersAcc => Some(Input(pc)) + Some(Err(pc)) + Some(Resp(pc)) + Some(Body(pc))
    case TdsAcc => Some(HeldTd(pc))
  }

  function InTd(td: Td, a: Account): nat {
    match a
    case TdAcc(t) => One(td.id, t)
    case ClientAcc(x) => One(td.client, x)
    case TdsAcc => 1
    case _ => 0
  }

  function InJob(job: Job, a: Account): nat {
    match a
    case BufferAcc(b) => One(job.body, b)
    case BuffersAcc => 1
    case _ => InTd(job.td, a)
  }

  function ByThread(a: Account): Thread -> nat { (t: Thread) => At(t.pc, a) }
  function ByTd(a: Account): Td -> nat { (td: Td) => InTd(td, a) }
  function ByJob(a: Account): Job -> nat { (job: Job) => InJob(job, a) }
  function Same(x: nat): nat -> nat { (y: nat) => One(x, y) }

  /** How many places hold it. */
  function Held(s: State, a: Account): nat {
    Sum(s.threads, ByThread(a)) + Sum(s.tds, ByTd(a)) + Sum(s.jobs, ByJob(a))
  }

  /** How many places should: once if in use, once if accepted and not yet closed. */
  function Due(s: State, a: Account): int {
    match a
    case BufferAcc(b) => Uses(s.bp, b)
    case TdAcc(t) => Uses(s.tp, t)
    case ClientAcc(x) => (if x < s.accepted then 1 else 0) - Sum(s.closed, Same(x))
    case BuffersAcc => s.bp.inuse
    case TdsAcc => s.tp.inuse
  }

  ghost predicate Balanced(s: State, a: Account) {
    Held(s, a) == Due(s, a)
  }

  ghost predicate Ownership(s: State) {
    forall a :: Balanced(s, a)
  }

  // ---------- Waiting and waking ----------

  function SleeperOn(c: Cond): Thread -> nat {
    (t: Thread) => if t.mode == Asleep && WaitsOn(t.pc, c) then 1 else 0
  }

  function WokenOn(c: Cond): Thread -> nat {
    (t: Thread) => if t.mode == Woken && WaitsOn(t.pc, c) then 1 else 0
  }

  /** Between adding an item and signalling its consumers: main for the list, readers for the queue. */
  function SignalDue(c: Cond): Thread -> nat {
    (t: Thread) =>
      if (c == TdListCond && t.pc.MSignal?) || (c == JobQueueCond && (t.pc.RJoinHanded? || t.pc.RSignal?))
      then 1 else 0
  }

  /** How many things a consumer waiting on this condition could take now. */
  function Available(s: State, c: Cond): int {
    match c
    case TdPoolCond => s.tp.num - s.tp.inuse
    case TdListCond => |s.tds|
    case JobQueueCond => |s.jobs|
    case BufPoolCond => s.bp.num - s.bp.inuse
  }

  /** While a consumer sleeps, each available item has a woken consumer on its way to it or a
      producer about to signal. */
  ghost predicate Covered(ts: seq<Thread>, c: Cond, available: int) {
    Sum(ts, SleeperOn(c)) > 0 ==> available <= Sum(ts, WokenOn(c)) + Sum(ts, SignalDue(c))
  }

  ghost predicate NoLostWakeup(s: State, c: Cond) {
    Covered(s.threads, c, Available(s, c))
  }

  ghost predicate NobodyWaits(ts: seq<Thread>, c: Cond) {
    Sum(ts, SleeperOn(c)) == 0 && Sum(ts, WokenOn(c)) == 0
  }

  /** Only at its cap does a pool make anyone wait. */
  ghost predicate WaitsAtCap(c: Config, s: State) {
    && (NobodyWaits(s.threads, TdPoolCond) || s.tp.num == c.tdCap)
    && (NobodyWaits(s.threads, BufPoolCond) || s.bp.num == c.bufCap)
  }

  ghost predicate Modes(ts: seq<Thread>) {
    forall i :: 0 <= i < |ts| && ts[i].mode != Running ==> CanWait(ts[i].pc)
  }

  ghost predicate Wakeups(c: Config, s: State) {
    && Modes(s.threads)
    && NoLostWakeup(s, TdPoolCond) && NoLostWakeup(s, TdListCond)
    && NoLostWakeup(s, JobQueueCond) && NoLostWakeup(s, BufPoolCond)
    && WaitsAtCap(c, s)
  }

  ghost predicate Pools(c: Config, s: State) {
    Valid(s.tp, c.tdCap) && Valid(s.bp, c.bufCap)
  }

  ghost predicate Inv(c: Config, s: State) {
    Pools(c, s) && Ownership(s) && Wakeups(c, s)
  }

  // ---------- Effect of changing one thread on the totals ----------

  lemma {:induction false} ReplaceHeld(ts: seq<Thread>, i: nat, t: Thread, a: Account)
    requires i < |ts|
    ensures Sum(ts[i := t], ByThread(a)) == Sum(ts, ByThread(a)) - At(ts[i].pc, a) + At(t.pc, a)
  {
    SumUpdate(ts, i, t, ByThread(a));
  }

  lemma {:induction false} ReplaceCounts(ts: seq<Thread>, i: nat, t: Thread, c: Cond)
    requires i < |ts|
    ensures Sum(ts[i := t], SleeperOn(c)) == Sum(ts, SleeperOn(c)) - SleeperOn(c)(ts[i]) + SleeperOn(c)(t)
    ensures Sum(ts[i := t], WokenOn(c)) == Sum(ts, WokenOn(c)) - WokenOn(c)(ts[i]) + WokenOn(c)(t)
    ensures Sum(ts[i := t], SignalDue(c)) == Sum(ts, SignalDue(c)) - SignalDue(c)(ts[i]) + SignalDue(c)(t)
  {
    SumUpdate(ts, i, t, SleeperOn(c));
    SumUpdate(ts, i, t, WokenOn(c));
    SumUpdate(ts, i, t, SignalDue(c));
  }

  lemma {:induction false} SignalHeld(ts: seq<Thread>, c: Cond, j: nat, a: Account)
    ensures Sum(Signal(ts, c, j), ByThread(a)) == Sum(ts, ByThread(a))
  {
    if j < |ts| && AsleepOn(ts[j], c) {
      ReplaceHeld(ts, j, ts[j].(mode := Woken), a);
    }
  }

  /** A signal moves one sleeper of c, if there is one, to woken; nothing else changes. */
  lemma {:induction false} SignalCounts(ts: seq<Thread>, c: Cond, j: nat, d: Cond)
    requires SignalTarget(ts, c, j)
    ensures Sum(Signal(ts, c, j), SignalDue(d)) == Sum(ts, SignalDue(d))
    ensures c == d && Sum(ts, SleeperOn(c)) > 0 ==>
              && Sum(Signal(ts, c, j), SleeperOn(c)) == Sum(ts, SleeperOn(c)) - 1
              && Sum(Signal(ts, c, j), WokenOn(c)) == Sum(ts, WokenOn(c)) + 1
    ensures c != d || Sum(ts, SleeperOn(c)) == 0 ==>
              && Sum(Signal(ts, c, j), SleeperOn(d)) == Sum(ts, SleeperOn(d))
              && Sum(Signal(ts, c, j), WokenOn(d)) == Sum(ts, WokenOn(d))
  {
    hide Sum;
    if j < |ts| && AsleepOn(ts[j], c) {
      ReplaceCounts(ts, j, ts[j].(mode := Woken), d);
      SumContains(ts, j, SleeperOn(c));
    } else if Sum(ts, SleeperOn(c)) > 0 {
      var k := SumSource(ts, SleeperOn(c));
      assert false;
    }
  }

  /** Thread i may move without losing a wakeup on c when nothing is left available, when nobody
      sleeps on c, or when it does not fall asleep on c and availability grows no more than the
      wakeups under way. */
  lemma {:induction false} MoveCovers(ts: seq<Thread>, i: nat, t: Thread, c: Cond, before: int, after: int)
    requires i < |ts| && Covered(ts, c, before)
    requires || after <= 0
             || (!AsleepOn(t, c) && Sum(ts, SleeperOn(c)) == 0)
             || (&& !AsleepOn(t, c)
                 && after - before <= WokenOn(c)(t) + SignalDue(c)(t) - WokenOn(c)(ts[i]) - SignalDue(c)(ts[i]))
    ensures Covered(ts[i := t], c, after)
  {
    ReplaceCounts(ts, i, t, c);
  }

  /** The same for a step that ends with a signal of c, which makes up for one more item. */
  lemma {:induction false} SignalCovers(ts: seq<Thread>, i: nat, t: Thread, c: Cond, j: nat, before: int, after: int)
    requires i < |ts| && Covered(ts, c, before) && t.mode == Running
    requires SignalTarget(ts[i := t], c, j)
    requires after - before <= 1 + SignalDue(c)(t) - WokenOn(c)(ts[i]) - SignalDue(c)(ts[i])
    ensures Covered(Signal(ts[i := t], c, j), c, after)
  {
    hide Sum;
    ReplaceCounts(ts, i, t, c);
    SignalCounts(ts[i := t], c, j, c);
  }

  /** A signal of another condition changes nothing for c. */
  lemma {:induction false} OtherSignalCovers(ts: seq<Thread>, d: Cond, j: nat, c: Cond, available: int)
    requires SignalTarget(ts, d, j) && c != d && Covered(ts, c, available)
    ensures Covered(Signal(ts, d, j), c, available)
  {
    SignalCounts(ts, d, j, c);
  }

  lemma {:induction false} SignalNobody(ts: seq<Thread>, d: Cond, j: nat, c: Cond)
    ensures NobodyWaits(ts, c) ==> NobodyWaits(Signal(ts, d, j), c)
  {
    if j < |ts| && AsleepOn(ts[j], d) {
      ReplaceCounts(ts, j, ts[j].(mode := Woken), c);
      SumContains(ts, j, SleeperOn(c));
    }
  }

  lemma {:induction false} RunningKeepsNobody(ts: seq<Thread>, i: nat, t: Thread, c: Cond)
    requires i < |ts| && (t.mode == Running || !WaitsOn(t.pc, c))
    ensures NobodyWaits(ts, c) ==> NobodyWaits(ts[i := t], c)
  {
    ReplaceCounts(ts, i, t, c);
  }

  lemma {:induction false} WakingKeepsNobody(ts: seq<Thread>, i: nat, t: Thread, c: Cond)
    requires i < |ts| && ts[i].mode == Asleep && t == ts[i].(mode := Woken)
    ensures NobodyWaits(ts, c) ==> NobodyWaits(ts[i := t], c)
  {
    ReplaceCounts(ts, i, t, c);
    SumContains(ts, i, SleeperOn(c));
  }

  /** A thread that was woken on c shows that somebody waits on c. */
  lemma {:induction false} WokenSeesWaiting(ts: seq<Thread>, i: nat, c: Cond)
    requires i < |ts| && WaitsOn(ts[i].pc, c) && ts[i].mode == Woken
    ensures !NobodyWaits(ts, c)
  {
    SumContains(ts, i, WokenOn(c));
  }
}
