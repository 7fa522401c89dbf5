/** What holds in every state the server can reach, for any numbers of readers and workers and any
    pool caps: who holds what, how many buffers are ever needed, and that requests get finished. */
module PipelineTheorems {
  import opened Sums
  import opened PoolSpec
  import opened Pipeline
  import opened PipelineInvariant
  import opened PipelineSteps

  // ---------- Roles ----------

  datatype Role = Main | Reader | Worker

  function RoleOf(pc: PC): Role {
    if pc.MAccept? || pc.MGetTd? || pc.MEnqueue? || pc.MSignal? then Main
    else if pc.WDequeue? || pc.WProcess? || pc.WGetResp? || pc.WWrite? || pc.WClose? || pc.WJoinBody? || pc.WJoinTd? then Worker
    else Reader
  }

  /** Buffers a thread may hold beyond one for each thread_data it holds. */
  function Allowance(t: Thread): nat {
    match RoleOf(t.pc)
    case Main => 0
    case Reader => 2
    case Worker => 1
  }

  ghost predicate SameRoles(s: State, s': State) {
    && |s'.threads| == |s.threads|
    && forall k :: 0 <= k < |s.threads| ==> RoleOf(s'.threads[k].pc) == RoleOf(s.threads[k].pc)
  }

  lemma {:induction false} BufferStepsKeepRole(pc: PC)
    ensures WantsBuffer(pc) ==> forall b :: RoleOf(WithBuffer(pc, b)) == RoleOf(pc)
    ensures ReturnsBuffer(pc) ==> RoleOf(WithoutBuffer(pc)) == RoleOf(pc)
    ensures Closes(pc) ==> RoleOf(AfterClose(pc)) == RoleOf(pc)
    ensures forall next :: LocalStep(pc, next) ==> RoleOf(next) == RoleOf(pc)
  {
  }

  lemma {:induction false} SignallingKeepsRoles(s: State, i: nat, j: nat, s': State)
    requires SignallingStep(s, i, j, s')
    ensures SameRoles(s, s')
  {
    hide Join, SignalTarget;
    BufferStepsKeepRole(s.threads[i].pc);
  }

  lemma {:induction false} ThreadStepKeepsRoles(c: Config, s: State, i: nat, s': State)
    requires ThreadStep(c, s, i, s')
    ensures SameRoles(s, s')
  {
    hide SignallingStep, Enter, Resume, WithBuffer, AfterClose, LocalStep, RoleOf;
    if j :| SignallingStep(s, i, j, s') {
      SignallingKeepsRoles(s, i, j, s');
    } else {
      BufferStepsKeepRole(s.threads[i].pc);
      PlainRoles();
    }
  }

  lemma {:induction false} NextKeepsRoles(c: Config, s: State, s': State)
    requires Next(c, s, s')
    ensures SameRoles(s, s')
  {
    hide ThreadStep;
    var i: nat :| Accept(s, i, s') || ThreadStep(c, s, i, s') || Spurious(s, i, s');
    if ThreadStep(c, s, i, s') {
      ThreadStepKeepsRoles(c, s, i, s');
    }
  }

  lemma {:induction false} PlainRoles()
    ensures forall pc: PC :: pc.MAccept? || pc.MGetTd? || pc.MEnqueue? || pc.MSignal? ==> RoleOf(pc) == Main
    ensures forall pc: PC :: pc.WDequeue? || pc.WProcess? ==> RoleOf(pc) == Worker
    ensures forall pc: PC :: pc.RDequeue? || pc.RGetInput? || pc.REnqueue? || pc.RJoinHanded? ==> RoleOf(pc) == Reader
  {
  }

  /** Thread 0 is main, the next c.readers are readers, the rest are workers. */
  ghost predicate Staffed(c: Config, s: State) {
    && |s.threads| == 1 + c.readers + c.workers
    && forall k :: 0 <= k < |s.threads| ==>
         RoleOf(s.threads[k].pc) == if k == 0 then Main else if k <= c.readers then Reader else Worker
  }

  lemma {:induction false} InitStaffed(c: Config)
    ensures Staffed(c, Init(c))
  {
    RepeatIdle(RDequeue, c.readers);
    RepeatIdle(WDequeue, c.workers);
    var main := [Thread(MAccept, Running)];
    var readers, workers := Repeat(RDequeue, c.readers), Repeat(WDequeue, c.workers);
    hide Repeat;
    forall k | 0 <= k < |Init(c).threads|
      ensures RoleOf(Init(c).threads[k].pc) == if k == 0 then Main else if k <= c.readers then Reader else Worker
    {
      if k == 0 {
      } else if k <= c.readers {
        assert Init(c).threads[k] == readers[k - 1];
        assert readers[k - 1] in readers;
      } else {
        assert Init(c).threads[k] == workers[k - 1 - c.readers];
        assert workers[k - 1 - c.readers] in workers;
      }
    }
  }

  // ---------- Buffer demand ----------

  function Demand(c: Config): nat {
    c.tdCap + 2 * c.readers + c.workers
  }

  lemma {:induction false} AllowanceOf(ts: seq<Thread>, readers: nat, workers: nat, first: nat)
    requires |ts| == first + readers + workers && first <= 1
    requires forall k :: 0 <= k < |ts| ==>
               RoleOf(ts[k].pc) == if k < first then Main else if k < first + readers then Reader else Worker
    ensures Sum(ts, Allowance) == 2 * readers + workers
    decreases |ts|
  {
    if ts != [] {
      assert forall k :: 0 <= k < |ts| - 1 ==> ts[1..][k] == ts[k + 1];
      if first == 1 {
        AllowanceOf(ts[1..], readers, workers, 0);
      } else if readers > 0 {
        AllowanceOf(ts[1..], readers - 1, workers, 0);
      } else {
        AllowanceOf(ts[1..], 0, workers - 1, 0);
      }
    }
  }

  lemma {:induction false} WithinAllowance(t: Thread)
    ensures At(t.pc, BuffersAcc) <= At(t.pc, TdsAcc) + Allowance(t)
    ensures WantsBuffer(t.pc) ==> At(t.pc, BuffersAcc) + 1 <= At(t.pc, TdsAcc) + Allowance(t)
  {
  }

  lemma {:induction false} InUseAtMostNum(p: Pool, cap: nat)
    requires Valid(p, cap)
    ensures p.inuse <= p.num <= cap
  {
    InUseWithin(p);
  }

  lemma {:induction false} JobsAccount(jobs: seq<Job>)
    ensures Sum(jobs, ByJob(BuffersAcc)) == |jobs| && Sum(jobs, ByJob(TdsAcc)) == |jobs|
  {
    if jobs != [] {
      JobsAccount(jobs[1..]);
    }
  }

  lemma {:induction false} TdsAccount(tds: seq<Td>)
    ensures Sum(tds, ByTd(BuffersAcc)) == 0 && Sum(tds, ByTd(TdsAcc)) == |tds|
  {
    if tds != [] {
      TdsAccount(tds[1..]);
    }
  }

  /** Buffers out of the pool never exceed one for each thread_data, two more for each reader and
      one more for each worker, although threads take a second and a third while holding others. */
  lemma {:induction false} BufferDemand(c: Config, s: State)
    requires Inv(c, s) && Staffed(c, s)
    ensures s.bp.inuse <= s.tp.inuse + 2 * c.readers + c.workers <= Demand(c)
  {
    hide Sum, At, Valid, RoleOf;
    assert Balanced(s, BuffersAcc) && Balanced(s, TdsAcc);
    AllowanceOf(s.threads, c.readers, c.workers, 1);
    JobsAccount(s.jobs);
    TdsAccount(s.tds);
    forall t | t in s.threads
      ensures ByThread(BuffersAcc)(t) <= ByThread(TdsAcc)(t) + Allowance(t)
    {
      WithinAllowance(t);
    }
    SumWithin(s.threads, ByThread(BuffersAcc), ByThread(TdsAcc), Allowance);
    InUseAtMostNum(s.tp, c.tdCap);
  }

  /** A thread about to take a buffer leaves the demand short of its bound. */
  lemma {:induction false} RoomForOneMore(c: Config, s: State, i: nat)
    requires Inv(c, s) && Staffed(c, s) && i < |s.threads| && WantsBuffer(s.threads[i].pc)
    ensures s.bp.inuse < Demand(c)
  {
    var pc := s.threads[i].pc;
    var ts := s.threads[i := Thread(WithBuffer(pc, 0), Running)];
    WithBufferHolds(pc, 0, BuffersAcc);
    WithBufferHolds(pc, 0, TdsAcc);
    BufferStepsKeepRole(pc);
    hide Sum, At, Valid, RoleOf, WithBuffer;
    assert Balanced(s, BuffersAcc) && Balanced(s, TdsAcc);
    ReplaceHeld(s.threads, i, Thread(WithBuffer(pc, 0), Running), BuffersAcc);
    ReplaceHeld(s.threads, i, Thread(WithBuffer(pc, 0), Running), TdsAcc);
    AllowanceOf(ts, c.readers, c.workers, 1);
    JobsAccount(s.jobs);
    TdsAccount(s.tds);
    forall t | t in ts
      ensures ByThread(BuffersAcc)(t) <= ByThread(TdsAcc)(t) + Allowance(t)
    {
      WithinAllowance(t);
    }
    SumWithin(ts, ByThread(BuffersAcc), ByThread(TdsAcc), Allowance);
    InUseAtMostNum(s.tp, c.tdCap);
  }

  // ---------- The buffer pool never makes anyone wait ----------

  /** n rounded up to whole batches of four. */
  function WholeBatches(n: nat): nat {
    (n + 3) / 4 * 4
  }

  /** The state of a server whose buffer cap covers the demand. */
  ghost predicate Calm(c: Config, s: State) {
    && Inv(c, s)
    && Staffed(c, s)
    && NobodyWaits(s.threads, BufPoolCond)
    && s.bp.num < Demand(c) + AMP
  }

  ghost predicate Ample(c: Config) {
    ValidConfig(c) && 0 < Demand(c) <= c.bufCap
  }

  lemma {:induction false} NumInBatches(c: Config, s: State)
    requires Inv(c, s)
    ensures Batches(s.bp.num)
  {
  }

  lemma {:induction false} NoneWoken(s: State, i: nat, d: Cond)
    requires NobodyWaits(s.threads, d) && i < |s.threads| && WaitsOn(s.threads[i].pc, d)
    ensures s.threads[i].mode == Running
  {
    SumContains(s.threads, i, SleeperOn(d));
    SumContains(s.threads, i, WokenOn(d));
  }

  /** Taking a buffer succeeds at once, growing the pool no further than the demand. */
  lemma {:induction false} GetBufferSucceeds(c: Config, s: State, i: nat)
    requires Ample(c) && Calm(c, s) && Awake(s, i) && WantsBuffer(s.threads[i].pc)
    ensures s.threads[i].mode == Running && Enter(s.bp, c.bufCap).Got?
    ensures Enter(s.bp, c.bufCap).pool.num < Demand(c) + AMP
  {
    hide Sum, Enter, Demand;
    NoneWoken(s, i, BufPoolCond);
    RoomForOneMore(c, s, i);
    EnterHandsOut(s.bp, c.bufCap);
  }

  lemma {:induction false} SignallingKeepsCalm(c: Config, s: State, i: nat, j: nat, s': State)
    requires Calm(c, s) && SignallingStep(s, i, j, s')
    ensures NobodyWaits(s'.threads, BufPoolCond) && s'.bp.num == s.bp.num
  {
    hide Sum, Valid, WithoutBuffer;
    var pc := s.threads[i].pc;
    forall next {
      RunningKeepsNobody(s.threads, i, Thread(next, Running), BufPoolCond);
    }
    forall next, d {
      SignalNobody(Go(s, i, next), d, j, BufPoolCond);
    }
    if ReturnBuffer(s, i, j, s') {
      JoinGivesBack(s.bp, c.bufCap, ReturnedBuffer(pc));
    }
  }

  lemma {:induction false} ThreadStepStaysCalm(c: Config, s: State, i: nat, s': State)
    requires Ample(c) && Calm(c, s) && ThreadStep(c, s, i, s')
    ensures NobodyWaits(s'.threads, BufPoolCond) && s'.bp.num < Demand(c) + AMP
  {
    hide Sum, Inv, SignallingStep, Enter, Resume, Staffed, WithBuffer, AfterClose, LocalStep, Demand;
    if j :| SignallingStep(s, i, j, s') {
      SignallingKeepsCalm(c, s, i, j, s');
    } else {
      if WantsBuffer(s.threads[i].pc) { GetBufferSucceeds(c, s, i); }
      RunningKeepsNobody(s.threads, i, s'.threads[i], BufPoolCond);
    }
  }

  lemma {:induction false} StaffedFromRoles(c: Config, s: State, s': State)
    requires Staffed(c, s) && SameRoles(s, s')
    ensures Staffed(c, s')
  {
  }

  lemma {:induction false} NextKeepsCalm(c: Config, s: State, s': State)
    requires Ample(c) && Calm(c, s) && Next(c, s, s')
    ensures Calm(c, s')
  {
    hide Sum, Inv, ThreadStep, Staffed, Demand;
    NextKeeps(c, s, s');
    NextKeepsRoles(c, s, s');
    StaffedFromRoles(c, s, s');
    var i: nat :| Accept(s, i, s') || ThreadStep(c, s, i, s') || Spurious(s, i, s');
    if ThreadStep(c, s, i, s') {
      ThreadStepStaysCalm(c, s, i, s');
    } else if Accept(s, i, s') {
      RunningKeepsNobody(s.threads, i, s'.threads[i], BufPoolCond);
    } else {
      WakingKeepsNobody(s.threads, i, s'.threads[i], BufPoolCond);
    }
  }

  lemma {:induction false} InitCalm(c: Config)
    requires Ample(c)
    ensures Calm(c, Init(c))
  {
    hide Sum, Inv, Repeat, Demand;
    InitHolds(c);
    InitStaffed(c);
    InitShape(c);
    InitialIsValid(c.bufCap);
    IdleCounts(Init(c).threads, BufPoolCond, TdsAcc);
  }

  // ---------- Every run ----------

  lemma {:induction false} RunKeeps(c: Config, run: seq<State>, k: nat)
    requires ValidConfig(c) && IsRun(c, run) && k < |run|
    ensures Inv(c, run[k]) && Staffed(c, run[k])
  {
    hide Inv, Next, Staffed;
    if k == 0 {
      InitHolds(c);
      InitStaffed(c);
    } else {
      RunKeeps(c, run, k - 1);
      assert StepAt(c, run, k - 1);
      NextKeeps(c, run[k - 1], run[k]);
      NextKeepsRoles(c, run[k - 1], run[k]);
      StaffedFromRoles(c, run[k - 1], run[k]);
    }
  }

  lemma {:induction false} RunKeepsCalm(c: Config, run: seq<State>, k: nat)
    requires Ample(c) && IsRun(c, run) && k < |run|
    ensures Calm(c, run[k])
  {
    hide Calm, Next;
    if k == 0 {
      InitCalm(c);
    } else {
      RunKeepsCalm(c, run, k - 1);
      assert StepAt(c, run, k - 1);
      NextKeepsCalm(c, run[k - 1], run[k]);
    }
  }

  /** Main result on buffers: in every reachable state at most tdCap + 2 readers + workers buffers
      are out; if the cap covers that, nobody ever waits for a buffer, and the pool stops growing
      there. */
  lemma {:induction false} BufferDemandBound(c: Config, run: seq<State>, k: nat, i: nat)
    requires ValidConfig(c) && IsRun(c, run) && k < |run| && i < |run[k].threads|
    ensures run[k].bp.inuse <= Demand(c)
    ensures Ample(c) ==> run[k].bp.num <= WholeBatches(Demand(c))
    ensures Ample(c) && WantsBuffer(run[k].threads[i].pc) ==>
              run[k].threads[i].mode == Running && Enter(run[k].bp, c.bufCap).Got?
  {
    hide Inv, Staffed, Next, Sum, Enter, Demand;
    RunKeeps(c, run, k);
    BufferDemand(c, run[k]);
    if Ample(c) {
      RunKeepsCalm(c, run, k);
      assert Batches(run[k].bp.num) by { NumInBatches(c, run[k]); }
      if WantsBuffer(run[k].threads[i].pc) {
        NoneWoken(run[k], i, BufPoolCond);
        GetBufferSucceeds(c, run[k], i);
      }
    }
  }

  /** The caps the server ships with. */
  const SHIPPED := Config(4, 4, TD_POOL_MAX_TD, MAX_BUFFERS)

  lemma {:induction false} ShippedDemand(run: seq<State>, k: nat)
    requires IsRun(SHIPPED, run) && k < |run|
    ensures SHIPPED.tdCap == 16 && SHIPPED.bufCap == 64
    ensures run[k].bp.inuse <= 28 && run[k].bp.num <= 28
    ensures forall t :: t in run[k].threads && WantsBuffer(t.pc) ==> t.mode == Running
  {
    hide Next, Inv, Enter;
    RunKeeps(SHIPPED, run, k);
    assert |run[k].threads| == 9;
    forall i | 0 <= i < |run[k].threads|
      ensures WantsBuffer(run[k].threads[i].pc) ==> run[k].threads[i].mode == Running
    {
      BufferDemandBound(SHIPPED, run, k, i);
    }
    BufferDemandBound(SHIPPED, run, k, 0);
  }

  /** No two places hold the same buffer, thread_data or open client, and what a thread holds is
      marked in use. */
  lemma {:induction false} Exclusive(c: Config, run: seq<State>, k: nat, a: Account)
    requires ValidConfig(c) && IsRun(c, run) && k < |run|
    requires a.BufferAcc? || a.TdAcc? || a.ClientAcc?
    ensures Held(run[k], a) <= 1
    ensures forall i, j :: 0 <= i < j < |run[k].threads| ==>
              At(run[k].threads[i].pc, a) == 0 || At(run[k].threads[j].pc, a) == 0
    ensures forall i :: 0 <= i < |run[k].threads| && At(run[k].threads[i].pc, a) > 0 ==> Due(run[k], a) == 1
  {
    RunKeeps(c, run, k);
    var s := run[k];
    hide Sum, At, Next, Wakeups;
    assert Balanced(s, a);
    OneIsDue(c, s, a);
    forall i, j | 0 <= i < j < |s.threads|
      ensures At(s.threads[i].pc, a) == 0 || At(s.threads[j].pc, a) == 0
    {
      SumContainsTwo(s.threads, i, j, ByThread(a));
      assert ByThread(a)(s.threads[i]) == At(s.threads[i].pc, a);
      assert ByThread(a)(s.threads[j]) == At(s.threads[j].pc, a);
    }
    forall i | 0 <= i < |s.threads| && At(s.threads[i].pc, a) > 0
      ensures Due(s, a) == 1
    {
      SumContains(s.threads, i, ByThread(a));
      assert ByThread(a)(s.threads[i]) == At(s.threads[i].pc, a);
    }
  }

  lemma {:induction false} OneIsDue(c: Config, s: State, a: Account)
    requires Pools(c, s)
    requires a.BufferAcc? || a.TdAcc? || a.ClientAcc?
    ensures Due(s, a) <= 1
  {
    if a.BufferAcc? {
      UsedAtMostOnce(s.bp.entries, a.buffer);
    } else if a.TdAcc? {
      UsedAtMostOnce(s.tp.entries, a.tdata);
    }
  }

  /** Giving back never meets an unknown or free entry: the abort and the assert are unreachable. */
  lemma {:induction false} JoinNeverAborts(c: Config, s: State, i: nat)
    requires Inv(c, s) && i < |s.threads|
    ensures ReturnsBuffer(s.threads[i].pc) ==> Join(s.bp, ReturnedBuffer(s.threads[i].pc)).Joined?
    ensures ReturnsTd(s.threads[i].pc) ==> Join(s.tp, s.threads[i].pc.td.id).Joined?
  {
    hide Sum, Join, Wakeups;
    var pc := s.threads[i].pc;
    if ReturnsBuffer(pc) {
      var a := BufferAcc(ReturnedBuffer(pc));
      assert Balanced(s, a);
      SumContains(s.threads, i, ByThread(a));
      WithoutBufferHolds(pc, a);
      OneIsDue(c, s, a);
      JoinGivesBack(s.bp, c.bufCap, ReturnedBuffer(pc));
    } else if ReturnsTd(pc) {
      var a := TdAcc(pc.td.id);
      assert Balanced(s, a);
      SumContains(s.threads, i, ByThread(a));
      OneIsDue(c, s, a);
      JoinGivesBack(s.tp, c.tdCap, pc.td.id);
    }
  }

  /** No client is closed twice, and none that was not accepted; those not closed are in exactly
      one place. */
  lemma {:induction false} ClosedAtMostOnce(c: Config, run: seq<State>, k: nat, client: nat)
    requires ValidConfig(c) && IsRun(c, run) && k < |run|
    ensures Sum(run[k].closed, Same(client)) <= 1
    ensures Sum(run[k].closed, Same(client)) + Held(run[k], ClientAcc(client)) == if client < run[k].accepted then 1 else 0
  {
    RunKeeps(c, run, k);
    assert Balanced(run[k], ClientAcc(client));
  }

  /** No wakeup is ever lost, on any of the four conditions. */
  lemma {:induction false} WakeupsNeverLost(c: Config, run: seq<State>, k: nat, d: Cond, i: nat)
    requires ValidConfig(c) && IsRun(c, run) && k < |run| && i < |run[k].threads|
    ensures AsleepOn(run[k].threads[i], d) ==>
              Available(run[k], d) <= Sum(run[k].threads, WokenOn(d)) + Sum(run[k].threads, SignalDue(d))
    ensures AsleepOn(run[k].threads[i], TdPoolCond) ==> run[k].tp.num == c.tdCap
    ensures AsleepOn(run[k].threads[i], BufPoolCond) ==> run[k].bp.num == c.bufCap
  {
    hide Sum, Next, Ownership, Pools;
    RunKeeps(c, run, k);
    var s := run[k];
    assert NoLostWakeup(s, d);
    SumContains(s.threads, i, SleeperOn(d));
    SumContains(s.threads, i, SleeperOn(TdPoolCond));
    SumContains(s.threads, i, SleeperOn(BufPoolCond));
  }
}
