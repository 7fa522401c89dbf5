/** Every request gets finished: a server that stops accepting always has a thread able to step
    until nothing is outstanding, every step brings it closer, and where it stops both pools are
    full and every accepted client has been closed exactly once. */
module PipelineDrain {
  import opened Sums
  import opened PoolSpec
  import opened Pipeline
  import opened PipelineInvariant
  import opened PipelineSteps
  import opened PipelineTheorems

  // ---------- Progress ----------

  lemma {:induction false} PickTarget(ts: seq<Thread>, c: Cond) returns (j: nat)
    ensures SignalTarget(ts, c, j)
  {
    if k :| 0 <= k < |ts| && AsleepOn(ts[k], c) {
      j := k;
    } else {
      j := 0;
    }
  }

  lemma {:induction false} CanGetTd(c: Config, s: State, i: nat) returns (s': State)
    requires Inv(c, s) && Awake(s, i) && s.threads[i].pc.MGetTd?
    ensures GetTd(c, s, i, s')
  {
    hide Sum, Take, Ownership, Wakeups;
    EnterHandsOut(s.tp, c.tdCap);
    ResumeHandsOut(s.tp, c.tdCap);
    var got := if s.threads[i].mode == Woken then Resume(s.tp) else Enter(s.tp, c.tdCap);
    s' := if got.Wait? then s.(tp := got.pool, threads := Sleep(s, i))
          else s.(tp := got.pool, threads := Go(s, i, MEnqueue(Td(got.id, s.threads[i].pc.client))));
  }

  lemma {:induction false} CanGetBuffer(c: Config, s: State, i: nat) returns (s': State)
    requires Inv(c, s) && Awake(s, i) && WantsBuffer(s.threads[i].pc)
    ensures GetBuffer(c, s, i, s')
  {
    hide Sum, Take, Ownership, Wakeups, WithBuffer;
    EnterHandsOut(s.bp, c.bufCap);
    ResumeHandsOut(s.bp, c.bufCap);
    var got := if s.threads[i].mode == Woken then Resume(s.bp) else Enter(s.bp, c.bufCap);
    s' := if got.Wait? then s.(bp := got.pool, threads := Sleep(s, i))
          else s.(bp := got.pool, threads := Go(s, i, WithBuffer(s.threads[i].pc, got.id)));
  }

  lemma {:induction false} CanReturn(c: Config, s: State, i: nat) returns (j: nat, s': State)
    requires Inv(c, s) && Awake(s, i) && (ReturnsBuffer(s.threads[i].pc) || ReturnsTd(s.threads[i].pc))
    ensures SignallingStep(s, i, j, s')
  {
    hide Sum, Inv, Join, WithoutBuffer, SignalTarget;
    JoinNeverAborts(c, s, i);
    var pc := s.threads[i].pc;
    if ReturnsBuffer(pc) {
      var ts := Go(s, i, WithoutBuffer(pc));
      j := PickTarget(ts, BufPoolCond);
      s' := s.(bp := Join(s.bp, ReturnedBuffer(pc)).pool, threads := Signal(ts, BufPoolCond, j));
      assert ReturnBuffer(s, i, j, s');
    } else {
      var ts := Go(s, i, if pc.RJoinTd? then RDequeue else WDequeue);
      j := PickTarget(ts, TdPoolCond);
      s' := s.(tp := Join(s.tp, pc.td.id).pool, threads := Signal(ts, TdPoolCond, j));
      assert ReturnTd(s, i, j, s');
    }
  }

  lemma {:induction false} CanSignal(s: State, i: nat) returns (j: nat, s': State)
    requires Awake(s, i) && (s.threads[i].pc.MSignal? || s.threads[i].pc.RSignal?)
    ensures SignallingStep(s, i, j, s')
  {
    hide SignalTarget;
    if s.threads[i].pc.MSignal? {
      j := PickTarget(Go(s, i, MAccept), TdListCond);
      s' := s.(threads := Signal(Go(s, i, MAccept), TdListCond, j));
      assert SignalReaders(s, i, j, s');
    } else {
      j := PickTarget(Go(s, i, RDequeue), JobQueueCond);
      s' := s.(threads := Signal(Go(s, i, RDequeue), JobQueueCond, j));
      assert SignalWorkers(s, i, j, s');
    }
  }

  /** Each point of the program falls to one kind of step. */
  lemma {:induction false} KindOf(pc: PC)
    ensures || pc.MAccept? || pc.MGetTd? || pc.MEnqueue? || pc.RDequeue? || pc.REnqueue? || pc.WDequeue?
            || WantsBuffer(pc) || ReturnsBuffer(pc) || ReturnsTd(pc) || Closes(pc)
            || pc.MSignal? || pc.RSignal? || pc.RRead? || pc.WProcess?
  {
  }

  /** Any thread that is not asleep, and not main waiting for a client, can take a step. */
  lemma {:induction false} AwakeCanStep(c: Config, s: State, i: nat) returns (s': State)
    requires Inv(c, s) && Awake(s, i) && !s.threads[i].pc.MAccept?
    ensures ThreadStep(c, s, i, s')
  {
    hide Inv, SignallingStep, WithBuffer, WantsBuffer, ReturnsBuffer, ReturnsTd, GetTd, GetBuffer;
    var pc := s.threads[i].pc;
    KindOf(pc);
    if pc.MGetTd? {
      s' := CanGetTd(c, s, i);
    } else if WantsBuffer(pc) {
      s' := CanGetBuffer(c, s, i);
    } else if ReturnsBuffer(pc) || ReturnsTd(pc) {
      var j;
      j, s' := CanReturn(c, s, i);
    } else if pc.MSignal? || pc.RSignal? {
      var j;
      j, s' := CanSignal(s, i);
    } else if pc.MEnqueue? {
      s' := s.(tds := [pc.td] + s.tds, threads := Go(s, i, MSignal));
      assert EnqueueTd(s, i, s');
    } else if pc.RDequeue? {
      s' := if s.tds == [] then s.(threads := Sleep(s, i))
            else s.(tds := s.tds[1..], threads := Go(s, i, RGetInput(s.tds[0])));
      assert DequeueTd(s, i, s');
    } else if pc.WDequeue? {
      s' := if s.jobs == [] then s.(threads := Sleep(s, i))
            else s.(jobs := s.jobs[1..], threads := Go(s, i, WProcess(s.jobs[0])));
      assert DequeueJob(s, i, s');
    } else if pc.REnqueue? {
      s' := s.(jobs := s.jobs + [pc.job], threads := Go(s, i, RJoinHanded(pc.input)));
      assert EnqueueJob(s, i, s');
    } else if Closes(pc) {
      s' := s.(closed := s.closed + [ClosedClient(pc)], threads := Go(s, i, AfterClose(pc)));
      assert Close(s, i, s');
    } else {
      var next := if pc.RRead? then RGetBody(pc.td, pc.input) else WGetResp(pc.job);
      s' := s.(threads := Go(s, i, next));
      assert Local(s, i, next, s');
    }
  }

  // ---------- Measure ----------

  const TD_WEIGHT: nat := 20
  const JOB_WEIGHT: nat := 11

  function Rank(pc: PC): nat {
    match pc
    case MAccept => 0
    case MSignal => 2
    case MEnqueue(_) => 23
    case MGetTd(_) => 24
    case RDequeue => 0
    case RGetInput(_) => 19
    case RRead(_, _) => 18
    case RGetBody(_, _) => 17
    case REnqueue(_, _) => 16
    case RJoinHanded(_) => 4
    case RSignal => 2
    case RGetErr(_, _) => 11
    case RGetErrResp(_, _, _) => 10
    case RErrWrite(_, _, _, _) => 9
    case RJoinErr(_, _, _) => 7
    case RClose(_, _) => 5
    case RJoinInput(_, _) => 4
    case RJoinTd(_) => 2
    case WDequeue => 0
    case WProcess(_) => 10
    case WGetResp(_) => 9
    case WWrite(_, _) => 8
    case WClose(_) => 6
    case WJoinBody(_) => 5
    case WJoinTd(_) => 3
  }

  function Weight(t: Thread): nat {
    Rank(t.pc) + if t.mode == Asleep then 0 else 1
  }

  /** Work left before the server is idle, counting pending signals and woken threads. */
  function WorkLeft(s: State): nat {
    Sum(s.threads, Weight) + TD_WEIGHT * |s.tds| + JOB_WEIGHT * |s.jobs|
  }

  lemma {:induction false} SignalWeight(ts: seq<Thread>, c: Cond, j: nat)
    ensures Sum(Signal(ts, c, j), Weight) <= Sum(ts, Weight) + 1
  {
    if j < |ts| && AsleepOn(ts[j], c) {
      SumUpdate(ts, j, ts[j].(mode := Woken), Weight);
    }
  }

  lemma {:induction false} RankFalls(pc: PC)
    ensures WantsBuffer(pc) ==> forall b :: Rank(WithBuffer(pc, b)) < Rank(pc)
    ensures ReturnsBuffer(pc) ==> Rank(WithoutBuffer(pc)) + 1 < Rank(pc)
    ensures ReturnsTd(pc) ==> 1 < Rank(pc)
    ensures Closes(pc) ==> Rank(AfterClose(pc)) < Rank(pc)
    ensures forall next :: LocalStep(pc, next) ==> Rank(next) < Rank(pc)
  {
  }

  lemma {:induction false} SignallingShrinks(s: State, i: nat, j: nat, s': State)
    requires SignallingStep(s, i, j, s') && Modes(s.threads)
    ensures WorkLeft(s') < WorkLeft(s)
  {
    hide Sum, Join, SignalTarget, WithoutBuffer;
    var pc := s.threads[i].pc;
    RankFalls(pc);
    var next := if ReturnsBuffer(pc) then WithoutBuffer(pc)
                else if pc.MSignal? then MAccept
                else if pc.RSignal? || pc.RJoinTd? then RDequeue else WDequeue;
    SumUpdate(s.threads, i, Thread(next, Running), Weight);
    SignalWeight(Go(s, i, next), TdListCond, j);
    SignalWeight(Go(s, i, next), JobQueueCond, j);
    SignalWeight(Go(s, i, next), BufPoolCond, j);
    SignalWeight(Go(s, i, next), TdPoolCond, j);
  }

  /** Each step other than accepting and spurious waking brings the server closer to idle. */
  lemma {:induction false} StepShrinks(c: Config, s: State, i: nat, s': State)
    requires ThreadStep(c, s, i, s') && Modes(s.threads)
    ensures WorkLeft(s') < WorkLeft(s)
  {
    hide Sum, SignallingStep, Enter, Resume, WithBuffer, AfterClose, LocalStep;
    if j :| SignallingStep(s, i, j, s') {
      SignallingShrinks(s, i, j, s');
    } else {
      RankFalls(s.threads[i].pc);
      SumUpdate(s.threads, i, s'.threads[i], Weight);
    }
  }

  // ---------- Where the server stops ----------

  /** Nothing outstanding: both pools full again, every accepted client closed exactly once. */
  ghost predicate Drained(s: State) {
    && s.tds == [] && s.jobs == []
    && s.tp.inuse == 0 && s.bp.inuse == 0
    && |s.threads| > 0 && s.threads[0].pc.MAccept?
    && forall x: nat :: Sum(s.closed, Same(x)) == if x < s.accepted then 1 else 0
  }

  ghost predicate Quiet(c: Config, s: State) {
    forall i, s' :: !ThreadStep(c, s, i, s')
  }

  ghost predicate AtRest(t: Thread) {
    t.pc.MAccept? || (t.mode == Asleep && (t.pc.MGetTd? || t.pc.RDequeue? || t.pc.WDequeue?))
  }

  /** Where a thread can be when no step is left: main waiting for a client, or asleep. */
  ghost predicate Resting(t: Thread) {
    t.pc.MAccept? || (t.mode == Asleep && CanWait(t.pc))
  }

  lemma {:induction false} QuietRests(c: Config, s: State, i: nat)
    requires Inv(c, s) && Quiet(c, s) && i < |s.threads|
    ensures Resting(s.threads[i])
  {
    hide Sum, Ownership, Pools, ThreadStep, WantsBuffer;
    if s.threads[i].mode != Asleep && !s.threads[i].pc.MAccept? {
      var s' := AwakeCanStep(c, s, i);
      assert false;
    }
  }

  // ---------- Buffers held by sleepers ----------

  function Least(a: nat, b: nat): nat {
    if a < b then a else b
  }

  /** A cap that the buffers held by sleeping threads cannot use up: one for each thread_data, and one
      more for each reader that sleeps with two. */
  ghost predicate Roomy(c: Config) {
    ValidConfig(c) && c.tdCap + Least(c.readers, c.tdCap) < c.bufCap
  }

  /** The shipped sizes, and all that cover the demand, are such. */
  lemma {:induction false} AmpleIsRoomy(c: Config)
    ensures Ample(c) && c.readers > 0 ==> Roomy(c)
    ensures Roomy(SHIPPED)
  {
    assert Batches(16) && Batches(64);
  }

  function HoldsTwo(t: Thread): nat {
    if t.pc.RGetErrResp? then 1 else 0
  }

  lemma {:induction false} RestingHolds(t: Thread)
    requires Resting(t)
    ensures At(t.pc, BuffersAcc) <= At(t.pc, TdsAcc) + HoldsTwo(t)
    ensures HoldsTwo(t) <= At(t.pc, TdsAcc)
  {
  }

  lemma {:induction false} TwoHoldersAreReaders(ts: seq<Thread>, readers: nat, first: nat)
    requires first <= 1 && |ts| >= first + readers
    requires forall k :: 0 <= k < |ts| ==> (RoleOf(ts[k].pc) == Reader <==> first <= k < first + readers)
    ensures Sum(ts, HoldsTwo) <= readers
    decreases |ts|
  {
    if ts != [] {
      assert forall k :: 0 <= k < |ts| - 1 ==> ts[1..][k] == ts[k + 1];
      assert HoldsTwo(ts[0]) > 0 ==> RoleOf(ts[0].pc) == Reader;
      hide RoleOf;
      if first == 1 {
        TwoHoldersAreReaders(ts[1..], readers, 0);
      } else if readers > 0 {
        TwoHoldersAreReaders(ts[1..], readers - 1, 0);
      } else {
        TwoHoldersAreReaders(ts[1..], 0, 0);
      }
    }
  }

  function Nothing(t: Thread): nat {
    0
  }

  lemma {:induction false} RestingBuffers(c: Config, s: State)
    requires Inv(c, s) && Staffed(c, s) && forall t :: t in s.threads ==> Resting(t)
    ensures s.bp.inuse <= c.tdCap + Least(c.readers, c.tdCap)
  {
    hide Sum, At, Valid, RoleOf, Wakeups;
    NowBalanced(s, BuffersAcc);
    NowBalanced(s, TdsAcc);
    JobsAccount(s.jobs);
    TdsAccount(s.tds);
    forall t | t in s.threads
      ensures ByThread(BuffersAcc)(t) <= ByThread(TdsAcc)(t) + HoldsTwo(t)
      ensures HoldsTwo(t) <= ByThread(TdsAcc)(t) + Nothing(t)
    {
      RestingHolds(t);
    }
    SumWithin(s.threads, ByThread(BuffersAcc), ByThread(TdsAcc), HoldsTwo);
    SumWithin(s.threads, HoldsTwo, ByThread(TdsAcc), Nothing);
    SumZero(s.threads, Nothing);
    TwoHoldersAreReaders(s.threads, c.readers, 1);
    InUseAtMostNum(s.tp, c.tdCap);
  }

  /** A sleeper on the buffer pool with nobody awake means that every buffer is out. */
  lemma {:induction false} SleeperMeansFull(c: Config, s: State, i: nat)
    requires Inv(c, s) && i < |s.threads| && AsleepOn(s.threads[i], BufPoolCond)
    requires forall t :: t in s.threads ==> Resting(t) && t.mode != Woken
    ensures s.bp.inuse >= c.bufCap
  {
    hide Sum, Ownership, WellFormed;
    SumContains(s.threads, i, SleeperOn(BufPoolCond));
    SumZero(s.threads, WokenOn(BufPoolCond));
    SumZero(s.threads, SignalDue(BufPoolCond));
  }

  /** Threads at rest hold nothing but perhaps the client main is waiting to serve. */
  lemma {:induction false} RestHolds(ts: seq<Thread>, a: Account, d: Cond)
    requires forall t :: t in ts ==> AtRest(t)
    ensures !a.ClientAcc? ==> Sum(ts, ByThread(a)) == 0
    ensures a.ClientAcc? && (forall t :: t in ts ==> !t.pc.MGetTd?) ==> Sum(ts, ByThread(a)) == 0
    ensures (forall t :: t in ts ==> t.mode != Woken) ==> Sum(ts, WokenOn(d)) == 0 && Sum(ts, SignalDue(d)) == 0
  {
    hide Sum;
    if !a.ClientAcc? || (forall t :: t in ts ==> !t.pc.MGetTd?) {
      SumZero(ts, ByThread(a));
    }
    if forall t :: t in ts ==> t.mode != Woken {
      SumZero(ts, WokenOn(d));
      SumZero(ts, SignalDue(d));
    }
  }

  lemma {:induction false} SleeperMeansEmpty(s: State, i: nat, d: Cond)
    requires NoLostWakeup(s, d) && i < |s.threads| && AsleepOn(s.threads[i], d)
    requires forall t :: t in s.threads ==> AtRest(t) && t.mode != Woken
    ensures Available(s, d) <= 0
  {
    hide Sum;
    SumContains(s.threads, i, SleeperOn(d));
    RestHolds(s.threads, TdsAcc, d);
  }

  lemma {:induction false} RestedAccounts(c: Config, s: State)
    requires Inv(c, s) && Staffed(c, s) && c.readers > 0 && c.workers > 0
    requires forall t :: t in s.threads ==> AtRest(t) && t.mode != Woken
    ensures s.tds == [] && s.jobs == [] && s.tp.inuse == 0 && s.bp.inuse == 0 && s.threads[0].pc.MAccept?
  {
    hide Sum, Ownership, WellFormed;
    var reader, worker := s.threads[1], s.threads[1 + c.readers];
    assert reader in s.threads && worker in s.threads && s.threads[0] in s.threads;
    SleeperMeansEmpty(s, 1, TdListCond);
    SleeperMeansEmpty(s, 1 + c.readers, JobQueueCond);
    assert Balanced(s, TdsAcc) && Balanced(s, BuffersAcc) by { NowBalanced(s, TdsAcc); NowBalanced(s, BuffersAcc); }
    RestHolds(s.threads, TdsAcc, TdListCond);
    RestHolds(s.threads, BuffersAcc, TdListCond);
    TdsAccount(s.tds);
    JobsAccount(s.jobs);
    if s.threads[0].pc.MGetTd? {
      SleeperMeansEmpty(s, 0, TdPoolCond);
      assert false;
    }
  }

  lemma {:induction false} NowBalanced(s: State, a: Account)
    requires Ownership(s)
    ensures Balanced(s, a)
  {
  }

  lemma {:induction false} QuietAndAtRest(c: Config, s: State)
    requires Roomy(c) && Inv(c, s) && Staffed(c, s) && Quiet(c, s)
    ensures forall t :: t in s.threads ==> AtRest(t) && t.mode != Woken
  {
    hide Sum, Ownership, Pools, Quiet, RoleOf, CanWait;
    forall t | t in s.threads ensures Resting(t) && t.mode != Woken {
      var i: nat :| i < |s.threads| && s.threads[i] == t;
      QuietRests(c, s, i);
      MainRuns(c, s, i);
    }
    RestingBuffers(c, s);
    forall t | t in s.threads ensures AtRest(t) {
      var i: nat :| i < |s.threads| && s.threads[i] == t;
      if t.mode == Asleep && WantsBuffer(t.pc) {
        SleeperMeansFull(c, s, i);
        assert false;
      }
      RestsOrWants(t);
    }
  }

  lemma {:induction false} RestsOrWants(t: Thread)
    requires Resting(t) && !(t.mode == Asleep && WantsBuffer(t.pc))
    ensures AtRest(t)
  {
  }

  lemma {:induction false} MainRuns(c: Config, s: State, i: nat)
    requires Inv(c, s) && i < |s.threads|
    ensures s.threads[i].pc.MAccept? ==> s.threads[i].mode == Running
  {
    hide Sum, Ownership, Pools;
  }

  /** A server with no step left (other than accepting) is drained. */
  lemma {:induction false} QuietIsDrained(c: Config, s: State)
    requires Roomy(c) && Inv(c, s) && Staffed(c, s) && Quiet(c, s) && c.readers > 0 && c.workers > 0
    ensures Drained(s)
  {
    hide Sum, Ownership, Pools, Quiet, RoleOf, Wakeups;
    QuietAndAtRest(c, s);
    RestedAccounts(c, s);
    forall k | 0 <= k < |s.threads|
      ensures !s.threads[k].pc.MGetTd?
    {
      if k > 0 { PlainRoles(); }
    }
    forall x: nat
      ensures Sum(s.closed, Same(x)) == if x < s.accepted then 1 else 0
    {
      NowBalanced(s, ClientAcc(x));
      RestHolds(s.threads, ClientAcc(x), TdListCond);
      EmptySum<Td>(ByTd(ClientAcc(x)));
      EmptySum<Job>(ByJob(ClientAcc(x)));
    }
  }

  // ---------- Draining runs ----------

  ghost predicate SomeStep(c: Config, s: State, s': State) {
    exists i :: ThreadStep(c, s, i, s')
  }

  /** A history of thread steps only: no client accepted, nobody woken without a signal. */
  ghost predicate IsDrain(c: Config, run: seq<State>) {
    && |run| > 0
    && forall k :: 0 <= k < |run| - 1 ==> SomeStep(c, run[k], run[k + 1])
  }

  /** However the threads are scheduled, the work left bounds how long they can go on. */
  lemma {:induction false} DrainEnds(c: Config, run: seq<State>, k: nat)
    requires IsDrain(c, run) && Inv(c, run[0]) && k < |run|
    ensures k + WorkLeft(run[k]) <= WorkLeft(run[0])
    ensures Inv(c, run[k])
  {
    hide Inv, ThreadStep, WorkLeft;
    if k > 0 {
      DrainEnds(c, run, k - 1);
      assert SomeStep(c, run[k - 1], run[k - 1 + 1]);
      var i :| ThreadStep(c, run[k - 1], i, run[k]);
      InvModes(c, run[k - 1]);
      StepShrinks(c, run[k - 1], i, run[k]);
      ThreadStepKeeps(c, run[k - 1], i, run[k]);
    }
  }

  lemma {:induction false} InvModes(c: Config, s: State)
    requires Inv(c, s)
    ensures Modes(s.threads)
  {
  }

  lemma {:induction false} StepKeepsStaff(c: Config, s: State, i: nat, s': State)
    requires Staffed(c, s) && ThreadStep(c, s, i, s')
    ensures Staffed(c, s')
  {
    hide ThreadStep, Staffed;
    ThreadStepKeepsRoles(c, s, i, s');
    StaffedFromRoles(c, s, s');
  }

  /** From every reachable state a drained one is reached by thread steps alone. */
  lemma {:induction false} CanDrain(c: Config, s: State) returns (run: seq<State>)
    requires Roomy(c) && Inv(c, s) && Staffed(c, s) && c.readers > 0 && c.workers > 0
    ensures IsDrain(c, run) && run[0] == s && Drained(run[|run| - 1])
    decreases WorkLeft(s)
  {
    hide Inv, ThreadStep, WorkLeft, Drained, Staffed, Roomy;
    if Quiet(c, s) {
      QuietIsDrained(c, s);
      run := [s];
    } else {
      var i, s' :| ThreadStep(c, s, i, s');
      InvModes(c, s);
      StepShrinks(c, s, i, s');
      ThreadStepKeeps(c, s, i, s');
      StepKeepsStaff(c, s, i, s');
      var rest := CanDrain(c, s');
      run := [s] + rest;
      assert SomeStep(c, s, s');
      forall k | 0 <= k < |run| - 1
        ensures SomeStep(c, run[k], run[k + 1])
      {
        if k > 0 { assert SomeStep(c, rest[k - 1], rest[k - 1 + 1]); }
      }
    }
  }

  /** Main result on progress, also where threads do wait for buffers: in every reachable state with
      anything outstanding some thread can step; and once the server accepts nobody, every schedule
      ends, within WorkLeft steps, in a drained state. */
  lemma {:induction false} RequestsFinish(c: Config, run: seq<State>, k: nat, drain: seq<State>)
    requires Roomy(c) && c.readers > 0 && c.workers > 0 && IsRun(c, run) && k < |run|
    requires IsDrain(c, drain) && drain[0] == run[k]
    ensures !Drained(run[k]) ==> exists i, s' :: ThreadStep(c, run[k], i, s')
    ensures |drain| - 1 <= WorkLeft(run[k])
    ensures Quiet(c, drain[|drain| - 1]) ==> Drained(drain[|drain| - 1])
  {
    RoomyIsValid(c);
    hide Inv, ThreadStep, WorkLeft, Drained, Staffed, Next, Roomy;
    RunKeeps(c, run, k);
    DrainEnds(c, drain, |drain| - 1);
    if !Drained(run[k]) && Quiet(c, run[k]) {
      QuietIsDrained(c, run[k]);
    }
    DrainKeepsStaff(c, drain, |drain| - 1);
    if Quiet(c, drain[|drain| - 1]) {
      QuietIsDrained(c, drain[|drain| - 1]);
    }
  }

  lemma {:induction false} RoomyIsValid(c: Config)
    requires Roomy(c)
    ensures ValidConfig(c)
  {
  }

  lemma {:induction false} DrainKeepsStaff(c: Config, drain: seq<State>, k: nat)
    requires IsDrain(c, drain) && Staffed(c, drain[0]) && k < |drain|
    ensures Staffed(c, drain[k])
  {
    hide Staffed, ThreadStep;
    if k > 0 {
      DrainKeepsStaff(c, drain, k - 1);
      assert SomeStep(c, drain[k - 1], drain[k - 1 + 1]);
      var i :| ThreadStep(c, drain[k - 1], i, drain[k]);
      StepKeepsStaff(c, drain[k - 1], i, drain[k]);
    }
  }
}
