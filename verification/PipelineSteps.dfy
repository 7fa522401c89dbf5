/** Every step of the pipeline keeps the invariant. One lemma per kind of step. */
module PipelineSteps {
  import opened Sums
  import opened PoolSpec
  import opened Pipeline
  import opened PipelineInvariant

  // ---------- Waiting and waking ----------

  /** By how much availability may grow on c when thread i moves on to pc: it gives up a wakeup
      it had received, and takes on or discharges the duty to signal. */
  function Slack(t: Thread, pc: PC, c: Cond): int {
    SignalDue(c)(Thread(pc, Running)) - WokenOn(c)(t) - SignalDue(c)(t)
  }

  ghost predicate Fits(s: State, i: nat, pc: PC, s': State, c: Cond)
    requires i < |s.threads|
  {
    || NobodyWaits(s.threads, c)
    || Available(s', c) <= Available(s, c) + Slack(s.threads[i], pc, c)
  }

  ghost predicate Grows(s: State, s': State) {
    && (s'.tp.num == s.tp.num || NobodyWaits(s.threads, TdPoolCond))
    && (s'.bp.num == s.bp.num || NobodyWaits(s.threads, BufPoolCond))
  }

  /** Thread i moves on, running, without a signal. */
  lemma {:induction false} RunKeepsWakeups(c: Config, s: State, i: nat, pc: PC, s': State)
    requires Wakeups(c, s) && Awake(s, i)
    requires s'.threads == Go(s, i, pc) && Grows(s, s')
    requires Fits(s, i, pc, s', TdPoolCond) && Fits(s, i, pc, s', TdListCond)
    requires Fits(s, i, pc, s', JobQueueCond) && Fits(s, i, pc, s', BufPoolCond)
    ensures Wakeups(c, s')
  {
    hide Sum;
    var t := Thread(pc, Running);
    MoveCovers(s.threads, i, t, TdPoolCond, Available(s, TdPoolCond), Available(s', TdPoolCond));
    MoveCovers(s.threads, i, t, TdListCond, Available(s, TdListCond), Available(s', TdListCond));
    MoveCovers(s.threads, i, t, JobQueueCond, Available(s, JobQueueCond), Available(s', JobQueueCond));
    MoveCovers(s.threads, i, t, BufPoolCond, Available(s, BufPoolCond), Available(s', BufPoolCond));
    RunningKeepsNobody(s.threads, i, t, TdPoolCond);
    RunningKeepsNobody(s.threads, i, t, BufPoolCond);
  }

  /** Thread i finds nothing and falls asleep on d. */
  lemma {:induction false} SleepKeepsWakeups(c: Config, s: State, i: nat, d: Cond)
    requires Wakeups(c, s) && Awake(s, i) && WaitsOn(s.threads[i].pc, d)
    requires Available(s, d) <= 0
    requires d == TdPoolCond ==> s.tp.num == c.tdCap
    requires d == BufPoolCond ==> s.bp.num == c.bufCap
    ensures Wakeups(c, s.(threads := Sleep(s, i)))
  {
    hide Sum;
    var t := Thread(s.threads[i].pc, Asleep);
    MoveCovers(s.threads, i, t, TdPoolCond, Available(s, TdPoolCond), Available(s, TdPoolCond));
    MoveCovers(s.threads, i, t, TdListCond, Available(s, TdListCond), Available(s, TdListCond));
    MoveCovers(s.threads, i, t, JobQueueCond, Available(s, JobQueueCond), Available(s, JobQueueCond));
    MoveCovers(s.threads, i, t, BufPoolCond, Available(s, BufPoolCond), Available(s, BufPoolCond));
    if d != TdPoolCond { RunningKeepsNobody(s.threads, i, t, TdPoolCond); }
    if d != BufPoolCond { RunningKeepsNobody(s.threads, i, t, BufPoolCond); }
  }

  /** Being woken counts as a wakeup under way. */
  lemma {:induction false} WakingKeepsWakeups(c: Config, s: State, i: nat, s': State)
    requires Wakeups(c, s) && Spurious(s, i, s')
    ensures Wakeups(c, s')
  {
    hide Sum;
    var t := s.threads[i].(mode := Woken);
    MoveCovers(s.threads, i, t, TdPoolCond, Available(s, TdPoolCond), Available(s, TdPoolCond));
    MoveCovers(s.threads, i, t, TdListCond, Available(s, TdListCond), Available(s, TdListCond));
    MoveCovers(s.threads, i, t, JobQueueCond, Available(s, JobQueueCond), Available(s, JobQueueCond));
    MoveCovers(s.threads, i, t, BufPoolCond, Available(s, BufPoolCond), Available(s, BufPoolCond));
    WakingKeepsNobody(s.threads, i, t, TdPoolCond);
    WakingKeepsNobody(s.threads, i, t, BufPoolCond);
  }

  /** Availability on e after a step of thread i that signals d. */
  ghost predicate FitsSignal(s: State, i: nat, pc: PC, d: Cond, s': State, e: Cond)
    requires i < |s.threads|
  {
    Available(s', e) <= Available(s, e) + Slack(s.threads[i], pc, e) + if d == e then 1 else 0
  }

  lemma {:induction false} SignalCoversEach(s: State, i: nat, pc: PC, d: Cond, j: nat, s': State, e: Cond)
    requires Awake(s, i) && NoLostWakeup(s, e)
    requires SignalTarget(Go(s, i, pc), d, j) && s'.threads == Signal(Go(s, i, pc), d, j)
    requires FitsSignal(s, i, pc, d, s', e)
    ensures NoLostWakeup(s', e)
    ensures NobodyWaits(s.threads, e) ==> NobodyWaits(s'.threads, e)
  {
    hide Sum;
    var t := Thread(pc, Running);
    if d == e {
      SignalCovers(s.threads, i, t, d, j, Available(s, d), Available(s', d));
    } else {
      MoveCovers(s.threads, i, t, e, Available(s, e), Available(s', e));
      OtherSignalCovers(Go(s, i, pc), d, j, e, Available(s', e));
    }
    RunningKeepsNobody(s.threads, i, t, e);
    SignalNobody(Go(s, i, pc), d, j, e);
  }

  /** Thread i moves on and signals d, waking j. */
  lemma {:induction false} SignalKeepsWakeups(c: Config, s: State, i: nat, pc: PC, d: Cond, j: nat, s': State)
    requires Wakeups(c, s) && Awake(s, i)
    requires SignalTarget(Go(s, i, pc), d, j) && s'.threads == Signal(Go(s, i, pc), d, j)
    requires s'.tp.num == s.tp.num && s'.bp.num == s.bp.num
    requires FitsSignal(s, i, pc, d, s', TdPoolCond) && FitsSignal(s, i, pc, d, s', TdListCond)
    requires FitsSignal(s, i, pc, d, s', JobQueueCond) && FitsSignal(s, i, pc, d, s', BufPoolCond)
    ensures Wakeups(c, s')
  {
    hide Sum;
    SignalCoversEach(s, i, pc, d, j, s', TdPoolCond);
    SignalCoversEach(s, i, pc, d, j, s', TdListCond);
    SignalCoversEach(s, i, pc, d, j, s', JobQueueCond);
    SignalCoversEach(s, i, pc, d, j, s', BufPoolCond);
  }

  // ---------- Ownership ----------

  /** Thread i moves to pc, possibly waking j: the accounts stay balanced if what is due changes
      as what the thread and the two queues hold does. */
  lemma {:induction false} MoveKeepsOwnership(s: State, i: nat, pc: PC, d: Cond, j: nat, s': State)
    requires Ownership(s) && i < |s.threads|
    requires s'.threads == Go(s, i, pc) || s'.threads == Signal(Go(s, i, pc), d, j)
    requires forall a :: Exchanged(s, i, pc, s', a)
    ensures Ownership(s')
  {
    hide Sum, At;
    forall a ensures Balanced(s', a) {
      assert Balanced(s, a) && Exchanged(s, i, pc, s', a);
      ReplaceHeld(s.threads, i, Thread(pc, Running), a);
      SignalHeld(Go(s, i, pc), d, j, a);
    }
  }

  /** What thread i gains on account a, plus what the queues gain, is what becomes due. */
  ghost predicate Exchanged(s: State, i: nat, pc: PC, s': State, a: Account)
    requires i < |s.threads|
  {
    At(pc, a) - At(s.threads[i].pc, a) + Sum(s'.tds, ByTd(a)) - Sum(s.tds, ByTd(a))
      + Sum(s'.jobs, ByJob(a)) - Sum(s.jobs, ByJob(a))
    == Due(s', a) - Due(s, a)
  }

  lemma {:induction false} ModeKeepsOwnership(s: State, i: nat, mode: Mode)
    requires Ownership(s) && i < |s.threads|
    ensures Ownership(s.(threads := s.threads[i := s.threads[i].(mode := mode)]))
  {
    hide Sum, At;
    var s' := s.(threads := s.threads[i := s.threads[i].(mode := mode)]);
    forall a ensures Balanced(s', a) {
      assert Balanced(s, a);
      ReplaceHeld(s.threads, i, s.threads[i].(mode := mode), a);
    }
  }

  // ---------- The steps ----------

  lemma {:induction false} SpuriousKeeps(c: Config, s: State, i: nat, s': State)
    requires Inv(c, s) && Spurious(s, i, s')
    ensures Inv(c, s')
  {
    hide Sum, Ownership;
    WakingKeepsWakeups(c, s, i, s');
    ModeKeepsOwnership(s, i, Woken);
  }

  lemma {:induction false} AcceptKeeps(c: Config, s: State, i: nat, s': State)
    requires Inv(c, s) && Accept(s, i, s')
    ensures Inv(c, s')
  {
    var pc := MGetTd(s.accepted);
    forall a ensures Exchanged(s, i, pc, s', a) {}
    hide Sum, Ownership;
    MoveKeepsOwnership(s, i, pc, TdPoolCond, 0, s');
    RunKeepsWakeups(c, s, i, pc, s');
  }

  lemma {:induction false} GetTdKeeps(c: Config, s: State, i: nat, s': State)
    requires Inv(c, s) && GetTd(c, s, i, s')
    ensures Inv(c, s')
  {
    hide Sum, Ownership, Take;
    EnterHandsOut(s.tp, c.tdCap);
    ResumeHandsOut(s.tp, c.tdCap);
    if s.threads[i].mode == Woken { WokenSeesWaiting(s.threads, i, TdPoolCond); }
    var got := if s.threads[i].mode == Woken then Resume(s.tp) else Enter(s.tp, c.tdCap);
    if got.Wait? {
      SleepKeepsWakeups(c, s, i, TdPoolCond);
      ModeKeepsOwnership(s, i, Asleep);
    } else {
      var pc := MEnqueue(Td(got.id, s.threads[i].pc.client));
      forall a ensures Exchanged(s, i, pc, s', a) {}
      MoveKeepsOwnership(s, i, pc, TdPoolCond, 0, s');
      RunKeepsWakeups(c, s, i, pc, s');
    }
  }

  lemma {:induction false} EnqueueTdKeeps(c: Config, s: State, i: nat, s': State)
    requires Inv(c, s) && EnqueueTd(s, i, s')
    ensures Inv(c, s')
  {
    hide Sum, Ownership;
    var td := s.threads[i].pc.td;
    forall a ensures Exchanged(s, i, MSignal, s', a) {
      SumConcat([td], s.tds, ByTd(a));
      SumOne(td, ByTd(a));
    }
    MoveKeepsOwnership(s, i, MSignal, TdPoolCond, 0, s');
    RunKeepsWakeups(c, s, i, MSignal, s');
  }

  lemma {:induction false} HeadSum<T>(s: seq<T>, f: T -> nat)
    requires s != []
    ensures Sum(s, f) == f(s[0]) + Sum(s[1..], f)
  {
  }

  lemma {:induction false} DequeueTdKeeps(c: Config, s: State, i: nat, s': State)
    requires Inv(c, s) && DequeueTd(s, i, s')
    ensures Inv(c, s')
  {
    hide Sum, Ownership;
    if s.tds == [] {
      SleepKeepsWakeups(c, s, i, TdListCond);
      ModeKeepsOwnership(s, i, Asleep);
    } else {
      var pc := RGetInput(s.tds[0]);
      forall a ensures Exchanged(s, i, pc, s', a) {
        HeadSum(s.tds, ByTd(a));
      }
      MoveKeepsOwnership(s, i, pc, TdPoolCond, 0, s');
      RunKeepsWakeups(c, s, i, pc, s');
    }
  }

  lemma {:induction false} EnqueueJobKeeps(c: Config, s: State, i: nat, s': State)
    requires Inv(c, s) && EnqueueJob(s, i, s')
    ensures Inv(c, s')
  {
    hide Sum, Ownership;
    var pc := RJoinHanded(s.threads[i].pc.input);
    var job := s.threads[i].pc.job;
    forall a ensures Exchanged(s, i, pc, s', a) {
      SumConcat(s.jobs, [job], ByJob(a));
      SumOne(job, ByJob(a));
    }
    MoveKeepsOwnership(s, i, pc, TdPoolCond, 0, s');
    RunKeepsWakeups(c, s, i, pc, s');
  }

  lemma {:induction false} DequeueJobKeeps(c: Config, s: State, i: nat, s': State)
    requires Inv(c, s) && DequeueJob(s, i, s')
    ensures Inv(c, s')
  {
    hide Sum, Ownership;
    if s.jobs == [] {
      SleepKeepsWakeups(c, s, i, JobQueueCond);
      ModeKeepsOwnership(s, i, Asleep);
    } else {
      var pc := WProcess(s.jobs[0]);
      forall a ensures Exchanged(s, i, pc, s', a) {
        HeadSum(s.jobs, ByJob(a));
      }
      MoveKeepsOwnership(s, i, pc, TdPoolCond, 0, s');
      RunKeepsWakeups(c, s, i, pc, s');
    }
  }

  /** Taking a buffer adds it, and only it, to what the thread holds. */
  lemma {:induction false} WithBufferHolds(pc: PC, id: nat, a: Account)
    requires WantsBuffer(pc)
    ensures At(WithBuffer(pc, id), a) - At(pc, a)
         == match a case BufferAcc(b) => One(id, b) case BuffersAcc => 1 case _ => 0
  {
  }

  /** Giving a buffer back takes it, and only it, from what the thread holds. */
  lemma {:induction false} WithoutBufferHolds(pc: PC, a: Account)
    requires ReturnsBuffer(pc)
    ensures At(pc, a) - At(WithoutBuffer(pc), a)
         == match a case BufferAcc(b) => One(ReturnedBuffer(pc), b) case BuffersAcc => 1 case _ => 0
  {
  }

  lemma {:induction false} NoSignalAround(pc: PC, d: Cond, mode: Mode)
    ensures WantsBuffer(pc) ==> SignalDue(d)(Thread(pc, mode)) == 0
    ensures WantsBuffer(pc) ==> forall id :: SignalDue(d)(Thread(WithBuffer(pc, id), Running)) == 0
    ensures ReturnsBuffer(pc) ==> SignalDue(d)(Thread(WithoutBuffer(pc), Running)) == SignalDue(d)(Thread(pc, mode))
    ensures ReturnsBuffer(pc) ==> WokenOn(d)(Thread(pc, mode)) == 0
  {
  }

  lemma {:induction false} GotBufferKeepsOwnership(s: State, i: nat, got: GetResult, s': State)
    requires Ownership(s) && i < |s.threads| && WantsBuffer(s.threads[i].pc) && got.Got?
    requires got.pool.inuse == s.bp.inuse + 1
    requires forall id :: Uses(got.pool, id) == Uses(s.bp, id) + One(got.id, id)
    requires s' == s.(bp := got.pool, threads := Go(s, i, WithBuffer(s.threads[i].pc, got.id)))
    ensures Ownership(s')
  {
    hide Sum, At, Ownership;
    var pc := s.threads[i].pc;
    forall a ensures Exchanged(s, i, WithBuffer(pc, got.id), s', a) {
      WithBufferHolds(pc, got.id, a);
    }
    MoveKeepsOwnership(s, i, WithBuffer(pc, got.id), TdPoolCond, 0, s');
  }

  lemma {:induction false} GetBufferKeeps(c: Config, s: State, i: nat, s': State)
    requires Inv(c, s) && GetBuffer(c, s, i, s')
    ensures Inv(c, s')
  {
    hide Sum, Ownership, Take;
    EnterHandsOut(s.bp, c.bufCap);
    ResumeHandsOut(s.bp, c.bufCap);
    var t := s.threads[i];
    if t.mode == Woken { WokenSeesWaiting(s.threads, i, BufPoolCond); }
    var got := if t.mode == Woken then Resume(s.bp) else Enter(s.bp, c.bufCap);
    if got.Wait? {
      SleepKeepsWakeups(c, s, i, BufPoolCond);
      ModeKeepsOwnership(s, i, Asleep);
    } else {
      GotBufferKeepsOwnership(s, i, got, s');
      forall d { NoSignalAround(t.pc, d, t.mode); }
      RunKeepsWakeups(c, s, i, WithBuffer(t.pc, got.id), s');
    }
  }

  lemma {:induction false} LocalHolds(pc: PC, next: PC, a: Account)
    requires LocalStep(pc, next)
    ensures At(next, a) == At(pc, a)
  {
  }

  lemma {:induction false} LocalKeeps(c: Config, s: State, i: nat, next: PC, s': State)
    requires Inv(c, s) && Local(s, i, next, s')
    ensures Inv(c, s')
  {
    hide Sum, Ownership, At;
    forall a ensures Exchanged(s, i, next, s', a) {
      LocalHolds(s.threads[i].pc, next, a);
    }
    MoveKeepsOwnership(s, i, next, TdPoolCond, 0, s');
    RunKeepsWakeups(c, s, i, next, s');
  }

  lemma {:induction false} CloseKeeps(c: Config, s: State, i: nat, s': State)
    requires Inv(c, s) && Close(s, i, s')
    ensures Inv(c, s')
  {
    hide Sum, Ownership;
    var pc := s.threads[i].pc;
    forall a ensures Exchanged(s, i, AfterClose(pc), s', a) {
      if a.ClientAcc? {
        SumConcat(s.closed, [ClosedClient(pc)], Same(a.client));
        SumOne(ClosedClient(pc), Same(a.client));
      }
    }
    MoveKeepsOwnership(s, i, AfterClose(pc), TdPoolCond, 0, s');
    RunKeepsWakeups(c, s, i, AfterClose(pc), s');
  }

  lemma {:induction false} SignalReadersKeeps(c: Config, s: State, i: nat, j: nat, s': State)
    requires Inv(c, s) && SignalReaders(s, i, j, s')
    ensures Inv(c, s')
  {
    hide Sum, Ownership;
    forall a ensures Exchanged(s, i, MAccept, s', a) {}
    MoveKeepsOwnership(s, i, MAccept, TdListCond, j, s');
    SignalKeepsWakeups(c, s, i, MAccept, TdListCond, j, s');
  }

  lemma {:induction false} SignalWorkersKeeps(c: Config, s: State, i: nat, j: nat, s': State)
    requires Inv(c, s) && SignalWorkers(s, i, j, s')
    ensures Inv(c, s')
  {
    hide Sum, Ownership;
    forall a ensures Exchanged(s, i, RDequeue, s', a) {}
    MoveKeepsOwnership(s, i, RDequeue, JobQueueCond, j, s');
    SignalKeepsWakeups(c, s, i, RDequeue, JobQueueCond, j, s');
  }

  lemma {:induction false} ReturnBufferKeeps(c: Config, s: State, i: nat, j: nat, s': State)
    requires Inv(c, s) && ReturnBuffer(s, i, j, s')
    ensures Inv(c, s')
  {
    var pc := s.threads[i].pc;
    JoinGivesBack(s.bp, c.bufCap, ReturnedBuffer(pc));
    hide Sum, Ownership, At, Join;
    forall a ensures Exchanged(s, i, WithoutBuffer(pc), s', a) {
      WithoutBufferHolds(pc, a);
    }
    MoveKeepsOwnership(s, i, WithoutBuffer(pc), BufPoolCond, j, s');
    forall d { NoSignalAround(pc, d, s.threads[i].mode); }
    SignalKeepsWakeups(c, s, i, WithoutBuffer(pc), BufPoolCond, j, s');
  }

  /** Giving the thread_data back leaves the thread with nothing. */
  lemma {:induction false} WithoutTdHolds(pc: PC, next: PC, a: Account)
    requires ReturnsTd(pc) && (next.RDequeue? || next.WDequeue?)
    ensures At(pc, a) - At(next, a) == match a case TdAcc(t) => One(pc.td.id, t) case TdsAcc => 1 case _ => 0
  {
  }

  lemma {:induction false} ReturnTdKeeps(c: Config, s: State, i: nat, j: nat, s': State)
    requires Inv(c, s) && ReturnTd(s, i, j, s')
    ensures Inv(c, s')
  {
    var pc := s.threads[i].pc;
    var next := if pc.RJoinTd? then RDequeue else WDequeue;
    JoinGivesBack(s.tp, c.tdCap, pc.td.id);
    hide Sum, Ownership, At, Join;
    forall a ensures Exchanged(s, i, next, s', a) {
      WithoutTdHolds(pc, next, a);
    }
    MoveKeepsOwnership(s, i, next, TdPoolCond, j, s');
    SignalKeepsWakeups(c, s, i, next, TdPoolCond, j, s');
  }

  /** Whatever one thread does, the invariant survives. */
  lemma {:induction false} ThreadStepKeeps(c: Config, s: State, i: nat, s': State)
    requires Inv(c, s) && ThreadStep(c, s, i, s')
    ensures Inv(c, s')
  {
    hide Inv, GetTd, EnqueueTd, DequeueTd, GetBuffer, Close, EnqueueJob, DequeueJob, Local;
    hide SignalReaders, ReturnBuffer, ReturnTd, SignalWorkers;
    if GetTd(c, s, i, s') {
      GetTdKeeps(c, s, i, s');
    } else if EnqueueTd(s, i, s') {
      EnqueueTdKeeps(c, s, i, s');
    } else if DequeueTd(s, i, s') {
      DequeueTdKeeps(c, s, i, s');
    } else if GetBuffer(c, s, i, s') {
      GetBufferKeeps(c, s, i, s');
    } else if Close(s, i, s') {
      CloseKeeps(c, s, i, s');
    } else if EnqueueJob(s, i, s') {
      EnqueueJobKeeps(c, s, i, s');
    } else if DequeueJob(s, i, s') {
      DequeueJobKeeps(c, s, i, s');
    } else if next :| Local(s, i, next, s') {
      LocalKeeps(c, s, i, next, s');
    } else {
      var j :| SignallingStep(s, i, j, s');
      if SignalReaders(s, i, j, s') {
        SignalReadersKeeps(c, s, i, j, s');
      } else if ReturnBuffer(s, i, j, s') {
        ReturnBufferKeeps(c, s, i, j, s');
      } else if ReturnTd(s, i, j, s') {
        ReturnTdKeeps(c, s, i, j, s');
      } else {
        SignalWorkersKeeps(c, s, i, j, s');
      }
    }
  }

  lemma {:induction false} NextKeeps(c: Config, s: State, s': State)
    requires Inv(c, s) && Next(c, s, s')
    ensures Inv(c, s')
  {
    hide Inv, Accept, ThreadStep, Spurious;
    var i :| Accept(s, i, s') || ThreadStep(c, s, i, s') || Spurious(s, i, s');
    if Accept(s, i, s') {
      AcceptKeeps(c, s, i, s');
    } else if Spurious(s, i, s') {
      SpuriousKeeps(c, s, i, s');
    } else {
      ThreadStepKeeps(c, s, i, s');
    }
  }

  lemma {:induction false} RepeatIdle(pc: PC, n: nat)
    requires pc.RDequeue? || pc.WDequeue?
    ensures |Repeat(pc, n)| == n && forall t :: t in Repeat(pc, n) ==> t == Thread(pc, Running)
  {
    if n > 0 {
      RepeatIdle(pc, n - 1);
    }
  }

  lemma {:induction false} IdleCounts(ts: seq<Thread>, c: Cond, a: Account)
    requires forall t :: t in ts ==> t.mode == Running && (t.pc.MAccept? || t.pc.RDequeue? || t.pc.WDequeue?)
    ensures Sum(ts, ByThread(a)) == 0 && Sum(ts, SleeperOn(c)) == 0 && Sum(ts, WokenOn(c)) == 0
  {
    SumZero(ts, ByThread(a));
    SumZero(ts, SleeperOn(c));
    SumZero(ts, WokenOn(c));
  }

  lemma {:induction false} EmptySum<T>(f: T -> nat)
    ensures Sum([], f) == 0
  {
  }

  /** A server whose threads are all between requests and whose pools are full is balanced. */
  lemma {:induction false} IdleBalanced(s: State, a: Account)
    requires forall t :: t in s.threads ==> t.mode == Running && (t.pc.MAccept? || t.pc.RDequeue? || t.pc.WDequeue?)
    requires s.tds == [] && s.jobs == [] && s.closed == [] && s.accepted == 0
    requires s.tp.inuse == s.bp.inuse == 0
    requires forall id :: Uses(s.tp, id) == 0 && Uses(s.bp, id) == 0
    ensures Balanced(s, a)
  {
    hide Sum, Uses;
    IdleCounts(s.threads, TdPoolCond, a);
    EmptySum<Td>(ByTd(a));
    EmptySum<Job>(ByJob(a));
    if a.ClientAcc? { EmptySum<nat>(Same(a.client)); }
  }

  lemma {:induction false} InitShape(c: Config)
    ensures |Init(c).threads| == 1 + c.readers + c.workers
    ensures forall t :: t in Init(c).threads ==> t.mode == Running && (t.pc.MAccept? || t.pc.RDequeue? || t.pc.WDequeue?)
  {
    RepeatIdle(RDequeue, c.readers);
    RepeatIdle(WDequeue, c.workers);
  }

  lemma {:induction false} InitHolds(c: Config)
    requires ValidConfig(c)
    ensures Inv(c, Init(c))
  {
    hide Repeat, Sum, Uses, WellFormed, PoolSpec.INITIAL, Grown;
    InitialIsValid(c.tdCap);
    InitialIsValid(c.bufCap);
    InitShape(c);
    var s := Init(c);
    forall a ensures Balanced(s, a) {
      IdleBalanced(s, a);
    }
    IdleCounts(s.threads, TdPoolCond, TdsAcc);
    IdleCounts(s.threads, TdListCond, TdsAcc);
    IdleCounts(s.threads, JobQueueCond, TdsAcc);
    IdleCounts(s.threads, BufPoolCond, TdsAcc);
  }
}
