/** In which order work is taken: jobs first in, first out, thread_data newest first. The history is read
    off the threads alone, from where they were and where they are after each step. */
module PipelineOrder {
  import opened PoolSpec
  import opened Pipeline
  import opened PipelineSteps
  import opened PipelineTheorems

  // ---------- What a step hands on ----------

  /** A reader that goes on from handing a job over has handed it over. */
  function HandedBy(pc: PC, next: PC): seq<Job> {
    if pc.REnqueue? && next.RJoinHanded? then [pc.job] else []
  }

  /** A worker that starts to process a job has taken it. */
  function TakenBy(pc: PC, next: PC): seq<Job> {
    if pc.WDequeue? && next.WProcess? then [next.job] else []
  }

  /** Main has listed a thread_data; a reader has taken one. */
  function ListedBy(pc: PC, next: PC): seq<Td> {
    if pc.MEnqueue? && next.MSignal? then [pc.td] else []
  }

  function PickedBy(pc: PC, next: PC): seq<Td> {
    if pc.RDequeue? && next.RGetInput? then [next.td] else []
  }

  /** Over all threads. */
  function Gather<T>(ts: seq<Thread>, ts': seq<Thread>, f: (PC, PC) -> seq<T>): seq<T> {
    if ts == [] || ts' == [] then [] else f(ts[0].pc, ts'[0].pc) + Gather(ts[1..], ts'[1..], f)
  }

  lemma {:induction false} GatherNone<T>(ts: seq<Thread>, ts': seq<Thread>, f: (PC, PC) -> seq<T>)
    requires |ts| == |ts'| && forall k :: 0 <= k < |ts| ==> f(ts[k].pc, ts'[k].pc) == []
    ensures Gather(ts, ts', f) == []
  {
    if ts != [] {
      assert forall k :: 0 <= k < |ts| - 1 ==> ts[1..][k] == ts[k + 1] && ts'[1..][k] == ts'[k + 1];
      GatherNone(ts[1..], ts'[1..], f);
    }
  }

  lemma {:induction false} GatherOne<T>(ts: seq<Thread>, ts': seq<Thread>, f: (PC, PC) -> seq<T>, i: nat)
    requires i < |ts| == |ts'| && forall k :: 0 <= k < |ts| && k != i ==> f(ts[k].pc, ts'[k].pc) == []
    ensures Gather(ts, ts', f) == f(ts[i].pc, ts'[i].pc)
  {
    assert forall k :: 0 <= k < |ts| - 1 ==> ts[1..][k] == ts[k + 1] && ts'[1..][k] == ts'[k + 1];
    if i == 0 {
      GatherNone(ts[1..], ts'[1..], f);
      assert f(ts[0].pc, ts'[0].pc) + [] == f(ts[0].pc, ts'[0].pc);
    } else {
      GatherOne(ts[1..], ts'[1..], f, i - 1);
      assert [] + f(ts[i].pc, ts'[i].pc) == f(ts[i].pc, ts'[i].pc);
    }
  }

  // ---------- Every step ----------

  /** Only thread i goes on. */
  ghost predicate OnlyMoves(s: State, i: nat, s': State) {
    && i < |s.threads| == |s'.threads|
    && forall k :: 0 <= k < |s.threads| && k != i ==> s'.threads[k].pc == s.threads[k].pc
  }

  /** What it hands on joins the end of the queue or the head of the list; what it takes comes off the
      head of either. */
  ghost predicate KeepsOrder(s: State, i: nat, s': State) {
    && OnlyMoves(s, i, s')
    && var pc, next := s.threads[i].pc, s'.threads[i].pc;
       && s.jobs + HandedBy(pc, next) == TakenBy(pc, next) + s'.jobs
       && ListedBy(pc, next) + s.tds == PickedBy(pc, next) + s'.tds
  }

  lemma {:induction false} SignallingOrder(s: State, i: nat, j: nat, s': State)
    requires SignallingStep(s, i, j, s')
    ensures KeepsOrder(s, i, s')
  {
    hide Join, SignalTarget;
    assert s'.jobs == s.jobs && s'.tds == s.tds;
    assert OnlyMoves(s, i, s');
    var pc, next := s.threads[i].pc, s'.threads[i].pc;
    assert HandedBy(pc, next) == [] && TakenBy(pc, next) == [] && ListedBy(pc, next) == [] && PickedBy(pc, next) == [];
    NothingMoved(s.jobs);
    NothingMoved(s.tds);
  }

  lemma {:induction false} NothingMoved<T>(s: seq<T>)
    ensures s + [] == [] + s == s
  {
  }

  lemma {:induction false} QueueOrder(s: State, i: nat, s': State)
    requires EnqueueJob(s, i, s') || DequeueJob(s, i, s')
    ensures KeepsOrder(s, i, s')
  {
    NothingMoved(s.jobs);
    NothingMoved(s'.jobs);
    NothingMoved(s.tds);
    assert OnlyMoves(s, i, s');
  }

  lemma {:induction false} ListOrder(s: State, i: nat, s': State)
    requires EnqueueTd(s, i, s') || DequeueTd(s, i, s')
    ensures KeepsOrder(s, i, s')
  {
    NothingMoved(s.jobs);
    NothingMoved(s'.tds);
    NothingMoved(s.tds);
    assert OnlyMoves(s, i, s');
  }

  lemma {:induction false} OtherOrder(c: Config, s: State, i: nat, next: PC, s': State)
    requires GetTd(c, s, i, s') || GetBuffer(c, s, i, s') || Close(s, i, s') || Local(s, i, next, s')
    ensures KeepsOrder(s, i, s')
  {
    hide Enter, Resume;
    NothingMoved(s.jobs);
    NothingMoved(s.tds);
    assert OnlyMoves(s, i, s') && s'.jobs == s.jobs && s'.tds == s.tds;
  }

  lemma {:induction false} ThreadStepOrder(c: Config, s: State, i: nat, s': State)
    requires ThreadStep(c, s, i, s')
    ensures KeepsOrder(s, i, s')
  {
    hide SignallingStep, KeepsOrder, GetTd, GetBuffer, Close, Local, EnqueueTd, DequeueTd, EnqueueJob, DequeueJob;
    if EnqueueJob(s, i, s') || DequeueJob(s, i, s') {
      QueueOrder(s, i, s');
    } else if EnqueueTd(s, i, s') || DequeueTd(s, i, s') {
      ListOrder(s, i, s');
    } else if j :| SignallingStep(s, i, j, s') {
      SignallingOrder(s, i, j, s');
    } else if next :| Local(s, i, next, s') {
      OtherOrder(c, s, i, next, s');
    } else {
      OtherOrder(c, s, i, MAccept, s');
    }
  }

  // ---------- Histories ----------

  /** The jobs handed over, and those taken, in the first k steps of a run. */
  function HandedOver(run: seq<State>, k: nat): seq<Job>
    requires k < |run|
  {
    if k == 0 then [] else HandedOver(run, k - 1) + Gather(run[k - 1].threads, run[k].threads, HandedBy)
  }

  function TakenUp(run: seq<State>, k: nat): seq<Job>
    requires k < |run|
  {
    if k == 0 then [] else TakenUp(run, k - 1) + Gather(run[k - 1].threads, run[k].threads, TakenBy)
  }

  lemma {:induction false} NextOrder(c: Config, s: State, s': State)
    requires Next(c, s, s')
    ensures s.jobs + Gather(s.threads, s'.threads, HandedBy) == Gather(s.threads, s'.threads, TakenBy) + s'.jobs
    ensures Gather(s.threads, s'.threads, ListedBy) + s.tds == Gather(s.threads, s'.threads, PickedBy) + s'.tds
  {
    hide ThreadStep, Gather;
    var i: nat :| Accept(s, i, s') || ThreadStep(c, s, i, s') || Spurious(s, i, s');
    if ThreadStep(c, s, i, s') {
      ThreadStepOrder(c, s, i, s');
    } else {
      NothingMoved(s.jobs);
      NothingMoved(s.tds);
      assert OnlyMoves(s, i, s');
    }
    GatherOne(s.threads, s'.threads, HandedBy, i);
    GatherOne(s.threads, s'.threads, TakenBy, i);
    GatherOne(s.threads, s'.threads, ListedBy, i);
    GatherOne(s.threads, s'.threads, PickedBy, i);
  }

  lemma {:induction false} Regroup<T>(a: seq<T>, b: seq<T>, c: seq<T>, d: seq<T>, e: seq<T>)
    requires b + c == d + e
    ensures a + b + c == a + d + e
  {
    assert a + b + c == a + (b + c) && a + d + e == a + (d + e);
  }

  lemma {:induction false} HistoryGrows(run: seq<State>, k: nat)
    requires 0 < k < |run|
    ensures HandedOver(run, k) == HandedOver(run, k - 1) + Gather(run[k - 1].threads, run[k].threads, HandedBy)
    ensures TakenUp(run, k) == TakenUp(run, k - 1) + Gather(run[k - 1].threads, run[k].threads, TakenBy)
  {
  }

  /** Main result on jobs: in every run the jobs workers have taken, followed by those in the queue, are the
      jobs readers have handed over, in that order. */
  lemma {:induction false} JobsInOrder(c: Config, run: seq<State>, k: nat)
    requires IsRun(c, run) && k < |run|
    ensures TakenUp(run, k) + run[k].jobs == HandedOver(run, k)
  {
    if k == 0 {
      NothingMoved<Job>([]);
    } else {
      assert StepAt(c, run, k - 1);
      hide Next, Gather, HandedOver, TakenUp;
      HistoryGrows(run, k);
      JobsInOrder(c, run, k - 1);
      NextOrder(c, run[k - 1], run[k]);
      Regroup(TakenUp(run, k - 1), run[k - 1].jobs, Gather(run[k - 1].threads, run[k].threads, HandedBy),
              Gather(run[k - 1].threads, run[k].threads, TakenBy), run[k].jobs);
    }
  }

  // ---------- Newest first ----------

  predicate Newer(tds: seq<Td>) {
    forall i, j :: 0 <= i < j < |tds| ==> tds[i].client > tds[j].client
  }

  /** The client main is about to list, or else the next to be accepted. */
  function Coming(s: State): nat {
    if s.threads == [] then s.accepted
    else match s.threads[0].pc
      case MGetTd(client) => client
      case MEnqueue(td) => td.client
      case _ => s.accepted
  }

  /** Clients are numbered as they are accepted; those on the list stand newest first, all older than
      the one that is coming. */
  ghost predicate NewestFirst(s: State) {
    && Newer(s.tds)
    && (forall td :: td in s.tds ==> td.client < Coming(s))
    && Coming(s) <= s.accepted
    && (|s.threads| > 0 && (s.threads[0].pc.MGetTd? || s.threads[0].pc.MEnqueue?) ==> Coming(s) < s.accepted)
  }

  lemma {:induction false} ComingGrows(c: Config, s: State, s': State)
    requires Staffed(c, s) && Next(c, s, s') && NewestFirst(s)
    ensures s.threads[0].pc.MEnqueue? && s'.threads[0].pc.MSignal? ==> Coming(s) < Coming(s')
    ensures Coming(s) <= Coming(s') <= s'.accepted
    ensures s'.threads[0].pc.MGetTd? || s'.threads[0].pc.MEnqueue? ==> Coming(s') < s'.accepted
    ensures s.threads[0].pc.MEnqueue? ==> s.threads[0].pc.td.client == Coming(s)
    ensures Gather(s.threads, s'.threads, ListedBy) == if s.threads[0].pc.MEnqueue? && s'.threads[0].pc.MSignal? then [s.threads[0].pc.td] else []
  {
    NextKeepsRoles(c, s, s');
    MainMoves(c, s, s');
    PlainRoles();
    hide Next, RoleOf, NewestFirst, Coming;
    GatherOne(s.threads, s'.threads, ListedBy, 0);
  }

  /** What a step does to main. */
  lemma {:induction false} MainMoves(c: Config, s: State, s': State)
    requires Staffed(c, s) && Next(c, s, s') && NewestFirst(s)
    ensures |s'.threads| == |s.threads| > 0
    ensures s.threads[0].pc.MEnqueue? && s'.threads[0].pc.MSignal? ==> Coming(s) < Coming(s')
    ensures Coming(s) <= Coming(s') <= s'.accepted
    ensures s'.threads[0].pc.MGetTd? || s'.threads[0].pc.MEnqueue? ==> Coming(s') < s'.accepted
  {
    hide RoleOf, ThreadStep, Newer;
    var i: nat :| Accept(s, i, s') || ThreadStep(c, s, i, s') || Spurious(s, i, s');
    if Accept(s, i, s') {
      PlainRoles();
    } else if ThreadStep(c, s, i, s') {
      MainSteps(c, s, i, s');
    }
  }

  lemma {:induction false} MainSteps(c: Config, s: State, i: nat, s': State)
    requires ThreadStep(c, s, i, s') && |s.threads| > 0
    ensures |s'.threads| == |s.threads| && s'.accepted == s.accepted
    ensures var pc, next := s.threads[0].pc, s'.threads[0].pc;
            || next == pc
            || (pc.MGetTd? && next.MEnqueue? && next.td.client == pc.client)
            || (pc.MEnqueue? && next.MSignal?) || (!pc.MGetTd? && !pc.MEnqueue? && !next.MGetTd? && !next.MEnqueue?)
  {
    hide SignallingStep, Enter, Resume;
    if j :| SignallingStep(s, i, j, s') {
      MainSignals(s, i, j, s');
    }
  }

  lemma {:induction false} MainSignals(s: State, i: nat, j: nat, s': State)
    requires SignallingStep(s, i, j, s') && |s.threads| > 0
    ensures |s'.threads| == |s.threads| && s'.accepted == s.accepted
    ensures var pc, next := s.threads[0].pc, s'.threads[0].pc;
            next == pc || (!pc.MGetTd? && !pc.MEnqueue? && !next.MGetTd? && !next.MEnqueue?)
  {
    hide Join, SignalTarget;
  }

  lemma {:induction false} InitNewest(c: Config)
    ensures NewestFirst(Init(c))
  {
  }

  lemma {:induction false} NextNewest(c: Config, s: State, s': State)
    requires Staffed(c, s) && Next(c, s, s') && NewestFirst(s)
    ensures NewestFirst(s')
  {
    hide Next, Gather, Staffed, NewestFirst;
    NextOrder(c, s, s');
    ComingGrows(c, s, s');
    HeadKeeps(s, s', Gather(s.threads, s'.threads, ListedBy), Gather(s.threads, s'.threads, PickedBy));
  }

  /** Main result on thread_data: in every run the waiting thread_data stand newest first, and each step
      takes them off and puts them on at the head. */
  lemma {:induction false} ThreadDataNewestFirst(c: Config, run: seq<State>, k: nat)
    requires ValidConfig(c) && IsRun(c, run) && k < |run|
    ensures NewestFirst(run[k])
    ensures k > 0 ==>
              (Gather(run[k - 1].threads, run[k].threads, ListedBy) + run[k - 1].tds
               == Gather(run[k - 1].threads, run[k].threads, PickedBy) + run[k].tds)
  {
    hide Next, Gather, Staffed, NewestFirst, Init;
    if k == 0 {
      InitNewest(c);
    } else {
      assert StepAt(c, run, k - 1);
      ThreadDataNewestFirst(c, run, k - 1);
      RunKeeps(c, run, k - 1);
      NextOrder(c, run[k - 1], run[k]);
      NextNewest(c, run[k - 1], run[k]);
    }
  }

  /** So a reader always gets the client accepted last among those waiting. */
  lemma {:induction false} ReaderGetsNewest(c: Config, run: seq<State>, k: nat, i: nat)
    requires ValidConfig(c) && IsRun(c, run) && 0 < k < |run| && i < |run[k - 1].threads| == |run[k].threads|
    requires run[k - 1].threads[i].pc.RDequeue? && run[k].threads[i].pc.RGetInput?
    ensures run[k - 1].tds == [run[k].threads[i].pc.td] + run[k].tds
    ensures forall td :: td in run[k].tds ==> run[k].threads[i].pc.td.client > td.client
  {
    var s, s' := run[k - 1], run[k];
    ThreadDataNewestFirst(c, run, k - 1);
    assert StepAt(c, run, k - 1);
    TheMover(c, s, s', i);
    assert s.tds == [s'.threads[i].pc.td] + s'.tds;
    forall td | td in s'.tds ensures s'.threads[i].pc.td.client > td.client {
      var j: nat :| j < |s'.tds| && s'.tds[j] == td;
      assert s.tds[j + 1] == td && s.tds[0] == s'.threads[i].pc.td;
    }
  }

  lemma {:induction false} TheMover(c: Config, s: State, s': State, i: nat)
    requires Next(c, s, s') && i < |s.threads| == |s'.threads| && s.threads[i].pc != s'.threads[i].pc
    ensures s.threads[i].pc.RDequeue? && s'.threads[i].pc.RGetInput? ==> s.tds == [s'.threads[i].pc.td] + s'.tds
  {
    hide ThreadStep;
    var j: nat :| Accept(s, j, s') || ThreadStep(c, s, j, s') || Spurious(s, j, s');
    if ThreadStep(c, s, j, s') {
      ThreadStepOrder(c, s, j, s');
      assert j == i;
      assert [] + s.tds == s.tds;
    }
  }

  lemma {:induction false} HeadKeeps(s: State, s': State, listed: seq<Td>, picked: seq<Td>)
    requires NewestFirst(s) && listed + s.tds == picked + s'.tds
    requires listed == [] || (|listed| == 1 && listed[0].client == Coming(s) < Coming(s'))
    requires Coming(s) <= Coming(s') <= s'.accepted
    requires |s'.threads| > 0 && (s'.threads[0].pc.MGetTd? || s'.threads[0].pc.MEnqueue?) ==> Coming(s') < s'.accepted
    ensures NewestFirst(s')
  {
    hide Coming;
    var all := listed + s.tds;
    assert Newer(all);
    assert forall i :: 0 <= i < |s'.tds| ==> s'.tds[i] == all[|picked| + i];
  }

  // ---------- What a thread does with its buffers ----------

  /** The ways reading a request can end: as a query, as a malformed one, or as nothing usable. */
  lemma {:induction false} ReadHasThreeEnds(td: Td, input: nat, next: PC)
    ensures LocalStep(RRead(td, input), next) <==> next == RGetBody(td, input) || next == RGetErr(td, input) || next == RClose(td, input)
  {
  }

  /** The buffers a thread holds, in the order in which it took them. */
  function Taken(pc: PC): seq<nat> {
    match pc
    case RRead(_, input) => [input]
    case RGetErr(_, input) => [input]
    case RGetErrResp(_, input, err) => [input, err]
    case RErrWrite(_, input, err, resp) => [input, err, resp]
    case RJoinErr(_, input, err) => [input, err]
    case RClose(_, input) => [input]
    case RJoinInput(_, input) => [input]
    case RGetBody(_, input) => [input]
    case REnqueue(input, job) => [input, job.body]
    case RJoinHanded(input) => [input]
    case WProcess(job) => [job.body]
    case WGetResp(job) => [job.body]
    case WWrite(job, resp) => [job.body, resp]
    case WClose(job) => [job.body]
    case WJoinBody(job) => [job.body]
    case _ => []
  }

  /** Buffers are given back in the reverse order of taking them, a job is handed over with the one taken
      last, and a client is closed with the reply sent and one buffer, the thread's first, still held. */
  lemma {:induction false} LastTakenFirstReturned(pc: PC, b: nat)
    ensures WantsBuffer(pc) ==> Taken(WithBuffer(pc, b)) == Taken(pc) + [b]
    ensures ReturnsBuffer(pc) ==> Taken(pc) == Taken(WithoutBuffer(pc)) + [ReturnedBuffer(pc)]
    ensures pc.REnqueue? ==> Taken(pc) == Taken(RJoinHanded(pc.input)) + [pc.job.body]
    ensures Closes(pc) ==> |Taken(pc)| == 1 && Taken(AfterClose(pc)) == Taken(pc)
    ensures ReturnsTd(pc) ==> Taken(pc) == []
  {
  }
}
