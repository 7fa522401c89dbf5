/** The running server as a step system: the main thread accepts clients, readers parse
    requests, workers answer them. Every region run under one mutex is one step; a wait on a
    condition variable is split into falling asleep, being woken, and testing again. */
module Pipeline {
  import opened PoolSpec

  /** A thread_data out of its pool, with the client it serves. */
  datatype Td = Td(id: nat, client: nat)

  /** A queued request: its thread_data and the buffer for the reply body. */
  datatype Job = Job(td: Td, body: nat)

  /** Where a thread is, and what it holds there. `input`, `err`, `resp` and `body` are buffers. */
  datatype PC =
    // main: accept, take a thread_data, put it on the list, signal the readers
    | MAccept
    | MGetTd(client: nat)
    | MEnqueue(td: Td)
    | MSignal
    // readers
    | RDequeue
    | RGetInput(td: Td)
    | RRead(td: Td, input: nat)
    | RGetErr(td: Td, input: nat)
    | RGetErrResp(td: Td, input: nat, err: nat)
    | RErrWrite(td: Td, input: nat, err: nat, resp: nat)
    | RJoinErr(td: Td, input: nat, err: nat)
    | RClose(td: Td, input: nat)
    | RJoinInput(td: Td, input: nat)
    | RJoinTd(td: Td)
    | RGetBody(td: Td, input: nat)
    | REnqueue(input: nat, job: Job)
    | RJoinHanded(input: nat)
    | RSignal
    // workers
    | WDequeue
    | WProcess(job: Job)
    | WGetResp(job: Job)
    | WWrite(job: Job, resp: nat)
    | WClose(job: Job)
    | WJoinBody(job: Job)
    | WJoinTd(td: Td)

  datatype Mode = Running | Asleep | Woken

  datatype Thread = Thread(pc: PC, mode: Mode)

  /** The four condition variables. */
  datatype Cond = TdPoolCond | TdListCond | JobQueueCond | BufPoolCond

  datatype Config = Config(readers: nat, workers: nat, tdCap: nat, bufCap: nat)

  datatype State = State(
    threads: seq<Thread>,
    tds: seq<Td>,      // LIFO list between main and the readers
    jobs: seq<Job>,    // FIFO queue between readers and workers
    tp: Pool,
    bp: Pool,
    accepted: nat,     // clients are numbered in order of acceptance
    closed: seq<nat>)  // clients closed so far, in order

  // ---------- What a program counter means ----------

  predicate WantsBuffer(pc: PC) {
    pc.RGetInput? || pc.RGetErr? || pc.RGetErrResp? || pc.RGetBody? || pc.WGetResp?
  }

  function WithBuffer(pc: PC, b: nat): PC
    requires WantsBuffer(pc)
  {
    match pc
    case RGetInput(td) => RRead(td, b)
    case RGetErr(td, input) => RGetErrResp(td, input, b)
    case RGetErrResp(td, input, err) => RErrWrite(td, input, err, b)
    case RGetBody(td, input) => REnqueue(input, Job(td, b))
    case WGetResp(job) => WWrite(job, b)
  }

  predicate ReturnsBuffer(pc: PC) {
    pc.RErrWrite? || pc.RJoinErr? || pc.RJoinInput? || pc.RJoinHanded? || pc.WWrite? || pc.WJoinBody?
  }

  function ReturnedBuffer(pc: PC): nat
    requires ReturnsBuffer(pc)
  {
    match pc
    case RErrWrite(_, _, _, resp) => resp
    case RJoinErr(_, _, err) => err
    case RJoinInput(_, input) => input
    case RJoinHanded(input) => input
    case WWrite(_, resp) => resp
    case WJoinBody(job) => job.body
  }

  function WithoutBuffer(pc: PC): PC
    requires ReturnsBuffer(pc)
  {
    match pc
    case RErrWrite(td, input, err, _) => RJoinErr(td, input, err)
    case RJoinErr(td, input, _) => RClose(td, input)
    case RJoinInput(td, _) => RJoinTd(td)
    case RJoinHanded(_) => RSignal
    case WWrite(job, _) => WClose(job)
    case WJoinBody(job) => WJoinTd(job.td)
  }

  predicate ReturnsTd(pc: PC) {
    pc.RJoinTd? || pc.WJoinTd?
  }

  predicate Closes(pc: PC) {
    pc.RClose? || pc.WClose?
  }

  function ClosedClient(pc: PC): nat
    requires Closes(pc)
  {
    match pc
    case RClose(td, _) => td.client
    case WClose(job) => job.td.client
  }

  function AfterClose(pc: PC): PC
    requires Closes(pc)
  {
    match pc
    case RClose(td, input) => RJoinInput(td, input)
    case WClose(job) => WJoinBody(job)
  }

  /** Steps that touch no shared structure: reading a request ends in one of three ways. */
  predicate LocalStep(pc: PC, next: PC) {
    match pc
    case RRead(td, input) =>
      || next == RGetBody(td, input)  // a query was parsed
      || next == RGetErr(td, input)   // the query is malformed: answer 400
      || next == RClose(td, input)    // nothing usable was read
    case WProcess(job) => next == WGetResp(job)
    case _ => false
  }

  /** The condition variable a thread would wait on at this point. */
  predicate WaitsOn(pc: PC, c: Cond) {
    match c
    case TdPoolCond => pc.MGetTd?
    case TdListCond => pc.RDequeue?
    case JobQueueCond => pc.WDequeue?
    case BufPoolCond => WantsBuffer(pc)
  }

  predicate CanWait(pc: PC) {
    pc.MGetTd? || pc.RDequeue? || pc.WDequeue? || WantsBuffer(pc)
  }

  // ---------- Signals ----------

  predicate AsleepOn(t: Thread, c: Cond) {
    t.mode == Asleep && WaitsOn(t.pc, c)
  }

  /** A signal wakes one sleeper of the chosen condition, j, and is lost when nobody sleeps. */
  ghost predicate SignalTarget(ts: seq<Thread>, c: Cond, j: nat) {
    (exists k :: 0 <= k < |ts| && AsleepOn(ts[k], c)) ==> j < |ts| && AsleepOn(ts[j], c)
  }

  function Signal(ts: seq<Thread>, c: Cond, j: nat): seq<Thread> {
    if j < |ts| && AsleepOn(ts[j], c) then ts[j := ts[j].(mode := Woken)] else ts
  }

  function Go(s: State, i: nat, pc: PC): seq<Thread>
    requires i < |s.threads|
  {
    s.threads[i := Thread(pc, Running)]
  }

  function Sleep(s: State, i: nat): seq<Thread>
    requires i < |s.threads|
  {
    s.threads[i := Thread(s.threads[i].pc, Asleep)]
  }

  // ---------- Steps of thread i; j is the thread a signal wakes ----------

  ghost predicate Awake(s: State, i: nat) {
    i < |s.threads| && s.threads[i].mode != Asleep
  }

  ghost predicate Accept(s: State, i: nat, s': State) {
    && Awake(s, i) && s.threads[i].pc.MAccept?
    && s' == s.(threads := Go(s, i, MGetTd(s.accepted)), accepted := s.accepted + 1)
  }

  ghost predicate GetTd(c: Config, s: State, i: nat, s': State) {
    && Awake(s, i) && s.threads[i].pc.MGetTd?
    && var client := s.threads[i].pc.client;
       var got := if s.threads[i].mode == Woken then Resume(s.tp) else Enter(s.tp, c.tdCap);
       match got
       case Got(p, id) => s' == s.(tp := p, threads := Go(s, i, MEnqueue(Td(id, client))))
       case Wait(p) => s' == s.(tp := p, threads := Sleep(s, i))
       case Nothing(_) => false
  }

  ghost predicate EnqueueTd(s: State, i: nat, s': State) {
    && Awake(s, i) && s.threads[i].pc.MEnqueue?
    && s' == s.(tds := [s.threads[i].pc.td] + s.tds, threads := Go(s, i, MSignal))
  }

  ghost predicate SignalReaders(s: State, i: nat, j: nat, s': State) {
    && Awake(s, i) && s.threads[i].pc.MSignal?
    && var ts := Go(s, i, MAccept);
       SignalTarget(ts, TdListCond, j) && s' == s.(threads := Signal(ts, TdListCond, j))
  }

  ghost predicate DequeueTd(s: State, i: nat, s': State) {
    && Awake(s, i) && s.threads[i].pc.RDequeue?
    && s' == if s.tds == [] then s.(threads := Sleep(s, i))
             else s.(tds := s.tds[1..], threads := Go(s, i, RGetInput(s.tds[0])))
  }

  ghost predicate GetBuffer(c: Config, s: State, i: nat, s': State) {
    && Awake(s, i) && WantsBuffer(s.threads[i].pc)
    && var got := if s.threads[i].mode == Woken then Resume(s.bp) else Enter(s.bp, c.bufCap);
       match got
       case Got(p, id) => s' == s.(bp := p, threads := Go(s, i, WithBuffer(s.threads[i].pc, id)))
       case Wait(p) => s' == s.(bp := p, threads := Sleep(s, i))
       case Nothing(_) => false
  }

  ghost predicate Local(s: State, i: nat, next: PC, s': State) {
    && Awake(s, i) && LocalStep(s.threads[i].pc, next)
    && s' == s.(threads := Go(s, i, next))
  }

  ghost predicate ReturnBuffer(s: State, i: nat, j: nat, s': State) {
    && Awake(s, i) && ReturnsBuffer(s.threads[i].pc)
    && Join(s.bp, ReturnedBuffer(s.threads[i].pc)).Joined?
    && var p := Join(s.bp, ReturnedBuffer(s.threads[i].pc)).pool;
       var ts := Go(s, i, WithoutBuffer(s.threads[i].pc));
       SignalTarget(ts, BufPoolCond, j) && s' == s.(bp := p, threads := Signal(ts, BufPoolCond, j))
  }

  ghost predicate Close(s: State, i: nat, s': State) {
    && Awake(s, i) && Closes(s.threads[i].pc)
    && s' == s.(closed := s.closed + [ClosedClient(s.threads[i].pc)],
                threads := Go(s, i, AfterClose(s.threads[i].pc)))
  }

  ghost predicate ReturnTd(s: State, i: nat, j: nat, s': State) {
    && Awake(s, i) && ReturnsTd(s.threads[i].pc)
    && Join(s.tp, s.threads[i].pc.td.id).Joined?
    && var p := Join(s.tp, s.threads[i].pc.td.id).pool;
       var ts := Go(s, i, if s.threads[i].pc.RJoinTd? then RDequeue else WDequeue);
       SignalTarget(ts, TdPoolCond, j) && s' == s.(tp := p, threads := Signal(ts, TdPoolCond, j))
  }

  ghost predicate EnqueueJob(s: State, i: nat, s': State) {
    && Awake(s, i) && s.threads[i].pc.REnqueue?
    && s' == s.(jobs := s.jobs + [s.threads[i].pc.job], threads := Go(s, i, RJoinHanded(s.threads[i].pc.input)))
  }

  ghost predicate SignalWorkers(s: State, i: nat, j: nat, s': State) {
    && Awake(s, i) && s.threads[i].pc.RSignal?
    && var ts := Go(s, i, RDequeue);
       SignalTarget(ts, JobQueueCond, j) && s' == s.(threads := Signal(ts, JobQueueCond, j))
  }

  ghost predicate DequeueJob(s: State, i: nat, s': State) {
    && Awake(s, i) && s.threads[i].pc.WDequeue?
    && s' == if s.jobs == [] then s.(threads := Sleep(s, i))
             else s.(jobs := s.jobs[1..], threads := Go(s, i, WProcess(s.jobs[0])))
  }

  ghost predicate Spurious(s: State, i: nat, s': State) {
    && i < |s.threads| && s.threads[i].mode == Asleep
    && s' == s.(threads := s.threads[i := s.threads[i].(mode := Woken)])
  }

  /** One step of thread i, other than accepting a client. */
  ghost predicate ThreadStep(c: Config, s: State, i: nat, s': State) {
    || GetTd(c, s, i, s')
    || EnqueueTd(s, i, s')
    || DequeueTd(s, i, s')
    || GetBuffer(c, s, i, s')
    || Close(s, i, s')
    || EnqueueJob(s, i, s')
    || DequeueJob(s, i, s')
    || (exists next :: Local(s, i, next, s'))
    || (exists j :: SignallingStep(s, i, j, s'))
  }

  ghost predicate SignallingStep(s: State, i: nat, j: nat, s': State) {
    || SignalReaders(s, i, j, s')
    || ReturnBuffer(s, i, j, s')
    || ReturnTd(s, i, j, s')
    || SignalWorkers(s, i, j, s')
  }

  ghost predicate Next(c: Config, s: State, s': State) {
    exists i :: Accept(s, i, s') || ThreadStep(c, s, i, s') || Spurious(s, i, s')
  }

  function Repeat(pc: PC, n: nat): seq<Thread> {
    if n == 0 then [] else [Thread(pc, Running)] + Repeat(pc, n - 1)
  }

  function Init(c: Config): State {
    State([Thread(MAccept, Running)] + Repeat(RDequeue, c.readers) + Repeat(WDequeue, c.workers),
          [], [], PoolSpec.INITIAL, PoolSpec.INITIAL, 0, [])
  }

  ghost predicate ValidConfig(c: Config) {
    ValidCap(c.tdCap) && ValidCap(c.bufCap)
  }

  ghost predicate StepAt(c: Config, run: seq<State>, k: nat) {
    k < |run| - 1 && Next(c, run[k], run[k + 1])
  }

  /** A finite history of the server. */
  ghost predicate IsRun(c: Config, run: seq<State>) {
    && |run| > 0 && run[0] == Init(c)
    && forall k :: 0 <= k < |run| - 1 ==> StepAt(c, run, k)
  }
}
