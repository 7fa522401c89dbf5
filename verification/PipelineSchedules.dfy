/** Schedules of the server built step by step, in which nobody goes to sleep: what main and a reader
    do for one client, and for many. */
module PipelineSchedules {
  import opened Sums
  import opened PoolSpec
  import opened Pipeline
  import opened PipelineInvariant
  import opened PipelineSteps
  import opened PipelineTheorems

  ghost predicate ReachedIn(c: Config, s: State, n: nat)
    decreases n
  {
    if n == 0 then s == Init(c) else exists p :: ReachedIn(c, p, n - 1) && Next(c, p, s)
  }

  ghost predicate Reachable(c: Config, s: State) {
    exists n: nat :: ReachedIn(c, s, n)
  }

  /** A state reached in n steps ends a run of that length. */
  lemma {:induction false} RunOf(c: Config, s: State, n: nat) returns (run: seq<State>)
    requires ReachedIn(c, s, n)
    ensures IsRun(c, run) && |run| == n + 1 && run[n] == s
    decreases n
  {
    hide Next;
    if n == 0 {
      return [s];
    }
    var p :| ReachedIn(c, p, n - 1) && Next(c, p, s);
    var before := RunOf(c, p, n - 1);
    run := before + [s];
    forall k | 0 <= k < |run| - 1 ensures StepAt(c, run, k) {
      if k < |before| - 1 { assert StepAt(c, before, k); }
    }
  }

  predicate AllRunning(ts: seq<Thread>) {
    forall t :: t in ts ==> t.mode == Running
  }

  /** A reachable state in which nobody has gone to sleep. */
  ghost predicate Live(c: Config, s: State) {
    ValidConfig(c) && Reachable(c, s) && AllRunning(s.threads)
  }

  lemma {:induction false} RunTo(c: Config, s: State) returns (run: seq<State>)
    requires ValidConfig(c) && Reachable(c, s)
    ensures IsRun(c, run) && run[|run| - 1] == s && Inv(c, s) && Staffed(c, s)
  {
    hide Inv, Staffed, Next;
    var n: nat :| ReachedIn(c, s, n);
    run := RunOf(c, s, n);
    RunKeeps(c, run, n);
  }

  lemma {:induction false} StartsLive(c: Config)
    requires ValidConfig(c)
    ensures Live(c, Init(c))
  {
    hide Next;
    assert ReachedIn(c, Init(c), 0);
    RepeatIdle(RDequeue, c.readers);
    RepeatIdle(WDequeue, c.workers);
  }

  lemma {:induction false} Follow(c: Config, s: State, i: nat, s': State)
    requires Reachable(c, s) && (Accept(s, i, s') || ThreadStep(c, s, i, s'))
    ensures Reachable(c, s')
  {
    hide ThreadStep, Accept;
    assert Next(c, s, s');
    hide Next;
    var n: nat :| ReachedIn(c, s, n);
    assert ReachedIn(c, s', n + 1);
  }

  /** One more step of thread i, to pc, after which still nobody sleeps. */
  lemma {:induction false} Goes(c: Config, s: State, i: nat, pc: PC, s': State)
    requires Live(c, s) && i < |s.threads| && s'.threads == Go(s, i, pc)
    requires Accept(s, i, s') || ThreadStep(c, s, i, s')
    ensures Live(c, s')
  {
    hide ThreadStep, Accept, Reachable;
    Follow(c, s, i, s');
  }

  // ---------- Single steps ----------

  lemma {:induction false} Takes(c: Config, s: State, i: nat) returns (id: nat, s': State)
    requires Live(c, s) && i < |s.threads| && WantsBuffer(s.threads[i].pc) && s.bp.inuse < c.bufCap
    ensures Live(c, s') && s' == s.(bp := s'.bp, threads := Go(s, i, WithBuffer(s.threads[i].pc, id)))
    ensures s'.bp.inuse == s.bp.inuse + 1
  {
    hide Reachable, Sum, Enter, WithBuffer;
    var pc := s.threads[i].pc;
    assert s.threads[i] in s.threads;
    var _ := RunTo(c, s);
    EnterHandsOut(s.bp, c.bufCap);
    var got := Enter(s.bp, c.bufCap);
    id := got.id;
    s' := s.(bp := got.pool, threads := Go(s, i, WithBuffer(pc, id)));
    assert GetBuffer(c, s, i, s');
    Goes(c, s, i, WithBuffer(pc, id), s');
  }

  lemma {:induction false} GivesBack(c: Config, s: State, i: nat) returns (s': State)
    requires Live(c, s) && i < |s.threads| && ReturnsBuffer(s.threads[i].pc)
    ensures Live(c, s') && s' == s.(bp := s'.bp, threads := Go(s, i, WithoutBuffer(s.threads[i].pc)))
    ensures s'.bp.inuse == s.bp.inuse - 1
  {
    hide Reachable, Sum, Join, WithoutBuffer, ReturnedBuffer;
    var pc := s.threads[i].pc;
    assert s.threads[i] in s.threads;
    var _ := RunTo(c, s);
    JoinNeverAborts(c, s, i);
    JoinGivesBack(s.bp, c.bufCap, ReturnedBuffer(pc));
    var ts := Go(s, i, WithoutBuffer(pc));
    s' := s.(bp := Join(s.bp, ReturnedBuffer(pc)).pool, threads := ts);
    assert ReturnBuffer(s, i, 0, s');
    assert SignallingStep(s, i, 0, s');
    Goes(c, s, i, WithoutBuffer(pc), s');
  }

  lemma {:induction false} Signals(c: Config, s: State, i: nat) returns (s': State)
    requires Live(c, s) && i < |s.threads| && (s.threads[i].pc.RSignal? || s.threads[i].pc.MSignal?)
    ensures Live(c, s') && s' == s.(threads := Go(s, i, if s.threads[i].pc.RSignal? then RDequeue else MAccept))
  {
    hide Reachable;
    var next := if s.threads[i].pc.RSignal? then RDequeue else MAccept;
    assert s.threads[i] in s.threads;
    var ts := Go(s, i, next);
    s' := s.(threads := ts);
    assert if next.RDequeue? then SignalWorkers(s, i, 0, s') else SignalReaders(s, i, 0, s');
    assert SignallingStep(s, i, 0, s');
    Goes(c, s, i, next, s');
  }

  // ---------- Whole passages ----------

  /** Main accepts a client and puts it on the list. */
  lemma {:induction false} Admits(c: Config, s: State) returns (s': State)
    requires Live(c, s) && |s.threads| > 0 && s.threads[0].pc.MAccept? && s.tp.inuse < c.tdCap
    ensures Live(c, s') && s'.threads == s.threads && s'.jobs == s.jobs && s'.bp == s.bp
    ensures |s'.tds| == |s.tds| + 1 && s'.tp.inuse == s.tp.inuse + 1
  {
    hide Reachable, Sum, Enter;
    var _ := RunTo(c, s);
    assert s.threads[0] in s.threads;
    var s1 := s.(threads := Go(s, 0, MGetTd(s.accepted)), accepted := s.accepted + 1);
    assert Accept(s, 0, s1);
    Goes(c, s, 0, MGetTd(s.accepted), s1);
    EnterHandsOut(s1.tp, c.tdCap);
    var got := Enter(s1.tp, c.tdCap);
    var td := Td(got.id, s.accepted);
    var s2 := s1.(tp := got.pool, threads := Go(s1, 0, MEnqueue(td)));
    assert GetTd(c, s1, 0, s2);
    Goes(c, s1, 0, MEnqueue(td), s2);
    var s3 := s2.(tds := [td] + s2.tds, threads := Go(s2, 0, MSignal));
    assert EnqueueTd(s2, 0, s3);
    Goes(c, s2, 0, MSignal, s3);
    s' := Signals(c, s3, 0);
    assert s'.threads == s.threads;
  }

  /** Reader i takes a thread_data and reads a request, which is a query or a malformed one. */
  lemma {:induction false} Reads(c: Config, s: State, i: nat, malformed: bool) returns (td: Td, input: nat, s': State)
    requires Live(c, s) && i < |s.threads| && s.threads[i].pc.RDequeue? && s.tds != [] && s.bp.inuse < c.bufCap
    ensures Live(c, s') && s'.bp.inuse == s.bp.inuse + 1
    ensures s' == s.(tds := s.tds[1..], bp := s'.bp, threads := Go(s, i, if malformed then RGetErr(td, input) else RGetBody(td, input)))
  {
    hide Reachable;
    assert s.threads[i] in s.threads;
    td := s.tds[0];
    var s1 := s.(tds := s.tds[1..], threads := Go(s, i, RGetInput(td)));
    assert DequeueTd(s, i, s1);
    Goes(c, s, i, RGetInput(td), s1);
    var s2;
    input, s2 := Takes(c, s1, i);
    var next := if malformed then RGetErr(td, input) else RGetBody(td, input);
    s' := s2.(threads := Go(s2, i, next));
    assert Local(s2, i, next, s');
    Goes(c, s2, i, next, s');
  }

  /** Reader i parses a query and hands it over. */
  lemma {:induction false} HandsOver(c: Config, s: State, i: nat) returns (s': State)
    requires Live(c, s) && i < |s.threads| && s.threads[i].pc.RDequeue? && s.tds != [] && s.bp.inuse + 2 <= c.bufCap
    ensures Live(c, s') && s'.threads == s.threads && s'.tp == s.tp
    ensures |s'.tds| == |s.tds| - 1 && |s'.jobs| == |s.jobs| + 1 && s'.bp.inuse == s.bp.inuse + 1
  {
    assert s.threads[i] in s.threads;
    assert s.threads[i] == Thread(RDequeue, Running);
    hide Reachable;
    var td, input, s1 := Reads(c, s, i, false);
    var body, s2 := Takes(c, s1, i);
    var job := Job(td, body);
    var s3 := s2.(jobs := s2.jobs + [job], threads := Go(s2, i, RJoinHanded(input)));
    assert EnqueueJob(s2, i, s3);
    Goes(c, s2, i, RJoinHanded(input), s3);
    hide Live;
    var s4 := GivesBack(c, s3, i);
    s' := Signals(c, s4, i);
    assert s'.threads == s.threads;
  }

  lemma {:induction false} AdmitsAll(c: Config, s: State, n: nat) returns (s': State)
    requires Live(c, s) && |s.threads| > 0 && s.threads[0].pc.MAccept? && s.tp.inuse + n <= c.tdCap
    ensures Live(c, s') && s'.threads == s.threads && s'.jobs == s.jobs && s'.bp == s.bp
    ensures |s'.tds| == |s.tds| + n
    decreases n
  {
    hide Live;
    s' := s;
    if n > 0 {
      var s1 := Admits(c, s);
      s' := AdmitsAll(c, s1, n - 1);
    }
  }

  lemma {:induction false} HandsAllOver(c: Config, s: State, i: nat, n: nat) returns (s': State)
    requires Live(c, s) && i < |s.threads| && s.threads[i].pc.RDequeue? && |s.tds| >= n && (n > 0 ==> s.bp.inuse + n + 1 <= c.bufCap)
    ensures Live(c, s') && s'.threads == s.threads
    ensures |s'.tds| == |s.tds| - n && |s'.jobs| == |s.jobs| + n && s'.bp.inuse == s.bp.inuse + n
    decreases n
  {
    hide Live;
    s' := s;
    if n > 0 {
      var s1 := HandsOver(c, s, i);
      s' := HandsAllOver(c, s1, i, n - 1);
    }
  }

  lemma {:induction false} InitPlaces(c: Config)
    ensures var ts := Init(c).threads;
            && |ts| == 1 + c.readers + c.workers && ts[0].pc.MAccept?
            && (forall k :: 1 <= k < 1 + c.readers ==> ts[k].pc.RDequeue?)
            && (forall k :: 1 + c.readers <= k < |ts| ==> ts[k].pc.WDequeue?)
  {
    var readers, workers := Repeat(RDequeue, c.readers), Repeat(WDequeue, c.workers);
    RepeatIdle(RDequeue, c.readers);
    RepeatIdle(WDequeue, c.workers);
    hide Repeat;
    var ts := Init(c).threads;
    forall k | 1 <= k < |ts| ensures if k < 1 + c.readers then ts[k] in readers else ts[k] in workers {
      assert ts[k] == if k < 1 + c.readers then readers[k - 1] else workers[k - 1 - c.readers];
    }
  }
}
