/** How many buffers keep the server from deadlock: at or below one for each thread_data and one more
    for each reader that can sleep with two, some run ends with every thread asleep and every buffer
    held; above, none does (PipelineDrain). */
module PipelineDeadlock {
  import opened PoolSpec
  import opened Pipeline
  import opened PipelineInvariant
  import opened PipelineTheorems
  import opened PipelineDrain
  import opened PipelineSchedules

  // ---------- Taking every buffer ----------

  /** Reader i meets a malformed query and has a buffer for the error, but none for the reply. */
  lemma {:induction false} HalfErrs(c: Config, s: State, i: nat) returns (s': State)
    requires Live(c, s) && i < |s.threads| && s.threads[i].pc.RDequeue? && s.tds != [] && s.bp.inuse + 2 <= c.bufCap
    ensures Live(c, s') && s'.jobs == s.jobs && |s'.tds| == |s.tds| - 1 && s'.bp.inuse == s.bp.inuse + 2
    ensures |s'.threads| == |s.threads| && s'.threads[i].pc.RGetErrResp?
    ensures forall k :: 0 <= k < |s.threads| && k != i ==> s'.threads[k] == s.threads[k]
  {
    hide Live;
    var td, input, s1 := Reads(c, s, i, true);
    var err, s2 := Takes(c, s1, i);
    s' := s2;
  }

  lemma {:induction false} HalfErrsAll(c: Config, s: State, first: nat, last: nat) returns (s': State)
    requires Live(c, s) && first <= last <= |s.threads| && |s.tds| >= last - first && s.bp.inuse + 2 * (last - first) <= c.bufCap
    requires forall k :: first <= k < last ==> s.threads[k].pc.RDequeue?
    ensures Live(c, s') && s'.jobs == s.jobs && s'.bp.inuse == s.bp.inuse + 2 * (last - first)
    ensures |s'.tds| == |s.tds| - (last - first) && |s'.threads| == |s.threads|
    ensures forall k :: first <= k < last ==> s'.threads[k].pc.RGetErrResp?
    ensures forall k :: 0 <= k < |s.threads| && !(first <= k < last) ==> s'.threads[k] == s.threads[k]
    decreases last - first
  {
    hide Live;
    s' := s;
    if first < last {
      var s1 := HalfErrs(c, s, first);
      s' := HalfErrsAll(c, s1, first + 1, last);
    }
  }

  /** Every buffer is out, nothing is on the list, and each thread but main is where it can do nothing
      but fall asleep, or take a job first. */
  ghost predicate Stuck(c: Config, s: State) {
    && Reachable(c, s) && s.bp.inuse == c.bufCap && s.tds == []
    && |s.threads| > 0 && s.threads[0].pc.MAccept?
    && forall k :: 0 < k < |s.threads| ==>
         s.threads[k].mode == Asleep
         || (s.threads[k].mode == Running && (s.threads[k].pc.RGetErrResp? || s.threads[k].pc.RDequeue? || s.threads[k].pc.WDequeue?))
  }

  /** How many readers are to sleep with two buffers; the others' go to queued jobs. */
  function Stranded(c: Config): nat {
    if c.bufCap > c.tdCap then c.bufCap - c.tdCap else 1
  }

  lemma {:induction false} StrandedFit(c: Config)
    requires ValidConfig(c) && c.readers > 0 && !Roomy(c)
    ensures 1 <= Stranded(c) <= c.readers && 2 * Stranded(c) <= c.bufCap
    ensures c.bufCap - Stranded(c) <= c.tdCap
  {
  }

  lemma {:induction false} BuffersRunOut(c: Config) returns (s: State)
    requires ValidConfig(c) && c.readers > 0 && !Roomy(c)
    ensures Stuck(c, s)
  {
    StrandedFit(c);
    var m := Stranded(c);
    var queued := c.bufCap - 2 * m;
    var s0 := Init(c);
    StartsLive(c);
    InitPlaces(c);
    InitialIsValid(c.tdCap);
    hide Live, Repeat, Stranded, Roomy;
    var s1 := AdmitsAll(c, s0, m + queued);
    var s2 := HandsAllOver(c, s1, 1, queued);
    s := HalfErrsAll(c, s2, 1, 1 + m);
    LiveRuns(c, s);
    forall k | 0 < k < |s.threads|
      ensures s.threads[k].mode == Running && (s.threads[k].pc.RGetErrResp? || s.threads[k].pc.RDequeue? || s.threads[k].pc.WDequeue?) {
      assert s.threads[k] in s.threads;
    }
  }

  lemma {:induction false} LiveRuns(c: Config, s: State)
    requires Live(c, s)
    ensures Reachable(c, s) && forall t :: t in s.threads ==> t.mode == Running
  {
    hide Reachable;
  }

  // ---------- Falling asleep ----------

  /** With every buffer out a get falls asleep. */
  lemma {:induction false} SleepsOnBuffers(c: Config, s: State, i: nat) returns (s': State)
    requires ValidConfig(c) && Reachable(c, s) && s.bp.inuse == c.bufCap
    requires i < |s.threads| && s.threads[i].mode == Running && WantsBuffer(s.threads[i].pc)
    ensures Reachable(c, s') && s' == s.(threads := Sleep(s, i))
  {
    hide Reachable, Enter, Staffed;
    var _ := RunTo(c, s);
    EnterHandsOut(s.bp, c.bufCap);
    InUseAtMostNum(s.bp, c.bufCap);
    s' := s.(threads := Sleep(s, i));
    assert Enter(s.bp, c.bufCap) == Wait(s.bp);
    assert GetBuffer(c, s, i, s');
    Follow(c, s, i, s');
  }

  lemma {:induction false} SleepsOnList(c: Config, s: State, i: nat) returns (s': State)
    requires Reachable(c, s) && i < |s.threads| && s.threads[i].mode == Running
    requires (s.threads[i].pc.RDequeue? && s.tds == []) || (s.threads[i].pc.WDequeue? && s.jobs == [])
    ensures Reachable(c, s') && s' == s.(threads := Sleep(s, i))
  {
    hide Reachable;
    s' := s.(threads := Sleep(s, i));
    assert DequeueTd(s, i, s') || DequeueJob(s, i, s');
    Follow(c, s, i, s');
  }

  /** A worker takes a job and wants a buffer for the reply. */
  lemma {:induction false} TakesJob(c: Config, s: State, i: nat) returns (s': State)
    requires Reachable(c, s) && i < |s.threads| && s.threads[i] == Thread(WDequeue, Running) && s.jobs != []
    ensures Reachable(c, s') && s' == s.(jobs := s.jobs[1..], threads := Go(s, i, WGetResp(s.jobs[0])))
  {
    hide Reachable;
    var job := s.jobs[0];
    var s1 := s.(jobs := s.jobs[1..], threads := Go(s, i, WProcess(job)));
    assert DequeueJob(s, i, s1);
    Follow(c, s, i, s1);
    s' := s1.(threads := Go(s1, i, WGetResp(job)));
    assert Local(s1, i, WGetResp(job), s');
    Follow(c, s1, i, s');
  }

  /** Thread i goes to sleep, and nothing else changes but perhaps the queue. */
  lemma {:induction false} FallsAsleep(c: Config, s: State, i: nat) returns (s': State)
    requires ValidConfig(c) && Stuck(c, s) && 0 < i < |s.threads|
    ensures Stuck(c, s') && |s'.threads| == |s.threads| && s'.threads[i].mode == Asleep
    ensures forall k :: 0 <= k < |s.threads| && k != i ==> s'.threads[k] == s.threads[k]
  {
    hide Reachable;
    s' := s;
    if s.threads[i].mode == Running {
      if s.threads[i].pc.RGetErrResp? {
        s' := SleepsOnBuffers(c, s, i);
      } else if s.threads[i].pc.RDequeue? || s.jobs == [] {
        s' := SleepsOnList(c, s, i);
      } else {
        assert s.threads[i] == Thread(WDequeue, Running);
        var s1 := TakesJob(c, s, i);
        s' := SleepsOnBuffers(c, s1, i);
      }
    }
  }

  lemma {:induction false} AllFallAsleep(c: Config, s: State, first: nat) returns (s': State)
    requires ValidConfig(c) && Stuck(c, s) && 0 < first <= |s.threads|
    requires forall k :: 0 < k < first ==> s.threads[k].mode == Asleep
    ensures Stuck(c, s') && forall k :: 0 < k < |s'.threads| ==> s'.threads[k].mode == Asleep
    decreases |s.threads| - first
  {
    s' := s;
    if first < |s.threads| {
      hide Stuck;
      var s1 := FallsAsleep(c, s, first);
      s' := AllFallAsleep(c, s1, first + 1);
    }
  }

  // ---------- The end ----------

  lemma {:induction false} NobodySteps(c: Config, s: State)
    requires |s.threads| > 0 && s.threads[0].pc.MAccept?
    requires forall k :: 0 < k < |s.threads| ==> s.threads[k].mode == Asleep
    ensures Quiet(c, s)
  {
    forall i: nat, s' ensures !ThreadStep(c, s, i, s') {
      if i == 0 {
        hide Join, Enter, Resume, Signal;
      }
    }
  }

  /** Some run ends with no step left and every buffer held. */
  lemma {:induction false} CanDeadlock(c: Config) returns (run: seq<State>)
    requires ValidConfig(c) && c.readers > 0 && !Roomy(c)
    ensures IsRun(c, run)
    ensures var s := run[|run| - 1]; Quiet(c, s) && !Drained(s) && s.bp.inuse == c.bufCap
  {
    var s := BuffersRunOut(c);
    var s' := AllFallAsleep(c, s, 1);
    NobodySteps(c, s');
    assert c.bufCap > 0;
    hide Reachable, Quiet, IsRun;
    run := RunTo(c, s');
  }

  ghost predicate NeverDeadlocks(c: Config) {
    forall run :: IsRun(c, run) && Quiet(c, run[|run| - 1]) ==> Drained(run[|run| - 1])
  }

  /** Main result: the server never stops with anything outstanding exactly when it has more buffers
      than thread_data and readers that can sleep with two. */
  lemma {:induction false} DeadlockThreshold(c: Config)
    requires ValidConfig(c) && c.readers > 0 && c.workers > 0
    ensures NeverDeadlocks(c) <==> c.bufCap > c.tdCap + Least(c.readers, c.tdCap)
  {
    if Roomy(c) {
      forall run | IsRun(c, run) && Quiet(c, run[|run| - 1]) ensures Drained(run[|run| - 1]) {
        hide Inv, Staffed, Drained, Quiet, Next;
        RunKeeps(c, run, |run| - 1);
        QuietIsDrained(c, run[|run| - 1]);
      }
    } else {
      var run := CanDeadlock(c);
    }
  }
}
