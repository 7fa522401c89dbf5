/** The bound on buffers is exact: a schedule of the server that has them all out at once. */
module PipelineTight {
  import opened PoolSpec
  import opened Pipeline
  import opened PipelineTheorems
  import opened PipelineSchedules

  /** Reader i meets a malformed query and is about to write the error. */
  lemma {:induction false} Errs(c: Config, s: State, i: nat) returns (s': State)
    requires Live(c, s) && i < |s.threads| && s.threads[i].pc.RDequeue? && s.tds != [] && s.bp.inuse + 3 <= c.bufCap
    ensures Live(c, s') && s'.jobs == s.jobs && |s'.tds| == |s.tds| - 1 && s'.bp.inuse == s.bp.inuse + 3
    ensures |s'.threads| == |s.threads| && forall k :: 0 <= k < |s.threads| && k != i ==> s'.threads[k] == s.threads[k]
  {
    hide Live;
    var td, input, s1 := Reads(c, s, i, true);
    var err, s2 := Takes(c, s1, i);
    var resp, s3 := Takes(c, s2, i);
    s' := s3;
  }

  /** Worker i takes a job and is about to write the reply. */
  lemma {:induction false} Writes(c: Config, s: State, i: nat) returns (s': State)
    requires Live(c, s) && i < |s.threads| && s.threads[i].pc.WDequeue? && s.jobs != [] && s.bp.inuse < c.bufCap
    ensures Live(c, s') && |s'.jobs| == |s.jobs| - 1 && s'.bp.inuse == s.bp.inuse + 1
    ensures |s'.threads| == |s.threads| && forall k :: 0 <= k < |s.threads| && k != i ==> s'.threads[k] == s.threads[k]
  {
    hide Reachable;
    assert s.threads[i] in s.threads;
    var job := s.jobs[0];
    var s1 := s.(jobs := s.jobs[1..], threads := Go(s, i, WProcess(job)));
    assert DequeueJob(s, i, s1);
    Goes(c, s, i, WProcess(job), s1);
    var s2 := s1.(threads := Go(s1, i, WGetResp(job)));
    assert Local(s1, i, WGetResp(job), s2);
    Goes(c, s1, i, WGetResp(job), s2);
    hide Live;
    var resp, s3 := Takes(c, s2, i);
    s' := s3;
  }

  lemma {:induction false} ErrsAll(c: Config, s: State, first: nat, last: nat) returns (s': State)
    requires Live(c, s) && first <= last <= |s.threads| && |s.tds| >= last - first && s.bp.inuse + 3 * (last - first) <= c.bufCap
    requires forall k :: first <= k < last ==> s.threads[k].pc.RDequeue?
    ensures Live(c, s') && s'.jobs == s.jobs && s'.bp.inuse == s.bp.inuse + 3 * (last - first)
    ensures |s'.threads| == |s.threads| && forall k :: last <= k < |s.threads| ==> s'.threads[k] == s.threads[k]
    decreases last - first
  {
    hide Live;
    s' := s;
    if first < last {
      var s1 := Errs(c, s, first);
      s' := ErrsAll(c, s1, first + 1, last);
    }
  }

  lemma {:induction false} WritesAll(c: Config, s: State, first: nat) returns (s': State)
    requires Live(c, s) && first <= |s.threads| && |s.jobs| >= |s.threads| - first && s.bp.inuse + |s.threads| - first <= c.bufCap
    requires forall k :: first <= k < |s.threads| ==> s.threads[k].pc.WDequeue?
    ensures Live(c, s') && s'.bp.inuse == s.bp.inuse + |s.threads| - first
    decreases |s.threads| - first
  {
    hide Live;
    s' := s;
    if first < |s.threads| {
      var s1 := Writes(c, s, first);
      s' := WritesAll(c, s1, first + 1);
    }
  }

  /** Main result: when the thread_data suffice to keep every reader and worker busy, some run has the
      whole demand out at once, so BufferDemandBound cannot be improved: as shipped, twenty-eight. */
  lemma {:induction false} DemandAttained(c: Config) returns (run: seq<State>)
    requires Ample(c) && c.readers > 0 && c.readers + c.workers <= c.tdCap
    ensures IsRun(c, run) && run[|run| - 1].bp.inuse == Demand(c)
    ensures c == SHIPPED ==> run[|run| - 1].bp.inuse == 28
  {
    var s := Init(c);
    StartsLive(c);
    InitPlaces(c);
    InitialIsValid(c.tdCap);
    hide Live, Repeat;
    var s1 := AdmitsAll(c, s, c.tdCap);
    var s2 := HandsAllOver(c, s1, 1, c.tdCap - c.readers);
    var s3 := ErrsAll(c, s2, 1, 1 + c.readers);
    var s4 := WritesAll(c, s3, 1 + c.readers);
    run := RunTo(c, s4);
  }
}
