/** The lists printed in a run of the tracker (work.c, torrent.c): whether the room a reply is given
    is there at all, and whether the reply fits it. */
module TrackerReplies {
  import opened Sums
  import opened Decimal
  import opened Announce
  import opened TorrentPeers
  import opened TrackerRuns

  /** A step that prints the list of this torrent, as the torrent is after the step. */
  predicate Prints(s: State, step: Step, ref: nat) {
    || (step.Add? && step.i < |s.workers| && s.workers[step.i].Adding? && s.workers[step.i].ref == ref)
    || (step.Update? && step.i < |s.workers| && s.workers[step.i].Updating? && s.workers[step.i].ref == ref)
  }

  /** Room is computed from the peer count: there is some exactly when the list is longer than the
      removals that have missed, and so, as long as none has, exactly when the list has a peer. It has
      one after every insertion, and at an update unless the peer the worker saw has been removed. */
  lemma {:induction false} ReplyRoom(run: seq<State>, steps: seq<Step>, workers: nat, j: nat, ref: nat)
    requires IsRun(run, steps, workers) && j < |steps| && Prints(run[j], steps[j], ref)
    ensures ref < |run[j + 1].torrents|
    ensures var e := run[j + 1].torrents[ref];
            && (e.t.peer_count >= 1 <==> |e.t.peers| > Missed(e.tally))
            && (NoMiss(run, steps, j + 1, ref) ==> (e.t.peer_count >= 1 <==> e.t.peers != []))
            && (steps[j].Add? ==> e.t.peers != [])
            && (steps[j].Update? && !RemovedBefore(run, steps, j, ref, run[j].workers[steps[j].i].node) ==> e.t.peers != [])
  {
    var s, step, s' := run[j], steps[j], run[j + 1];
    assert Next(s, step, s');
    RunKeeps(run, steps, workers, j);
    assert step.Add? ==> s'.torrents[ref].t.peers != [] by {
      hide Inv;
    }
    assert ref < |s'.torrents|;
    CountersHold(run, steps, workers, j + 1, ref);
    CountRightUnlessMissed(run, steps, workers, j + 1, ref);
    if step.Update? {
      var node := s.workers[step.i].node;
      PeersChange(s, step, s', ref);
      hide Next, Inv, RemovedBefore;
      ListedUnlessRemoved(run, steps, workers, j, step.i, ref, node);
      if ListedNode(s, ref, node) {
        ListedUntilRemoved(s, step, s', ref, node);
      }
    }
  }

  // ---------- Conforming clients ----------

  predicate ConformingAnn(ann: Announcement) {
    |ann.peer_id| <= 20 && |ann.ip| <= 15 && 1024 <= ann.port <= 65535
  }

  predicate ConformingStep(step: Step) {
    step.Enter? && step.req.AnnounceReq? ==> ConformingAnn(step.req.ann)
  }

  predicate ConformingWorker(w: Worker) {
    match w
    case Entered(AnnounceReq(ann)) => ConformingAnn(ann)
    case Found(ann, _) => ConformingAnn(ann)
    case Adding(ann, _) => ConformingAnn(ann)
    case _ => true
  }

  ghost predicate ConformingPeers(peers: seq<Peer>) {
    forall p :: p in peers ==> Conforming(p)
  }

  ghost predicate ConformingState(s: State) {
    && (forall i :: 0 <= i < |s.workers| ==> ConformingWorker(s.workers[i]))
    && forall ref :: 0 <= ref < |s.torrents| ==> ConformingPeers(s.torrents[ref].t.peers)
  }

  lemma {:induction false} StepConforms(s: State, step: Step, s': State)
    requires ConformingState(s) && ConformingStep(step) && Next(s, step, s')
    ensures ConformingState(s')
  {
    WorkersConform(s, step, s');
    PeersConform(s, step, s');
    hide Next;
  }

  lemma {:induction false} WorkersConform(s: State, step: Step, s': State)
    requires ConformingState(s) && ConformingStep(step) && Next(s, step, s')
    ensures forall i :: 0 <= i < |s'.workers| ==> ConformingWorker(s'.workers[i])
  {
    hide AddPeer, UpdatePeer, Removed, FindPeer, Unlisted, IsRef, ConformingAnn, ConformingPeers;
  }

  lemma {:induction false} PeersConform(s: State, step: Step, s': State)
    requires ConformingState(s) && Next(s, step, s')
    ensures forall ref :: 0 <= ref < |s'.torrents| ==> ConformingPeers(s'.torrents[ref].t.peers)
  {
    forall ref | 0 <= ref < |s'.torrents| ensures ConformingPeers(s'.torrents[ref].t.peers) {
      if ref < |s.torrents| {
        PeersChange(s, step, s', ref);
        NewcomerConforms(s, step, s', ref);
        hide Next;
      } else {
        FreshIsEmpty(s, step, s', ref);
      }
    }
  }

  lemma {:induction false} NewcomerConforms(s: State, step: Step, s': State, ref: nat)
    requires ConformingState(s) && Next(s, step, s') && ref < |s.torrents| <= |s'.torrents|
    ensures var peers, after := s.torrents[ref].t.peers, s'.torrents[ref].t.peers;
            |after| > 0 && after[1..] == peers ==> Conforming(after[0])
  {
    var peers, after := s.torrents[ref].t.peers, s'.torrents[ref].t.peers;
    hide FindPeer, FindNode, AfterSearch, Unlisted, IsRef;
    if |after| > 0 && after[1..] == peers {
      assert |after| == |peers| + 1;
      assert step.Add? && s.workers[step.i].ref == ref;
      assert after[0] == NewPeer(s.workers[step.i].ann, s.nodes);
    }
  }

  lemma {:induction false} FreshIsEmpty(s: State, step: Step, s': State, ref: nat)
    requires Next(s, step, s') && |s.torrents| <= ref < |s'.torrents|
    ensures s'.torrents[ref].t.peers == []
  {
    hide FindPeer, FindNode, AfterSearch, AddPeer, UpdatePeer, RemovePeer, Unlisted, IsRef;
  }

  lemma {:induction false} RunConforms(run: seq<State>, steps: seq<Step>, workers: nat, k: nat)
    requires IsRun(run, steps, workers) && k < |run| && forall j :: 0 <= j < k ==> ConformingStep(steps[j])
    ensures ConformingState(run[k])
  {
    if k == 0 {
      forall i | 0 <= i < |run[0].workers| ensures run[0].workers[i] == Outside {
        NobodyInside(workers, i);
      }
    } else {
      RunConforms(run, steps, workers, k - 1);
      hide ConformingState, Next;
      StepConforms(run[k - 1], steps[k - 1], run[k - 1 + 1]);
    }
  }

  /** Main result on replies: in every run of conforming clients with 32-bit counters, the list printed
      by a step, terminator included, fits the 128 bytes for each counted peer exactly when its length
      says so; while no removal has missed, exactly when two or more peers are listed, or one whose entry
      leaves room for the counters. */
  lemma {:induction false} RepliesFit(run: seq<State>, steps: seq<Step>, workers: nat, j: nat, ref: nat)
    requires IsRun(run, steps, workers) && j < |steps| && Prints(run[j], steps[j], ref)
    requires forall i :: 0 <= i <= j ==> ConformingStep(steps[i])
    requires ref < |run[j + 1].torrents|
    requires IsInt32(run[j + 1].torrents[ref].t.seeders) && IsInt32(run[j + 1].torrents[ref].t.leechers)
    ensures var e := run[j + 1].torrents[ref];
            var digits := |Dec(e.t.seeders)| + |Dec(e.t.leechers)|;
            && (FitsAllocation(e.t) <==>
                  53 + digits + Sum(Wanted(e.t.peers), PeerLength) <= 128 * (|e.t.peers| - Missed(e.tally)))
            && (NoMiss(run, steps, j + 1, ref) ==>
                  (FitsAllocation(e.t) <==>
                     |e.t.peers| >= 2 || (|e.t.peers| == 1 && digits + PeerLength(e.t.peers[0]) <= 75)))
  {
    var e := run[j + 1].torrents[ref];
    RunConforms(run, steps, workers, j + 1);
    assert ConformingPeers(e.t.peers);
    CountersHold(run, steps, workers, j + 1, ref);
    CountRightUnlessMissed(run, steps, workers, j + 1, ref);
    hide IsRun, ConformingState, NoMiss, Dec, PeerLength, Reply;
    ReplyLength(e.t);
    if NoMiss(run, steps, j + 1, ref) {
      ReplyFits(e.t);
    }
  }
}
