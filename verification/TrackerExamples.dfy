/** Runs of the tracker in which what its code relies on fails: two stops of one peer at once, and one
    peer whose torrent is completed again and again. */
module TrackerExamples {
  import opened Announce
  import opened TorrentPeers
  import opened TrackerRuns
  import opened TrackerReplies

  const HELLO := Announcement("h", "-TR4050-k8hj0wgej6ch", 51413, "203.113.100.200", 1, StartEvent)
  const BYE := HELLO.(event := StopEvent)
  const DONE := HELLO.(event := CompleteEvent)
  const ONE_PEER := [NewPeer(HELLO, 0)]
  const EMPTY := Tracked(NEW_TORRENT.(info_hash := "h"), NO_TALLY)

  /** The torrent of one leeching peer after n completions. */
  function Many(n: nat): Tracked {
    Tracked(Torrent("h", n, 1, n, 1, ONE_PEER), Tally(n, 0, 0, 0))
  }

  const FULL := Many(0)

  /** Its peer removed once, and once more. */
  const GONE := Tracked(Torrent("h", 0, 0, 0, 0, []), NO_TALLY)
  const GONE_TWICE := Tracked(Torrent("h", 0, -1, 0, -1, []), Tally(0, 0, 0, 1))

  /** A server with one torrent, listed. */
  function With(e: Tracked, workers: seq<Worker>, working: int, nodes: nat): State {
    State([e], {0}, working, workers, nodes)
  }

  lemma {:induction false} HelloIsLongest()
    ensures Longest(ONE_PEER[0]) && ConformingAnn(HELLO)
  {
  }

  lemma {:induction false} OnePeerFound()
    ensures AddPeer(EMPTY.t, NewPeer(HELLO, 0)) == FULL.t
    ensures FindNode(ONE_PEER, 0) == 0
    ensures AfterSearch(HELLO, 0, []) == Adding(HELLO, 0)
    ensures AfterSearch(BYE, 0, ONE_PEER) == Updating(0, 0, Stop)
    ensures AfterSearch(DONE, 0, ONE_PEER) == Updating(0, 0, Complete)
  {
    assert AddPeer(EMPTY.t, NewPeer(HELLO, 0)).peers == ONE_PEER;
    assert FindPeer(ONE_PEER, HELLO.ip, HELLO.port) == 0;
  }

  lemma {:induction false} OnlyPeerRemoved(e: Tracked)
    requires |e.t.peers| == 1 && e.t.peers[0].node == 0 && e.t.peers[0].left != 0
    ensures Removed(e, 0, false) == Tracked(e.t.(peers := [], peer_count := e.t.peer_count - 1, leechers := e.t.leechers - 1), e.tally)
  {
    assert FindNode(e.t.peers, 0) == 0;
    assert e.t.peers[..0] + e.t.peers[1..] == [];
  }

  lemma {:induction false} RemovedOnce()
    ensures Removed(FULL, 0, false) == GONE
  {
    hide Removed;
    OnlyPeerRemoved(FULL);
  }

  lemma {:induction false} RemovedTwice()
    ensures Removed(GONE, 0, false) == GONE_TWICE
  {
    assert FindNode(GONE.t.peers, 0) == 0;
  }

  // ---------- Steps ----------

  lemma {:induction false} Arrives(e: Tracked, ann: Announcement, workers: seq<Worker>, i: nat, working: int, nodes: nat)
    requires i < |workers| && e.t.info_hash == ann.hash == "h"
    ensures workers[i] == Outside ==>
              Next(With(e, workers, working, nodes), Enter(i, AnnounceReq(ann)),
                   With(e, workers[i := Entered(AnnounceReq(ann))], working + 1, nodes))
    ensures workers[i] == Entered(AnnounceReq(ann)) ==>
              Next(With(e, workers, working, nodes), Lookup(i, true), With(e, workers[i := Found(ann, 0)], working, nodes))
    ensures workers[i] == Leaving ==>
              Next(With(e, workers, working, nodes), Leave(i), With(e, workers[i := Outside], working - 1, nodes))
  {
    var s := With(e, workers, working, nodes);
    assert LooksUp(s, ann.hash, true, s, 0, true);
  }

  lemma {:induction false} Acts(e: Tracked, workers: seq<Worker>, i: nat, working: int, nodes: nat)
    requires i < |workers|
    ensures e.t.peers == ONE_PEER && workers[i] == Found(BYE, 0) ==>
              Next(With(e, workers, working, nodes), Search(i), With(e, workers[i := Updating(0, 0, Stop)], working, nodes))
    ensures e.t.peers == ONE_PEER && workers[i] == Found(DONE, 0) ==>
              Next(With(e, workers, working, nodes), Search(i), With(e, workers[i := Updating(0, 0, Complete)], working, nodes))
    ensures workers[i] == Updating(0, 0, Stop) ==>
              Next(With(e, workers, working, nodes), Update(i), With(e, workers[i := Removing(0, 0)], working, nodes))
    ensures workers[i] == Removing(0, 0) ==>
              Next(With(e, workers, working, nodes), Remove(i, false), With(Removed(e, 0, false), workers[i := Leaving], working, nodes))
  {
    OnePeerFound();
    hide AfterSearch, Removed, FindNode, FindPeer, AddPeer;
  }

  lemma {:induction false} Completes(n: nat, workers: seq<Worker>, i: nat, working: int, nodes: nat)
    requires i < |workers| && workers[i] == Updating(0, 0, Complete)
    ensures Next(With(Many(n), workers, working, nodes), Update(i), With(Many(n + 1), workers[i := Leaving], working, nodes))
  {
  }

  lemma {:induction false} FirstEnter() returns (s: State, s': State)
    ensures s == Init(2) && s' == State([], {}, 1, [Entered(AnnounceReq(HELLO)), Outside], 0)
    ensures Next(s, Enter(0, AnnounceReq(HELLO)), s')
  {
    assert Idle(1) == [Outside] && Idle(2) == [Outside, Outside];
    s, s' := Init(2), State([], {}, 1, [Entered(AnnounceReq(HELLO)), Outside], 0);
  }

  lemma {:induction false} FirstLookup(s: State)
    requires s == State([], {}, 1, [Entered(AnnounceReq(HELLO)), Outside], 0)
    ensures Next(s, Lookup(0, true), With(EMPTY, [Found(HELLO, 0), Outside], 1, 0))
  {
    var mid := s.(torrents := [EMPTY], listed := {0});
    assert LooksUp(s, HELLO.hash, true, mid, 0, true);
    assert With(EMPTY, [Found(HELLO, 0), Outside], 1, 0) == At(mid, 0, Found(HELLO, 0));
  }

  lemma {:induction false} FirstAdd()
    ensures Next(With(EMPTY, [Found(HELLO, 0), Outside], 1, 0), Search(0), With(EMPTY, [Adding(HELLO, 0), Outside], 1, 0))
    ensures Next(With(EMPTY, [Adding(HELLO, 0), Outside], 1, 0), Add(0), With(FULL, [Leaving, Outside], 1, 1))
  {
    OnePeerFound();
    hide AfterSearch, AddPeer;
  }

  lemma {:induction false} Extended(run: seq<State>, steps: seq<Step>, s: State, step: Step, s': State)
    returns (more: seq<State>, moreSteps: seq<Step>)
    requires IsRun(run, steps, 2) && run[|run| - 1] == s && Next(s, step, s')
    ensures IsRun(more, moreSteps, 2) && more == run + [s'] && moreSteps == steps + [step]
  {
    hide Next;
    more, moreSteps := run + [s'], steps + [step];
    forall k | 0 <= k < |moreSteps| ensures Next(more[k], moreSteps[k], more[k + 1]) {
      if k < |steps| { assert Next(run[k], steps[k], run[k + 1]); }
    }
  }

  lemma {:induction false} FirstFound() returns (run: seq<State>, steps: seq<Step>)
    ensures IsRun(run, steps, 2) && run[|run| - 1] == With(EMPTY, [Found(HELLO, 0), Outside], 1, 0)
    ensures forall step :: step in steps ==> ConformingStep(step)
  {
    HelloIsLongest();
    var s0, s1 := FirstEnter();
    FirstLookup(s1);
    hide Next, Init, ConformingAnn;
    assert IsRun([s0], [], 2);
    run, steps := Extended([s0], [], s0, Enter(0, AnnounceReq(HELLO)), s1);
    run, steps := Extended(run, steps, s1, Lookup(0, true), With(EMPTY, [Found(HELLO, 0), Outside], 1, 0));
  }

  /** A peer is listed and no worker is active. */
  lemma {:induction false} FirstPeer() returns (run: seq<State>, steps: seq<Step>)
    ensures IsRun(run, steps, 2) && run[|run| - 1] == With(FULL, [Outside, Outside], 0, 1)
    ensures forall step :: step in steps ==> ConformingStep(step)
  {
    FirstAdd();
    Arrives(FULL, HELLO, [Leaving, Outside], 0, 1, 1);
    hide Next, IsRun, ConformingAnn, Many;
    run, steps := FirstFound();
    run, steps := Extended(run, steps, With(EMPTY, [Found(HELLO, 0), Outside], 1, 0), Search(0), With(EMPTY, [Adding(HELLO, 0), Outside], 1, 0));
    run, steps := Extended(run, steps, With(EMPTY, [Adding(HELLO, 0), Outside], 1, 0), Add(0), With(FULL, [Leaving, Outside], 1, 1));
    run, steps := Extended(run, steps, With(FULL, [Leaving, Outside], 1, 1), Leave(0), With(FULL, [Outside, Outside], 0, 1));
  }

  /** A worker takes an announcement of the peer as far as its search. */
  lemma {:induction false} Searches(run: seq<State>, steps: seq<Step>, e: Tracked, ws: seq<Worker>, i: nat, working: int, ann: Announcement)
    returns (more: seq<State>, moreSteps: seq<Step>)
    requires IsRun(run, steps, 2) && run[|run| - 1] == With(e, ws, working, 1)
    requires i < |ws| && ws[i] == Outside && e.t.info_hash == "h" && e.t.peers == ONE_PEER && (ann == BYE || ann == DONE)
    ensures IsRun(more, moreSteps, 2)
    ensures more[|more| - 1] == With(e, ws[i := Seen(ann)], working + 1, 1)
    ensures (forall step :: step in steps ==> ConformingStep(step)) ==> (forall step :: step in moreSteps ==> ConformingStep(step))
  {
    HelloIsLongest();
    SearchSteps(e, ws, i, working, ann);
    var entered, found, seen := ws[i := Entered(AnnounceReq(ann))], ws[i := Found(ann, 0)], ws[i := Seen(ann)];
    hide Next, IsRun, ConformingAnn, ONE_PEER, Seen;
    more, moreSteps := Extended(run, steps, With(e, ws, working, 1), Enter(i, AnnounceReq(ann)), With(e, entered, working + 1, 1));
    more, moreSteps := Extended(more, moreSteps, With(e, entered, working + 1, 1), Lookup(i, true), With(e, found, working + 1, 1));
    more, moreSteps := Extended(more, moreSteps, With(e, found, working + 1, 1), Search(i), With(e, seen, working + 1, 1));
  }

  /** Where the search takes an announcement of the peer. */
  function Seen(ann: Announcement): Worker {
    Updating(0, 0, if ann == BYE then Stop else Complete)
  }

  lemma {:induction false} SearchSteps(e: Tracked, ws: seq<Worker>, i: nat, working: int, ann: Announcement)
    requires i < |ws| && ws[i] == Outside && e.t.info_hash == "h" && e.t.peers == ONE_PEER && (ann == BYE || ann == DONE)
    ensures var entered, found, seen := ws[i := Entered(AnnounceReq(ann))], ws[i := Found(ann, 0)], ws[i := Seen(ann)];
            && Next(With(e, ws, working, 1), Enter(i, AnnounceReq(ann)), With(e, entered, working + 1, 1))
            && Next(With(e, entered, working + 1, 1), Lookup(i, true), With(e, found, working + 1, 1))
            && Next(With(e, found, working + 1, 1), Search(i), With(e, seen, working + 1, 1))
  {
    var entered, found, seen := ws[i := Entered(AnnounceReq(ann))], ws[i := Found(ann, 0)], ws[i := Seen(ann)];
    assert entered[i := Found(ann, 0)] == found && found[i := Seen(ann)] == seen;
    assert BYE.hash == "h" && DONE.hash == "h";
    hide Next, ONE_PEER;
    Arrives(e, ann, ws, i, working, 1);
    Arrives(e, ann, entered, i, working + 1, 1);
    Acts(e, found, i, working + 1, 1);
  }

  // ---------- Two stops of one peer ----------

  lemma {:induction false} TwoStops() returns (run: seq<State>, steps: seq<Step>)
    ensures IsRun(run, steps, 2)
    ensures run[|run| - 1] == With(FULL, [Updating(0, 0, Stop), Updating(0, 0, Stop)], 2, 1)
  {
    run, steps := FirstPeer();
    hide IsRun;
    run, steps := Searches(run, steps, FULL, [Outside, Outside], 0, 0, BYE);
    assert [Outside, Outside][0 := Updating(0, 0, Stop)] == [Updating(0, 0, Stop), Outside];
    run, steps := Searches(run, steps, FULL, [Updating(0, 0, Stop), Outside], 1, 1, BYE);
    assert [Updating(0, 0, Stop), Outside][1 := Updating(0, 0, Stop)] == [Updating(0, 0, Stop), Updating(0, 0, Stop)];
  }

  lemma {:induction false} FirstRemoval(other: Worker)
    ensures Next(With(FULL, [Updating(0, 0, Stop), other], 2, 1), Update(0), With(FULL, [Removing(0, 0), other], 2, 1))
    ensures Next(With(FULL, [Removing(0, 0), other], 2, 1), Remove(0, false), With(GONE, [Leaving, other], 2, 1))
  {
    hide Next, Removed;
    RemovedOnce();
    Acts(FULL, [Updating(0, 0, Stop), other], 0, 2, 1);
    Acts(FULL, [Removing(0, 0), other], 0, 2, 1);
    assert [Updating(0, 0, Stop), other][0 := Removing(0, 0)] == [Removing(0, 0), other];
    assert [Removing(0, 0), other][0 := Leaving] == [Leaving, other];
  }

  /** After the first of two stops the second worker is about to print a list without peers, in room
      for none. */
  lemma {:induction false} ReplyCanBeEmpty() returns (run: seq<State>, steps: seq<Step>)
    ensures IsRun(run, steps, 2)
    ensures run[|run| - 1] == With(GONE, [Leaving, Updating(0, 0, Stop)], 2, 1)
    ensures GONE.t.peer_count == 0
  {
    hide Next, IsRun;
    var other := Updating(0, 0, Stop);
    FirstRemoval(other);
    run, steps := TwoStops();
    run, steps := Extended(run, steps, With(FULL, [other, other], 2, 1), Update(0), With(FULL, [Removing(0, 0), other], 2, 1));
    run, steps := Extended(run, steps, With(FULL, [Removing(0, 0), other], 2, 1), Remove(0, false), With(GONE, [Leaving, other], 2, 1));
  }

  /** It then removes a peer that is gone: the comment's condition does not hold by itself, and the
      peer count is left at -1. */
  lemma {:induction false} RemovalCanMiss() returns (run: seq<State>, steps: seq<Step>)
    ensures IsRun(run, steps, 2) && |steps| > 0
    ensures MissesAt(run, steps, |steps| - 1, 0)
    ensures run[|run| - 1].torrents == [GONE_TWICE] && GONE_TWICE.t.peer_count == -1 && GONE_TWICE.t.peers == []
  {
    run, steps := ReplyCanBeEmpty();
    var ws := [Leaving, Updating(0, 0, Stop)];
    Acts(GONE, ws, 1, 2, 1);
    Acts(GONE, ws[1 := Removing(0, 0)], 1, 2, 1);
    RemovedTwice();
    assert !ListedNode(With(GONE, ws[1 := Removing(0, 0)], 2, 1), 0, 0);
    hide Next, IsRun, Removed, ListedNode;
    run, steps := Extended(run, steps, With(GONE, ws, 2, 1), Update(1), With(GONE, ws[1 := Removing(0, 0)], 2, 1));
    ws := ws[1 := Removing(0, 0)];
    run, steps := Extended(run, steps, With(GONE, ws, 2, 1), Remove(1, false), With(GONE_TWICE, ws[1 := Leaving], 2, 1));
  }

  // ---------- One peer, many completions ----------

  lemma {:induction false} CompletedAgain(n: nat) returns (run: seq<State>, steps: seq<Step>)
    ensures IsRun(run, steps, 2) && run[|run| - 1] == With(Many(n), [Outside, Outside], 0, 1)
    ensures forall step :: step in steps ==> ConformingStep(step)
    decreases n, 1
  {
    if n == 0 {
      run, steps := FirstPeer();
    } else {
      run, steps := PrintedAgain(n);
      var ws := [Leaving, Outside];
      Arrives(Many(n), DONE, ws, 0, 1, 1);
      assert ws[0 := Outside] == [Outside, Outside];
      hide Next, IsRun, Many;
      run, steps := Extended(run, steps, With(Many(n), ws, 1, 1), Leave(0), With(Many(n), ws[0 := Outside], 0, 1));
    }
  }

  /** The n-th completion of the same peer has just been counted and printed. */
  lemma {:induction false} PrintedAgain(n: nat) returns (run: seq<State>, steps: seq<Step>)
    requires n > 0
    ensures IsRun(run, steps, 2) && run[|run| - 1] == With(Many(n), [Leaving, Outside], 1, 1)
    ensures |steps| > 0 && Prints(run[|steps| - 1], steps[|steps| - 1], 0)
    ensures forall step :: step in steps ==> ConformingStep(step)
    decreases n, 0
  {
    run, steps := CompletedAgain(n - 1);
    var ws := [Outside, Outside];
    run, steps := Searches(run, steps, Many(n - 1), ws, 0, 0, DONE);
    ws := ws[0 := Updating(0, 0, Complete)];
    Completes(n - 1, ws, 0, 1, 1);
    assert ws[0 := Leaving] == [Leaving, Outside];
    hide Next, IsRun, Many;
    run, steps := Extended(run, steps, With(Many(n - 1), ws, 1, 1), Update(0), With(Many(n), ws[0 := Leaving], 1, 1));
  }

  /** A run of conforming announcements, no removal in it, after which the list printed for the one
      peer fits its room exactly when there have been fewer than a hundred thousand completions. */
  lemma {:induction false} OnePeerOutgrows(n: nat) returns (run: seq<State>, steps: seq<Step>)
    requires 0 < n < 0x8000_0000
    ensures IsRun(run, steps, 2) && |steps| > 0 && Prints(run[|steps| - 1], steps[|steps| - 1], 0)
    ensures forall step :: step in steps ==> ConformingStep(step)
    ensures |run[|run| - 1].torrents| == 1 && Missed(run[|run| - 1].torrents[0].tally) == 0
    ensures FitsAllocation(run[|run| - 1].torrents[0].t) <==> n < 100_000
  {
    run, steps := PrintedAgain(n);
    HelloIsLongest();
    hide IsRun, Next, ConformingAnn, Longest, ONE_PEER;
    OnePeerTooLong(ONE_PEER[0], Many(n).t);
  }
}
