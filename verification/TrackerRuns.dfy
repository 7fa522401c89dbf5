/** Any number of workers announcing and scraping at once (work.c, torrent.c). Each region under the
    torrent list's mutex or a torrent's lock is one step, and the search that the announce handler
    makes without a lock is a step of its own, so that peers may come and go around it. */
module TrackerRuns {
  import opened Sums
  import opened Announce
  import opened TorrentPeers

  /** The events sanitize_peer_req lets through; Count stands for an announce without one. */
  datatype Event = CountEvent | StartEvent | StopEvent | CompleteEvent

  datatype Announcement = Announcement(hash: string, peer_id: string, port: int, ip: string, left: int, event: Event)

  datatype Request = AnnounceReq(ann: Announcement) | ScrapeReq(hashes: seq<string>)

  /** Where a worker is; ref is the torrent and node the peer it has a pointer to. */
  datatype Worker =
    | Outside
    | Entered(req: Request)                           // after torrent_list_workon
    | Found(ann: Announcement, ref: nat)              // the torrent was looked up
    | Adding(ann: Announcement, ref: nat)             // no such peer seen, the event is start
    | Updating(ref: nat, node: nat, action: Action)   // the peer was seen
    | Removing(ref: nat, node: nat)                   // its list has been printed for a stop
    | Scraping(hashes: seq<string>)                   // hashes still to look up
    | Leaving                                         // before torrent_list_jobdone

  /** A torrent and what has happened to it. */
  datatype Tracked = Tracked(t: Torrent, tally: Tally)

  datatype State = State(
    torrents: seq<Tracked>,  // every torrent entry ever made; its index is its address
    listed: set<nat>,        // those on the torrent list
    working: int,
    workers: seq<Worker>,
    nodes: nat)              // peer entries made so far

  datatype Step =
    | Enter(i: nat, req: Request)
    | Lookup(i: nat, known: bool)      // known: the database has the torrent
    | Search(i: nat)
    | Add(i: nat)
    | Update(i: nat)
    | Remove(i: nat, finished: bool)   // finished: what a peer no longer listed is read as
    | ScrapeNext(i: nat, known: bool)
    | Leave(i: nat)
    | Delist(ref: nat)

  function ActorOf(step: Step): nat
    requires !step.Delist?
  {
    step.i
  }

  predicate IsRef(s: State, ref: nat, hash: string) {
    ref < |s.torrents| && ref in s.listed && s.torrents[ref].t.info_hash == hash
  }

  ghost predicate Unlisted(s: State, hash: string) {
    forall ref :: 0 <= ref < |s.torrents| && ref in s.listed ==> s.torrents[ref].t.info_hash != hash
  }

  /** torrent_lookup_torrent: the listed torrent, a fresh entry for one the database knows, or NULL. */
  ghost predicate LooksUp(s: State, hash: string, known: bool, s': State, ref: nat, found: bool) {
    || (found && s' == s && IsRef(s, ref, hash))
    || (&& found && Unlisted(s, hash) && known && ref == |s.torrents|
        && s' == s.(torrents := s.torrents + [Tracked(NEW_TORRENT.(info_hash := hash), NO_TALLY)], listed := s.listed + {ref}))
    || (!found && Unlisted(s, hash) && !known && s' == s)
  }

  function At(s: State, i: nat, w: Worker): State
    requires i < |s.workers|
  {
    s.(workers := s.workers[i := w])
  }

  function WithTorrent(s: State, ref: nat, e: Tracked): State
    requires ref < |s.torrents|
  {
    s.(torrents := s.torrents[ref := e])
  }

  /** Where the unlocked search sends an announcement. */
  function AfterSearch(ann: Announcement, ref: nat, peers: seq<Peer>): Worker {
    var k := FindPeer(peers, ann.ip, ann.port);
    if k == |peers| then (if ann.event.StartEvent? then Adding(ann, ref) else Leaving)
    else Updating(ref, peers[k].node, match ann.event case StopEvent => Stop case CompleteEvent => Complete case _ => Nothing)
  }

  /** torrent_remove_peer: the listed peer is unlinked. A peer that is no longer listed leaves the list
      alone, but the counters go down as its memory then reads. */
  function Removed(e: Tracked, node: nat, finished: bool): Tracked {
    var k := FindNode(e.t.peers, node);
    if k < |e.t.peers| then Tracked(RemovePeer(e.t, k), Departed(e.tally, e.t.peers[k]))
    else Tracked(Uncount(e.t, finished), MissedOne(e.tally, finished))
  }

  function NewPeer(ann: Announcement, node: nat): Peer {
    Peer(node, ann.peer_id, ann.port, ann.ip, ann.left)
  }

  ghost predicate Next(s: State, step: Step, s': State) {
    if step.Delist? then
      step.ref in s.listed && s.working == 0 && s' == s.(listed := s.listed - {step.ref})
    else
      var i := ActorOf(step);
      i < |s.workers| &&
      match (step, s.workers[i])
      case (Enter(_, req), Outside) =>
        s' == At(s, i, if req.AnnounceReq? then Entered(req) else Scraping(req.hashes)).(working := s.working + 1)
      case (Lookup(_, known), Entered(AnnounceReq(ann))) =>
        exists mid, ref, found :: LooksUp(s, ann.hash, known, mid, ref, found)
                                  && s' == At(mid, i, if found then Found(ann, ref) else Leaving)
      case (Search(_), Found(ann, ref)) =>
        ref < |s.torrents| && s' == At(s, i, AfterSearch(ann, ref, s.torrents[ref].t.peers))
      case (Add(_), Adding(ann, ref)) =>
        ref < |s.torrents|
        && var e := s.torrents[ref];
           s' == At(WithTorrent(s, ref, e.(t := AddPeer(e.t, NewPeer(ann, s.nodes)))), i, Leaving).(nodes := s.nodes + 1)
      case (Update(_), Updating(ref, node, action)) =>
        ref < |s.torrents|
        && var e := s.torrents[ref];
           var e' := Tracked(UpdatePeer(e.t, NO_PEER, action), Completed(e.tally, action));
           s' == At(WithTorrent(s, ref, e'), i, if action == Stop then Removing(ref, node) else Leaving)
      case (Remove(_, finished), Removing(ref, node)) =>
        ref < |s.torrents|
        && s' == At(WithTorrent(s, ref, Removed(s.torrents[ref], node, finished)), i, Leaving)
      case (ScrapeNext(_, known), Scraping(hashes)) =>
        if hashes == [] then s' == At(s, i, Leaving)
        else exists mid, ref, found :: LooksUp(s, hashes[0], known, mid, ref, found)
                                       && s' == At(mid, i, if found then Scraping(hashes[1..]) else Leaving)
      case (Leave(_), Leaving) =>
        s' == At(s, i, Outside).(working := s.working - 1)
      case _ => false
  }

  /** No action but start looks at the peer it is given. */
  const NO_PEER := Peer(0, "", 0, "", 0)

  function InWindow(w: Worker): nat {
    if w.Outside? then 0 else 1
  }

  // ---------- The invariant ----------

  predicate RefListed(s: State, w: Worker) {
    match w
    case Found(_, ref) => ref in s.listed
    case Adding(_, ref) => ref in s.listed
    case Updating(ref, node, action) => ref in s.listed && node < s.nodes && action != Start
    case Removing(ref, node) => ref in s.listed && node < s.nodes
    case _ => true
  }

  ghost predicate UniqueNodes(peers: seq<Peer>, nodes: nat) {
    && (forall p :: p in peers ==> p.node < nodes)
    && forall i, j :: 0 <= i < j < |peers| ==> peers[i].node != peers[j].node
  }

  ghost predicate TorrentOk(e: Tracked, nodes: nat) {
    && Counted(e.t, e.tally)
    && UniqueAddresses(e.t.peers)
    && UniqueNodes(e.t.peers, nodes)
  }

  ghost predicate Inv(s: State) {
    && s.working == Sum(s.workers, InWindow)
    && (forall ref :: ref in s.listed ==> ref < |s.torrents|)
    && (forall w :: w in s.workers ==> RefListed(s, w))
    && (forall e :: e in s.torrents ==> TorrentOk(e, s.nodes))
    && (forall a, b :: a in s.listed && b in s.listed && a != b ==>
          s.torrents[a].t.info_hash != s.torrents[b].t.info_hash)
  }

  // ---------- Every step keeps it ----------

  /** A worker moves to a point whose torrent is listed. */
  lemma {:induction false} MoveKeeps(s: State, i: nat, w: Worker, s': State)
    requires Inv(s) && i < |s.workers| && RefListed(s, w)
    requires s' == At(s, i, w).(working := s.working - InWindow(s.workers[i]) + InWindow(w))
    ensures Inv(s')
  {
    hide TorrentOk;
    SumUpdate(s.workers, i, w, InWindow);
    assert forall x :: x in s'.workers ==> x == w || x in s.workers;
  }

  lemma {:induction false} NodesGrow(e: Tracked, nodes: nat, more: nat)
    requires TorrentOk(e, nodes) && nodes <= more
    ensures TorrentOk(e, more)
  {
  }

  /** A torrent changes under its lock. */
  lemma {:induction false} TorrentChangeKeeps(s: State, ref: nat, e: Tracked, nodes: nat, s': State)
    requires Inv(s) && ref < |s.torrents| && s.nodes <= nodes && TorrentOk(e, nodes)
    requires e.t.info_hash == s.torrents[ref].t.info_hash
    requires s' == WithTorrent(s, ref, e).(nodes := nodes)
    ensures Inv(s')
  {
    hide TorrentOk;
    forall x | x in s'.torrents ensures TorrentOk(x, nodes) {
      if x != e {
        assert x in s.torrents;
        NodesGrow(x, s.nodes, nodes);
      }
    }
    assert forall w :: RefListed(s, w) ==> RefListed(s', w);
    assert forall a :: a in s.listed ==> s'.torrents[a].t.info_hash == s.torrents[a].t.info_hash;
  }

  lemma {:induction false} NewTorrentOk(hash: string, nodes: nat)
    ensures TorrentOk(Tracked(NEW_TORRENT.(info_hash := hash), NO_TALLY), nodes)
  {
    var t := NEW_TORRENT.(info_hash := hash);
    assert t.peers == [];
    hide Sum;
    assert UniqueAddresses(t.peers) && UniqueNodes(t.peers, nodes);
    assert Counted(t, NO_TALLY) by {
      hide UniqueAddresses, UniqueNodes;
      NewCounted(t);
    }
  }

  /** Looking a torrent up keeps the invariant and hands out only listed torrents. */
  lemma {:induction false} LookupKeeps(s: State, hash: string, known: bool, s': State, ref: nat, found: bool)
    requires Inv(s) && LooksUp(s, hash, known, s', ref, found)
    ensures Inv(s') && (found ==> IsRef(s', ref, hash))
    ensures s'.workers == s.workers && s'.working == s.working && s.listed <= s'.listed
  {
    hide TorrentOk, Sum;
    if s' != s {
      var e := Tracked(NEW_TORRENT.(info_hash := hash), NO_TALLY);
      NewTorrentOk(hash, s.nodes);
      assert forall x :: x in s'.torrents ==> x == e || x in s.torrents;
      assert forall w :: RefListed(s, w) ==> RefListed(s', w);
      assert forall a :: a in s.listed ==> s'.torrents[a] == s.torrents[a];
    }
  }

  lemma {:induction false} AddNodeKeeps(e: Tracked, ann: Announcement, nodes: nat)
    requires TorrentOk(e, nodes)
    ensures TorrentOk(e.(t := AddPeer(e.t, NewPeer(ann, nodes))), nodes + 1)
  {
    AddKeeps(e.t, NewPeer(ann, nodes), e.tally);
  }

  lemma {:induction false} RemoveNodeKeeps(e: Tracked, node: nat, finished: bool, nodes: nat)
    requires TorrentOk(e, nodes)
    ensures TorrentOk(Removed(e, node, finished), nodes)
  {
    hide Counted, UniqueAddresses, UniqueNodes, RemovePeer;
    var k := FindNode(e.t.peers, node);
    if k < |e.t.peers| {
      RemoveKeeps(e.t, k, e.tally);
      NodesWithout(e.t, k, nodes);
    } else {
      MissKeeps(e.t, finished, e.tally);
    }
  }

  lemma {:induction false} NodesWithout(t: Torrent, k: nat, nodes: nat)
    requires UniqueNodes(t.peers, nodes) && k < |t.peers|
    ensures UniqueNodes(RemovePeer(t, k).peers, nodes)
  {
    var peers := RemovePeer(t, k).peers;
    assert forall j :: 0 <= j < |peers| ==> peers[j] == t.peers[if j < k then j else j + 1];
  }

  lemma {:induction false} NextKeeps(s: State, step: Step, s': State)
    requires Inv(s) && Next(s, step, s')
    ensures Inv(s')
  {
    hide Inv, TorrentOk, AddPeer, UpdatePeer, Removed, AfterSearch, LooksUp, Sum;
    match step {
      case Delist(ref) =>
        DelistKeeps(s, ref, s');
      case Enter(i, req) =>
        MoveKeeps(s, i, s'.workers[i], s');
      case Lookup(i, known) =>
        HandlerKeeps(s, step, s');
      case Search(i) =>
        var ref := s.workers[i].ref;
        SearchListed(s, i);
        MoveKeeps(s, i, s'.workers[i], s');
      case Add(i) =>
        ChangeKeeps(s, step, s');
      case Update(i) =>
        ChangeKeeps(s, step, s');
      case Remove(i, finished) =>
        ChangeKeeps(s, step, s');
      case ScrapeNext(i, known) =>
        HandlerKeeps(s, step, s');
      case Leave(i) =>
        MoveKeeps(s, i, Outside, s');
    }
  }

  lemma {:induction false} WorkerListed(s: State, i: nat)
    requires Inv(s) && i < |s.workers|
    ensures RefListed(s, s.workers[i])
  {
    assert s.workers[i] in s.workers;
  }

  lemma {:induction false} SearchListed(s: State, i: nat)
    requires Inv(s) && i < |s.workers| && s.workers[i].Found? && s.workers[i].ref < |s.torrents|
    ensures RefListed(s, AfterSearch(s.workers[i].ann, s.workers[i].ref, s.torrents[s.workers[i].ref].t.peers))
    ensures InWindow(AfterSearch(s.workers[i].ann, s.workers[i].ref, s.torrents[s.workers[i].ref].t.peers)) == 1
  {
    WorkerListed(s, i);
    assert s.torrents[s.workers[i].ref] in s.torrents;
  }

  /** A torrent is taken off the list only while nobody works on it. */
  lemma {:induction false} DelistKeeps(s: State, ref: nat, s': State)
    requires Inv(s) && s.working == 0 && s' == s.(listed := s.listed - {ref})
    ensures Inv(s')
  {
    hide TorrentOk;
    forall w | w in s'.workers ensures RefListed(s', w) {
      var k :| 0 <= k < |s.workers| && s.workers[k] == w;
      SumContains(s.workers, k, InWindow);
    }
  }

  /** Looking up and moving on. */
  lemma {:induction false} HandlerKeeps(s: State, step: Step, s': State)
    requires Inv(s) && (step.Lookup? || step.ScrapeNext?) && Next(s, step, s')
    ensures Inv(s')
  {
    hide Inv, TorrentOk, Sum, Unlisted;
    var i := step.i;
    if step.Lookup? {
      var ann := s.workers[i].req.ann;
      var mid, ref, found :| LooksUp(s, ann.hash, step.known, mid, ref, found)
        && s' == At(mid, i, if found then Found(ann, ref) else Leaving);
      LookupKeeps(s, ann.hash, step.known, mid, ref, found);
      MoveKeeps(mid, i, s'.workers[i], s');
    } else if s.workers[i].hashes == [] {
      MoveKeeps(s, i, Leaving, s');
    } else {
      var hashes := s.workers[i].hashes;
      var mid, ref, found :| LooksUp(s, hashes[0], step.known, mid, ref, found)
        && s' == At(mid, i, if found then Scraping(hashes[1..]) else Leaving);
      LookupKeeps(s, hashes[0], step.known, mid, ref, found);
      MoveKeeps(mid, i, s'.workers[i], s');
    }
  }

  /** Changing a torrent and moving on. */
  lemma {:induction false} ChangeKeeps(s: State, step: Step, s': State)
    requires Inv(s) && (step.Add? || step.Update? || step.Remove?) && Next(s, step, s')
    ensures Inv(s')
  {
    var i := step.i;
    var ref := s.workers[i].ref;
    var e, e' := s.torrents[ref], s'.torrents[ref];
    WorkerListed(s, i);
    assert e in s.torrents;
    assert TorrentOk(e, s.nodes);
    hide Inv, TorrentOk, AddPeer, UpdatePeer, Removed, Sum;
    if step.Add? {
      AddNodeKeeps(e, s.workers[i].ann, s.nodes);
    } else if step.Update? {
      UpdateKeeps(e.t, NO_PEER, s.workers[i].action, e.tally);
    } else {
      RemoveNodeKeeps(e, s.workers[i].node, step.finished, s.nodes);
    }
    var mid := WithTorrent(s, ref, e').(nodes := s'.nodes);
    TorrentChangeKeeps(s, ref, e', s'.nodes, mid);
    MoveKeeps(mid, i, s'.workers[i], s');
  }

  // ---------- Every run ----------

  function Init(workers: nat): State {
    State([], {}, 0, Idle(workers), 0)
  }

  function Idle(n: nat): seq<Worker> {
    if n == 0 then [] else [Outside] + Idle(n - 1)
  }

  ghost predicate IsRun(run: seq<State>, steps: seq<Step>, workers: nat) {
    && |run| == |steps| + 1 && run[0] == Init(workers)
    && forall k :: 0 <= k < |steps| ==> Next(run[k], steps[k], run[k + 1])
  }

  lemma {:induction false} IdleOutside(n: nat)
    ensures Sum(Idle(n), InWindow) == 0 && forall w :: w in Idle(n) ==> w == Outside
  {
    if n > 0 {
      IdleOutside(n - 1);
    }
  }

  lemma {:induction false} RunKeeps(run: seq<State>, steps: seq<Step>, workers: nat, k: nat)
    requires IsRun(run, steps, workers) && k < |run|
    ensures Inv(run[k])
  {
    if k == 0 {
      IdleOutside(workers);
    } else {
      RunKeeps(run, steps, workers, k - 1);
      hide Inv, Next;
      NextKeeps(run[k - 1], steps[k - 1], run[k - 1 + 1]);
    }
  }

  /** In every run the counters of every torrent follow its list, its completions, its departures and
      the removals that missed; the peer count is right exactly as long as none has. */
  lemma {:induction false} CountersHold(run: seq<State>, steps: seq<Step>, workers: nat, k: nat, ref: nat)
    requires IsRun(run, steps, workers) && k < |run| && ref < |run[k].torrents|
    ensures var e := run[k].torrents[ref];
            && Counted(e.t, e.tally)
            && e.t.seeders + e.t.leechers == e.t.peer_count + e.tally.completions
            && e.t.complete <= e.t.seeders
            && (e.t.peer_count == |e.t.peers| <==> Missed(e.tally) == 0)
            && (e.t.peer_count >= 1 <==> |e.t.peers| > Missed(e.tally))
  {
    RunKeeps(run, steps, workers, k);
    var e := run[k].torrents[ref];
    assert e in run[k].torrents;
    CountersAddUp(e.t, e.tally);
  }

  /** In every run no two listed peers share address and port, although the handler's first search
      is not made under the lock. */
  lemma {:induction false} PeersStayUnique(run: seq<State>, steps: seq<Step>, workers: nat, k: nat, ref: nat)
    requires IsRun(run, steps, workers) && k < |run| && ref < |run[k].torrents|
    ensures UniqueAddresses(run[k].torrents[ref].t.peers)
    ensures UniqueNodes(run[k].torrents[ref].t.peers, run[k].nodes)
  {
    RunKeeps(run, steps, workers, k);
    assert run[k].torrents[ref] in run[k].torrents;
  }

  /** In every run `working` counts the workers between workon and jobdone, and what a worker points
      to there is a torrent on the list. */
  lemma {:induction false} ReferencesStayListed(run: seq<State>, steps: seq<Step>, workers: nat, k: nat, i: nat)
    requires IsRun(run, steps, workers) && k < |run| && i < |run[k].workers|
    ensures run[k].working == Sum(run[k].workers, InWindow) >= 0
    ensures RefListed(run[k], run[k].workers[i])
    ensures run[k].working == 0 ==> run[k].workers[i] == Outside
  {
    RunKeeps(run, steps, workers, k);
    WorkerListed(run[k], i);
    SumContains(run[k].workers, i, InWindow);
  }

  // ---------- What becomes of a peer a worker has seen ----------

  predicate ListedNode(s: State, ref: nat, node: nat) {
    ref < |s.torrents| && FindNode(s.torrents[ref].t.peers, node) < |s.torrents[ref].t.peers|
  }

  /** What a step can do to a torrent's list: insert a fresh peer, or remove the one it names. */
  lemma {:induction false} PeersChange(s: State, step: Step, s': State, ref: nat)
    requires Next(s, step, s') && ref < |s.torrents|
    ensures ref < |s'.torrents| && s.nodes <= s'.nodes
    ensures var peers, after := s.torrents[ref].t.peers, s'.torrents[ref].t.peers;
            if RemovesFrom(s, step, ref) then
              var k := FindNode(peers, s.workers[step.i].node);
              after == if k < |peers| then peers[..k] + peers[k + 1..] else peers
            else after == peers || (|after| > 0 && after[0].node == s.nodes && after[1..] == peers)
  {
    hide FindPeer, FindNode, AfterSearch;
  }

  predicate RemovesFrom(s: State, step: Step, ref: nat) {
    step.Remove? && step.i < |s.workers| && s.workers[step.i].Removing? && s.workers[step.i].ref == ref
  }

  /** A removal of this very peer. */
  predicate RemovesNode(s: State, step: Step, ref: nat, node: nat) {
    RemovesFrom(s, step, ref) && s.workers[step.i].node == node
  }

  /** Only a removal of that very peer takes a listed peer off its list, and it always does. */
  lemma {:induction false} ListedUntilRemoved(s: State, step: Step, s': State, ref: nat, node: nat)
    requires Inv(s) && Next(s, step, s') && ListedNode(s, ref, node)
    ensures ListedNode(s', ref, node) <==> !RemovesNode(s, step, ref, node)
  {
    PeersChange(s, step, s', ref);
    var peers, after := s.torrents[ref].t.peers, s'.torrents[ref].t.peers;
    assert s.torrents[ref] in s.torrents;
    assert UniqueNodes(peers, s.nodes);
    hide Inv, UniqueNodes, Next;
    if RemovesFrom(s, step, ref) && FindNode(peers, s.workers[step.i].node) < |peers| {
      RemovalFinds(peers, FindNode(peers, s.workers[step.i].node), node, s.nodes);
    } else if after != peers {
      assert FindNode(peers, node) < |peers|;
    }
  }

  /** A peer that is not listed, or no longer, is never listed again. */
  lemma {:induction false} GoneForGood(s: State, step: Step, s': State, ref: nat, node: nat)
    requires Next(s, step, s') && ref < |s.torrents| && node < s.nodes && !ListedNode(s, ref, node)
    ensures ref < |s'.torrents| && node < s'.nodes && !ListedNode(s', ref, node)
  {
    PeersChange(s, step, s', ref);
    var peers, after := s.torrents[ref].t.peers, s'.torrents[ref].t.peers;
    hide Next;
    forall j | 0 <= j < |after| ensures after[j].node != node {
      if RemovesFrom(s, step, ref) {
        assert after[j] in peers;
      } else if after != peers {
        assert j == 0 || after[j] == peers[j - 1];
      }
    }
  }

  lemma {:induction false} RemovalFinds(peers: seq<Peer>, k: nat, node: nat, nodes: nat)
    requires UniqueNodes(peers, nodes) && k < |peers| && FindNode(peers, node) < |peers|
    ensures var rest := peers[..k] + peers[k + 1..];
            FindNode(rest, node) < |rest| <==> peers[k].node != node
  {
    var rest := peers[..k] + peers[k + 1..];
    var at := FindNode(peers, node);
    if at != k {
      assert rest[if at < k then at else at - 1] == peers[at];
    } else {
      assert forall j :: 0 <= j < |rest| ==> rest[j] == peers[if j < k then j else j + 1];
    }
  }

  predicate PointsAt(w: Worker, ref: nat, node: nat) {
    (w.Updating? || w.Removing?) && w.ref == ref && w.node == node
  }

  /** A worker comes by a pointer to a peer only by finding it listed. */
  lemma {:induction false} PointerFromSearch(s: State, step: Step, s': State, i: nat, ref: nat, node: nat)
    requires Next(s, step, s') && i < |s'.workers| && PointsAt(s'.workers[i], ref, node)
    ensures i < |s.workers|
    ensures PointsAt(s.workers[i], ref, node) || (step == Search(i) && ListedNode(s', ref, node))
  {
    hide AddPeer, UpdatePeer, Removed, Unlisted, IsRef, FindPeer, FindNode;
    if step == Search(i) && s.workers[i].Found? {
      var at := s.workers[i].ref;
      var peers := s.torrents[at].t.peers;
      var k := FindPeer(peers, s.workers[i].ann.ip, s.workers[i].ann.port);
      if k < |peers| {
        assert FindNode(peers, peers[k].node) <= k;
      }
    }
  }

  /** Some step before k has been a removal of this peer. */
  ghost predicate RemovedBefore(run: seq<State>, steps: seq<Step>, k: nat, ref: nat, node: nat)
    requires k <= |steps| < |run|
  {
    exists j :: 0 <= j < k && RemovesNode(run[j], steps[j], ref, node)
  }

  lemma {:induction false} RemovedEarlier(run: seq<State>, steps: seq<Step>, k: nat, ref: nat, node: nat)
    requires 0 < k <= |steps| < |run|
    ensures RemovedBefore(run, steps, k, ref, node)
       <==> RemovedBefore(run, steps, k - 1, ref, node) || RemovesNode(run[k - 1], steps[k - 1], ref, node)
  {
    if RemovesNode(run[k - 1], steps[k - 1], ref, node) {
      assert 0 <= k - 1 < k;
    }
  }

  /** A peer some removal has been aimed at is off its list from then on. */
  lemma {:induction false} RemovedStaysGone(run: seq<State>, steps: seq<Step>, workers: nat, k: nat, ref: nat, node: nat)
    requires IsRun(run, steps, workers) && k <= |steps| && RemovedBefore(run, steps, k, ref, node)
    ensures ref < |run[k].torrents| && node < run[k].nodes && !ListedNode(run[k], ref, node)
  {
    var s, step, s' := run[k - 1], steps[k - 1], run[k - 1 + 1];
    RemovedEarlier(run, steps, k, ref, node);
    RunKeeps(run, steps, workers, k - 1);
    assert Next(s, step, s');
    hide Next, RemovedBefore;
    if RemovedBefore(run, steps, k - 1, ref, node) {
      RemovedStaysGone(run, steps, workers, k - 1, ref, node);
      GoneForGood(s, step, s', ref, node);
    } else {
      WorkerListed(s, step.i);
      if ListedNode(s, ref, node) {
        PeersChange(s, step, s', ref);
        ListedUntilRemoved(s, step, s', ref, node);
      } else {
        GoneForGood(s, step, s', ref, node);
      }
    }
  }

  lemma {:induction false} NobodyInside(workers: nat, i: nat)
    requires i < |Init(workers).workers|
    ensures Init(workers).workers[i] == Outside
  {
    IdleOutside(workers);
    assert Init(workers).workers[i] in Init(workers).workers;
  }

  /** Main result on pointers to peers: in every run, the peer a worker has found is still listed
      exactly when no earlier step was a removal of that peer. */
  lemma {:induction false} ListedUnlessRemoved(run: seq<State>, steps: seq<Step>, workers: nat, k: nat, i: nat, ref: nat, node: nat)
    requires IsRun(run, steps, workers) && k < |run| && i < |run[k].workers| && PointsAt(run[k].workers[i], ref, node)
    ensures ListedNode(run[k], ref, node) <==> !RemovedBefore(run, steps, k, ref, node)
  {
    if RemovedBefore(run, steps, k, ref, node) {
      RemovedStaysGone(run, steps, workers, k, ref, node);
    } else {
      if k == 0 {
        NobodyInside(workers, i);
        assert false;
      }
      var s, step, s' := run[k - 1], steps[k - 1], run[k - 1 + 1];
      RunKeeps(run, steps, workers, k - 1);
      assert Next(s, step, s');
      PointerFromSearch(s, step, s', i, ref, node);
      RemovedEarlier(run, steps, k, ref, node);
      hide Next, RemovedBefore;
      if PointsAt(s.workers[i], ref, node) {
        ListedUnlessRemoved(run, steps, workers, k - 1, i, ref, node);
        ListedUntilRemoved(s, step, s', ref, node);
      }
    }
  }

  // ---------- Removals that miss ----------

  /** Step j removes a peer of this torrent that is not listed any more. */
  ghost predicate MissesAt(run: seq<State>, steps: seq<Step>, j: nat, ref: nat)
    requires j < |steps| < |run|
  {
    RemovesFrom(run[j], steps[j], ref) && !ListedNode(run[j], ref, run[j].workers[steps[j].i].node)
  }

  /** A removal misses exactly when the same peer was removed before. */
  lemma {:induction false} MissedIffRemovedTwice(run: seq<State>, steps: seq<Step>, workers: nat, j: nat, ref: nat)
    requires IsRun(run, steps, workers) && j < |steps| && RemovesFrom(run[j], steps[j], ref)
    ensures MissesAt(run, steps, j, ref) <==> RemovedBefore(run, steps, j, ref, run[j].workers[steps[j].i].node)
  {
    var i := steps[j].i;
    var node := run[j].workers[i].node;
    hide Next, RemovedBefore;
    ListedUnlessRemoved(run, steps, workers, j, i, ref, node);
  }

  /** Only a removal that misses is counted as missed. */
  lemma {:induction false} TallyStep(s: State, step: Step, s': State, ref: nat)
    requires Next(s, step, s') && ref < |s.torrents|
    ensures ref < |s'.torrents|
    ensures Missed(s'.torrents[ref].tally) == Missed(s.torrents[ref].tally)
              + if RemovesFrom(s, step, ref) && !ListedNode(s, ref, s.workers[step.i].node) then 1 else 0
  {
    hide FindPeer, FindNode, AfterSearch, AddPeer, UpdatePeer, RemovePeer;
  }

  lemma {:induction false} FreshTally(s: State, step: Step, s': State, ref: nat)
    requires Inv(s) && Next(s, step, s') && ref >= |s.torrents|
    ensures !RemovesFrom(s, step, ref)
    ensures ref < |s'.torrents| ==> s'.torrents[ref].tally == NO_TALLY
  {
    if RemovesFrom(s, step, ref) {
      WorkerListed(s, step.i);
    }
    hide FindPeer, FindNode, AfterSearch, AddPeer, UpdatePeer, RemovePeer, Inv, Unlisted;
  }

  /** So in every run the peer count of a torrent is its list's length exactly as long as no peer of it
      has been removed twice. */
  lemma {:induction false} CountRightUnlessMissed(run: seq<State>, steps: seq<Step>, workers: nat, k: nat, ref: nat)
    requires IsRun(run, steps, workers) && k < |run| && ref < |run[k].torrents|
    ensures run[k].torrents[ref].t.peer_count == |run[k].torrents[ref].t.peers|
       <==> NoMiss(run, steps, k, ref)
  {
    NoneMissed(run, steps, workers, k, ref);
    CountersHold(run, steps, workers, k, ref);
  }

  ghost predicate NoMiss(run: seq<State>, steps: seq<Step>, k: nat, ref: nat)
    requires k <= |steps| < |run|
  {
    forall j :: 0 <= j < k ==> !MissesAt(run, steps, j, ref)
  }

  lemma {:induction false} NoMissStep(run: seq<State>, steps: seq<Step>, k: nat, ref: nat)
    requires 0 < k <= |steps| < |run|
    ensures NoMiss(run, steps, k, ref) <==> NoMiss(run, steps, k - 1, ref) && !MissesAt(run, steps, k - 1, ref)
  {
    hide MissesAt;
  }

  lemma {:induction false} NoneMissed(run: seq<State>, steps: seq<Step>, workers: nat, k: nat, ref: nat)
    requires IsRun(run, steps, workers) && k < |run|
    ensures ref < |run[k].torrents| ==> (Missed(run[k].torrents[ref].tally) == 0 <==> NoMiss(run, steps, k, ref))
    ensures ref >= |run[k].torrents| ==> NoMiss(run, steps, k, ref)
  {
    if k > 0 {
      var s, step, s' := run[k - 1], steps[k - 1], run[k - 1 + 1];
      RunKeeps(run, steps, workers, k - 1);
      assert Next(s, step, s');
      hide Next, Inv, NoMiss, ListedNode;
      NoneMissed(run, steps, workers, k - 1, ref);
      NoMissStep(run, steps, k, ref);
      if ref < |s.torrents| {
        TallyStep(s, step, s', ref);
      } else {
        FreshTally(s, step, s', ref);
      }
    }
  }
}
