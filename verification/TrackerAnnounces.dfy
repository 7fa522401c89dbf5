/** What an announcement does to its torrent, told from the announcement its worker entered with: which
    events insert, complete and remove, and which change nothing. */
module TrackerAnnounces {
  import opened Sums
  import opened Announce
  import opened TorrentPeers
  import opened TrackerRuns

  /** The request a worker last entered with. */
  datatype Entry = NoEntry | Entry(req: Request)

  function LastEntry(steps: seq<Step>, k: nat, i: nat): Entry
    requires k <= |steps|
  {
    if k == 0 then NoEntry
    else if steps[k - 1].Enter? && steps[k - 1].i == i then Entry(steps[k - 1].req)
    else LastEntry(steps, k - 1, i)
  }

  predicate Announces(e: Entry, ann: Announcement) {
    e == Entry(AnnounceReq(ann))
  }

  predicate OfHash(s: State, ref: nat, hash: string) {
    ref < |s.torrents| && s.torrents[ref].t.info_hash == hash
  }

  /** Where a worker is, against the request it entered with. */
  predicate MatchesEntry(s: State, w: Worker, e: Entry) {
    match w
    case Outside => true
    case Leaving => e.Entry?
    case Entered(req) => req.AnnounceReq? && e == Entry(req)
    case Found(ann, ref) => Announces(e, ann) && OfHash(s, ref, ann.hash)
    case Adding(ann, ref) => Announces(e, ann) && OfHash(s, ref, ann.hash) && ann.event.StartEvent?
    case Updating(ref, _, action) =>
      && e.Entry? && e.req.AnnounceReq? && OfHash(s, ref, e.req.ann.hash)
      && action == (match e.req.ann.event case StopEvent => Stop case CompleteEvent => Complete case CountEvent => Nothing case StartEvent => Nothing)
    case Removing(ref, _) => e.Entry? && e.req.AnnounceReq? && OfHash(s, ref, e.req.ann.hash) && e.req.ann.event.StopEvent?
    case Scraping(hashes) =>
      e.Entry? && e.req.ScrapeReq? && |hashes| <= |e.req.hashes| && hashes == e.req.hashes[|e.req.hashes| - |hashes|..]
  }

  lemma {:induction false} HashesStay(s: State, step: Step, s': State)
    requires Next(s, step, s')
    ensures |s.torrents| <= |s'.torrents|
    ensures forall ref :: 0 <= ref < |s.torrents| ==> s'.torrents[ref].t.info_hash == s.torrents[ref].t.info_hash
  {
    hide FindPeer, FindNode, AfterSearch, Unlisted;
  }

  lemma {:induction false} OthersStay(s: State, step: Step, s': State, i: nat)
    requires Next(s, step, s') && i < |s.workers| && (step.Delist? || step.i != i)
    ensures i < |s'.workers| && s'.workers[i] == s.workers[i]
  {
    hide FindPeer, FindNode, AfterSearch, Unlisted, AddPeer, UpdatePeer, Removed;
  }

  lemma {:induction false} ActorMatches(s: State, step: Step, s': State, i: nat, e: Entry)
    requires Next(s, step, s') && i < |s.workers| && !step.Delist? && step.i == i && MatchesEntry(s, s.workers[i], e)
    ensures i < |s'.workers| && MatchesEntry(s', s'.workers[i], if step.Enter? then Entry(step.req) else e)
  {
    HashesStay(s, step, s');
    hide FindPeer, FindNode, Unlisted, AddPeer, UpdatePeer, Removed;
  }

  lemma {:induction false} StepMatches(s: State, step: Step, s': State, i: nat, e: Entry)
    requires Next(s, step, s') && i < |s.workers| && MatchesEntry(s, s.workers[i], e)
    ensures i < |s'.workers| && MatchesEntry(s', s'.workers[i], if step.Enter? && step.i == i then Entry(step.req) else e)
  {
    hide Next;
    if step.Delist? || step.i != i {
      OthersStay(s, step, s', i);
      HashesStay(s, step, s');
    } else {
      ActorMatches(s, step, s', i, e);
    }
  }

  lemma {:induction false} WorkersStay(s: State, step: Step, s': State)
    requires Next(s, step, s')
    ensures |s'.workers| == |s.workers|
  {
    hide FindPeer, FindNode, AfterSearch, Unlisted, AddPeer, UpdatePeer, Removed;
  }

  lemma {:induction false} EntriesMatch(run: seq<State>, steps: seq<Step>, workers: nat, k: nat, i: nat)
    requires IsRun(run, steps, workers) && k < |run| && i < |run[k].workers|
    ensures MatchesEntry(run[k], run[k].workers[i], LastEntry(steps, k, i))
  {
    if k == 0 {
      NobodyInside(workers, i);
    } else {
      var s, step, s' := run[k - 1], steps[k - 1], run[k - 1 + 1];
      assert Next(s, step, s');
      hide Next, MatchesEntry, IsRun;
      WorkersStay(s, step, s');
      EntriesMatch(run, steps, workers, k - 1, i);
      StepMatches(s, step, s', i, LastEntry(steps, k - 1, i));
    }
  }

  // ---------- What each step of an announcement does ----------

  predicate Listed(peers: seq<Peer>, ip: string, port: int) {
    exists p :: p in peers && p.ip == ip && p.port == port
  }

  /** Nothing but this torrent has changed. */
  predicate OnlyTorrent(s: State, s': State, ref: nat, e: Tracked) {
    ref < |s.torrents| && s'.torrents == s.torrents[ref := e]
  }

  /** An update changes nothing for an announce without an event or a repeated start; it adds one to
      complete, seeders and the completions for a completion; and for a stop it goes on to remove. */
  predicate UpdateLaw(s: State, s': State, i: nat, ann: Announcement)
    requires i < |s.workers| && i < |s'.workers|
  {
    var w := s.workers[i];
    && w.Updating? && OfHash(s, w.ref, ann.hash)
    && match ann.event
       case CountEvent => s'.torrents == s.torrents && s'.workers[i] == Leaving
       case StartEvent => s'.torrents == s.torrents && s'.workers[i] == Leaving
       case StopEvent => s'.torrents == s.torrents && s'.workers[i] == Removing(w.ref, w.node)
       case CompleteEvent =>
         && s'.workers[i] == Leaving
         && var e := s.torrents[w.ref];
            OnlyTorrent(s, s', w.ref, Tracked(
              Torrent(e.t.info_hash, e.t.seeders + 1, e.t.leechers, e.t.complete + 1, e.t.peer_count, e.t.peers),
              Tally(e.tally.completions + 1, e.tally.departed, e.tally.missedFinished, e.tally.missedUnfinished)))
  }

  /** Only a start inserts: the announced peer, at the head of the list, unless its address is there. */
  predicate AddLaw(s: State, s': State, i: nat, ann: Announcement)
    requires i < |s.workers| && i < |s'.workers|
  {
    var w := s.workers[i];
    && w.Adding? && OfHash(s, w.ref, ann.hash) && ann.event.StartEvent? && s'.workers[i] == Leaving
    && var e := s.torrents[w.ref];
       if Listed(e.t.peers, ann.ip, ann.port) then s'.torrents == s.torrents
       else
         OnlyTorrent(s, s', w.ref, Tracked(
           Torrent(e.t.info_hash,
                   if ann.left == 0 then e.t.seeders + 1 else e.t.seeders,
                   if ann.left == 0 then e.t.leechers else e.t.leechers + 1,
                   e.t.complete, e.t.peer_count + 1,
                   [Peer(s.nodes, ann.peer_id, ann.port, ann.ip, ann.left)] + e.t.peers),
           e.tally))
  }

  /** The search leads to an update exactly for a listed address, of a peer that has it; to an insertion
      exactly for a start from one that is not; and changes nothing itself. */
  predicate SearchLaw(s: State, s': State, i: nat, ann: Announcement)
    requires i < |s.workers| && i < |s'.workers|
  {
    var w, w' := s.workers[i], s'.workers[i];
    && w.Found? && OfHash(s, w.ref, ann.hash) && s'.torrents == s.torrents
    && var peers := s.torrents[w.ref].t.peers;
       && (w'.Updating? <==> Listed(peers, ann.ip, ann.port))
       && (w'.Adding? <==> !Listed(peers, ann.ip, ann.port) && ann.event.StartEvent?)
       && (w'.Updating? || w'.Adding? || w'.Leaving?)
       && (w'.Updating? ==> w'.ref == w.ref && exists p :: p in peers && p.node == w'.node && p.ip == ann.ip && p.port == ann.port)
       && (w'.Adding? ==> w'.ref == w.ref)
  }

  lemma {:induction false} FindListed(peers: seq<Peer>, ip: string, port: int)
    ensures FindPeer(peers, ip, port) < |peers| <==> Listed(peers, ip, port)
  {
    var i := FindPeer(peers, ip, port);
    if i < |peers| {
      assert peers[i] in peers;
    }
  }

  lemma {:induction false} UpdateActs(s: State, i: nat, s': State, ann: Announcement)
    requires Next(s, Update(i), s') && MatchesEntry(s, s.workers[i], Entry(AnnounceReq(ann)))
    ensures i < |s.workers| == |s'.workers| && UpdateLaw(s, s', i, ann)
  {
    var w := s.workers[i];
    assert s.torrents[w.ref := s.torrents[w.ref]] == s.torrents;
  }

  lemma {:induction false} AddActs(s: State, i: nat, s': State, ann: Announcement)
    requires Next(s, Add(i), s') && MatchesEntry(s, s.workers[i], Entry(AnnounceReq(ann)))
    ensures i < |s.workers| == |s'.workers| && AddLaw(s, s', i, ann)
  {
    var w := s.workers[i];
    FindListed(s.torrents[w.ref].t.peers, ann.ip, ann.port);
    hide FindPeer, Listed;
    assert s.torrents[w.ref := s.torrents[w.ref]] == s.torrents;
  }

  lemma {:induction false} SearchActs(s: State, i: nat, s': State, ann: Announcement)
    requires Next(s, Search(i), s') && MatchesEntry(s, s.workers[i], Entry(AnnounceReq(ann)))
    ensures i < |s.workers| == |s'.workers| && SearchLaw(s, s', i, ann)
  {
    var peers := s.torrents[s.workers[i].ref].t.peers;
    var k := FindPeer(peers, ann.ip, ann.port);
    FindListed(peers, ann.ip, ann.port);
    assert k < |peers| ==> peers[k] in peers;
    hide FindPeer, Listed;
  }

  /** Main result on announcements: in every run, each step of a worker does what the event of the
      announcement it entered with asks for, and nothing else. */
  lemma {:induction false} AnnounceActs(run: seq<State>, steps: seq<Step>, workers: nat, j: nat, ann: Announcement)
    requires IsRun(run, steps, workers) && j < |steps| && !steps[j].Delist? && !steps[j].Enter?
    requires Announces(LastEntry(steps, j, steps[j].i), ann)
    ensures steps[j].i < |run[j].workers| == |run[j + 1].workers|
    ensures steps[j].Search? ==> SearchLaw(run[j], run[j + 1], steps[j].i, ann)
    ensures steps[j].Update? ==> UpdateLaw(run[j], run[j + 1], steps[j].i, ann)
    ensures steps[j].Add? ==> AddLaw(run[j], run[j + 1], steps[j].i, ann)
    ensures steps[j].Remove? ==> ann.event.StopEvent?
    ensures !steps[j].ScrapeNext?
    ensures steps[j].Leave? ==> run[j + 1].torrents == run[j].torrents
  {
    var s, step, s' := run[j], steps[j], run[j + 1];
    assert Next(s, step, s');
    WorkersStay(s, step, s');
    ActorInRange(s, step, s');
    EntriesMatch(run, steps, workers, j, step.i);
    RemovesForStop(s, step, s', ann);
    hide Next, MatchesEntry, UpdateLaw, AddLaw, SearchLaw, IsRun;
    if step.Search? {
      SearchActs(s, step.i, s', ann);
    } else if step.Update? {
      UpdateActs(s, step.i, s', ann);
    } else if step.Add? {
      AddActs(s, step.i, s', ann);
    }
  }

  lemma {:induction false} ActorInRange(s: State, step: Step, s': State)
    requires Next(s, step, s') && !step.Delist?
    ensures step.i < |s.workers|
  {
  }

  lemma {:induction false} RemovesForStop(s: State, step: Step, s': State, ann: Announcement)
    requires Next(s, step, s') && !step.Delist? && MatchesEntry(s, s.workers[step.i], Entry(AnnounceReq(ann)))
    ensures step.Remove? ==> ann.event.StopEvent?
    ensures !step.ScrapeNext?
    ensures step.Leave? ==> s'.torrents == s.torrents
  {
    hide FindPeer, FindNode, AfterSearch, Unlisted, AddPeer, UpdatePeer, Removed;
  }

  // ---------- Announcements that change nothing ----------

  predicate Quiet(w: Worker) {
    w.Outside? || w.Leaving? || (w.Updating? && w.action == Nothing)
  }

  lemma {:induction false} QuietStep(s: State, step: Step, s': State, i: nat)
    requires Next(s, step, s') && i < |s.workers| && Quiet(s.workers[i]) && !(step.Enter? && step.i == i)
    ensures i < |s'.workers| && Quiet(s'.workers[i])
    ensures !step.Delist? && step.i == i ==> s'.torrents == s.torrents && s'.listed == s.listed && s'.nodes == s.nodes
  {
    if step.Delist? || step.i != i {
      OthersStay(s, step, s', i);
    } else if s.workers[i].Updating? {
      assert s.torrents[s.workers[i].ref := s.torrents[s.workers[i].ref]] == s.torrents;
    }
    hide FindPeer, FindNode, Unlisted;
  }

  /** From its search on, an announcement without an event, or a start of an address that is listed,
      changes no torrent, whatever its worker still does before it enters again. */
  lemma {:induction false} ReannounceChangesNothing(run: seq<State>, steps: seq<Step>, workers: nat, j: nat, m: nat, i: nat, ann: Announcement)
    requires IsRun(run, steps, workers) && j <= m < |steps| && steps[j] == Search(i) && Announces(LastEntry(steps, j, i), ann)
    requires forall x :: j < x <= m ==> !(steps[x].Enter? && steps[x].i == i)
    requires ann.event.CountEvent? || ann.event.StartEvent?
    requires |run| == |steps| + 1 && i < |run[j].workers| && run[j].workers[i].Found? && run[j].workers[i].ref < |run[j].torrents|
    requires ann.event.StartEvent? ==> Listed(run[j].torrents[run[j].workers[i].ref].t.peers, ann.ip, ann.port)
    ensures i < |run[m + 1].workers| && Quiet(run[m + 1].workers[i])
    ensures !steps[m].Delist? && steps[m].i == i ==> run[m + 1].torrents == run[m].torrents
    decreases m
  {
    hide IsRun, Next, Quiet, Listed, MatchesEntry;
    StepOfRun(run, steps, workers, m);
    if m == j {
      EntriesMatch(run, steps, workers, j, i);
      QuietSearch(run[j], i, run[j + 1], ann);
    } else {
      ReannounceChangesNothing(run, steps, workers, j, m - 1, i, ann);
      QuietStep(run[m], steps[m], run[m + 1], i);
    }
  }

  lemma {:induction false} StepOfRun(run: seq<State>, steps: seq<Step>, workers: nat, m: nat)
    requires IsRun(run, steps, workers) && m < |steps|
    ensures |run| == |steps| + 1 && Next(run[m], steps[m], run[m + 1])
  {
    hide Next;
  }

  lemma {:induction false} QuietSearch(s: State, i: nat, s': State, ann: Announcement)
    requires Next(s, Search(i), s') && i < |s.workers| && MatchesEntry(s, s.workers[i], Entry(AnnounceReq(ann)))
    requires s.workers[i].Found? && s.workers[i].ref < |s.torrents|
    requires ann.event.CountEvent? || (ann.event.StartEvent? && Listed(s.torrents[s.workers[i].ref].t.peers, ann.ip, ann.port))
    ensures i < |s'.workers| && Quiet(s'.workers[i]) && s'.torrents == s.torrents
  {
    var peers := s.torrents[s.workers[i].ref].t.peers;
    FindListed(peers, ann.ip, ann.port);
    hide FindPeer, Listed;
  }

  // ---------- Completions ----------

  predicate CompletesAt(s: State, steps: seq<Step>, j: nat, ref: nat)
    requires j < |steps|
  {
    && steps[j].Update? && steps[j].i < |s.workers| && s.workers[steps[j].i].Updating? && s.workers[steps[j].i].ref == ref
    && var e := LastEntry(steps, j, steps[j].i); e.Entry? && e.req.AnnounceReq? && e.req.ann.event.CompleteEvent?
  }

  /** The updates of a torrent made for completions among the first k steps. */
  function CompletionsMade(run: seq<State>, steps: seq<Step>, k: nat, ref: nat): nat
    requires k <= |steps| < |run|
  {
    if k == 0 then 0
    else CompletionsMade(run, steps, k - 1, ref) + if CompletesAt(run[k - 1], steps, k - 1, ref) then 1 else 0
  }

  predicate Completing(s: State, step: Step, ref: nat) {
    step.Update? && step.i < |s.workers| && s.workers[step.i].Updating? && s.workers[step.i].ref == ref && s.workers[step.i].action == Complete
  }

  lemma {:induction false} CompletionsStep(s: State, step: Step, s': State, ref: nat)
    requires Next(s, step, s')
    ensures ref < |s.torrents| ==>
              ref < |s'.torrents|
              && s'.torrents[ref].tally.completions == s.torrents[ref].tally.completions + if Completing(s, step, ref) then 1 else 0
    ensures |s.torrents| <= ref < |s'.torrents| ==> s'.torrents[ref].tally.completions == 0
    ensures ref >= |s.torrents| ==> !Completing(s, step, ref)
  {
    hide FindPeer, FindNode, AfterSearch, AddPeer, UpdatePeer, RemovePeer, Unlisted, IsRef;
  }

  /** In every run the completions of a torrent are the updates made for completed announcements. */
  lemma {:induction false} CompletionsCounted(run: seq<State>, steps: seq<Step>, workers: nat, k: nat, ref: nat)
    requires IsRun(run, steps, workers) && k < |run|
    ensures ref < |run[k].torrents| ==> run[k].torrents[ref].tally.completions == CompletionsMade(run, steps, k, ref)
    ensures ref >= |run[k].torrents| ==> CompletionsMade(run, steps, k, ref) == 0
  {
    if k > 0 {
      var s, step, s' := run[k - 1], steps[k - 1], run[k - 1 + 1];
      hide Next, IsRun, CompletesAt, Completing, MatchesEntry;
      StepOfRun(run, steps, workers, k - 1);
      CompletionsCounted(run, steps, workers, k - 1, ref);
      CompletionsStep(s, step, s', ref);
      HashesStay(s, step, s');
      if step.Update? && step.i < |s.workers| {
        EntriesMatch(run, steps, workers, k - 1, step.i);
      }
      CompletesForEvent(s, steps, k - 1, ref);
    }
  }

  lemma {:induction false} CompletesForEvent(s: State, steps: seq<Step>, j: nat, ref: nat)
    requires j < |steps|
    requires steps[j].Update? && steps[j].i < |s.workers| ==> MatchesEntry(s, s.workers[steps[j].i], LastEntry(steps, j, steps[j].i))
    ensures CompletesAt(s, steps, j, ref) <==> Completing(s, steps[j], ref)
  {
    hide LastEntry;
  }

  // ---------- Looking torrents up ----------

  predicate HasTorrent(s: State, hash: string) {
    exists ref :: 0 <= ref < |s.torrents| && ref in s.listed && s.torrents[ref].t.info_hash == hash
  }

  /** A lookup succeeds exactly for a torrent that is listed or that the database knows, and changes
      something exactly when it lists a new one, which is empty. */
  lemma {:induction false} LookupOutcome(s: State, hash: string, known: bool, s': State, ref: nat, found: bool)
    requires LooksUp(s, hash, known, s', ref, found)
    ensures found <==> HasTorrent(s, hash) || known
    ensures found && HasTorrent(s, hash) ==> s' == s && ref < |s.torrents| && ref in s.listed && s.torrents[ref].t.info_hash == hash
    ensures found && !HasTorrent(s, hash) ==>
              && s' == s.(torrents := s.torrents + [Tracked(Torrent(hash, 0, 0, 0, 0, []), Tally(0, 0, 0, 0))], listed := s.listed + {|s.torrents|})
              && ref == |s.torrents|
    ensures !found ==> s' == s
  {
  }

  /** A worker finds its announcement's torrent exactly when it is listed or the database knows it, and
      otherwise leaves. */
  lemma {:induction false} LookupLaw(s: State, i: nat, known: bool, s': State)
    requires Next(s, Lookup(i, known), s')
    ensures i < |s.workers| == |s'.workers| && s.workers[i].Entered? && s.workers[i].req.AnnounceReq?
    ensures var ann := s.workers[i].req.ann;
            && (s'.workers[i].Found? <==> HasTorrent(s, ann.hash) || known)
            && (!s'.workers[i].Found? ==> s'.workers[i] == Leaving && s'.torrents == s.torrents)
            && (HasTorrent(s, ann.hash) ==> s'.torrents == s.torrents && s'.listed == s.listed)
  {
    var ann := s.workers[i].req.ann;
    var mid, ref, found :| LooksUp(s, ann.hash, known, mid, ref, found)
      && s' == TrackerRuns.At(mid, i, if found then Found(ann, ref) else Leaving);
    LookupOutcome(s, ann.hash, known, mid, ref, found);
    hide LooksUp, HasTorrent;
  }

  /** A scrape goes on to its next hash exactly when the torrent of this one is listed or known. */
  lemma {:induction false} ScrapeLaw(s: State, i: nat, known: bool, s': State)
    requires Next(s, ScrapeNext(i, known), s')
    ensures i < |s.workers| == |s'.workers| && s.workers[i].Scraping?
    ensures var hashes := s.workers[i].hashes;
            if hashes != [] && (HasTorrent(s, hashes[0]) || known) then s'.workers[i] == Scraping(hashes[1..])
            else s'.workers[i] == Leaving && s'.torrents == s.torrents
  {
    var hashes := s.workers[i].hashes;
    if hashes != [] {
      var mid, ref, found :| LooksUp(s, hashes[0], known, mid, ref, found)
        && s' == TrackerRuns.At(mid, i, if found then Scraping(hashes[1..]) else Leaving);
      LookupOutcome(s, hashes[0], known, mid, ref, found);
      hide LooksUp, HasTorrent;
    }
  }

  /** Only with nobody between entering and leaving is a torrent taken off the list, that one alone. */
  lemma {:induction false} DelistLaw(s: State, ref: nat, s': State)
    requires Inv(s) && Next(s, Delist(ref), s')
    ensures forall w :: w in s.workers ==> w == Outside
    ensures ref in s.listed && s'.listed == s.listed - {ref} && s'.torrents == s.torrents && s'.workers == s.workers
  {
    forall w | w in s.workers ensures w == Outside {
      var k: nat :| k < |s.workers| && s.workers[k] == w;
      SumContains(s.workers, k, InWindow);
    }
  }
}
