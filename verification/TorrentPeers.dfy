/** A torrent's peer list and counters (torrent.c): insertion, updates and removal, each run under
    the torrent's lock and followed by printing the list. */
module TorrentPeers {
  import opened Sums
  import opened Decimal
  import opened Bencode
  import opened CStrings
  import opened BencodeWriter
  import opened Announce

  datatype Action = Nothing | Start | Stop | Complete

  /** The printed list, when it fits the allocation; what the source leaves there otherwise is not
      part of this model. */
  datatype Listing = Listing(text: string) | DoesNotFit

  // ---------- Specification ----------

  predicate SameAddress(p: Peer, ip: string, port: int) {
    p.ip == ip && p.port == port
  }

  function FindPeer(peers: seq<Peer>, ip: string, port: int): (i: nat)
    ensures i <= |peers|
    ensures i < |peers| ==> SameAddress(peers[i], ip, port)
    ensures forall k :: 0 <= k < i ==> !SameAddress(peers[k], ip, port)
  {
    if peers == [] || SameAddress(peers[0], ip, port) then 0 else 1 + FindPeer(peers[1..], ip, port)
  }

  function FindNode(peers: seq<Peer>, node: nat): (i: nat)
    ensures i <= |peers|
    ensures i < |peers| ==> peers[i].node == node
    ensures forall k :: 0 <= k < i ==> peers[k].node != node
  {
    if peers == [] || peers[0].node == node then 0 else 1 + FindNode(peers[1..], node)
  }

  const NEW_TORRENT := Torrent("", 0, 0, 0, 0, [])

  function AddPeer(t: Torrent, pe: Peer): Torrent {
    if FindPeer(t.peers, pe.ip, pe.port) < |t.peers| then t
    else t.(peers := [pe] + t.peers, peer_count := t.peer_count + 1,
            seeders := if pe.left == 0 then t.seeders + 1 else t.seeders,
            leechers := if pe.left == 0 then t.leechers else t.leechers + 1)
  }

  function UpdatePeer(t: Torrent, pe: Peer, action: Action): Torrent {
    match action
    case Complete => t.(complete := t.complete + 1, seeders := t.seeders + 1)
    case Start => if pe.left == 0 then t.(seeders := t.seeders + 1) else t.(leechers := t.leechers + 1)
    case _ => t
  }

  /** The counters after one peer fewer, finished or not. */
  function Uncount(t: Torrent, finished: bool): Torrent {
    t.(peer_count := t.peer_count - 1,
       seeders := if finished then t.seeders - 1 else t.seeders,
       complete := if finished then t.complete - 1 else t.complete,
       leechers := if finished then t.leechers else t.leechers - 1)
  }

  function RemovePeer(t: Torrent, i: nat): Torrent
    requires i < |t.peers|
  {
    Uncount(t.(peers := t.peers[..i] + t.peers[i + 1..]), t.peers[i].left == 0)
  }

  // ---------- The operations field by field ----------

  /** An insertion puts this very peer at the head of the list and counts it as what it is, unless a
      peer with its address is listed; then it changes nothing. */
  lemma {:induction false} AddInserts(t: Torrent, pe: Peer)
    ensures (exists p :: p in t.peers && p.ip == pe.ip && p.port == pe.port) ==> AddPeer(t, pe) == t
    ensures (forall p :: p in t.peers ==> !(p.ip == pe.ip && p.port == pe.port)) ==>
              AddPeer(t, pe) == Torrent(t.info_hash,
                                        if pe.left == 0 then t.seeders + 1 else t.seeders,
                                        if pe.left == 0 then t.leechers else t.leechers + 1,
                                        t.complete, t.peer_count + 1, [pe] + t.peers)
  {
    var i := FindPeer(t.peers, pe.ip, pe.port);
    assert i < |t.peers| ==> t.peers[i] in t.peers;
  }

  /** Only a completion and a start change counters, and no update changes the list. */
  lemma {:induction false} UpdateCounts(t: Torrent, pe: Peer)
    ensures UpdatePeer(t, pe, Nothing) == t && UpdatePeer(t, pe, Stop) == t
    ensures UpdatePeer(t, pe, Complete) == Torrent(t.info_hash, t.seeders + 1, t.leechers, t.complete + 1, t.peer_count, t.peers)
    ensures pe.left == 0 ==> UpdatePeer(t, pe, Start) == Torrent(t.info_hash, t.seeders + 1, t.leechers, t.complete, t.peer_count, t.peers)
    ensures pe.left != 0 ==> UpdatePeer(t, pe, Start) == Torrent(t.info_hash, t.seeders, t.leechers + 1, t.complete, t.peer_count, t.peers)
  {
    hide FindPeer;
  }

  /** A removal unlinks the i-th peer only and uncounts it as what it is. */
  lemma {:induction false} RemoveUnlinks(t: Torrent, i: nat)
    requires i < |t.peers|
    ensures var u := RemovePeer(t, i);
            && |u.peers| == |t.peers| - 1 && (forall k :: 0 <= k < |u.peers| ==> u.peers[k] == t.peers[if k < i then k else k + 1])
            && u.info_hash == t.info_hash && u.peer_count == t.peer_count - 1
            && (t.peers[i].left == 0 ==> u.seeders == t.seeders - 1 && u.complete == t.complete - 1 && u.leechers == t.leechers)
            && (t.peers[i].left != 0 ==> u.seeders == t.seeders && u.complete == t.complete && u.leechers == t.leechers - 1)
  {
  }

  // ---------- Counters and uniqueness ----------

  function Finished(p: Peer): nat { if p.left == 0 then 1 else 0 }
  function Unfinished(p: Peer): nat { if p.left == 0 then 0 else 1 }

  ghost predicate UniqueAddresses(peers: seq<Peer>) {
    forall i, j :: 0 <= i < j < |peers| ==> !SameAddress(peers[i], peers[j].ip, peers[j].port)
  }

  /** What has happened to a torrent: completed announcements, finished peers removed, and removals
      of peers that were no longer listed, which lower the counters all the same. */
  datatype Tally = Tally(completions: nat, departed: nat, missedFinished: nat, missedUnfinished: nat)

  const NO_TALLY := Tally(0, 0, 0, 0)

  function Missed(h: Tally): nat {
    h.missedFinished + h.missedUnfinished
  }

  /** The counters against the list. Completion raises seeders without lowering leechers. */
  ghost predicate Counted(t: Torrent, h: Tally) {
    && t.peer_count == |t.peers| - h.missedFinished - h.missedUnfinished
    && t.leechers == Sum(t.peers, Unfinished) - h.missedUnfinished
    && t.seeders == Sum(t.peers, Finished) + h.completions - h.missedFinished
    && t.complete == h.completions - h.departed - h.missedFinished
  }

  lemma {:induction false} PeersSplit(peers: seq<Peer>)
    ensures Sum(peers, Finished) + Sum(peers, Unfinished) == |peers|
  {
    if peers != [] {
      PeersSplit(peers[1..]);
    }
  }

  /** What a reader of the counters may rely on: their sums always, and their agreement with the list
      exactly as long as no removal has missed its peer. */
  lemma {:induction false} CountersAddUp(t: Torrent, h: Tally)
    requires Counted(t, h)
    ensures t.seeders + t.leechers == t.peer_count + h.completions
    ensures t.complete <= t.seeders
    ensures t.peer_count == |t.peers| <==> Missed(h) == 0
    ensures t.leechers == Sum(t.peers, Unfinished) <==> h.missedUnfinished == 0
    ensures t.seeders == Sum(t.peers, Finished) + h.completions <==> h.missedFinished == 0
    ensures t.peer_count >= 1 <==> |t.peers| > Missed(h)
    ensures Missed(h) == 0 ==> 0 <= t.leechers <= t.peer_count && t.seeders >= h.completions
  {
    PeersSplit(t.peers);
  }

  lemma {:induction false} AddKeeps(t: Torrent, pe: Peer, h: Tally)
    requires Counted(t, h) && UniqueAddresses(t.peers)
    ensures Counted(AddPeer(t, pe), h) && UniqueAddresses(AddPeer(t, pe).peers)
    ensures FindPeer(AddPeer(t, pe).peers, pe.ip, pe.port) < |AddPeer(t, pe).peers|
  {
    SumConcat([pe], t.peers, Finished);
    SumConcat([pe], t.peers, Unfinished);
    SumOne(pe, Finished);
    SumOne(pe, Unfinished);
    assert AddPeer(t, pe) != t ==> AddPeer(t, pe).peers[0] == pe;
  }

  /** Nothing listed, nothing counted. */
  lemma {:induction false} NewCounted(t: Torrent)
    requires |t.peers| == 0 && t.peer_count == 0 && t.leechers == 0 && t.seeders == 0 && t.complete == 0
    ensures Counted(t, NO_TALLY)
  {
    SumZero(t.peers, Finished);
    SumZero(t.peers, Unfinished);
    hide Sum;
  }

  function Completed(h: Tally, action: Action): Tally {
    if action == Complete then h.(completions := h.completions + 1) else h
  }

  lemma {:induction false} UpdateKeeps(t: Torrent, pe: Peer, action: Action, h: Tally)
    requires Counted(t, h) && action != Start
    ensures Counted(UpdatePeer(t, pe, action), Completed(h, action))
    ensures UpdatePeer(t, pe, action).peers == t.peers
  {
  }

  lemma {:induction false} SumWithout(peers: seq<Peer>, i: nat, f: Peer -> nat)
    requires i < |peers|
    ensures Sum(peers[..i] + peers[i + 1..], f) + f(peers[i]) == Sum(peers, f)
  {
    SumConcat(peers[..i], peers[i + 1..], f);
    SumConcat(peers[..i], peers[i..], f);
    assert peers[..i] + peers[i..] == peers;
    assert peers[i..][1..] == peers[i + 1..];
  }

  function Departed(h: Tally, p: Peer): Tally {
    h.(departed := h.departed + Finished(p))
  }

  lemma {:induction false} RemoveKeeps(t: Torrent, i: nat, h: Tally)
    requires Counted(t, h) && UniqueAddresses(t.peers) && i < |t.peers|
    ensures Counted(RemovePeer(t, i), Departed(h, t.peers[i]))
    ensures UniqueAddresses(RemovePeer(t, i).peers)
    ensures forall p :: p in RemovePeer(t, i).peers ==> p in t.peers && p != t.peers[i]
  {
    SumWithout(t.peers, i, Finished);
    SumWithout(t.peers, i, Unfinished);
    var peers := RemovePeer(t, i).peers;
    assert forall k :: 0 <= k < |peers| ==> peers[k] == t.peers[if k < i then k else k + 1];
  }

  function MissedOne(h: Tally, finished: bool): Tally {
    if finished then h.(missedFinished := h.missedFinished + 1) else h.(missedUnfinished := h.missedUnfinished + 1)
  }

  /** A removal whose peer is no longer listed: the counters fall behind the list by one more. */
  lemma {:induction false} MissKeeps(t: Torrent, finished: bool, h: Tally)
    requires Counted(t, h)
    ensures Counted(Uncount(t, finished), MissedOne(h, finished))
    ensures Uncount(t, finished).peers == t.peers
  {
  }

  // ---------- The torrent as an object ----------

  predicate CString(p: Peer) {
    NulFree(p.peer_id) && NulFree(p.ip)
  }

  lemma {:induction false} NulFreeJoin(a: string, b: string)
    ensures NulFree(a) && NulFree(b) ==> NulFree(a + b)
  {
  }

  lemma {:induction false} FormatsNulFree()
    ensures NulFree("d4:porti") && NulFree("e7:peer_id") && NulFree("2:ip") && NulFree("e") && NulFree("ee")
    ensures NulFree("d8:completei") && NulFree("e10:incompletei") && NulFree("e8:intervali") && NulFree("e5:peersl")
  {
  }

  lemma {:induction false} PeerNulFree(p: Peer)
    requires CString(p)
    ensures NulFree(PeerText(p))
  {
    FormatsNulFree();
    DecNulFree(p.port);
    EncStrNulFree(p.peer_id);
    EncStrNulFree(p.ip);
    hide Dec, EncStr, NulFree;
    var t1 := "d4:porti" + Dec(p.port);
    var t2 := t1 + "e7:peer_id";
    var t3 := t2 + EncStr(p.peer_id);
    var t4 := t3 + "2:ip";
    NulFreeJoin("d4:porti", Dec(p.port));
    NulFreeJoin(t1, "e7:peer_id");
    NulFreeJoin(t2, EncStr(p.peer_id));
    NulFreeJoin(t3, "2:ip");
    NulFreeJoin(t4, EncStr(p.ip));
    NulFreeJoin(t4 + EncStr(p.ip), "e");
  }

  lemma {:induction false} PeersNulFree(peers: seq<Peer>)
    requires forall p :: p in peers ==> CString(p)
    ensures NulFree(PeersText(peers))
  {
    hide PeerText;
    if peers != [] {
      assert peers[0] in peers;
      PeerNulFree(peers[0]);
      PeersNulFree(peers[1..]);
    }
  }

  lemma {:induction false} HeaderNulFree(t: Torrent)
    ensures NulFree(Header(t))
  {
    FormatsNulFree();
    DecNulFree(t.seeders);
    DecNulFree(t.leechers);
    DecNulFree(INTERVAL);
    hide Dec, NulFree;
    var t1 := "d8:completei" + Dec(t.seeders);
    var t2 := t1 + "e10:incompletei";
    var t3 := t2 + Dec(t.leechers);
    var t4 := t3 + "e8:intervali";
    NulFreeJoin("d8:completei", Dec(t.seeders));
    NulFreeJoin(t1, "e10:incompletei");
    NulFreeJoin(t2, Dec(t.leechers));
    NulFreeJoin(t3, "e8:intervali");
    NulFreeJoin(t4, Dec(INTERVAL));
    NulFreeJoin(t4 + Dec(INTERVAL), "e5:peersl");
  }

  lemma {:induction false} ReplyNulFree(t: Torrent)
    requires forall p :: p in t.peers ==> CString(p)
    ensures NulFree(Reply(t))
  {
    ReplyText(t);
    HeaderNulFree(t);
    FormatsNulFree();
    assert forall p :: p in Wanted(t.peers) ==> p in t.peers;
    PeersNulFree(Wanted(t.peers));
    hide Dec, PeersText, Reply, Wanted, Header, NulFree;
    NulFreeJoin(Header(t), PeersText(Wanted(t.peers)));
    NulFreeJoin(Header(t) + PeersText(Wanted(t.peers)), "ee");
  }

  class TorrentEntry {
    var info_hash: string
    var seeders: int
    var leechers: int
    var complete: int
    var peer_count: int
    var peers: seq<Peer>

    ghost function Value(): Torrent
      reads this
    {
      Torrent(info_hash, seeders, leechers, complete, peer_count, peers)
    }

    /** Peer fields are C strings. */
    ghost predicate Valid()
      reads this
    {
      forall p :: p in peers ==> CString(p)
    }

    constructor ()
      ensures Valid() && Value() == NEW_TORRENT
    {
      info_hash := "";
      seeders, leechers, complete, peer_count := 0, 0, 0, 0;
      peers := [];
    }

    method SearchPeer(ip: string, port: int) returns (i: nat)
      ensures i == FindPeer(peers, ip, port)
    {
      i := 0;
      while i < |peers|
        invariant 0 <= i <= |peers|
        invariant forall k :: 0 <= k < i ==> !SameAddress(peers[k], ip, port)
      {
        if peers[i].ip == ip && peers[i].port == port {
          return;
        }
        i := i + 1;
      }
    }

    /** Allocates 128 bytes for each peer and prints the list there. */
    method ReturnList() returns (list: Listing)
      requires Valid()
      ensures list == if FitsAllocation(Value()) then Listing(Reply(Value())) else DoesNotFit
    {
      hide Reply;
      var t := Torrent(info_hash, seeders, leechers, complete, peer_count, peers);
      if !FitsAllocation(t) {
        return DoesNotFit;
      }
      var out := new char[128 * peer_count](_ => '\0');
      BencodeTorrent(t, out, 128 * peer_count);
      ReplyNulFree(t);
      var n := Strlen(out, 0, Reply(t));
      return Listing(out[..n]);
    }

    method AddPeerAndReturnList(pe: Peer) returns (list: Listing)
      requires Valid() && CString(pe)
      modifies this
      ensures Valid()
      ensures Value() == AddPeer(old(Value()), pe)
      ensures list == if FitsAllocation(Value()) then Listing(Reply(Value())) else DoesNotFit
    {
      var i := SearchPeer(pe.ip, pe.port);
      if i == |peers| {
        peers := [pe] + peers;
        peer_count := peer_count + 1;
        if pe.left == 0 {
          seeders := seeders + 1;
        } else {
          leechers := leechers + 1;
        }
      }
      list := ReturnList();
    }

    method UpdatePeerAndReturnList(pe: Peer, action: Action) returns (list: Listing)
      requires Valid()
      modifies this
      ensures Valid()
      ensures Value() == UpdatePeer(old(Value()), pe, action)
      ensures action == Nothing ==> Value() == old(Value())
      ensures list == if FitsAllocation(Value()) then Listing(Reply(Value())) else DoesNotFit
    {
      match action {
        case Complete =>
          complete := complete + 1;
          seeders := seeders + 1;
        case Start =>
          if pe.left == 0 {
            seeders := seeders + 1;
          } else {
            leechers := leechers + 1;
          }
        case _ =>
      }
      list := ReturnList();
    }

    /** Unlinks the i-th entry of the list. */
    method RemovePeerAt(i: nat)
      requires Valid() && i < |peers|
      modifies this
      ensures Valid()
      ensures Value() == RemovePeer(old(Value()), i)
    {
      var pe := peers[i];
      peers := peers[..i] + peers[i + 1..];
      peer_count := peer_count - 1;
      if pe.left == 0 {
        seeders := seeders - 1;
        complete := complete - 1;
      } else {
        leechers := leechers - 1;
      }
    }
  }
}
