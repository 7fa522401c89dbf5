/** The announce reply (torrent_bencode_torrent): a hand-written printer that takes the place of
    building a tree and running the generic writer. It is proved to print the encoding of the tree,
    and the allocation of 128 bytes for each peer is weighed against what it prints. */
module Announce {
  import opened Sums
  import opened Decimal
  import opened CStrings
  import opened Bencode
  import opened BencodeWriter

  const T_MAX_NUMWANT: nat := 80
  const INTERVAL: int := 30

  /** A peer as listed; node stands for the address of its list entry. */
  datatype Peer = Peer(node: nat, peer_id: string, port: int, ip: string, left: int)

  datatype Torrent = Torrent(
    info_hash: string, seeders: int, leechers: int, complete: int, peer_count: int, peers: seq<Peer>)

  // ---------- The tree ----------

  function PeerTree(p: Peer): Value {
    Dict(Pair("port", Int(p.port), Pair("peer_id", Str(p.peer_id), Pair("ip", Str(p.ip), End))))
  }

  function PeerTrees(peers: seq<Peer>): Items {
    if peers == [] then Nil else Cons(PeerTree(peers[0]), PeerTrees(peers[1..]))
  }

  function Wanted(peers: seq<Peer>): seq<Peer> {
    if |peers| <= T_MAX_NUMWANT then peers else peers[..T_MAX_NUMWANT]
  }

  /** {complete, incomplete, interval, peers}, at most eighty peers in list order. */
  function ReplyTree(t: Torrent): Value {
    Dict(Pair("complete", Int(t.seeders),
         Pair("incomplete", Int(t.leechers),
         Pair("interval", Int(INTERVAL),
         Pair("peers", List(PeerTrees(Wanted(t.peers))), End)))))
  }

  function Reply(t: Torrent): string {
    Enc(ReplyTree(t))
  }

  /** What a client is to find in a reply: the counters, when to come back, and the first eighty
      peers of the list, in its order. */
  ghost predicate Answers(v: Value, t: Torrent) {
    exists items ::
      && v == Dict(Pair("complete", Int(t.seeders), Pair("incomplete", Int(t.leechers), Pair("interval", Int(30), Pair("peers", List(items), End)))))
      && Length(items) == (if |t.peers| < 80 then |t.peers| else 80)
      && forall i :: 0 <= i < Length(items) ==>
           Nth(items, i) == Dict(Pair("port", Int(t.peers[i].port), Pair("peer_id", Str(t.peers[i].peer_id), Pair("ip", Str(t.peers[i].ip), End))))
  }

  lemma {:induction false} PeerTreesAt(peers: seq<Peer>)
    ensures Length(PeerTrees(peers)) == |peers|
    ensures forall i :: 0 <= i < |peers| ==>
              Nth(PeerTrees(peers), i) == Dict(Pair("port", Int(peers[i].port), Pair("peer_id", Str(peers[i].peer_id), Pair("ip", Str(peers[i].ip), End))))
  {
    if peers != [] {
      PeerTreesAt(peers[1..]);
      forall i | 0 <= i < |peers| ensures Nth(PeerTrees(peers), i) == PeerTree(peers[i]) {
        if i > 0 { assert peers[1..][i - 1] == peers[i]; }
      }
    }
  }

  /** A client that decodes a reply finds that. */
  lemma {:induction false} ReplyAnswers(t: Torrent, rest: string)
    ensures Decode(Reply(t) + rest).Got? && Decode(Reply(t) + rest).rest == rest
    ensures Answers(Decode(Reply(t) + rest).value, t)
  {
    hide Enc, Decode;
    RoundTrip(ReplyTree(t), rest);
    PeerTreesAt(Wanted(t.peers));
    hide PeerTrees, Nth;
    var items := PeerTrees(Wanted(t.peers));
    assert ReplyTree(t) == Dict(Pair("complete", Int(t.seeders), Pair("incomplete", Int(t.leechers), Pair("interval", Int(30), Pair("peers", List(items), End)))));
  }

  // ---------- The printer's formats ----------

  function Header(t: Torrent): string {
    "d8:completei" + Dec(t.seeders) + "e10:incompletei" + Dec(t.leechers)
    + "e8:intervali" + Dec(INTERVAL) + "e5:peersl"
  }

  /** %zu:%s twice prints the two strings as EncStr does. */
  function PeerText(p: Peer): string {
    "d4:porti" + Dec(p.port) + "e7:peer_id" + EncStr(p.peer_id) + "2:ip" + EncStr(p.ip) + "e"
  }

  function PeersText(peers: seq<Peer>): string {
    if peers == [] then "" else PeerText(peers[0]) + PeersText(peers[1..])
  }

  lemma {:induction false} Keys()
    ensures EncStr("port") == "4:port" && EncStr("peer_id") == "7:peer_id" && EncStr("ip") == "2:ip"
    ensures EncStr("complete") == "8:complete" && EncStr("incomplete") == "10:incomplete"
    ensures EncStr("interval") == "8:interval" && EncStr("peers") == "5:peers"
  {
    assert Dec(4) == "4" && Dec(7) == "7" && Dec(2) == "2" && Dec(8) == "8" && Dec(5) == "5";
    assert DecNat(1) == "1";
    assert Dec(10) == "10";
  }

  lemma {:induction false} Markers()
    ensures "d" + "4:port" + "i" == "d4:porti" && "e" + "7:peer_id" == "e7:peer_id"
    ensures "d" + "8:complete" + "i" == "d8:completei" && "e" + "10:incomplete" + "i" == "e10:incompletei"
    ensures "e" + "8:interval" + "i" == "e8:intervali" && "e" + "5:peers" + "l" == "e5:peersl" && "e" + "e" == "ee"
  {
  }

  lemma {:induction false} RegroupPeer(d: string, i: string, e: string, k1: string, n: string, k2: string, s2: string, k3: string, s3: string)
    ensures (d + k1 + i) + n + (e + k2) + s2 + k3 + s3 + e == d + (k1 + (i + n + e) + (k2 + s2 + (k3 + s3 + ""))) + e
  {
  }

  lemma {:induction false} PeerTextIsEncoding(p: Peer)
    ensures PeerText(p) == Enc(PeerTree(p))
  {
    Keys();
    Markers();
    RegroupPeer("d", "i", "e", "4:port", Dec(p.port), "7:peer_id", EncStr(p.peer_id), "2:ip", EncStr(p.ip));
    PeerTreeText(p);
  }

  lemma {:induction false} PeerTreeText(p: Peer)
    ensures Enc(PeerTree(p))
         == "d" + (EncStr("port") + ("i" + Dec(p.port) + "e")
                   + (EncStr("peer_id") + EncStr(p.peer_id) + (EncStr("ip") + EncStr(p.ip) + ""))) + "e"
  {
    hide Dec, EncStr;
    var last := Pair("ip", Str(p.ip), End);
    var middle := Pair("peer_id", Str(p.peer_id), last);
    assert EncEntries(last) == EncStr("ip") + EncStr(p.ip) + "";
    assert EncEntries(middle) == EncStr("peer_id") + EncStr(p.peer_id) + EncEntries(last);
    assert EncEntries(Pair("port", Int(p.port), middle)) == EncStr("port") + Enc(Int(p.port)) + EncEntries(middle);
  }

  lemma {:induction false} PeersTextIsEncoding(peers: seq<Peer>)
    ensures PeersText(peers) == EncItems(PeerTrees(peers))
  {
    hide PeerText, Enc;
    if peers != [] {
      PeerTextIsEncoding(peers[0]);
      PeersTextIsEncoding(peers[1..]);
    }
  }

  lemma {:induction false} RegroupReply(d: string, i: string, e: string, l: string, k1: string, n1: string, k2: string, n2: string,
                                        k3: string, n3: string, k4: string, items: string)
    ensures ((d + k1 + i) + n1 + (e + k2 + i) + n2 + (e + k3 + i) + n3 + (e + k4 + l)) + items + (e + e)
         == d + (k1 + (i + n1 + e) + (k2 + (i + n2 + e) + (k3 + (i + n3 + e) + (k4 + (l + items + e) + "")))) + e
  {
  }

  lemma {:induction false} ReplyTreeText(t: Torrent)
    ensures Reply(t)
         == "d" + (EncStr("complete") + ("i" + Dec(t.seeders) + "e")
                   + (EncStr("incomplete") + ("i" + Dec(t.leechers) + "e")
                      + (EncStr("interval") + ("i" + Dec(INTERVAL) + "e")
                         + (EncStr("peers") + ("l" + EncItems(PeerTrees(Wanted(t.peers))) + "e") + "")))) + "e"
  {
    hide Dec, EncStr, Wanted, PeerTrees, EncItems;
    var last := Pair("peers", List(PeerTrees(Wanted(t.peers))), End);
    var third := Pair("interval", Int(INTERVAL), last);
    var second := Pair("incomplete", Int(t.leechers), third);
    assert EncEntries(last) == EncStr("peers") + Enc(List(PeerTrees(Wanted(t.peers)))) + "";
    assert EncEntries(third) == EncStr("interval") + Enc(Int(INTERVAL)) + EncEntries(last);
    assert EncEntries(second) == EncStr("incomplete") + Enc(Int(t.leechers)) + EncEntries(third);
    assert EncEntries(Pair("complete", Int(t.seeders), second)) == EncStr("complete") + Enc(Int(t.seeders)) + EncEntries(second);
  }

  /** Header, peers and closing marks together are the encoding of the reply tree. */
  lemma {:induction false} ReplyText(t: Torrent)
    ensures Header(t) + PeersText(Wanted(t.peers)) + "ee" == Reply(t)
  {
    PeersTextIsEncoding(Wanted(t.peers));
    Keys();
    Markers();
    hide Dec, EncStr, Wanted, PeerTrees, EncItems, Reply;
    ReplyTreeText(t);
    RegroupReply("d", "i", "e", "l", "8:complete", Dec(t.seeders), "10:incomplete", Dec(t.leechers),
                 "8:interval", Dec(INTERVAL), "5:peers", EncItems(PeerTrees(Wanted(t.peers))));
  }

  // ---------- The printer ----------

  /** Prints the reply of a torrent; the loop stops after eighty peers. */
  method BencodeTorrent(t: Torrent, out: array<char>, outSize: nat)
    requires outSize <= out.Length && |Reply(t)| < outSize
    modifies out
    ensures HoldsString(out[..], 0, Reply(t))
    ensures out[|Reply(t)| + 1..] == old(out[|Reply(t)| + 1..])
    ensures var d := Decode(out[..|Reply(t)|]); d.Got? && d.rest == "" && Answers(d.value, t)
  {
    ghost var text := Reply(t);
    ReplyText(t);
    hide Reply, PeersText, Header, Dec, Answers, Decode, Wanted;
    var written := Snprintf(out, 0, outSize, Header(t));
    assert Header(t)[..|Header(t)|] == Header(t);
    TailKept(old(out[..]), out[..], written + 1, |text| + 1);
    written := PrintPeers(t, out, outSize, written, text);
    ghost var done := Header(t) + PeersText(Wanted(t.peers));
    assert done + "ee" == done + ("ee" + "");
    written := PrintNext(out, 0, outSize, written, "ee", done, "", text);
    assert done + "ee" + "" == done + "ee";
    TextAnswers(t, out[..]);
    assert out[..][..|text|] == out[..|text|];
  }

  /** Its loop, after the header. */
  method PrintPeers(t: Torrent, out: array<char>, outSize: nat, start: nat, ghost text: string) returns (written: nat)
    requires outSize <= out.Length && |text| < outSize
    requires text == Header(t) + PeersText(Wanted(t.peers)) + "ee"
    requires HoldsString(out[..], 0, Header(t)) && start == |Header(t)|
    modifies out
    ensures HoldsString(out[..], 0, Header(t) + PeersText(Wanted(t.peers))) && written == |Header(t) + PeersText(Wanted(t.peers))|
    ensures out[|text| + 1..] == old(out[|text| + 1..])
  {
    hide PeerText, Header;
    ghost var wanted, done := Wanted(t.peers), Header(t);
    written := start;
    assert wanted[0..] == wanted;
    var i := 0;
    while i < |t.peers| && i < T_MAX_NUMWANT
      invariant 0 <= i <= |wanted|
      invariant HoldsString(out[..], 0, done) && written == |done|
      invariant done + PeersText(wanted[i..]) + "ee" == text
      invariant out[|text| + 1..] == old(out[|text| + 1..])
    {
      ghost var part, next := PeerText(t.peers[i]), PeersText(wanted[i + 1..]);
      assert wanted[i..][0] == t.peers[i] && wanted[i..][1..] == wanted[i + 1..];
      assert done + (part + next) + "ee" == done + (part + (next + "ee"));
      written := PrintNext(out, 0, outSize, written, PeerText(t.peers[i]), done, next + "ee", text);
      done := done + part;
      assert done + (next + "ee") == done + next + "ee";
      i := i + 1;
    }
    assert wanted[i..] == [];
    assert done + "" + "ee" == done + "ee";
    SameBeforeEnd(done, Header(t) + PeersText(wanted), "ee");
  }

  lemma {:induction false} SameBeforeEnd(a: string, b: string, end: string)
    requires a + end == b + end
    ensures a == b
  {
    assert a == (a + end)[..|a + end| - |end|] && b == (b + end)[..|b + end| - |end|];
  }

  lemma {:induction false} TextAnswers(t: Torrent, out: seq<char>)
    requires HoldsString(out, 0, Reply(t))
    ensures var d := Decode(out[..|Reply(t)|]); d.Got? && d.rest == "" && Answers(d.value, t)
  {
    ReplyAnswers(t, "");
    hide Reply, Answers, Decode;
    assert out[..|Reply(t)|] == out[0..|Reply(t)|] == Reply(t) + "";
  }

  // ---------- The tree bencode_init_peer builds ----------

  const PEER_HASH_LEN: nat := 64

  /** What is read back of a string put into a field by strncpy of 64 characters: the string if it is
      shorter; otherwise no terminator is written, and reading goes on into what happens to follow. */
  function Stored(s: string, following: string): string {
    if |s| < PEER_HASH_LEN then s else s[..PEER_HASH_LEN] + following
  }

  /** Three head insertions: port, then peer_id, then ip. */
  function InitPeer(p: Peer, afterId: string, afterIp: string): Value {
    Dict(Pair("ip", Str(Stored(p.ip, afterIp)), Pair("peer_id", Str(Stored(p.peer_id, afterId)), Pair("port", Int(p.port), End))))
  }

  /** A dictionary as a map; the first of equal keys counts. */
  function AsMap(entries: Entries): map<string, Value> {
    match entries
    case End => map[]
    case Pair(key, value, next) => AsMap(next)[key := value]
  }

  predicate InField(p: Peer) {
    |p.peer_id| < 64 && |p.ip| < 64 && IsInt32(p.port)
  }

  /** The two dictionaries are equal as maps. */
  predicate Agree(p: Peer, afterId: string, afterIp: string) {
    Narrow(InitPeer(p, afterId, afterIp)).Dict?
    && AsMap(PeerTree(p).entries) == AsMap(Narrow(InitPeer(p, afterId, afterIp)).entries)
  }

  /** The fast printer's text and the generic writer's over bencode_init_peer's tree decode to their
      trees, and these describe the same peer, keys in another order, exactly when each field is read
      back as it was. */
  lemma {:induction false} PeerDictsAgree(p: Peer, afterId: string, afterIp: string, rest: string)
    requires Printable(p.peer_id) && Printable(p.ip) && NulFree(afterId) && NulFree(afterIp)
    ensures Writable(InitPeer(p, afterId, afterIp))
    ensures Decode(PeerText(p) + rest) == Got(PeerTree(p), rest)
    ensures var v := Narrow(InitPeer(p, afterId, afterIp)); Decode(Enc(v) + rest) == Got(v, rest)
    ensures Agree(p, afterId, afterIp)
       <==> Stored(p.peer_id, afterId) == p.peer_id && Stored(p.ip, afterIp) == p.ip && IsInt32(p.port)
  {
    PeerTextIsEncoding(p);
    RoundTrip(PeerTree(p), rest);
    RoundTrip(Narrow(InitPeer(p, afterId, afterIp)), rest);
    hide Enc, Decode, PeerText, EncEntries;
    InitPeerWritable(p, afterId, afterIp);
    PeerMaps(p, afterId, afterIp);
  }

  /** They agree whatever follows the fields in memory exactly for a peer that fits them. */
  lemma {:induction false} AgreeWhateverFollows(p: Peer)
    requires Printable(p.peer_id) && Printable(p.ip)
    ensures (forall afterId, afterIp :: NulFree(afterId) && NulFree(afterIp) ==> Agree(p, afterId, afterIp)) <==> InField(p)
  {
    hide Agree;
    forall afterId, afterIp | NulFree(afterId) && NulFree(afterIp)
      ensures Agree(p, afterId, afterIp)
         <==> Stored(p.peer_id, afterId) == p.peer_id && Stored(p.ip, afterIp) == p.ip && IsInt32(p.port) {
      PeerMaps(p, afterId, afterIp);
    }
    var afterId, afterIp := Other(p.peer_id), Other(p.ip);
    assert Agree(p, afterId, afterIp) ==> InField(p);
  }

  /** Something to follow a field that is not the rest of this string. */
  function Other(s: string): (following: string)
    ensures NulFree(following)
    ensures Stored(s, following) == s <==> |s| < PEER_HASH_LEN
  {
    if |s| == PEER_HASH_LEN then "x" else ""
  }

  lemma {:induction false} StoredPrintable(s: string, following: string)
    requires Printable(s) && NulFree(following)
    ensures Printable(Stored(s, following))
  {
    assert |Stored(s, following)| > 0;
    assert forall c :: c in Stored(s, following) ==> c in s || c in following;
  }

  lemma {:induction false} InitPeerWritable(p: Peer, afterId: string, afterIp: string)
    requires Printable(p.peer_id) && Printable(p.ip) && NulFree(afterId) && NulFree(afterIp)
    ensures Writable(InitPeer(p, afterId, afterIp))
  {
    StoredPrintable(p.ip, afterIp);
    StoredPrintable(p.peer_id, afterId);
    hide Stored;
    assert EmptyStr("port") == 0 && EmptyStr("peer_id") == 0 && EmptyStr("ip") == 0;
    var ip, id := Str(Stored(p.ip, afterIp)), Str(Stored(p.peer_id, afterId));
    assert NulFree("port") && NulFree("peer_id") && NulFree("ip");
    var last := Pair("port", Int(p.port), End);
    assert EmptiesEntries(last) == EmptyStr("port") + Empties(Int(p.port)) + EmptiesEntries(End);
    assert NulFreeEntries(last) && EmptiesEntries(last) == 0;
    var middle := Pair("peer_id", id, last);
    assert EmptiesEntries(middle) == EmptyStr("peer_id") + Empties(id) + EmptiesEntries(last);
    var first := Pair("ip", ip, middle);
    assert EmptiesEntries(first) == EmptyStr("ip") + Empties(ip) + EmptiesEntries(middle);
    assert NulFreeEntries(middle) && NulFreeEntries(first);
  }

  lemma {:induction false} PeerMaps(p: Peer, afterId: string, afterIp: string)
    ensures Agree(p, afterId, afterIp)
       <==> Stored(p.peer_id, afterId) == p.peer_id && Stored(p.ip, afterIp) == p.ip && IsInt32(p.port)
  {
    var id, ip := Stored(p.peer_id, afterId), Stored(p.ip, afterIp);
    hide Stored;
    var a := map["ip" := Str(p.ip)]["peer_id" := Str(p.peer_id)]["port" := Int(p.port)];
    var b := map["port" := Int(ToInt32(p.port))]["peer_id" := Str(id)]["ip" := Str(ip)];
    var last := Pair("ip", Str(p.ip), End);
    assert AsMap(last) == AsMap(End)["ip" := Str(p.ip)];
    assert AsMap(PeerTree(p).entries) == a;
    var end := Pair("port", Int(p.port), End);
    assert NarrowEntries(end) == Pair("port", Int(ToInt32(p.port)), End);
    assert AsMap(NarrowEntries(end)) == AsMap(End)["port" := Int(ToInt32(p.port))];
    var middle := Pair("peer_id", Str(id), end);
    assert NarrowEntries(middle) == Pair("peer_id", Str(id), NarrowEntries(end));
    assert AsMap(NarrowEntries(middle)) == AsMap(NarrowEntries(end))["peer_id" := Str(id)];
    var first := Pair("ip", Str(ip), middle);
    assert Narrow(InitPeer(p, afterId, afterIp)) == Dict(NarrowEntries(first));
    assert NarrowEntries(first) == Pair("ip", Narrow(Str(ip)), NarrowEntries(middle));
    assert AsMap(Narrow(InitPeer(p, afterId, afterIp)).entries) == b;
    assert "ip" != "port" && "ip" != "peer_id" && "peer_id" != "port";
    if id == p.peer_id && ip == p.ip && IsInt32(p.port) {
      assert a == b;
    } else {
      assert a["ip"] != b["ip"] || a["peer_id"] != b["peer_id"] || a["port"] != b["port"];
    }
  }

  // ---------- 128 bytes for each peer ----------

  function PeerLength(p: Peer): nat {
    23 + |Dec(p.port)| + |EncStr(p.peer_id)| + |EncStr(p.ip)|
  }

  lemma {:induction false} PeersLength(peers: seq<Peer>)
    ensures |PeersText(peers)| == Sum(peers, PeerLength)
  {
    hide Dec, EncStr;
    if peers != [] {
      PeersLength(peers[1..]);
    }
  }

  lemma {:induction false} ReplyLength(t: Torrent)
    ensures |Reply(t)| == 52 + |Dec(t.seeders)| + |Dec(t.leechers)| + Sum(Wanted(t.peers), PeerLength)
  {
    ReplyText(t);
    PeersLength(Wanted(t.peers));
    assert Dec(INTERVAL) == "30" by {
      assert DecNat(3) == "3";
    }
    hide Reply, PeersText, Dec;
  }

  /** What a conforming client announces. */
  predicate Conforming(p: Peer) {
    |p.peer_id| <= 20 && |p.ip| <= 15 && 1024 <= p.port <= 65535
  }

  lemma {:induction false} ConformingLength(p: Peer)
    requires Conforming(p)
    ensures PeerLength(p) <= 69
  {
    assert Pow10(1) == 10 && Pow10(2) == 100;
    assert Pow10(5) == 100_000;
    DecNatLength(p.port, 5);
    DecNatLength(|p.peer_id|, 2);
    DecNatLength(|p.ip|, 2);
  }

  lemma {:induction false} ConformingSum(peers: seq<Peer>)
    requires forall p :: p in peers ==> Conforming(p)
    ensures Sum(peers, PeerLength) <= 69 * |peers|
  {
    if peers != [] {
      ConformingLength(peers[0]);
      ConformingSum(peers[1..]);
    }
  }

  /** The reply and its terminator fit the 128 bytes for each peer that the callers allocate. */
  predicate FitsAllocation(t: Torrent) {
    |Reply(t)| + 1 <= 128 * t.peer_count
  }

  /** With conforming peers and a peer count that is the list's length, the reply fits exactly when
      there are two or more peers, or one whose entry leaves room for the two counters; six characters
      for the counters always do. */
  lemma {:induction false} ReplyFits(t: Torrent)
    requires IsInt32(t.seeders) && IsInt32(t.leechers)
    requires t.peer_count == |t.peers| && forall p :: p in t.peers ==> Conforming(p)
    ensures FitsAllocation(t) <==>
              |t.peers| >= 2
              || (|t.peers| == 1 && |Dec(t.seeders)| + |Dec(t.leechers)| + PeerLength(t.peers[0]) <= 75)
    ensures |t.peers| >= 1 && |Dec(t.seeders)| + |Dec(t.leechers)| <= 6 ==> FitsAllocation(t)
  {
    ReplyLength(t);
    Int32Length(t.seeders);
    Int32Length(t.leechers);
    hide Reply, Dec, PeerLength;
    var wanted := Wanted(t.peers);
    assert forall p :: p in wanted ==> p in t.peers;
    ConformingSum(wanted);
    if |t.peers| == 1 {
      assert wanted == [t.peers[0]];
      SumOne(t.peers[0], PeerLength);
    }
  }

  /** The longest entry of a conforming peer. */
  predicate Longest(p: Peer) {
    |p.peer_id| == 20 && |p.ip| == 15 && 10000 <= p.port <= 65535
  }

  /** A single such peer, still leeching: its reply fits exactly up to the hundred-thousandth
      completion. */
  lemma {:induction false} OnePeerTooLong(p: Peer, t: Torrent)
    requires Longest(p) && t.peers == [p] && t.peer_count == 1
    requires 0 <= t.seeders && IsInt32(t.seeders) && t.leechers == 1
    ensures Conforming(p)
    ensures FitsAllocation(t) <==> t.seeders < 100_000
  {
    assert Pow10(5) == 100_000 && Pow10(4) == 10_000 by {
      assert Pow10(2) == 100;
    }
    DecNatLength(t.seeders, 5);
    DecNatLength(p.port, 5);
    DecNatLength(p.port, 4);
    assert |Dec(20)| == 2 && |Dec(15)| == 2 by {
      assert |DecNat(2)| == 1 && |DecNat(1)| == 1;
    }
    assert |Dec(1)| == 1;
    ReplyFits(t);
  }
}
