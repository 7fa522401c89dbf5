/** The scrape reply (BEP 48): hex info hashes are turned back into raw bytes and printed as the keys
    of a "files" dictionary, newest snapshot first (torrent.c, http.c, work.c). */
module Scrape {
  import opened Lists
  import opened Decimal
  import opened Bencode
  import opened BencodeWriter
  import opened Announce

  // ---------- Hex ----------

  type Byte = b: int | 0 <= b < 256

  function HexDigit(d: nat): char
    requires d < 16
  {
    "0123456789abcdef"[d]
  }

  predicate IsHexDigit(c: char) {
    '0' <= c <= '9' || 'a' <= c <= 'f'
  }

  function HexValue(c: char): (d: nat)
    requires IsHexDigit(c)
    ensures d < 16 && HexDigit(d) == c
  {
    if c <= '9' then c as int - '0' as int else c as int - 'a' as int + 10
  }

  /** %02x of each byte. */
  function HexOf(raw: seq<Byte>): string {
    if raw == [] then "" else [HexDigit(raw[0] / 16), HexDigit(raw[0] % 16)] + HexOf(raw[1..])
  }

  predicate IsHex(s: string) {
    |s| % 2 == 0 && forall c :: c in s ==> IsHexDigit(c)
  }

  /** %02hhx of each pair of characters. */
  function RawOf(s: string): seq<Byte>
    requires IsHex(s)
  {
    if s == "" then []
    else
      assert s[0] in s && s[1] in s;
      [HexValue(s[0]) * 16 + HexValue(s[1])] + RawOf(s[2..])
  }

  lemma {:induction false} HexDigits(d: nat)
    requires d < 16
    ensures IsHexDigit(HexDigit(d)) && HexValue(HexDigit(d)) == d
  {
  }

  lemma {:induction false} BytePair(b: Byte)
    ensures IsHexDigit(HexDigit(b / 16)) && IsHexDigit(HexDigit(b % 16))
    ensures HexValue(HexDigit(b / 16)) * 16 + HexValue(HexDigit(b % 16)) == b
  {
    HexDigits(b / 16);
    HexDigits(b % 16);
  }

  /** Printing bytes in hex and scanning them back are inverse, both ways. */
  lemma {:induction false} HexRoundTrip(raw: seq<Byte>)
    ensures |HexOf(raw)| == 2 * |raw| && IsHex(HexOf(raw)) && RawOf(HexOf(raw)) == raw
  {
    hide HexDigit, HexValue, IsHexDigit;
    if raw != [] {
      HexRoundTrip(raw[1..]);
      BytePair(raw[0]);
      assert HexOf(raw)[2..] == HexOf(raw[1..]);
    }
  }

  lemma {:induction false} RawRoundTrip(s: string)
    requires IsHex(s)
    ensures |RawOf(s)| == |s| / 2 && HexOf(RawOf(s)) == s
  {
    hide HexDigit, HexValue, IsHexDigit;
    if s != "" {
      RawRoundTrip(s[2..]);
      assert RawOf(s)[1..] == RawOf(s[2..]);
      assert s == [s[0], s[1]] + s[2..];
    }
  }

  /** The printed text is two lower-case hex digits for each byte, the high one first. */
  lemma {:induction false} HexAt(raw: seq<Byte>, i: nat)
    requires i < |raw|
    ensures |HexOf(raw)| == 2 * |raw|
    ensures HexOf(raw)[2 * i] == "0123456789abcdef"[raw[i] / 16] && HexOf(raw)[2 * i + 1] == "0123456789abcdef"[raw[i] % 16]
  {
    HexRoundTrip(raw);
    if i > 0 {
      HexAt(raw[1..], i - 1);
      assert HexOf(raw)[2..] == HexOf(raw[1..]);
      assert HexOf(raw)[2 * i] == HexOf(raw)[2..][2 * (i - 1)];
      assert HexOf(raw)[2 * i + 1] == HexOf(raw)[2..][2 * (i - 1) + 1];
    }
  }

  predicate IsHash(s: string) {
    |s| == 40 && IsHex(s)
  }

  /** The hash of a decoded value: the hex of its first twenty bytes. */
  function HashOf(raw: seq<Byte>): string
    requires |raw| >= 20
  {
    HexOf(raw[..20])
  }

  /** url_decode after percent-decoding: prints the first twenty bytes two characters at a time. */
  method HexEncode(raw: seq<Byte>) returns (hex: string)
    requires |raw| >= 20
    ensures hex == HashOf(raw) && IsHash(hex)
  {
    ghost var first := raw[..20];
    hex := "";
    var i := 0;
    while i < 20
      invariant 0 <= i <= 20
      invariant hex + HexOf(first[i..]) == HexOf(first)
    {
      var pair := [HexDigit(raw[i] / 16), HexDigit(raw[i] % 16)];
      assert first[i..][0] == raw[i] && first[i..][1..] == first[i + 1..];
      assert hex + (pair + HexOf(first[i + 1..])) == hex + pair + HexOf(first[i + 1..]);
      hex := hex + pair;
      i := i + 1;
    }
    assert first[20..] == [];
    HexRoundTrip(first);
  }

  /** The scanning loop of the printer. */
  method HexDecode(hash: string) returns (raw: seq<Byte>)
    requires IsHash(hash)
    ensures raw == RawOf(hash) && |raw| == 20
  {
    hide HexDigit, HexValue, IsHexDigit;
    raw := [];
    var i := 0;
    assert hash[0..] == hash;
    while i < 20
      invariant 0 <= i <= 20
      invariant IsHex(hash[2 * i..]) && raw + RawOf(hash[2 * i..]) == RawOf(hash)
    {
      ghost var rest := hash[2 * i..];
      assert rest[2..] == hash[2 * (i + 1)..];
      var byte := HexValue(hash[2 * i]) * 16 + HexValue(hash[2 * i + 1]);
      assert RawOf(rest) == [byte] + RawOf(rest[2..]);
      assert raw + ([byte] + RawOf(rest[2..])) == raw + [byte] + RawOf(rest[2..]);
      raw := raw + [byte];
      i := i + 1;
    }
    RawRoundTrip(hash);
  }

  // ---------- The reply ----------

  datatype Snapshot = Snapshot(seeders: int, leechers: int, complete: int, peer_count: int, info_hash: string)

  function SnapshotOf(t: Torrent): Snapshot {
    Snapshot(t.seeders, t.leechers, t.complete, t.peer_count, t.info_hash)
  }

  /** Raw bytes as the characters they are written as. */
  function Chars(raw: seq<Byte>): (s: string)
    ensures |s| == |raw|
  {
    seq(|raw|, i requires 0 <= i < |raw| => raw[i] as char)
  }

  predicate ValidSnapshot(se: Snapshot) {
    IsHash(se.info_hash) && IsInt32(se.seeders) && IsInt32(se.leechers) && IsInt32(se.complete)
  }

  function FileTree(se: Snapshot): Value {
    Dict(Pair("complete", Int(se.seeders), Pair("downloaded", Int(se.complete), Pair("incomplete", Int(se.leechers), End))))
  }

  function FileTrees(list: seq<Snapshot>): Entries
    requires forall se :: se in list ==> ValidSnapshot(se)
  {
    if list == [] then End
    else
      assert ValidSnapshot(list[0]);
      Pair(Chars(RawOf(list[0].info_hash)), FileTree(list[0]), FileTrees(list[1..]))
  }

  function ScrapeTree(list: seq<Snapshot>): Value
    requires forall se :: se in list ==> ValidSnapshot(se)
  {
    Dict(Pair("files", Dict(FileTrees(list)), End))
  }

  function FileFormat(se: Snapshot): string {
    "d8:completei" + Dec(se.seeders) + "e10:downloadedi" + Dec(se.complete) + "e10:incompletei" + Dec(se.leechers) + "ee"
  }

  function FileText(se: Snapshot): string
    requires IsHash(se.info_hash)
  {
    "20:" + Chars(RawOf(se.info_hash)) + FileFormat(se)
  }

  function FilesText(list: seq<Snapshot>): string
    requires forall se :: se in list ==> ValidSnapshot(se)
  {
    if list == [] then ""
    else
      assert ValidSnapshot(list[0]);
      FileText(list[0]) + FilesText(list[1..])
  }

  lemma {:induction false} ScrapeKeys()
    ensures EncStr("complete") == "8:complete" && EncStr("incomplete") == "10:incomplete"
    ensures EncStr("downloaded") == "10:downloaded" && EncStr("files") == "5:files"
  {
    assert Dec(8) == "8" && Dec(5) == "5";
    assert DecNat(1) == "1";
    assert Dec(10) == "10";
  }

  lemma {:induction false} ScrapeMarkers()
    ensures "d" + "8:complete" + "i" == "d8:completei" && "e" + "10:downloaded" + "i" == "e10:downloadedi"
    ensures "e" + "10:incomplete" + "i" == "e10:incompletei" && "e" + "e" == "ee"
    ensures "d" + "5:files" + "d" == "d5:filesd" && Dec(20) + ":" == "20:"
  {
    assert DecNat(2) == "2";
    assert Dec(20) == "20";
  }

  lemma {:induction false} RegroupFile(d: string, i: string, e: string, k1: string, n1: string, k2: string, n2: string, k3: string, n3: string)
    ensures (d + k1 + i) + n1 + (e + k2 + i) + n2 + (e + k3 + i) + n3 + (e + e)
         == d + (k1 + (i + n1 + e) + (k2 + (i + n2 + e) + (k3 + (i + n3 + e) + ""))) + e
  {
  }

  lemma {:induction false} FileTreeText(se: Snapshot)
    ensures Enc(FileTree(se))
         == "d" + (EncStr("complete") + ("i" + Dec(se.seeders) + "e")
                   + (EncStr("downloaded") + ("i" + Dec(se.complete) + "e")
                      + (EncStr("incomplete") + ("i" + Dec(se.leechers) + "e") + ""))) + "e"
  {
    hide Dec, EncStr;
    var last := Pair("incomplete", Int(se.leechers), End);
    var middle := Pair("downloaded", Int(se.complete), last);
    assert EncEntries(last) == EncStr("incomplete") + Enc(Int(se.leechers)) + "";
    assert EncEntries(middle) == EncStr("downloaded") + Enc(Int(se.complete)) + EncEntries(last);
    assert EncEntries(Pair("complete", Int(se.seeders), middle)) == EncStr("complete") + Enc(Int(se.seeders)) + EncEntries(middle);
  }

  lemma {:induction false} FileFormatIsEncoding(se: Snapshot)
    ensures FileFormat(se) == Enc(FileTree(se))
  {
    ScrapeKeys();
    ScrapeMarkers();
    FileTreeText(se);
    hide Dec, EncStr;
    RegroupFile("d", "i", "e", "8:complete", Dec(se.seeders), "10:downloaded", Dec(se.complete), "10:incomplete", Dec(se.leechers));
  }

  lemma {:induction false} FilesTextIsEncoding(list: seq<Snapshot>)
    requires forall se :: se in list ==> ValidSnapshot(se)
    ensures FilesText(list) == EncEntries(FileTrees(list))
  {
    if list != [] {
      var se, rest := list[0], list[1..];
      assert se in list;
      RawRoundTrip(se.info_hash);
      FileFormatIsEncoding(se);
      FilesTextIsEncoding(rest);
      var key := Chars(RawOf(se.info_hash));
      HashKeyText(key);
      hide Dec, FileFormat, Enc, RawOf, EncStr, IsHash, IsInt32;
      assert FileText(se) == EncStr(key) + Enc(FileTree(se));
    }
  }

  lemma {:induction false} HashKeyText(key: string)
    requires |key| == 20
    ensures EncStr(key) == "20:" + key
  {
    ScrapeMarkers();
    hide Dec;
  }

  lemma {:induction false} RegroupScrape(d: string, k: string, files: string, e: string)
    ensures (d + k + d) + files + (e + e) == d + (k + (d + files + e) + "") + e
  {
  }

  /** Opening, files and closing marks together are the encoding of the reply tree. */
  lemma {:induction false} ScrapeText(list: seq<Snapshot>)
    requires forall se :: se in list ==> ValidSnapshot(se)
    ensures "d5:filesd" + FilesText(list) + "ee" == Enc(ScrapeTree(list))
  {
    FilesTextIsEncoding(list);
    ScrapeKeys();
    ScrapeMarkers();
    hide FilesText, FileTrees, EncStr, Dec;
    RegroupScrape("d", "5:files", FilesText(list), "e");
    var files := Dict(FileTrees(list));
    assert EncEntries(Pair("files", files, End)) == EncStr("files") + Enc(files) + "";
  }

  // ---------- Room ----------

  lemma {:induction false} FileLength(se: Snapshot)
    requires ValidSnapshot(se)
    ensures 70 <= |FileText(se)| <= 100
  {
    RawRoundTrip(se.info_hash);
    Int32Length(se.seeders);
    Int32Length(se.complete);
    Int32Length(se.leechers);
    hide Dec, RawOf;
  }

  lemma {:induction false} FilesLength(list: seq<Snapshot>)
    requires forall se :: se in list ==> ValidSnapshot(se)
    ensures |FilesText(list)| <= 100 * |list|
  {
    hide FileText;
    if list != [] {
      assert list[0] in list;
      FileLength(list[0]);
      FilesLength(list[1..]);
    }
  }

  /** The reply of n snapshots takes at most 100 n + 12 bytes with its terminator, whatever the
      counters, so the 128 n allocated for one or more always suffice. */
  lemma {:induction false} ScrapeFits(list: seq<Snapshot>)
    requires forall se :: se in list ==> ValidSnapshot(se)
    ensures |Enc(ScrapeTree(list))| + 1 <= 100 * |list| + 12
    ensures |list| >= 1 ==> |Enc(ScrapeTree(list))| + 1 <= 128 * |list|
  {
    ScrapeText(list);
    FilesLength(list);
    hide Enc, FilesText, ScrapeTree;
  }

  // ---------- The printer ----------

  /** memcpy of the raw hash: no terminator is written. */
  method CopyRaw(out: array<char>, at: nat, raw: seq<Byte>)
    requires at + |raw| <= out.Length
    modifies out
    ensures out[..at + |raw|] == old(out[..at]) + Chars(raw)
  {
    forall k | 0 <= k < |raw| {
      out[at + k] := raw[k] as char;
    }
  }

  /** sprintf after what is already there. */
  method PrintAfter(out: array<char>, written: nat, part: string, ghost done: string) returns (total: nat)
    requires written == |done| && written + |part| < out.Length && out[..written] == done
    modifies out
    ensures total == written + |part| && HoldsString(out[..], 0, done + part)
  {
    var n := Snprintf(out, written, out.Length - written, part);
    assert part[..|part|] == part;
    total := written + n;
    assert out[..][..total] == out[..][..written] + out[..][written..total];
  }

  /** One file: its length prefix, the raw hash, its three counters. */
  method PrintFile(se: Snapshot, out: array<char>, written: nat, ghost done: string) returns (total: nat)
    requires ValidSnapshot(se) && HoldsString(out[..], 0, done) && written == |done|
    requires |done + FileText(se)| < out.Length
    modifies out
    ensures total == |done + FileText(se)| && HoldsString(out[..], 0, done + FileText(se))
  {
    hide RawOf, Dec, FileFormat;
    var hash := HexDecode(se.info_hash);
    ghost var raw, format := Chars(hash), FileFormat(se);
    assert done + FileText(se) == done + "20:" + raw + format;
    hide FileText;
    assert out[..written] == out[..][..written] == done;
    total := PrintAfter(out, written, "20:", done);
    assert out[..total] == out[..][0..total] == done + "20:";
    CopyRaw(out, total, hash);
    total := total + 20;
    total := PrintAfter(out, total, FileFormat(se), done + "20:" + raw);
  }

  /** The loop over the snapshots. */
  method PrintFiles(list: seq<Snapshot>, out: array<char>, start: nat, ghost opening: string) returns (written: nat)
    requires forall se :: se in list ==> ValidSnapshot(se)
    requires HoldsString(out[..], 0, opening) && start == |opening|
    requires |opening| + |FilesText(list)| < out.Length
    modifies out
    ensures HoldsString(out[..], 0, opening + FilesText(list)) && written == |opening + FilesText(list)|
  {
    hide FileText, FilesText, ValidSnapshot;
    written := start;
    ghost var done, text := opening, opening + FilesText(list);
    assert list[0..] == list;
    var i := 0;
    while i < |list|
      invariant 0 <= i <= |list|
      invariant HoldsString(out[..], 0, done) && written == |done|
      invariant done + FilesText(list[i..]) == text
    {
      FilesTextAt(list, i);
      ghost var part, next := FileText(list[i]), FilesText(list[i + 1..]);
      assert done + (part + next) == done + part + next;
      written := PrintFile(list[i], out, written, done);
      done := done + part;
      i := i + 1;
    }
    FilesTextEnd(list);
    assert done + "" == done;
  }

  /** Prints the whole reply into the 128 n bytes allocated for n snapshots and returns its length. */
  method BencodeScrapeCtx(list: seq<Snapshot>, out: array<char>) returns (written: nat)
    requires (forall se :: se in list ==> ValidSnapshot(se)) && |list| >= 1 && out.Length == 128 * |list|
    modifies out
    ensures written == |Enc(ScrapeTree(list))| < out.Length
    ensures out[..written] == Enc(ScrapeTree(list))
  {
    ScrapeFits(list);
    ScrapeText(list);
    hide Enc, ScrapeTree, FileText, FilesText, ValidSnapshot;
    written := PrintAfter(out, 0, "d5:filesd", "");
    assert "" + "d5:filesd" == "d5:filesd";
    written := PrintFiles(list, out, written, "d5:filesd");
    ghost var done := "d5:filesd" + FilesText(list);
    assert out[..written] == out[..][0..written] == done;
    written := PrintAfter(out, written, "ee", done);
    assert out[..written] == out[..][0..written] == done + "ee";
  }

  lemma {:induction false} FilesTextAt(list: seq<Snapshot>, i: nat)
    requires (forall se :: se in list ==> ValidSnapshot(se)) && i < |list|
    ensures ValidSnapshot(list[i])
    ensures FilesText(list[i..]) == FileText(list[i]) + FilesText(list[i + 1..])
  {
    assert list[i..][1..] == list[i + 1..];
    assert ValidSnapshot(list[i]);
  }

  lemma {:induction false} FilesTextEnd(list: seq<Snapshot>)
    requires forall se :: se in list ==> ValidSnapshot(se)
    ensures FilesText(list[|list|..]) == ""
  {
  }

  // ---------- From the query to the reply ----------

  predicate Decoded(values: seq<seq<Byte>>) {
    forall raw :: raw in values ==> |raw| >= 20
  }

  function Hashes(values: seq<seq<Byte>>): (hashes: seq<string>)
    requires Decoded(values)
    ensures |hashes| == |values|
    ensures forall i :: 0 <= i < |values| ==> |values[i]| >= 20 && hashes[i] == HashOf(values[i])
  {
    if values == [] then []
    else
      assert values[0] in values;
      [HashOf(values[0])] + Hashes(values[1..])
  }

  lemma {:induction false} HashesAt(values: seq<seq<Byte>>, i: nat)
    requires Decoded(values) && i < |values|
    ensures |values[i]| >= 20 && Decoded(values[i..]) && Decoded(values[i + 1..])
    ensures Reverse(Hashes(values[i..])) == Reverse(Hashes(values[i + 1..])) + [HashOf(values[i])]
  {
    hide HexOf;
    assert values[i] in values && forall raw :: raw in values[i..] ==> raw in values;
    assert values[i..][1..] == values[i + 1..];
    assert Hashes(values[i..])[1..] == Hashes(values[i + 1..]);
  }

  /** http_build_peer_req_hash_list: each value's hash goes to the head of the list. */
  method BuildHashList(values: seq<seq<Byte>>) returns (hashes: seq<string>)
    requires Decoded(values)
    ensures hashes == Reverse(Hashes(values))
  {
    hide HashOf, IsHex, IsHash, Reverse, Hashes;
    hashes := [];
    var i := 0;
    assert values[0..] == values;
    while i < |values|
      invariant 0 <= i <= |values| && Decoded(values[i..])
      invariant Reverse(Hashes(values[i..])) + hashes == Reverse(Hashes(values))
    {
      HashesAt(values, i);
      var hash := HexEncode(values[i]);
      ghost var rest := Reverse(Hashes(values[i + 1..]));
      assert rest + [hash] + hashes == rest + ([hash] + hashes);
      hashes := [hash] + hashes;
      i := i + 1;
    }
    ghost var none := values[i..];
    assert none == [] && |Reverse(Hashes(none))| == 0;
  }

  /** The snapshots taken so far, newest first, and their number. */
  class ScrapeCtx {
    var list: seq<Snapshot>
    var size: nat

    constructor ()
      ensures list == [] && size == 0
    {
      list := [];
      size := 0;
    }

    method AddTorrent(te: Torrent)
      modifies this
      ensures size == old(size) + 1 && |list| == |old(list)| + 1 && list[1..] == old(list)
      ensures list[0].seeders == te.seeders && list[0].leechers == te.leechers && list[0].complete == te.complete
      ensures list[0].peer_count == te.peer_count && list[0].info_hash == te.info_hash
    {
      list := [Snapshot(te.seeders, te.leechers, te.complete, te.peer_count, te.info_hash)] + list;
      size := size + 1;
    }
  }

  datatype ScrapeReply = ScrapeReply(body: string) | MissingHash

  /** What one lookup gives: the torrent as it is when its snapshot is taken, or NULL. Other workers
      go on between lookups, so that one hash may be answered differently at different times. */
  datatype Answer = Hit(t: Torrent) | Miss

  function Snapshots(answers: seq<Answer>): (list: seq<Snapshot>)
    requires Miss !in answers
    ensures |list| == |answers|
    ensures forall i :: 0 <= i < |answers| ==> answers[i].Hit? && list[i] == SnapshotOf(answers[i].t)
  {
    if answers == [] then []
    else
      assert answers[0] in answers;
      [SnapshotOf(answers[0].t)] + Snapshots(answers[1..])
  }

  /** Each lookup is answered with a torrent of the hash looked up, or not at all. */
  ghost predicate Answered(hashes: seq<string>, answers: seq<Answer>) {
    && |answers| == |hashes|
    && forall i :: 0 <= i < |hashes| && answers[i].Hit? ==>
         answers[i].t.info_hash == hashes[i] && ValidSnapshot(SnapshotOf(answers[i].t))
  }

  lemma {:induction false} SnapshotsValid(hashes: seq<string>, answers: seq<Answer>)
    requires Answered(hashes, answers) && Miss !in answers
    ensures forall se :: se in Snapshots(answers) ==> ValidSnapshot(se)
  {
  }

  lemma {:induction false} ReverseHits(answers: seq<Answer>)
    requires Miss !in answers
    ensures Miss !in Reverse(answers)
    ensures Snapshots(Reverse(answers)) == Reverse(Snapshots(answers))
  {
    ReverseElements(answers);
    var list, back := Snapshots(answers), Snapshots(Reverse(answers));
    forall i | 0 <= i < |answers| ensures back[i] == Reverse(list)[i] {
      ReverseAt(answers, i);
      ReverseAt(list, i);
    }
  }

  /** The handler's loop over the hashes, which gives up at the first that is not found. */
  method Collect(hashes: seq<string>, answers: seq<Answer>) returns (sctx: ScrapeCtx, missing: bool)
    requires |answers| == |hashes|
    ensures missing <==> Miss in answers
    ensures !missing ==> sctx.list == Reverse(Snapshots(answers)) && sctx.size == |hashes|
  {
    hide Reverse;
    sctx := new ScrapeCtx();
    assert answers[..0] == [];
    ReverseNothing<Snapshot>();
    var i := 0;
    while i < |hashes|
      invariant 0 <= i <= |hashes| && fresh(sctx)
      invariant Miss !in answers[..i]
      invariant sctx.list == Reverse(Snapshots(answers[..i])) && sctx.size == i
    {
      var answer := answers[i];
      if answer.Miss? {
        assert answers[i] in answers;
        return sctx, true;
      }
      NewestFirst(answers, i);
      ghost var before := sctx.list;
      sctx.AddTorrent(answer.t);
      assert sctx.list == [SnapshotOf(answer.t)] + before;
      i := i + 1;
    }
    assert answers[..i] == answers;
    return sctx, false;
  }

  lemma {:induction false} ReverseNothing<T>()
    ensures Reverse<T>([]) == []
  {
  }

  lemma {:induction false} NewestFirst(answers: seq<Answer>, i: nat)
    requires i < |answers| && Miss !in answers[..i] && answers[i].Hit?
    ensures Miss !in answers[..i + 1]
    ensures Reverse(Snapshots(answers[..i + 1])) == [SnapshotOf(answers[i].t)] + Reverse(Snapshots(answers[..i]))
  {
    assert answers[..i + 1] == answers[..i] + [answers[i]];
    var se := SnapshotOf(answers[i].t);
    assert Snapshots(answers[..i + 1]) == Snapshots(answers[..i]) + [se];
    ReverseAppend(Snapshots(answers[..i]), [se]);
    assert Reverse([se]) == [se];
  }

  /** The scrape handler: `values` are the decoded values in the order of the parsed list, which is
      the reverse of the query's, and `answers` those of its lookups, made in query order. The reply
      lists the torrents in reverse query order; a hash that is not found makes it an error. */
  method HandleScrape(values: seq<seq<Byte>>, answers: seq<Answer>) returns (reply: ScrapeReply)
    requires |values| >= 1 && Decoded(values) && Answered(Reverse(Hashes(values)), answers)
    ensures if Miss in answers then reply == MissingHash
            else
              && (forall se :: se in Reverse(Snapshots(answers)) ==> ValidSnapshot(se))
              && reply == ScrapeReply(Enc(ScrapeTree(Reverse(Snapshots(answers)))))
    ensures Miss !in answers ==>
              var d := Decode(reply.body); d.Got? && d.rest == "" && AnswersScrape(d.value, values, answers)
  {
    hide Enc, ScrapeTree, Hashes, ValidSnapshot, Reverse;
    var hashes := BuildHashList(values);
    var sctx, missing := Collect(hashes, answers);
    if missing {
      return MissingHash;
    }
    SnapshotsValid(hashes, answers);
    ReverseElements(Snapshots(answers));
    ScrapeAnswersQuery(values, answers, "");
    hide AnswersScrape, Decode;
    ghost var text := Enc(ScrapeTree(sctx.list));
    assert text + "" == text;
    var out := new char[128 * sctx.size](_ => '\0');
    var written := BencodeScrapeCtx(sctx.list, out);
    return ScrapeReply(out[..written]);
  }

  // ---------- What the reply means ----------

  /** The answer to a scrape: each raw hash asked for with the counters of its torrent. */
  function FilesOf(values: seq<seq<Byte>>, answers: seq<Answer>): Entries
    requires Decoded(values) && |answers| == |values| && Miss !in answers
  {
    if values == [] then End
    else
      assert values[0] in values && answers[0] in answers;
      Pair(Chars(values[0][..20]), FileTree(SnapshotOf(answers[0].t)), FilesOf(values[1..], answers[1..]))
  }

  lemma {:induction false} FilesAreAsked(values: seq<seq<Byte>>, answers: seq<Answer>)
    requires Decoded(values) && Answered(Hashes(values), answers) && Miss !in answers
    ensures forall se :: se in Snapshots(answers) ==> ValidSnapshot(se)
    ensures FileTrees(Snapshots(answers)) == FilesOf(values, answers)
  {
    hide HashOf, ValidSnapshot;
    SnapshotsValid(Hashes(values), answers);
    if values != [] {
      assert values[0] in values && answers[0] in answers;
      RestAnswered(values, answers);
      FilesAreAsked(values[1..], answers[1..]);
      KeyIsRaw(values[0], Hashes(values)[0]);
      hide FileTree, Hashes;
      assert Snapshots(answers)[1..] == Snapshots(answers[1..]);
    }
  }

  lemma {:induction false} RestAnswered(values: seq<seq<Byte>>, answers: seq<Answer>)
    requires Decoded(values) && values != [] && Answered(Hashes(values), answers) && Miss !in answers
    ensures Decoded(values[1..]) && Answered(Hashes(values[1..]), answers[1..]) && Miss !in answers[1..]
  {
    hide HashOf, ValidSnapshot;
    assert forall raw :: raw in values[1..] ==> raw in values;
    assert Hashes(values)[1..] == Hashes(values[1..]);
  }

  lemma {:induction false} KeyIsRaw(raw: seq<Byte>, hash: string)
    requires |raw| >= 20 && hash == HashOf(raw)
    ensures IsHash(hash) && RawOf(hash) == raw[..20]
  {
    HexRoundTrip(raw[..20]);
  }

  lemma {:induction false} AnswersReversed(hashes: seq<string>, answers: seq<Answer>)
    requires Answered(Reverse(hashes), answers)
    ensures Answered(hashes, Reverse(answers))
  {
    hide ValidSnapshot;
    forall i | 0 <= i < |hashes| && Reverse(answers)[i].Hit?
      ensures Reverse(answers)[i].t.info_hash == hashes[i] && ValidSnapshot(SnapshotOf(Reverse(answers)[i].t)) {
      ReverseAt(answers, i);
      ReverseAt(hashes, |hashes| - 1 - i);
    }
  }

  lemma {:induction false} FilesAt(values: seq<seq<Byte>>, answers: seq<Answer>)
    requires Decoded(values) && |answers| == |values| && Miss !in answers
    ensures Size(FilesOf(values, answers)) == |values|
    ensures forall i :: 0 <= i < |values| ==>
              && |values[i]| >= 20 && answers[i].Hit?
              && KeyAt(FilesOf(values, answers), i) == Chars(values[i][..20])
              && ValueAt(FilesOf(values, answers), i) == FileTree(SnapshotOf(answers[i].t))
  {
    hide FileTree, SnapshotOf, Chars;
    if values != [] {
      assert values[0] in values && answers[0] in answers;
      FilesAt(values[1..], answers[1..]);
      var files := FilesOf(values, answers);
      forall i | 0 < i < |values|
        ensures |values[i]| >= 20 && answers[i].Hit? && KeyAt(files, i) == Chars(values[i][..20])
        ensures ValueAt(files, i) == FileTree(SnapshotOf(answers[i].t)) {
        assert values[1..][i - 1] == values[i] && answers[1..][i - 1] == answers[i];
      }
    }
  }

  /** What a client is to find in the reply to a scrape: for each hash it asked for, last one first, its
      twenty raw bytes as the key, with the counters its torrent was found with. */
  ghost predicate AnswersScrape(v: Value, values: seq<seq<Byte>>, answers: seq<Answer>)
    requires |answers| == |values| && Decoded(values) && Miss !in answers
  {
    exists files ::
      && v == Dict(Pair("files", Dict(files), End))
      && Size(files) == |values|
      && forall i :: 0 <= i < |values| ==> FileAnswers(files, i, values[i], answers[|values| - 1 - i])
  }

  ghost predicate FileAnswers(files: Entries, i: nat, raw: seq<Byte>, answer: Answer) {
    && i < Size(files) && |raw| >= 20 && answer.Hit?
    && |KeyAt(files, i)| == 20 && (forall j :: 0 <= j < 20 ==> KeyAt(files, i)[j] == raw[j] as char)
    && ValueAt(files, i) == Dict(Pair("complete", Int(answer.t.seeders), Pair("downloaded", Int(answer.t.complete), Pair("incomplete", Int(answer.t.leechers), End))))
  }

  lemma {:induction false} FilesAnswer(values: seq<seq<Byte>>, answers: seq<Answer>)
    requires Decoded(values) && |answers| == |values| && Miss !in answers
    ensures Miss !in Reverse(answers)
    ensures AnswersScrape(Dict(Pair("files", Dict(FilesOf(values, Reverse(answers))), End)), values, answers)
  {
    ReverseElements(answers);
    var files := FilesOf(values, Reverse(answers));
    FilesAt(values, Reverse(answers));
    hide FilesOf, KeyAt, ValueAt, Size;
    forall i | 0 <= i < |values| ensures FileAnswers(files, i, values[i], answers[|values| - 1 - i]) {
      ReverseAt(answers, i);
    }
  }

  /** A client that decodes the reply gets a files dictionary keyed by the raw hashes it asked for, in
      reverse query order, each with its torrent's counters as its lookup found them. */
  lemma {:induction false} ScrapeAnswersQuery(values: seq<seq<Byte>>, answers: seq<Answer>, rest: string)
    requires Decoded(values) && Answered(Reverse(Hashes(values)), answers) && Miss !in answers
    ensures Miss !in Reverse(answers)
    ensures var list := Reverse(Snapshots(answers));
            && (forall se :: se in list ==> ValidSnapshot(se))
            && var d := Decode(Enc(ScrapeTree(list)) + rest);
               d.Got? && d.rest == rest && AnswersScrape(d.value, values, answers)
  {
    ReverseHits(answers);
    AnswersReversed(Hashes(values), answers);
    FilesAreAsked(values, Reverse(answers));
    FilesAnswer(values, answers);
    hide Enc, Decode, ValidSnapshot, Reverse, Hashes, AnswersScrape;
    RoundTrip(ScrapeTree(Snapshots(Reverse(answers))), rest);
  }
}
