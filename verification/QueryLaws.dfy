/** The query parser's promises in plain terms: which requests it turns down, which scrapes and
    announces it lets through, and where it cuts long fields. */
module QueryLaws {
  import opened Lists
  import opened CStrings
  import opened Query
  import opened QueryTheorems

  /** The printed requests, spelled out. */
  lemma {:induction false} RequestLine(kvs: seq<KV>, version: string, rest: string)
    ensures Request(AnnounceJob, kvs, version, rest) == "GET /announce?" + QueryText(kvs) + " " + version + "\r\n" + rest
    ensures Request(ScrapeJob, kvs, version, rest) == "GET /scrape?" + QueryText(kvs) + " " + version + "\r\n" + rest
  {
    hide QueryText;
    assert "GET /announce" + "?" == "GET /announce?" && "GET /scrape" + "?" == "GET /scrape?";
  }

  /** The six keys an announce must have. */
  lemma {:induction false} RequiredKeys(head: seq<KV>)
    ensures AllPresent(head) <==>
              && HasPair(head, "info_hash") && HasPair(head, "peer_id") && HasPair(head, "port")
              && HasPair(head, "uploaded") && HasPair(head, "downloaded") && HasPair(head, "left")
  {
    hide HasPair;
    assert REQUIRED == ["info_hash", "peer_id", "port", "uploaded", "downloaded", "left"];
    assert REQUIRED[0] == "info_hash" && REQUIRED[1] == "peer_id" && REQUIRED[2] == "port";
    assert REQUIRED[3] == "uploaded" && REQUIRED[4] == "downloaded" && REQUIRED[5] == "left";
  }

  // ---------- Scrapes ----------

  /** A printed scrape is let through exactly when it asks for nothing but hashes and its last value
      leaves no pair behind; the hashes then come last one first. */
  lemma {:induction false} ScrapeLetThrough(kvs: seq<KV>, version: string, rest: string)
    requires GoodPairs(kvs) && Version(version)
    ensures var r := ParseSpec("GET /scrape?" + QueryText(kvs) + " " + version + "\r\n" + rest, ScrapeJob);
            && (r.Parsed? <==> (forall kv :: kv in kvs ==> kv.key == "info_hash") && LastLength(kvs) <= 246)
            && (r.Parsed? ==> r.head == Reverse(kvs))
  {
    RequestLine(kvs, version, rest);
    var extra := Leftover(version, LastLength(kvs));
    if extra != [] {
      LeftoverKey(version, LastLength(kvs) - MAX_LAST);
      LeftoverIsNoHash(extra[0].key);
    }
    hide ParseSpec, Request, GoodPairs, Version, QueryText, LastLength, Tail;
    ParseOfPrint(ScrapeJob, kvs, version, rest);
    ReverseElements(kvs);
    assert extra == [] ==> extra + Reverse(kvs) == Reverse(kvs);
    assert extra != [] ==> (extra + Reverse(kvs))[0] == extra[0];
  }

  lemma {:induction false} LeftoverIsNoHash(key: string)
    requires key != "" && key[|key| - 1] == '\r'
    ensures key != "info_hash"
  {
  }

  // ---------- Requests turned down ----------

  /** Whatever is let through has a first line that ends in a carriage return and a line feed, at least
      eleven characters on, right after the name of a version. */
  lemma {:induction false} LineNeeded(s: string, job: Job)
    requires ParseSpec(s, job).Parsed?
    ensures exists found: nat :: FirstLine(s, found) && 11 <= found < |s|
                                 && (s[found - 9..found - 1] == "HTTP/1.1" || s[found - 9..found - 1] == "HTTP/1.0")
  {
    hide ScanPairs, Accepts, Reverse, FindEnd;
    var found := FindEnd(s, 0);
    FirstEnd(s, 0);
    assert FirstLine(s, found);
  }

  /** The first line feed with a carriage return before it. */
  predicate FirstLine(s: string, found: nat) {
    && 0 < found < |s| && s[found - 1] == '\r' && s[found] == '\n'
    && forall k :: 0 < k < found ==> !(s[k - 1] == '\r' && s[k] == '\n')
  }

  lemma {:induction false} FirstEnd(s: string, i: nat)
    ensures var found := FindEnd(s, i);
            found > 0 ==> i <= found < |s| && s[found - 1] == '\r' && s[found] == '\n'
                          && forall k :: i <= k < found && 0 < k ==> !(s[k - 1] == '\r' && s[k] == '\n')
    decreases |s| - i
  {
    if i < |s| && !LineEnd(s, i) {
      FirstEnd(s, i + 1);
    }
  }

  /** A pair with an empty key after any number of sound ones. */
  ghost predicate EmptyKeyAt(kvs: seq<KV>, n: nat) {
    n < |kvs| && kvs[n].key == "" && forall m :: 0 <= m < n ==> GoodPair(kvs[m])
  }

  lemma {:induction false} EmptyKeyStopsScan(p: string, i: nat, found: nat, kvs: seq<KV>, n: nat, version: string)
    requires EmptyKeyAt(kvs, n) && Version(version) && i <= found <= |p|
    requires p[i..found] == QueryText(kvs) + Tail(version)
    ensures ScanPairs(p, i, found).NoKey?
    decreases n
  {
    hide ScanPairs, QueryText, Tail, GoodPair, Version;
    if n == 0 {
      StartsWithEquals(kvs, Tail(version));
      assert p[i..found][0] == '=' && p[i] == p[i..found][0];
      NoKeyHere(p, i, found);
    } else {
      assert GoodPair(kvs[0]);
      ScanOne(p, i, found, kvs, version);
      EmptyKeyStopsScan(p, i + |kvs[0].key| + 1 + |kvs[0].val| + 1, found, kvs[1..], n - 1, version);
    }
  }

  lemma {:induction false} NoKeyHere(p: string, i: nat, found: nat)
    requires i < found <= |p| && p[i] == '='
    ensures ScanPairs(p, i, found).NoKey?
  {
  }

  lemma {:induction false} StartsWithEquals(kvs: seq<KV>, tail: string)
    requires kvs != [] && kvs[0].key == ""
    ensures |QueryText(kvs) + tail| > 0 && (QueryText(kvs) + tail)[0] == '='
  {
  }

  /** A request with an empty key is turned down, whatever comes after it. */
  lemma {:induction false} EmptyKeyRejected(job: Job, kvs: seq<KV>, n: nat, version: string, rest: string)
    requires EmptyKeyAt(kvs, n) && Version(version) && Plain(QueryText(kvs))
    ensures ParseSpec(Request(job, kvs, version, rest), job) == Rejected
  {
    hide Request, QueryText, IsVersion, FindEnd, EmptyKeyAt, Version, Tail, ScanPairs, QueryStart, Plain;
    var s := Request(job, kvs, version, rest);
    var found := QueryStart(job) + |QueryText(kvs)| + 10;
    RequestLayout(job, kvs, version, rest);
    RequestEnd(job, kvs, version, rest);
    EmptyKeyStopsScan(s[found - 10 := '\0'], QueryStart(job), found, kvs, n, version);
  }

  // ---------- Long fields ----------

  predicate Lacks(p: string, from: nat, to: nat, c: char)
    requires from <= to <= |p|
  {
    forall x :: from <= x < to ==> p[x] != c
  }

  /** Of a key without an equals sign in its first 127 characters, those are kept. */
  lemma {:induction false} LongKeyCut(p: string, i: nat, found: nat)
    requires i + 127 <= found <= |p| && Lacks(p, i, i + 127, '=') && Lacks(p, i, found, '\0')
    requires ScanPairs(p, i, found).Pairs?
    ensures ScanPairs(p, i, found).kvs != [] && ScanPairs(p, i, found).kvs[0].key == p[i..i + 127]
  {
    hide CStr;
    SpanIs(p, i, found, '=', 127, 127);
    WholeField(p, i, i + 127, found);
  }

  /** Of a value without an ampersand in its first 255 characters, those are kept. */
  lemma {:induction false} LongValueCut(p: string, i: nat, k: nat, found: nat)
    requires 0 < k <= 127 && i + k + 256 <= found <= |p| && p[i + k] == '=' && Lacks(p, i, i + k, '=')
    requires Lacks(p, i + k + 1, i + k + 256, '&') && Lacks(p, i, found, '\0')
    requires ScanPairs(p, i, found).Pairs?
    ensures ScanPairs(p, i, found).kvs != []
    ensures ScanPairs(p, i, found).kvs[0] == KV(p[i..i + k], p[i + k + 1..i + k + 256])
  {
    hide CStr, ScanPairs, Span;
    SpanIs(p, i, found, '=', 127, k);
    WholeField(p, i, i + k, found);
    SpanIs(p, i + k + 1, found, '&', 255, 255);
    WholeField(p, i + k + 1, i + k + 256, found);
    ScanHead(p, i, found, k, 255);
  }

  /** The first pair of a scan. */
  lemma {:induction false} ScanHead(p: string, i: nat, found: nat, k: nat, m: nat)
    requires i < found <= |p| && 0 < k == Span(p, i, found, '=', 127) && 0 < m == Span(p, i + k + 1, found, '&', 255)
    requires ScanPairs(p, i, found).Pairs?
    ensures ScanPairs(p, i, found).kvs != []
    ensures ScanPairs(p, i, found).kvs[0] == KV(CStr(p[i..i + k]), CStr(p[i + k + 1..i + k + 1 + m]))
  {
    hide CStr, Span;
  }

  lemma {:induction false} WholeField(p: string, from: nat, to: nat, found: nat)
    requires from <= to <= found <= |p| && Lacks(p, from, found, '\0')
    ensures CStr(p[from..to]) == p[from..to]
  {
    CStrPlain(p[from..to], "");
  }
}
