/** The query parser (http_parse_query): an index scanner over the request line that cuts keys and
    values at fixed limits, and what it takes for it to undo a printer. */
module Query {
  import opened Sums
  import opened Lists
  import opened CStrings

  const MAX_KEY: nat := 128
  const MAX_VAL: nat := 256

  datatype Job = AnnounceJob | ScrapeJob

  datatype KV = KV(key: string, val: string)

  datatype Parse = Parsed(head: seq<KV>) | Rejected

  function Prefix(job: Job): string {
    match job
    case AnnounceJob => "GET /announce"
    case ScrapeJob => "GET /scrape"
  }

  /** Where the query starts: just after the prefix and the question mark. */
  function QueryStart(job: Job): nat {
    |Prefix(job)| + 1
  }

  predicate StartsWith(s: string, prefix: string) {
    |prefix| <= |s| && s[..|prefix|] == prefix
  }

  // ---------- Specification ----------

  predicate LineEnd(s: string, i: int) {
    0 < i < |s| && s[i] == '\n' && s[i - 1] == '\r'
  }

  /** Index of the line feed that ends the first line from i on, or 0. */
  function FindEnd(s: string, i: nat): nat
    decreases |s| - i
  {
    if i >= |s| then 0 else if LineEnd(s, i) then i else FindEnd(s, i + 1)
  }

  predicate IsVersion(s: string, found: nat) {
    9 <= found <= |s| && (s[found - 9..found - 1] == "HTTP/1.1" || s[found - 9..found - 1] == "HTTP/1.0")
  }

  /** Characters from i up to the stop character, the limit, or the end. */
  function Span(p: string, i: nat, found: nat, stop: char, limit: nat): (k: nat)
    requires found <= |p|
    ensures k <= limit
    ensures k > 0 ==> i + k <= found
    decreases limit
  {
    if limit == 0 || i >= found || p[i] == stop then 0 else 1 + Span(p, i + 1, found, stop, limit - 1)
  }

  datatype Scan = Pairs(kvs: seq<KV>) | NoKey

  /** The pairs of the query in the order they are scanned. */
  function ScanPairs(p: string, i: nat, found: nat): Scan
    requires found <= |p|
    decreases found - i
  {
    if i >= found then Pairs([])
    else
      var k := Span(p, i, found, '=', MAX_KEY - 1);
      if k == 0 then NoKey
      else
        var j := i + k + 1;
        var m := Span(p, j, found, '&', MAX_VAL - 1);
        var val := if m == 0 then "" else CStr(p[j..j + m]);
        var rest := ScanPairs(p, j + m + 1, found);
        if rest.NoKey? then NoKey else Pairs([KV(CStr(p[i..i + k]), val)] + rest.kvs)
  }

  const REQUIRED: seq<string> := ["info_hash", "peer_id", "port", "uploaded", "downloaded", "left"]

  function HasKey(key: string): KV -> nat {
    (kv: KV) => if kv.key == key then 1 else 0
  }

  function Occurrences(head: seq<KV>): string -> nat {
    (key: string) => Sum(head, HasKey(key))
  }

  /** How many of the pairs carry a required key, repeats included. */
  function RequiredCount(head: seq<KV>): nat {
    Sum(REQUIRED, Occurrences(head))
  }

  predicate Accepts(head: seq<KV>, job: Job) {
    match job
    case AnnounceJob => RequiredCount(head) >= 6
    case ScrapeJob => forall kv :: kv in head ==> kv.key == "info_hash"
  }

  function ParseSpec(s: string, job: Job): Parse {
    var found := FindEnd(s, 0);
    if found < 11 || found >= |s| || !IsVersion(s, found) then Rejected
    else
      var scan := ScanPairs(s[found - 10 := '\0'], QueryStart(job), found);
      if scan.NoKey? then Rejected
      else if Accepts(Reverse(scan.kvs), job) then Parsed(Reverse(scan.kvs))
      else Rejected
  }

  // ---------- The scanner ----------

  lemma {:induction false} SpanIs(p: string, i: nat, found: nat, stop: char, limit: nat, k: nat)
    requires found <= |p| && k <= limit && (k > 0 ==> i + k <= found)
    requires forall x :: i <= x < i + k ==> p[x] != stop
    requires k == limit || i + k >= found || p[i + k] == stop
    ensures Span(p, i, found, stop, limit) == k
    decreases k
  {
    if k > 0 {
      SpanIs(p, i + 1, found, stop, limit - 1, k - 1);
    }
  }

  /** The inner loops: copies characters into a field until the stop character, its limit or the end. */
  method CopyField(p: array<char>, blen: nat, i: nat, found: nat, stop: char, limit: nat) returns (k: nat, field: string)
    requires found <= blen <= p.Length
    ensures k == Span(p[..blen], i, found, stop, limit)
    ensures field == if k == 0 then "" else CStr(p[..blen][i..i + k])
  {
    ghost var s := p[..blen];
    var raw := "";
    k := 0;
    while k < limit && i + k < found && p[i + k] != stop
      invariant 0 <= k <= limit && (k > 0 ==> i + k <= found)
      invariant forall x :: i <= x < i + k ==> s[x] != stop
      invariant raw == if k == 0 then "" else s[i..i + k]
    {
      raw := raw + [p[i + k]];
      k := k + 1;
    }
    SpanIs(s, i, found, stop, limit, k);
    field := CStr(raw);
  }

  /** One round of the outer loop: with the pairs already scanned at the head of the list, the whole
      list is the remaining scan reversed before it. */
  lemma {:induction false} ScanStep(p: string, i: nat, found: nat, k: nat, m: nat, kv: KV, head: seq<KV>)
    requires i < found <= |p| && k == Span(p, i, found, '=', MAX_KEY - 1)
    requires k > 0 ==> m == Span(p, i + k + 1, found, '&', MAX_VAL - 1)
    requires k > 0 ==> kv == KV(CStr(p[i..i + k]), if m == 0 then "" else CStr(p[i + k + 1..i + k + 1 + m]))
    ensures k == 0 ==> ScanPairs(p, i, found).NoKey?
    ensures k > 0 ==>
              var rest := ScanPairs(p, i + k + 1 + m + 1, found);
              && (ScanPairs(p, i, found).Pairs? <==> rest.Pairs?)
              && (rest.Pairs? ==> Reverse(ScanPairs(p, i, found).kvs) + head == Reverse(rest.kvs) + ([kv] + head))
  {
    hide Span, CStr;
    if k > 0 {
      var rest := ScanPairs(p, i + k + 1 + m + 1, found);
      if rest.Pairs? {
        assert ScanPairs(p, i, found).kvs == [kv] + rest.kvs;
        assert ([kv] + rest.kvs)[1..] == rest.kvs;
        assert Reverse(rest.kvs) + [kv] + head == Reverse(rest.kvs) + ([kv] + head);
      }
    }
  }

  lemma {:induction false} ScanDone(p: string, i: nat, found: nat)
    requires found <= |p| && i >= found
    ensures ScanPairs(p, i, found) == Pairs([]) && Reverse<KV>([]) == []
  {
  }

  /** Scans the pairs, each to the head of the list. */
  method ScanQuery(p: array<char>, blen: nat, start: nat, found: nat) returns (ok: bool, head: seq<KV>)
    requires found <= blen <= p.Length
    ensures ok <==> ScanPairs(p[..blen], start, found).Pairs?
    ensures ok ==> head == Reverse(ScanPairs(p[..blen], start, found).kvs)
  {
    hide Span, CStr, ScanPairs, Reverse;
    ghost var s := p[..blen];
    ghost var total := ScanPairs(s, start, found);
    head := [];
    var i := start;
    while i < found
      invariant total.Pairs? <==> ScanPairs(s, i, found).Pairs?
      invariant total.Pairs? ==> Reverse(total.kvs) == Reverse(ScanPairs(s, i, found).kvs) + head
      decreases found - i
    {
      var k, key := CopyField(p, blen, i, found, '=', MAX_KEY - 1);
      if k == 0 {
        ScanStep(s, i, found, k, 0, KV("", ""), head);
        return false, head;
      }
      var m, val := CopyField(p, blen, i + k + 1, found, '&', MAX_VAL - 1);
      ScanStep(s, i, found, k, m, KV(key, val), head);
      head := [KV(key, val)] + head;
      i := i + k + 1 + m + 1;
    }
    ScanDone(s, i, found);
    return true, head;
  }

  lemma {:induction false} FindEndIs(s: string, i: nat, found: nat)
    requires i <= found && LineEnd(s, found) && forall k :: i <= k < found ==> !LineEnd(s, k)
    ensures FindEnd(s, i) == found
    decreases found - i
  {
    if i < found {
      FindEndIs(s, i + 1, found);
    }
  }

  lemma {:induction false} NoEnd(s: string, i: nat)
    requires forall k :: i <= k < |s| ==> !LineEnd(s, k)
    ensures FindEnd(s, i) == 0
    decreases |s| - i
  {
    if i < |s| {
      NoEnd(s, i + 1);
    }
  }

  /** The loop that looks for the end of the request line. */
  method FindLineEnd(p: array<char>, blen: nat) returns (found: nat)
    requires blen <= p.Length
    ensures found == FindEnd(p[..blen], 0)
    ensures found < blen || found == 0
  {
    ghost var s := p[..blen];
    var i := 0;
    while i < blen
      invariant 0 <= i <= blen
      invariant forall k :: 0 <= k < i ==> !LineEnd(s, k)
    {
      if i > 0 && p[i] == '\n' && p[i - 1] == '\r' {
        FindEndIs(s, 0, i);
        return i;
      }
      i := i + 1;
    }
    NoEnd(s, 0);
    return 0;
  }

  /** The loops that count the required keys. */
  method CountRequired(head: seq<KV>) returns (found: nat)
    ensures found == RequiredCount(head)
  {
    found := 0;
    var i := 0;
    assert REQUIRED[0..] == REQUIRED;
    while i < 6
      invariant 0 <= i <= 6 && found + Sum(REQUIRED[i..], Occurrences(head)) == RequiredCount(head)
    {
      ghost var before := found;
      var k := 0;
      assert head[0..] == head;
      while k < |head|
        invariant 0 <= k <= |head|
        invariant found + Sum(head[k..], HasKey(REQUIRED[i])) == before + Occurrences(head)(REQUIRED[i])
      {
        assert head[k..][1..] == head[k + 1..];
        if head[k].key == REQUIRED[i] {
          found := found + 1;
        }
        k := k + 1;
      }
      assert head[k..] == [];
      assert REQUIRED[i..][1..] == REQUIRED[i + 1..];
      i := i + 1;
    }
    assert REQUIRED[i..] == [];
  }

  method CheckScrapeKeys(head: seq<KV>) returns (ok: bool)
    ensures ok <==> forall kv :: kv in head ==> kv.key == "info_hash"
  {
    var k := 0;
    while k < |head|
      invariant 0 <= k <= |head|
      invariant forall x :: 0 <= x < k ==> head[x].key == "info_hash"
    {
      if head[k].key != "info_hash" {
        return false;
      }
      k := k + 1;
    }
    return true;
  }

  /** The whole parser. The request has been seen to start as the job's requests do. The blank before
      the version is overwritten in place. */
  method ParseQuery(p: array<char>, blen: nat, job: Job) returns (r: Parse)
    requires blen <= p.Length && StartsWith(p[..blen], Prefix(job))
    modifies p
    ensures r == ParseSpec(old(p[..blen]), job)
    ensures p[blen..] == old(p[blen..])
  {
    hide ScanPairs, Reverse, FindEnd, RequiredCount, StartsWith;
    ghost var s := p[..blen];
    var found := FindLineEnd(p, blen);
    if found < 11 {
      return Rejected;
    }
    var version := p[found - 9..found - 1];
    assert version == s[found - 9..found - 1];
    if version != "HTTP/1.1" && version != "HTTP/1.0" {
      return Rejected;
    }
    p[found - 10] := '\0';
    assert p[..blen] == s[found - 10 := '\0'];
    var ok, head := ScanQuery(p, blen, QueryStart(job), found);
    if !ok {
      return Rejected;
    }
    var accepted;
    match job {
      case AnnounceJob =>
        var count := CountRequired(head);
        accepted := count >= 6;
      case ScrapeJob =>
        accepted := CheckScrapeKeys(head);
    }
    return if accepted then Parsed(head) else Rejected;
  }
}
