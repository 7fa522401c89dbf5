/** What the query parser guarantees: it undoes a printer of request lines inside exact length bounds,
    later pairs hide earlier ones, and which announce requests it lets through. */
module QueryTheorems {
  import opened Sums
  import opened Lists
  import opened CStrings
  import opened Query

  // ---------- The printer ----------

  function QueryText(kvs: seq<KV>): string {
    if kvs == [] then ""
    else if |kvs| == 1 then kvs[0].key + "=" + kvs[0].val
    else kvs[0].key + "=" + kvs[0].val + "&" + QueryText(kvs[1..])
  }

  /** A request line and whatever follows it. */
  function Request(job: Job, kvs: seq<KV>, version: string, rest: string): string {
    Prefix(job) + "?" + QueryText(kvs) + " " + version + "\r\n" + rest
  }

  predicate Plain(s: string) {
    forall c :: c in s ==> c != '\r' && c != '\n' && c != '\0'
  }

  predicate Without(s: string, stop: char) {
    forall c :: c in s ==> c != stop
  }

  predicate GoodPair(kv: KV) {
    && 0 < |kv.key| <= 127 && |kv.val| <= 255
    && Plain(kv.key) && Plain(kv.val) && Without(kv.key, '=') && Without(kv.val, '&')
  }

  predicate Version(v: string) {
    v == "HTTP/1.1" || v == "HTTP/1.0"
  }

  /** The longest last value for which the scan ends where the line does. */
  const MAX_LAST: nat := 246

  // ---------- Scanning a field ----------

  /** A field up to its stop character. */
  lemma {:induction false} SpanToStop(p: string, i: nat, found: nat, stop: char, limit: nat, field: string)
    requires found <= |p| && |field| <= limit && i + |field| < found && p[i..i + |field|] == field
    requires Without(field, stop) && (p[i + |field|] == stop || |field| == limit)
    ensures Span(p, i, found, stop, limit) == |field|
  {
    forall x | i <= x < i + |field| ensures p[x] != stop {
      assert p[x] == p[i..i + |field|][x - i] == field[x - i];
      assert field[x - i] in field;
    }
    SpanIs(p, i, found, stop, limit, |field|);
  }

  /** A field that runs to the end, or is cut at the limit. */
  lemma {:induction false} SpanToEnd(p: string, i: nat, found: nat, stop: char, limit: nat)
    requires i <= found <= |p| && Without(p[i..found], stop)
    ensures Span(p, i, found, stop, limit) == if found - i <= limit then found - i else limit
  {
    var k := if found - i <= limit then found - i else limit;
    forall x | i <= x < i + k ensures p[x] != stop {
      assert p[x] == p[i..found][x - i] && p[i..found][x - i] in p[i..found];
    }
    SpanIs(p, i, found, stop, limit, k);
  }

  lemma {:induction false} CStrPlain(s: string, tail: string)
    requires NulFree(s)
    ensures CStr(s) == s
    ensures CStr(s + "\0" + tail) == s
  {
    if s == "" {
      assert s + "\0" + tail == ['\0'] + tail;
    } else {
      assert s[0] in s && forall c :: c in s[1..] ==> c in s;
      CStrPlain(s[1..], tail);
      assert (s + "\0" + tail)[1..] == s[1..] + "\0" + tail;
      assert s == [s[0]] + s[1..];
    }
  }

  lemma {:induction false} CStrCut(s: string, tail: string, n: nat)
    requires Plain(s) && |s| < n <= |s| + 1 + |tail|
    ensures CStr((s + "\0" + tail)[..n]) == s
  {
    assert (s + "\0" + tail)[..n] == s + "\0" + tail[..n - |s| - 1];
    CStrPlain(s, tail[..n - |s| - 1]);
  }

  // ---------- Scanning the pairs ----------

  lemma {:induction false} KeyPart(p: string, i: nat, found: nat, kv: KV, after: string)
    requires GoodPair(kv) && i <= found <= |p|
    requires p[i..found] == kv.key + "=" + after && after != ""
    ensures Span(p, i, found, '=', MAX_KEY - 1) == |kv.key|
    ensures CStr(p[i..i + |kv.key|]) == kv.key
    ensures i + |kv.key| + 1 <= found && p[i + |kv.key| + 1..found] == after
  {
    hide CStr;
    var k := |kv.key|;
    assert p[i..i + k] == p[i..found][..k] == kv.key;
    assert p[i + k] == p[i..found][k] == '=';
    assert p[i + k + 1..found] == p[i..found][k + 1..] == after;
    SpanToStop(p, i, found, '=', MAX_KEY - 1, kv.key);
    CStrPlain(kv.key, "");
  }

  lemma {:induction false} ValPart(p: string, j: nat, found: nat, kv: KV, tail: string)
    requires GoodPair(kv) && j <= found <= |p|
    requires p[j..found] == kv.val + ("&" + tail)
    ensures Span(p, j, found, '&', MAX_VAL - 1) == |kv.val|
    ensures kv.val != "" ==> CStr(p[j..j + |kv.val|]) == kv.val
    ensures j + |kv.val| + 1 <= found && p[j + |kv.val| + 1..found] == tail
  {
    hide CStr;
    var m := |kv.val|;
    assert p[j..j + m] == p[j..found][..m] == kv.val;
    assert p[j + m] == p[j..found][m] == '&';
    assert p[j + m + 1..found] == p[j..found][m + 1..] == tail;
    SpanToStop(p, j, found, '&', MAX_VAL - 1, kv.val);
    CStrPlain(kv.val, "");
  }

  function Tail(version: string): string {
    "\0" + version + "\r"
  }

  /** A pair that is not the last. */
  lemma {:induction false} ScanOne(p: string, i: nat, found: nat, kvs: seq<KV>, version: string)
    requires |kvs| > 1 && GoodPair(kvs[0]) && i <= found <= |p|
    requires p[i..found] == QueryText(kvs) + Tail(version)
    ensures var next := i + |kvs[0].key| + 1 + |kvs[0].val| + 1;
            && next <= found && p[next..found] == QueryText(kvs[1..]) + Tail(version)
            && ScanPairs(p, i, found) == (var rest := ScanPairs(p, next, found);
                                          if rest.NoKey? then NoKey else Pairs([kvs[0]] + rest.kvs))
  {
    hide CStr, Span, Tail;
    var kv := kvs[0];
    var tail := QueryText(kvs[1..]) + Tail(version);
    assert p[i..found] == kv.key + "=" + (kv.val + ("&" + tail));
    hide QueryText;
    KeyPart(p, i, found, kv, kv.val + ("&" + tail));
    var j := i + |kv.key| + 1;
    ValPart(p, j, found, kv, tail);
  }

  lemma {:induction false} TailHasNoStop(v: string, version: string)
    requires Without(v, '&') && Version(version)
    ensures Without(v + Tail(version), '&') && |Tail(version)| == 10
  {
  }

  /** What an over-long last value leaves of the line is scanned as one more pair: the line's last
      characters as its key. */
  function Leftover(version: string, last: nat): (r: seq<KV>)
    requires Version(version) && last <= MAX_VAL - 1
    ensures r == [] <==> last <= MAX_LAST
  {
    if last <= MAX_LAST then [] else [KV(Tail(version)[MAX_VAL - last..], "")]
  }

  /** The value a last pair is read as. */
  lemma {:induction false} LastValue(p: string, j: nat, found: nat, v: string, version: string)
    requires Plain(v) && Without(v, '&') && |v| <= MAX_VAL - 1 && Version(version) && j <= found <= |p|
    requires p[j..found] == v + Tail(version)
    ensures var m := Span(p, j, found, '&', MAX_VAL - 1);
            && m == (if |v| + 10 <= MAX_VAL - 1 then |v| + 10 else MAX_VAL - 1)
            && m > 0 && CStr(p[j..j + m]) == v
  {
    hide CStr, Span;
    TailHasNoStop(v, version);
    SpanToEnd(p, j, found, '&', MAX_VAL - 1);
    var m := Span(p, j, found, '&', MAX_VAL - 1);
    assert found - j == |v| + 10;
    assert p[j..j + m] == p[j..found][..m] == (v + Tail(version))[..m];
    if m == |v| {
      assert p[j..j + m] == v;
      CStrPlain(v, "");
    } else {
      assert v + Tail(version) == v + "\0" + (version + "\r");
      CStrCut(v, version + "\r", m);
    }
  }

  /** The last pair: its value runs into what is left of the line. */
  lemma {:induction false} ScanLast(p: string, i: nat, found: nat, kv: KV, version: string)
    requires GoodPair(kv) && Version(version) && i <= found <= |p|
    requires p[i..found] == kv.key + "=" + (kv.val + Tail(version))
    ensures ScanPairs(p, i, found) == Pairs([kv] + Leftover(version, |kv.val|))
  {
    hide CStr, Span;
    TailHasNoStop(kv.val, version);
    hide Tail;
    KeyPart(p, i, found, kv, kv.val + Tail(version));
    var j := i + |kv.key| + 1;
    LastValue(p, j, found, kv.val, version);
    var next := j + Span(p, j, found, '&', MAX_VAL - 1) + 1;
    assert ScanPairs(p, next, found) == Pairs(Leftover(version, |kv.val|)) by {
      if |kv.val| <= MAX_LAST - 1 {
        hide Leftover;
        assert next > found;
      } else {
        hide ScanPairs;
        Overrun(p, j, found, kv.val, version);
      }
    }
    hide Leftover;
  }

  /** What is left of the line after a last value that is too long is taken for one more key. */
  lemma {:induction false} Overrun(p: string, j: nat, found: nat, v: string, version: string)
    requires MAX_LAST <= |v| <= MAX_VAL - 1 && Version(version) && j <= found <= |p|
    requires p[j..found] == v + Tail(version)
    ensures ScanPairs(p, j + MAX_VAL, found) == Pairs(Leftover(version, |v|))
  {
    hide CStr, Span;
    var over := |v| - MAX_LAST;
    var next := j + MAX_VAL;
    assert |Tail(version)| == 10 && found == j + |v| + 10 == next + over;
    if over > 0 {
      var key := Tail(version)[10 - over..];
      LeftoverKey(version, over);
      assert p[next..found] == p[j..found][MAX_VAL..] == key;
      hide Tail;
      SpanToEnd(p, next, found, '=', MAX_KEY - 1);
      CStrPlain(key, "");
      assert p[next..next + over] == key;
      assert [KV(key, "")] + [] == [KV(key, "")];
    }
  }

  lemma {:induction false} LeftoverKey(version: string, over: nat)
    requires Version(version) && 0 < over <= 9
    ensures |Tail(version)| == 10
    ensures Without(Tail(version)[10 - over..], '=') && NulFree(Tail(version)[10 - over..])
    ensures Tail(version)[10 - over..][over - 1] == '\r'
  {
    assert forall c :: c in Tail(version)[10 - over..] ==> c in version + "\r";
  }

  predicate GoodPairs(kvs: seq<KV>) {
    kvs != [] && forall kv :: kv in kvs ==> GoodPair(kv)
  }

  function LastLength(kvs: seq<KV>): (n: nat)
    requires GoodPairs(kvs)
    ensures n <= MAX_VAL - 1
  {
    assert kvs[|kvs| - 1] in kvs;
    |kvs[|kvs| - 1].val|
  }

  lemma {:induction false} GoodTail(kvs: seq<KV>)
    requires GoodPairs(kvs)
    ensures kvs != [] && GoodPair(kvs[0])
    ensures |kvs| > 1 ==> GoodPairs(kvs[1..]) && LastLength(kvs[1..]) == LastLength(kvs)
    ensures |kvs| == 1 ==> LastLength(kvs) == |kvs[0].val|
  {
    hide GoodPair;
    assert kvs[0] in kvs;
    assert forall kv :: kv in kvs[1..] ==> kv in kvs;
  }

  lemma {:induction false} QueryTextOne(kvs: seq<KV>, tail: string)
    requires |kvs| == 1
    ensures QueryText(kvs) + tail == kvs[0].key + "=" + (kvs[0].val + tail)
  {
  }

  /** Scanning the printed pairs gives them back, and after an over-long last value one more. */
  lemma {:induction false} ScanUndoesPrint(p: string, i: nat, found: nat, kvs: seq<KV>, version: string)
    requires GoodPairs(kvs) && Version(version) && i <= found <= |p|
    requires p[i..found] == QueryText(kvs) + Tail(version)
    ensures ScanPairs(p, i, found) == Pairs(kvs + Leftover(version, LastLength(kvs)))
    decreases |kvs|
  {
    hide ScanPairs, QueryText, Tail, GoodPair, Version, GoodPairs, Leftover, LastLength;
    GoodTail(kvs);
    var extra := Leftover(version, LastLength(kvs));
    if |kvs| == 1 {
      QueryTextOne(kvs, Tail(version));
      ScanLast(p, i, found, kvs[0], version);
      assert kvs == [kvs[0]];
    } else {
      ScanOne(p, i, found, kvs, version);
      ScanUndoesPrint(p, i + |kvs[0].key| + 1 + |kvs[0].val| + 1, found, kvs[1..], version);
      assert kvs + extra == [kvs[0]] + (kvs[1..] + extra);
    }
  }

  // ---------- Finding the line ----------

  lemma {:induction false} QueryTextPlain(kvs: seq<KV>)
    requires GoodPairs(kvs)
    ensures Plain(QueryText(kvs))
    decreases |kvs|
  {
    assert kvs[0] in kvs;
    if |kvs| > 1 {
      assert GoodPairs(kvs[1..]);
      QueryTextPlain(kvs[1..]);
    }
  }

  /** The first line of plain text ends at its own line feed. */
  lemma {:induction false} LineFound(line: string, rest: string)
    requires Plain(line) && line != ""
    ensures FindEnd(line + "\r\n" + rest, 0) == |line| + 1
  {
    var s := line + "\r\n" + rest;
    var found := |line| + 1;
    forall k | 0 <= k < found ensures !LineEnd(s, k) {
      if k < |line| {
        assert s[k] == line[k] && line[k] in line;
      }
    }
    FindEndIs(s, 0, found);
  }

  lemma {:induction false} LinePlain(job: Job, kvs: seq<KV>, version: string)
    requires Plain(QueryText(kvs)) && Version(version)
    ensures Plain(Prefix(job) + "?" + QueryText(kvs) + " " + version)
  {
    hide QueryText;
    assert Plain(Prefix(job) + "?") && Plain(" ") && Plain(version);
  }

  lemma {:induction false} Layout(head: string, query: string, version: string, rest: string)
    requires |version| == 8
    ensures var s := head + query + " " + version + "\r\n" + rest;
            var found := |head| + |query| + 10;
            && found < |s|
            && s[found - 9..found - 1] == version
            && s[found - 10 := '\0'][|head|..found] == query + ("\0" + version + "\r")
  {
    var s := head + query + " " + version + "\r\n" + rest;
    var found := |head| + |query| + 10;
    var t := s[found - 10 := '\0'];
    assert t == head + query + ("\0" + version + "\r\n" + rest);
    assert ("\0" + version + "\r\n" + rest)[..10] == "\0" + version + "\r";
  }

  /** Where the parts of a printed request lie. */
  lemma {:induction false} RequestLayout(job: Job, kvs: seq<KV>, version: string, rest: string)
    requires Version(version)
    ensures var s := Request(job, kvs, version, rest);
            var found := QueryStart(job) + |QueryText(kvs)| + 10;
            && 11 <= found < |s| && IsVersion(s, found)
            && s[found - 10 := '\0'][QueryStart(job)..found] == QueryText(kvs) + Tail(version)
  {
    hide QueryText;
    Layout(Prefix(job) + "?", QueryText(kvs), version, rest);
  }

  // ---------- What parsing a printed request gives ----------

  /** For every list of pairs within the limits: parsing the printed request goes on the pairs
      reversed, preceded by what an over-long last value left of the line, and on nothing else. */
  lemma {:induction false} ParseOfPrint(job: Job, kvs: seq<KV>, version: string, rest: string)
    requires GoodPairs(kvs) && Version(version)
    ensures var head := Leftover(version, LastLength(kvs)) + Reverse(kvs);
            ParseSpec(Request(job, kvs, version, rest), job) == if Accepts(head, job) then Parsed(head) else Rejected
  {
    hide Request, QueryText, IsVersion, FindEnd, GoodPairs, Version, Tail, LastLength, ScanPairs, ScansTo, QueryStart, Accepts, ParseSpec;
    var s := Request(job, kvs, version, rest);
    var found := QueryStart(job) + |QueryText(kvs)| + 10;
    RequestLayout(job, kvs, version, rest);
    QueryTextPlain(kvs);
    RequestEnd(job, kvs, version, rest);
    ScanUndoesPrint(s[found - 10 := '\0'], QueryStart(job), found, kvs, version);
    var extra := Leftover(version, LastLength(kvs));
    ScansFrom(s, job, found, kvs + extra);
    ParseGoesOn(s, job, kvs + extra);
    ReverseAppend(kvs, extra);
    assert |extra| <= 1;
    assert Reverse(extra) == extra;
  }

  /** The line is well formed and its query is scanned as these pairs. */
  predicate ScansTo(s: string, job: Job, kvs: seq<KV>) {
    var found := FindEnd(s, 0);
    && 11 <= found < |s| && IsVersion(s, found)
    && ScanPairs(s[found - 10 := '\0'], QueryStart(job), found) == Pairs(kvs)
  }

  lemma {:induction false} ParseGoesOn(s: string, job: Job, kvs: seq<KV>)
    requires ScansTo(s, job, kvs)
    ensures ParseSpec(s, job) == if Accepts(Reverse(kvs), job) then Parsed(Reverse(kvs)) else Rejected
  {
    hide FindEnd, ScanPairs, Reverse, Accepts, IsVersion;
  }

  lemma {:induction false} ScansFrom(s: string, job: Job, found: nat, kvs: seq<KV>)
    requires FindEnd(s, 0) == found && 11 <= found < |s| && IsVersion(s, found)
    requires ScanPairs(s[found - 10 := '\0'], QueryStart(job), found) == Pairs(kvs)
    ensures ScansTo(s, job, kvs)
  {
    hide FindEnd, ScanPairs, IsVersion;
  }

  lemma {:induction false} RequestEnd(job: Job, kvs: seq<KV>, version: string, rest: string)
    requires Plain(QueryText(kvs)) && Version(version)
    ensures FindEnd(Request(job, kvs, version, rest), 0) == QueryStart(job) + |QueryText(kvs)| + 10
  {
    LinePlain(job, kvs, version);
    var query := QueryText(kvs);
    hide QueryText, Plain;
    var line := Prefix(job) + "?" + query + " " + version;
    assert Request(job, kvs, version, rest) == line + "\r\n" + rest;
    hide FindEnd;
    LineFound(line, rest);
  }

  /** The parser undoes the printer on exactly the requests it accepts whose last value has room. */
  lemma {:induction false} ParseUndoesPrint(job: Job, kvs: seq<KV>, version: string, rest: string)
    requires GoodPairs(kvs) && Version(version)
    ensures ParseSpec(Request(job, kvs, version, rest), job) == Parsed(Reverse(kvs))
       <==> LastLength(kvs) <= MAX_LAST && Accepts(Reverse(kvs), job)
  {
    hide ParseSpec, Request, Accepts, GoodPairs, Version;
    ParseOfPrint(job, kvs, version, rest);
    var extra := Leftover(version, LastLength(kvs));
    if extra != [] {
      assert |extra + Reverse(kvs)| > |Reverse(kvs)|;
    } else {
      assert extra + Reverse(kvs) == Reverse(kvs);
    }
  }

  // ---------- Which announces are let through ----------

  predicate HasPair(head: seq<KV>, key: string) {
    exists kv :: kv in head && kv.key == key
  }

  predicate AllPresent(head: seq<KV>) {
    forall key :: key in REQUIRED ==> HasPair(head, key)
  }

  /** No required key is given twice; other keys may be. */
  predicate NoneRepeated(head: seq<KV>) {
    forall key :: key in REQUIRED ==> Occurrences(head)(key) <= 1
  }

  lemma {:induction false} OccursWhenPresent(head: seq<KV>, key: string)
    ensures Occurrences(head)(key) > 0 <==> HasPair(head, key)
  {
    if HasPair(head, key) {
      var kv :| kv in head && kv.key == key;
      var i: nat :| i < |head| && head[i] == kv;
      SumContains(head, i, HasKey(key));
    } else {
      SumZero(head, HasKey(key));
    }
  }

  /** Required keys without a pair, and pairs with a required key beyond the first. */
  function Shortfall(head: seq<KV>): string -> nat {
    (key: string) => if Occurrences(head)(key) == 0 then 1 else 0
  }

  function Above(n: nat): nat {
    if n == 0 then 0 else n - 1
  }

  function Excess(head: seq<KV>): string -> nat {
    (key: string) => Above(Occurrences(head)(key))
  }

  function Missing(head: seq<KV>): nat {
    Sum(REQUIRED, Shortfall(head))
  }

  function Surplus(head: seq<KV>): nat {
    Sum(REQUIRED, Excess(head))
  }

  lemma {:induction false} MissingNone(head: seq<KV>)
    ensures Missing(head) == 0 <==> AllPresent(head)
  {
    forall key ensures Shortfall(head)(key) == 0 <==> HasPair(head, key) {
      OccursWhenPresent(head, key);
    }
    if AllPresent(head) {
      SumZero(REQUIRED, Shortfall(head));
    } else {
      var key :| key in REQUIRED && !HasPair(head, key);
      var i: nat :| i < |REQUIRED| && REQUIRED[i] == key;
      SumContains(REQUIRED, i, Shortfall(head));
    }
  }

  /** What the count makes of the required keys: an announce is let through exactly when its surplus
      makes up for what is missing. So it is let through exactly when complete if and only if nothing
      is missing or the surplus falls short of it; in particular when no required key is repeated. */
  lemma {:induction false} AcceptedIffComplete(head: seq<KV>)
    ensures Accepts(head, AnnounceJob) <==> Missing(head) <= Surplus(head)
    ensures (Accepts(head, AnnounceJob) <==> AllPresent(head)) <==> (Missing(head) == 0 || Surplus(head) < Missing(head))
    ensures NoneRepeated(head) ==> (Accepts(head, AnnounceJob) <==> AllPresent(head))
  {
    CountBalance(head);
    MissingNone(head);
    NoSurplus(head);
    hide RequiredCount, Missing, Surplus, AllPresent, NoneRepeated;
  }

  lemma {:induction false} CountBalance(head: seq<KV>)
    ensures RequiredCount(head) + Missing(head) == 6 + Surplus(head)
  {
    SumBalance(REQUIRED, Occurrences(head), Shortfall(head), Excess(head));
    hide Sum, Occurrences;
    assert |REQUIRED| == 6;
  }

  lemma {:induction false} NoSurplus(head: seq<KV>)
    ensures NoneRepeated(head) ==> Surplus(head) == 0
  {
    hide Occurrences;
    if NoneRepeated(head) {
      SumZero(REQUIRED, Excess(head));
    }
  }

  /** An announce with all required keys is always let through. */
  lemma {:induction false} CompleteAccepted(head: seq<KV>)
    requires AllPresent(head)
    ensures Accepts(head, AnnounceJob)
  {
    AcceptedIffComplete(head);
  }

  // ---------- Looking a key up ----------

  datatype Lookup = Found(val: string) | NotFound

  function LookupKey(head: seq<KV>, key: string): Lookup {
    if head == [] then NotFound else if head[0].key == key then Found(head[0].val) else LookupKey(head[1..], key)
  }

  /** http_lookup_kv_key: the first pair of the list with the key. */
  method LookupKvKey(head: seq<KV>, key: string) returns (r: Lookup)
    ensures r == LookupKey(head, key)
  {
    var i := 0;
    assert head[0..] == head;
    while i < |head|
      invariant 0 <= i <= |head| && LookupKey(head, key) == LookupKey(head[i..], key)
    {
      if head[i].key == key {
        return Found(head[i].val);
      }
      assert head[i..][1..] == head[i + 1..];
      i := i + 1;
    }
    return NotFound;
  }

  /** A pair that no later pair of the same key hides. */
  ghost predicate LastWith(kvs: seq<KV>, key: string, i: int) {
    && 0 <= i < |kvs| && kvs[i].key == key
    && forall j :: i < j < |kvs| ==> kvs[j].key != key
  }

  lemma {:induction false} LookupAppend(a: seq<KV>, b: seq<KV>, key: string)
    ensures LookupKey(a + b, key) == if LookupKey(a, key).Found? then LookupKey(a, key) else LookupKey(b, key)
  {
    if a == [] {
      assert a + b == b;
    } else {
      assert (a + b)[1..] == a[1..] + b;
      LookupAppend(a[1..], b, key);
    }
  }

  /** On the list the parser builds, a lookup finds the last pair of the query with that key. */
  lemma {:induction false} LookupIsLast(kvs: seq<KV>, key: string)
    ensures forall i :: LastWith(kvs, key, i) ==> LookupKey(Reverse(kvs), key) == Found(kvs[i].val)
    ensures LookupKey(Reverse(kvs), key).Found? <==> HasPair(kvs, key)
  {
    if kvs != [] {
      var rest := kvs[1..];
      LookupIsLast(rest, key);
      LookupAppend(Reverse(rest), [kvs[0]], key);
      assert kvs == [kvs[0]] + rest;
      assert LookupKey([kvs[0]], key) == if kvs[0].key == key then Found(kvs[0].val) else NotFound;
      forall i | LastWith(kvs, key, i) ensures LookupKey(Reverse(kvs), key) == Found(kvs[i].val) {
        if i > 0 {
          assert LastWith(rest, key, i - 1);
        } else {
          assert !HasPair(rest, key);
        }
      }
      assert HasPair(kvs, key) <==> HasPair(rest, key) || kvs[0].key == key by {
        assert kvs[0] in kvs;
      }
    }
  }

  lemma {:induction false} OnlyPair(kvs: seq<KV>, key: string, i: nat)
    requires i < |kvs| && kvs[i].key == key && Occurrences(kvs)(key) <= 1
    ensures LastWith(kvs, key, i)
  {
    forall j | i < j < |kvs| ensures kvs[j].key != key {
      SumContainsTwo(kvs, i, j, HasKey(key));
    }
  }

  lemma {:induction false} ReverseCount(kvs: seq<KV>, key: string)
    ensures Occurrences(Reverse(kvs))(key) == Occurrences(kvs)(key)
  {
    if kvs != [] {
      ReverseCount(kvs[1..], key);
      SumConcat(Reverse(kvs[1..]), [kvs[0]], HasKey(key));
      SumOne(kvs[0], HasKey(key));
    }
  }

  lemma {:induction false} NoReturnInKeys(key: string)
    requires key in REQUIRED
    ensures |key| > 0 && key[|key| - 1] != '\r'
  {
  }

  /** What is left of the line never passes for a required key. */
  lemma {:induction false} LeftoverHarmless(version: string, last: nat, kvs: seq<KV>, key: string)
    requires Version(version) && last <= MAX_VAL - 1 && key in REQUIRED
    ensures Occurrences(Leftover(version, last) + Reverse(kvs))(key) == Occurrences(kvs)(key)
    ensures LookupKey(Leftover(version, last) + Reverse(kvs), key) == LookupKey(Reverse(kvs), key)
  {
    var extra := Leftover(version, last);
    if last > MAX_LAST {
      LeftoverKey(version, last - MAX_LAST);
      NoReturnInKeys(key);
      assert extra[0].key != key;
    }
    hide Leftover, Tail;
    SumConcat(extra, Reverse(kvs), HasKey(key));
    ReverseCount(kvs, key);
    LookupAppend(extra, Reverse(kvs), key);
    SumZero(extra, HasKey(key));
  }

  lemma {:induction false} SameCounts(head: seq<KV>, kvs: seq<KV>)
    requires forall key :: key in REQUIRED ==> Occurrences(head)(key) == Occurrences(kvs)(key)
    ensures Missing(head) == Missing(kvs) && Surplus(head) == Surplus(kvs)
    ensures AllPresent(head) <==> AllPresent(kvs)
  {
    SumSame(REQUIRED, Shortfall(head), Shortfall(kvs));
    SumSame(REQUIRED, Excess(head), Excess(kvs));
    MissingNone(head);
    MissingNone(kvs);
  }

  /** For every printed announce: it is let through exactly when the surplus of required keys makes up
      for the missing ones, and so wrongly exactly when some are missing and the surplus covers them.
      Once through, a mandatory lookup of http_build_peer_req finds the value last given for its key,
      and returns NULL exactly for a key that is missing. */
  lemma {:induction false} MandatoryLookupsSucceed(kvs: seq<KV>, version: string, rest: string)
    requires GoodPairs(kvs) && Version(version)
    ensures var r := ParseSpec(Request(AnnounceJob, kvs, version, rest), AnnounceJob);
            && (r.Parsed? <==> Missing(kvs) <= Surplus(kvs))
            && ((r.Parsed? <==> AllPresent(kvs)) <==> (Missing(kvs) == 0 || Surplus(kvs) < Missing(kvs)))
            && (r.Parsed? ==>
                  && ((forall key :: key in REQUIRED ==> LookupKey(r.head, key).Found?) <==> AllPresent(kvs))
                  && (forall key, i :: key in REQUIRED && LastWith(kvs, key, i) ==> LookupKey(r.head, key) == Found(kvs[i].val)))
  {
    var head := Leftover(version, LastLength(kvs)) + Reverse(kvs);
    forall key | key in REQUIRED
      ensures Occurrences(head)(key) == Occurrences(kvs)(key)
      ensures LookupKey(head, key).Found? <==> HasPair(kvs, key)
      ensures forall i :: LastWith(kvs, key, i) ==> LookupKey(head, key) == Found(kvs[i].val)
    {
      LeftoverHarmless(version, LastLength(kvs), kvs, key);
      LookupIsLast(kvs, key);
    }
    hide Leftover, ParseSpec, Request, GoodPairs, Version;
    ParseOfPrint(AnnounceJob, kvs, version, rest);
    hide Accepts, LookupKey, Reverse, Occurrences, LastLength, Missing, Surplus;
    SameCounts(head, kvs);
    AcceptedIffComplete(head);
  }

  /** No required key given twice: let through exactly when complete, and each lookup finds the one
      value given for its key. */
  lemma {:induction false} DistinctKeysSucceed(kvs: seq<KV>, version: string, rest: string)
    requires GoodPairs(kvs) && Version(version) && NoneRepeated(kvs)
    ensures var r := ParseSpec(Request(AnnounceJob, kvs, version, rest), AnnounceJob);
            && (r.Parsed? <==> AllPresent(kvs))
            && (r.Parsed? ==> forall key, kv :: key in REQUIRED && kv in kvs && kv.key == key ==> LookupKey(r.head, key) == Found(kv.val))
  {
    MandatoryLookupsSucceed(kvs, version, rest);
    AcceptedIffComplete(kvs);
    hide ParseSpec, Request, GoodPairs, Version, Accepts;
    forall key, kv | key in REQUIRED && kv in kvs && kv.key == key
      ensures exists i :: LastWith(kvs, key, i) && kvs[i] == kv {
      var i: nat :| i < |kvs| && kvs[i] == kv;
      OnlyPair(kvs, key, i);
    }
  }

  // ---------- A request that is let through incomplete ----------

  const SIX_HASHES: seq<KV> := seq(6, i => KV("info_hash", ""))

  lemma {:induction false} SixHashes()
    ensures GoodPairs(SIX_HASHES) && LastLength(SIX_HASHES) == 0 && |SIX_HASHES| == 6
    ensures forall kv :: kv in SIX_HASHES ==> kv.key == "info_hash"
    ensures Occurrences(SIX_HASHES)("info_hash") == 6
    ensures !HasPair(SIX_HASHES, "port")
  {
    assert |"port"| == 4 && |"info_hash"| == 9;
    forall kv | kv in SIX_HASHES ensures HasKey("info_hash")(kv) == 1 {}
    SumAtMost(SIX_HASHES, HasKey("info_hash"));
  }

  /** Repeats are counted too: a request with six info_hash pairs and no other is let through, and the
      lookup of its port gives NULL. */
  lemma {:induction false} RepeatsPass(version: string, rest: string)
    requires Version(version)
    ensures var r := ParseSpec(Request(AnnounceJob, SIX_HASHES, version, rest), AnnounceJob);
            r.Parsed? && LookupKey(r.head, "port") == NotFound
  {
    SixHashes();
    hide SIX_HASHES, GoodPairs, LastLength, Version, ParseSpec, Request, HasPair;
    MandatoryLookupsSucceed(SIX_HASHES, version, rest);
    ParseUndoesPrint(AnnounceJob, SIX_HASHES, version, rest);
    assert REQUIRED[0] == "info_hash";
    SumContains(REQUIRED, 0, Occurrences(Reverse(SIX_HASHES)));
    ReverseCount(SIX_HASHES, "info_hash");
    LookupIsLast(SIX_HASHES, "port");
  }
}
