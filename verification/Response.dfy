/** The reply path of http_response: a header and a body put together in a buffer of the pool, then
    handed to the client by as many writes as it takes, five failures at most. */
module Response {
  import opened Decimal
  import opened Buffers
  import opened CStrings
  import opened BencodeWriter
  import opened BufferPools
  import PoolSpec

  // ---------- The text of a reply ----------

  const MAX_TRY: nat := 5

  function Status(code: int): string {
    match code
    case 200 => "HTTP/1.1 200 OK"
    case 400 => "HTTP/1.1 400 Bad Request"
    case _ => "HTTP/1.1 500 Internal Server Error"
  }

  function Closing(n: nat): string {
    "\ncontent-length: " + Dec(n) + "\n"
  }

  function ContentType(): string {
    "content-type: text/plain\n"
  }

  function Server(): string {
    "server: topkek-0.1\n"
  }

  function Connection(): string {
    "connection: close\n"
  }

  function Fields(): string {
    ContentType() + Server() + Connection()
  }

  function Header(n: nat, code: int): string {
    Status(code) + (if n == 0 then "" else Closing(n) + Fields()) + "\r\n"
  }

  function ResponseText(body: string, code: int): string {
    Header(|body|, code) + body
  }

  /** The whole reply, spelled out. */
  lemma {:induction false} ReplySpelled(body: string, code: int)
    ensures var status := if code == 200 then "HTTP/1.1 200 OK" else if code == 400 then "HTTP/1.1 400 Bad Request" else "HTTP/1.1 500 Internal Server Error";
            && (body == "" ==> ResponseText(body, code) == status + "\r\n")
            && (body != "" ==>
                  ResponseText(body, code) == status
                    + ("\ncontent-length: " + Dec(|body|) + "\n" + ("content-type: text/plain\n" + "server: topkek-0.1\n" + "connection: close\n"))
                    + "\r\n" + body)
  {
    hide Dec;
    assert Status(code) + "" + "\r\n" == Status(code) + "\r\n";
    assert body == "" ==> ResponseText(body, code) == Header(0, code) + "";
  }

  /** The line with the length always fits its 64 characters. */
  lemma {:induction false} ClosingFits(n: nat)
    requires n <= INT_MAX
    ensures 0 < |Closing(n)| < 64 && NulFree(Closing(n))
  {
    Int32Length(n);
    DecNatDenotes(n);
    hide Dec;
    assert Dec(n) == DecNat(n);
  }

  /** What a client reads off a reply: the length it announces, and that many last characters. */
  function Received(text: string, code: int): Read<string> {
    var at := |Status(code)| + 17;
    if |text| < at then Failed
    else
      var n := ReadInt(text[at..]);
      if n.Got? && 0 <= n.value <= |text| then Got(text[|text| - n.value..], n.rest) else Failed
  }

  /** The announced length is the body's, so a client gets back the body. */
  lemma {:induction false} BodyRecovered(body: string, code: int)
    requires body != ""
    ensures Received(ResponseText(body, code), code) == Got(body, "\n" + Fields() + "\r\n" + body)
  {
    hide Dec, ReadInt, Status, Fields;
    assert |body| > 0;
    var d, rest := Dec(|body|), "\n" + Fields() + "\r\n" + body;
    var text := ResponseText(body, code);
    assert text[|Status(code)| + 17..] == d + rest;
    ReadIntOf(|body|, rest);
  }

  // ---------- Writing to the client ----------

  datatype WriteResult = WriteFailed | Wrote(n: nat)

  /** What write answers on its k-th call when so much remains. */
  type Kernel = (nat, nat) -> WriteResult

  /** A write that does not fail takes at least one character and no more than there are. */
  ghost predicate Honest(kernel: Kernel) {
    forall k, n :: n > 0 && kernel(k, n).Wrote? ==> 1 <= kernel(k, n).n <= n
  }

  /** Characters handed over after k calls, were the caller never to give up. */
  ghost function Moved(kernel: Kernel, total: nat, k: nat): (m: nat)
    requires Honest(kernel)
    ensures m <= total
  {
    if k == 0 then 0
    else
      var before := Moved(kernel, total, k - 1);
      if before == total then total
      else match kernel(k - 1, total - before) case WriteFailed => before case Wrote(n) => before + n
  }

  ghost function Failures(kernel: Kernel, total: nat, k: nat): (f: nat)
    requires Honest(kernel)
    ensures f <= k
  {
    if k == 0 then 0
    else
      var before := Moved(kernel, total, k - 1);
      Failures(kernel, total, k - 1)
      + if before < total && kernel(k - 1, total - before).WriteFailed? then 1 else 0
  }

  /** Everything is handed over before the fifth failure. */
  ghost predicate Delivers(kernel: Kernel, total: nat)
    requires Honest(kernel)
  {
    exists k: nat :: Moved(kernel, total, k) == total && Failures(kernel, total, k) < MAX_TRY
  }

  lemma {:induction false} Monotone(kernel: Kernel, total: nat, j: nat, k: nat)
    requires Honest(kernel) && j <= k
    ensures Moved(kernel, total, j) <= Moved(kernel, total, k)
    ensures Failures(kernel, total, j) <= Failures(kernel, total, k)
    ensures Moved(kernel, total, j) == total ==> Failures(kernel, total, j) == Failures(kernel, total, k)
    decreases k - j
  {
    if j < k {
      Monotone(kernel, total, j, k - 1);
    }
  }

  /** The fifth failure with something left over rules delivery out. */
  lemma {:induction false} FifthFailureIsFinal(kernel: Kernel, total: nat, k: nat)
    requires Honest(kernel) && Moved(kernel, total, k) < total && Failures(kernel, total, k) >= MAX_TRY
    ensures !Delivers(kernel, total)
  {
    forall j: nat ensures !(Moved(kernel, total, j) == total && Failures(kernel, total, j) < MAX_TRY) {
      if j <= k {
        Monotone(kernel, total, j, k);
      } else {
        Monotone(kernel, total, k, j);
      }
    }
  }

  /** A client whose first f calls of write fail and that takes something at each later one gets the
      whole reply exactly when f is at most four. */
  lemma {:induction false} FourFailuresAreBorne(kernel: Kernel, total: nat, f: nat)
    requires Honest(kernel) && total > 0
    requires forall k: nat, n: nat :: n > 0 ==> (kernel(k, n).WriteFailed? <==> k < f)
    ensures Delivers(kernel, total) <==> f <= 4
  {
    FailsFirst(kernel, total, f, f);
    if f <= 4 {
      TakesAfter(kernel, total, f, total);
      DeliveredAt(kernel, total, f + total);
    } else {
      FailsFirst(kernel, total, f, 5);
      FifthFailureIsFinal(kernel, total, 5);
    }
  }

  lemma {:induction false} FailsFirst(kernel: Kernel, total: nat, f: nat, k: nat)
    requires Honest(kernel) && total > 0 && k <= f
    requires forall k: nat, n: nat :: n > 0 ==> (kernel(k, n).WriteFailed? <==> k < f)
    ensures Moved(kernel, total, k) == 0 && Failures(kernel, total, k) == k
  {
    if k > 0 {
      FailsFirst(kernel, total, f, k - 1);
    }
  }

  lemma {:induction false} TakesAfter(kernel: Kernel, total: nat, f: nat, m: nat)
    requires Honest(kernel) && total > 0 && m <= total
    requires forall k: nat, n: nat :: n > 0 ==> (kernel(k, n).WriteFailed? <==> k < f)
    ensures Moved(kernel, total, f + m) >= m && Failures(kernel, total, f + m) == f
  {
    if m == 0 {
      FailsFirst(kernel, total, f, f);
    } else {
      TakesAfter(kernel, total, f, m - 1);
      var before := Moved(kernel, total, f + m - 1);
      if before < total {
        assert kernel(f + m - 1, total - before).Wrote?;
      }
    }
  }

  class Client {
    var received: string

    constructor ()
      ensures received == ""
    {
      received := "";
    }

    /** One call of write. */
    method Write(data: string, k: nat, kernel: Kernel) returns (ret: int)
      requires data != "" && Honest(kernel)
      modifies this
      ensures ret == match kernel(k, |data|) case WriteFailed => -1 case Wrote(n) => n
      ensures ret == -1 ==> received == old(received)
      ensures ret != -1 ==> 1 <= ret <= |data| && received == old(received) + data[..ret]
    {
      match kernel(k, |data|)
      case WriteFailed => return -1;
      case Wrote(n) =>
        received := received + data[..n];
        return n;
    }
  }

  /** The write loop. */
  method SendReply(b: Buffer, client: Client, kernel: Kernel) returns (ret: int, calls: nat)
    requires b.Valid() && b.cursor > 0 && Honest(kernel)
    modifies client
    ensures ret == if Delivers(kernel, b.cursor) then b.cursor else -1
    ensures client.received == old(client.received) + b.Value().contents[..Moved(kernel, b.cursor, calls)]
    ensures ret != -1 <==> Moved(kernel, b.cursor, calls) == b.cursor
    ensures calls <= b.cursor + MAX_TRY
  {
    hide Moved, Failures, Delivers;
    var outsiz := b.cursor;
    ghost var text := b.Value().contents;
    var written, maxTry := 0, MAX_TRY;
    calls := 0;
    StartsAt(kernel, outsiz);
    while true
      invariant 0 <= written < outsiz == b.cursor && 0 < maxTry <= MAX_TRY
      invariant b.p != null && b.p[..outsiz] == text
      invariant written == Moved(kernel, outsiz, calls)
      invariant maxTry + Failures(kernel, outsiz, calls) == MAX_TRY
      invariant calls <= written + (MAX_TRY - maxTry)
      invariant client.received == old(client.received) + text[..written]
      decreases maxTry, outsiz - written
    {
      ret := client.Write(b.p[written..outsiz], calls, kernel);
      OneCall(kernel, outsiz, calls);
      calls := calls + 1;
      if ret == -1 {
        maxTry := maxTry - 1;
        if maxTry == 0 {
          FifthFailureIsFinal(kernel, outsiz, calls);
          return -1, calls;
        }
        ret := 0;
      }
      assert text[..written] + text[written..][..ret] == text[..written + ret];
      written := written + ret;
      if written >= outsiz {
        break;
      }
    }
    DeliveredAt(kernel, outsiz, calls);
    return written, calls;
  }

  lemma {:induction false} StartsAt(kernel: Kernel, total: nat)
    requires Honest(kernel)
    ensures Moved(kernel, total, 0) == 0 && Failures(kernel, total, 0) == 0
  {
  }

  lemma {:induction false} DeliveredAt(kernel: Kernel, total: nat, k: nat)
    requires Honest(kernel) && Moved(kernel, total, k) == total && Failures(kernel, total, k) < MAX_TRY
    ensures Delivers(kernel, total)
  {
  }

  lemma {:induction false} OneCall(kernel: Kernel, total: nat, k: nat)
    requires Honest(kernel) && Moved(kernel, total, k) < total
    ensures var before := Moved(kernel, total, k);
            match kernel(k, total - before)
            case WriteFailed => Moved(kernel, total, k + 1) == before && Failures(kernel, total, k + 1) == Failures(kernel, total, k) + 1
            case Wrote(n) => Moved(kernel, total, k + 1) == before + n && Failures(kernel, total, k + 1) == Failures(kernel, total, k)
  {
  }

  // ---------- The whole reply ----------

  /** Bodies for which no buffer size leaves the range of int. */
  const MAX_BODY: nat := 0x1000_0000

  /** One append to a reply under construction. */
  method Append(b: Buffer, text: string)
    requires b.Valid() && b.size <= INT_MAX && b.cursor + |text| <= 1000
    modifies b, b.p
    ensures b.Valid() && b.size <= INT_MAX && (b.p == old(b.p) || fresh(b.p))
    ensures b.Value().contents == old(b.Value().contents) + text && b.cursor == old(b.cursor) + |text|
  {
    var _ := b.AppendStringToBuffer(text);
    AlignedMakesRoom(old(b.size), old(b.cursor), |text| + 1);
  }

  /** The header line with the length, printed to the stack and appended from there. */
  method AppendClosing(b: Buffer, n: nat)
    requires b.Valid() && b.size <= INT_MAX && b.cursor <= 800 && n <= INT_MAX
    modifies b, b.p
    ensures b.Valid() && b.size <= INT_MAX && (b.p == old(b.p) || fresh(b.p))
    ensures b.Value().contents == old(b.Value().contents) + Closing(n) && b.cursor == old(b.cursor) + |Closing(n)|
  {
    ClosingFits(n);
    var text := Closing(n);
    hide Closing;
    var closing := new char[64](_ => '\0');
    var _ := Snprintf(closing, 0, 64, text);
    assert text[..|text|] == text;
    var len := Strlen(closing, 0, text);
    assert closing[..len] == closing[..][0..|text|];
    Append(b, closing[..len]);
  }

  lemma {:induction false} HeaderShort(n: nat, code: int)
    requires n <= INT_MAX
    ensures |Status(code)| <= 40 && |Closing(n)| <= 64 && |Fields()| <= 80 && |Header(n, code)| <= 200
  {
    ClosingFits(n);
  }

  lemma {:induction false} Regroup(a: string, b: string, c: string, d: string)
    ensures a + b + c + d == a + (b + c + d)
  {
  }

  method AppendFields(b: Buffer)
    requires b.Valid() && b.size <= INT_MAX && b.cursor <= 800
    modifies b, b.p
    ensures b.Valid() && b.size <= INT_MAX && (b.p == old(b.p) || fresh(b.p))
    ensures b.Value().contents == old(b.Value().contents) + Fields() && b.cursor == old(b.cursor) + |Fields()|
  {
    assert |ContentType()| <= 30 && |Server()| <= 30 && |Connection()| <= 30;
    ghost var before := b.Value().contents;
    hide ContentType, Server, Connection, Buffer.Valid, Buffer.Value;
    Append(b, ContentType());
    Append(b, Server());
    Append(b, Connection());
    Regroup(before, ContentType(), Server(), Connection());
  }

  method AppendStatus(b: Buffer, code: int)
    requires b.Valid() && b.cursor == 0 && b.size <= INT_MAX
    modifies b, b.p
    ensures b.Valid() && b.size <= INT_MAX && (b.p == old(b.p) || fresh(b.p))
    ensures b.Value().contents == Status(code) && b.cursor == |Status(code)|
  {
    HeaderShort(0, code);
    match code {
      case 200 => Append(b, "HTTP/1.1 200 OK");
      case 400 => Append(b, "HTTP/1.1 400 Bad Request");
      case _ => Append(b, "HTTP/1.1 500 Internal Server Error");
    }
  }

  /** The header of a reply whose body has n characters, in the empty buffer b. */
  method ComposeHeader(b: Buffer, n: nat, code: int)
    requires b.Valid() && b.cursor == 0 && b.size <= INT_MAX && n <= INT_MAX
    modifies b, b.p
    ensures b.Valid() && b.size <= INT_MAX && (b.p == old(b.p) || fresh(b.p))
    ensures b.Value().contents == Header(n, code)
  {
    HeaderShort(n, code);
    hide Status, Closing, Fields, Buffer.Valid, Buffer.Value;
    AppendStatus(b, code);
    if n > 0 {
      AppendClosing(b, n);
      AppendFields(b);
      Regroup(Status(code), Closing(n), Fields(), "");
      assert Closing(n) + Fields() + "" == Closing(n) + Fields();
      assert b.Value().contents == Status(code) + (Closing(n) + Fields());
    } else {
      assert b.Value().contents == Status(code) + "";
    }
    assert b.Value().contents + "\r\n" == Header(n, code);
    hide Header;
    Append(b, "\r\n");
  }

  /** Header and body. */
  method Compose(b: Buffer, body: Buffer, code: int)
    requires b.Valid() && b.cursor == 0 && b.size <= INT_MAX
    requires body.Valid() && body.cursor <= MAX_BODY && b != body && (b.p == null || b.p != body.p)
    modifies b, b.p
    ensures b.Valid() && (b.p == old(b.p) || fresh(b.p)) && b.size <= INT_MAX && b.cursor > 0
    ensures b.Value().contents == ResponseText(old(body.Value().contents), code)
  {
    HeaderShort(body.cursor, code);
    assert |Header(body.cursor, code)| > 0;
    hide Header;
    ComposeHeader(b, body.cursor, code);
    ghost var size, cursor := b.size, b.cursor;
    var _ := b.AppendBuffer(body);
    AlignedMakesRoom(size, cursor, body.cursor);
  }

  /** The reply of http_response with a buffer of the pool, which takes part in neither outcome: it is
      back in the pool when the call returns. Another call's buffers are not touched. */
  method HttpResponse(pool: BufferPool, body: Buffer, code: int, client: Client, kernel: Kernel) returns (ret: int, calls: nat)
    requires pool.Valid() && pool.Storage() && body in pool.Held() && pool.inuse < PoolSpec.MAX_BUFFERS
    requires body.cursor <= MAX_BODY && Honest(kernel)
    requires forall b :: b in pool.Buffers() ==> b.size <= INT_MAX
    modifies pool, pool.Buffers(), set b | b in pool.Buffers() && b.p != null :: b.p, client
    ensures pool.Valid() && pool.Storage()
    ensures pool.Held() == old(pool.Held())
    ensures pool.Value() == if old(pool.inuse < pool.num) then old(pool.Value()) else PoolSpec.Grown(old(pool.Value()))
    ensures forall b :: b in old(pool.Held()) ==> b.Value() == old(b.Value())
    ensures var text := ResponseText(old(body.Value().contents), code);
            && ret == (if Delivers(kernel, |text|) then |text| else -1)
            && client.received == old(client.received) + text[..Moved(kernel, |text|, calls)]
            && (ret != -1 <==> Moved(kernel, |text|, calls) == |text|)
  {
    hide Header, Delivers, Moved, PoolSpec.Valid, PoolSpec.Take, PoolSpec.Join, PoolSpec.Enter;
    GetThenJoin(pool.Value());
    hide BufferPool.Storage, BufferPool.Valid, PoolSpec.Grown, ResponseText, Buffer.Value;
    var b := Acquire(pool);
    ret, calls := ComposeAndSend(pool, b, body, code, client, kernel);
    GiveBack(pool, b, PoolSpec.Enter(old(pool.Value()), PoolSpec.MAX_BUFFERS).id);
  }

  /** What happens between the get and the join, as far as the pool is concerned. */
  method ComposeAndSend(ghost pool: BufferPool, b: Buffer, body: Buffer, code: int, client: Client, kernel: Kernel)
    returns (ret: int, calls: nat)
    requires pool.Valid() && pool.Storage() && {b, body} <= pool.Held() <= pool.Buffers() && b != body && b.cursor == 0 && b.size <= INT_MAX
    requires body.cursor <= MAX_BODY && Honest(kernel)
    modifies b, b.p, client
    ensures pool.Valid() && pool.Storage() && (b.p == old(b.p) || fresh(b.p))
    ensures forall x :: x in pool.Buffers() && x != b ==> x.Value() == old(x.Value())
    ensures var text := ResponseText(old(body.Value().contents), code);
            && ret == (if Delivers(kernel, |text|) then |text| else -1)
            && client.received == old(client.received) + text[..Moved(kernel, |text|, calls)]
            && (ret != -1 <==> Moved(kernel, |text|, calls) == |text|)
  {
    hide Header, ResponseText, Delivers, Moved, PoolSpec.Valid;
    assert forall e :: e in pool.pool && !e.inuse ==> e.item != b;
    Compose(b, body, code);
    ret, calls := SendReply(b, client, kernel);
    assert pool.Valid() by {
      assert pool.Value() == old(pool.Value());
      hide Buffer.Valid, Buffer.Value, BufferPool.Value;
    }
    forall x | x in pool.Buffers() ensures x.Valid() && (x != b ==> x.p == old(x.p)) {
    }
  }

  method GiveBack(pool: BufferPool, b: Buffer, ghost id: nat)
    requires pool.Valid() && pool.Storage() && b in pool.Held()
    requires id < |pool.pool| && pool.BufferOf(id) == b
    modifies pool, b, b.p
    ensures pool.Valid() && pool.Storage() && b.p == old(b.p)
    ensures forall x :: x in old(pool.Buffers()) && x != b ==> x.Value() == old(x.Value())
    ensures pool.Held() == old(pool.Held()) - {b} && pool.Buffers() == old(pool.Buffers())
    ensures PoolSpec.Join(old(pool.Value()), id) == PoolSpec.Joined(pool.Value())
  {
    hide PoolSpec.Valid, PoolSpec.Join;
    assert b in pool.Buffers();
    var _ := pool.JoinBuffer(b);
    forall x | x in pool.Buffers() ensures x.Valid() {
    }
  }

  /** A get that does not wait, with what it does to the storage of the pool. */
  method Acquire(pool: BufferPool) returns (b: Buffer)
    requires pool.Valid() && pool.Storage() && pool.inuse < PoolSpec.MAX_BUFFERS
    requires forall b :: b in pool.Buffers() ==> b.size <= INT_MAX
    modifies pool
    ensures pool.Valid() && pool.Storage() && old(pool.Buffers()) <= pool.Buffers()
    ensures pool.Held() <= pool.Buffers() && b !in old(pool.Held()) && pool.Held() == old(pool.Held()) + {b}
    ensures b in old(pool.Buffers()) || (fresh(b) && b.p == null)
    ensures b.cursor == 0 && b.size <= INT_MAX
    ensures var got := PoolSpec.Enter(old(pool.Value()), PoolSpec.MAX_BUFFERS);
            got.Got? && pool.Value() == got.pool && got.id < |pool.pool| && b == pool.BufferOf(got.id)
  {
    hide PoolSpec.Valid, PoolSpec.Enter;
    GetThenJoin(pool.Value());
    var got := pool.GetBuffer();
    b := got.item;
    assert b in pool.Held();
    assert b !in old(pool.Buffers()) ==> pool.Blank(b);
    forall x | x in pool.Buffers() ensures x.Valid() && x.size <= INT_MAX {
      if x !in old(pool.Buffers()) {
        assert pool.Blank(x);
      }
    }
    forall x, y | x in pool.Buffers() && y in pool.Buffers() && x != y && x.p != null ensures x.p != y.p {
      assert x !in old(pool.Buffers()) ==> pool.Blank(x);
      assert y !in old(pool.Buffers()) ==> pool.Blank(y);
    }
  }

  /** Taking a buffer and giving it back leaves the pool as it was, but for the four it may have added. */
  lemma {:induction false} GetThenJoin(p: PoolSpec.Pool)
    requires PoolSpec.Valid(p, PoolSpec.MAX_BUFFERS) && p.inuse < PoolSpec.MAX_BUFFERS
    ensures var got := PoolSpec.Enter(p, PoolSpec.MAX_BUFFERS);
            && got.Got?
            && PoolSpec.Join(got.pool, got.id) == PoolSpec.Joined(if p.inuse < p.num then p else PoolSpec.Grown(p))
  {
    PoolSpec.InUseWithin(p);
    if p.inuse < p.num {
      PoolSpec.TakeThenJoin(p, PoolSpec.MAX_BUFFERS);
    } else {
      PoolSpec.GrownIsValid(p, PoolSpec.MAX_BUFFERS);
      PoolSpec.TakeThenJoin(PoolSpec.Grown(p), PoolSpec.MAX_BUFFERS);
    }
  }
}
