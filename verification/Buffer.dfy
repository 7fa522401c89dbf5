/** The growable byte buffer under every request and reply (buffer.c). */
module Buffers {
  import opened Decimal

  const BUFFER_SIZE: nat := 64
  const INT_MAX: int := 0x7fff_ffff

  // ---------- The buffer as a value ----------

  /** What a buffer holds and how much room it has. */
  datatype Abs = Abs(contents: seq<char>, size: nat)

  function Need(len: nat): nat {
    (len / BUFFER_SIZE + 1) * BUFFER_SIZE
  }

  /** Storage after making room for len more characters. */
  function Aligned(size: nat, cursor: nat, len: nat): nat {
    if size <= cursor + Need(len) then size + Need(len) else size
  }

  datatype Op = Zero | Write(data: seq<char>) | AppendString(text: seq<char>) | AppendContents(text: seq<char>)

  function Step(a: Abs, op: Op): Abs {
    match op
    case Zero => Abs([], a.size)
    case Write(data) =>
      if data == [] then a else Abs(data, Aligned(a.size, |a.contents|, |data|))
    case AppendString(text) => Abs(a.contents + text, Aligned(a.size, |a.contents|, |text| + 1))
    case AppendContents(text) => Abs(a.contents + text, Aligned(a.size, |a.contents|, |text|))
  }

  function Replay(a: Abs, ops: seq<Op>): Abs
    decreases |ops|
  {
    if ops == [] then a else Step(Replay(a, ops[..|ops| - 1]), ops[|ops| - 1])
  }

  predicate Fits(a: Abs) {
    a.size % BUFFER_SIZE == 0 && |a.contents| <= a.size && (a.contents != [] ==> |a.contents| < a.size)
  }

  /** What each operation leaves, and the storage it leaves it in: room is made whole blocks of 64 at a
      time, one more than fits, whenever no more than that would be free. */
  lemma {:induction false} OperationsMean(a: Abs, data: seq<char>)
    ensures Step(a, Zero) == Abs([], a.size)
    ensures Step(a, Write([])) == a
    ensures data != [] ==> Step(a, Write(data)).contents == data
    ensures Step(a, AppendString(data)).contents == a.contents + data == Step(a, AppendContents(data)).contents
    ensures data != [] ==> Step(a, Write(data)).size == Step(a, AppendContents(data)).size
    ensures var need := (|data| / 64 + 1) * 64;
            Step(a, AppendContents(data)).size == if a.size - |a.contents| - need <= 0 then a.size + need else a.size
    ensures var need := ((|data| + 1) / 64 + 1) * 64;
            Step(a, AppendString(data)).size == if a.size - |a.contents| - need <= 0 then a.size + need else a.size
  {
  }

  /** Making room leaves whole blocks, room for more than len, and at most two blocks' worth of waste. */
  lemma {:induction false} AlignedMakesRoom(size: nat, cursor: nat, len: nat)
    requires size % 64 == 0 && cursor <= size
    ensures Aligned(size, cursor, len) % 64 == 0
    ensures cursor + len < Aligned(size, cursor, len)
    ensures size <= Aligned(size, cursor, len)
    ensures Aligned(size, cursor, len) == size || Aligned(size, cursor, len) <= cursor + 2 * (len + 64)
  {
  }

  function Max(a: nat, b: nat): nat {
    if a < b then b else a
  }

  /** The longest contents the buffer has had. */
  function Peak(a: Abs, ops: seq<Op>): (m: nat)
    ensures m >= |Replay(a, ops).contents|
    decreases |ops|
  {
    if ops == [] then |a.contents| else Max(Peak(a, ops[..|ops| - 1]), |Replay(a, ops).contents|)
  }

  /** Whatever is done to a fresh buffer, storage stays whole blocks that hold the contents, and
      within a constant factor of the longest contents so far. */
  lemma {:induction false} StorageBounded(ops: seq<Op>)
    ensures Fits(Replay(Abs([], 0), ops))
    ensures Replay(Abs([], 0), ops).size <= 3 * Peak(Abs([], 0), ops) + 130
    decreases |ops|
  {
    if ops != [] {
      var before := Replay(Abs([], 0), ops[..|ops| - 1]);
      var op := ops[|ops| - 1];
      StorageBounded(ops[..|ops| - 1]);
      var len := match op case Zero => 0 case Write(data) => |data| case AppendString(t) => |t| + 1 case AppendContents(t) => |t|;
      AlignedMakesRoom(before.size, |before.contents|, len);
    }
  }

  function Texts(ops: seq<Op>): seq<char>
    requires forall op :: op in ops ==> op.AppendString? || op.AppendContents?
  {
    if ops == [] then [] else Texts(ops[..|ops| - 1]) + ops[|ops| - 1].text
  }

  /** A run of appends adds exactly the concatenation of what was appended. */
  lemma {:induction false} AppendsConcatenate(a: Abs, ops: seq<Op>)
    requires forall op :: op in ops ==> op.AppendString? || op.AppendContents?
    ensures Replay(a, ops).contents == a.contents + Texts(ops)
    decreases |ops|
  {
    if ops != [] {
      var init := ops[..|ops| - 1];
      AppendsConcatenate(a, init);
      assert a.contents + Texts(init) + ops[|ops| - 1].text == a.contents + (Texts(init) + ops[|ops| - 1].text);
    }
  }

  // ---------- The C arithmetic ----------

  /** The room the source computes, in unsigned 64-bit arithmetic narrowed to int. */
  function Room(size: nat, cursor: nat, len: nat): int {
    ToInt32((size - cursor - Need(len)) % 0x1_0000_0000_0000_0000)
  }

  /** Below 2^31 the narrowed value is the true one. */
  lemma {:induction false} RoomIsExact(size: nat, cursor: nat, len: nat)
    requires cursor <= size <= INT_MAX && len <= INT_MAX - 64
    ensures Room(size, cursor, len) == size - cursor - Need(len)
  {
    var x := size - cursor - Need(len);
    assert -INT_MAX <= x <= INT_MAX;
    if x >= 0 {
      assert x % 0x1_0000_0000_0000_0000 == x;
    } else {
      assert x % 0x1_0000_0000_0000_0000 == x + 0x1_0000_0000_0000_0000;
      assert (x + 0x1_0000_0000_0000_0000) % 0x1_0000_0000 == x + 0x1_0000_0000;
    }
  }

  // ---------- The buffer in memory ----------

  /** Copies the first count characters of src to dst at the given offset; they may be one array. */
  method MemMove(dst: array<char>, at: nat, src: array<char>, count: nat)
    requires at + count <= dst.Length && count <= src.Length
    modifies dst
    ensures dst[..at + count] == old(dst[..at]) + old(src[..count])
    ensures dst[at + count..] == old(dst[at + count..])
  {
    forall k | 0 <= k < count {
      dst[at + k] := src[k];
    }
  }

  class Buffer {
    var p: array?<char>
    var size: nat
    var cursor: nat

    ghost predicate Valid()
      reads this, p
    {
      && (p == null ==> size == 0)
      && (p != null ==> p.Length == size)
      && Fits(Value())
      && cursor <= size
    }

    ghost function Value(): Abs
      reads this, p
    {
      Abs(if p == null || cursor > p.Length then [] else p[..cursor], size)
    }

    constructor ()
      ensures Valid() && Value() == Abs([], 0) && p == null
    {
      p := null;
      size := 0;
      cursor := 0;
    }

    method ZeroBuffer()
      requires Valid()
      modifies this`cursor, p
      ensures Valid() && Value() == Step(old(Value()), Zero) && p == old(p)
      ensures cursor == 0 && size == old(size)
      ensures p != null ==> forall k :: 0 <= k < p.Length ==> p[k] == '\0'
    {
      if p != null {
        var data := p;
        forall k | 0 <= k < data.Length {
          data[k] := '\0';
        }
      }
      cursor := 0;
    }

    /** Makes room for len more characters, moving the contents when storage has to grow. */
    method Align(len: nat)
      requires Valid() && size <= INT_MAX && len <= INT_MAX - 64
      modifies this`p, this`size
      ensures Valid() && Value() == Abs(old(Value()).contents, Aligned(old(size), cursor, len))
      ensures p != null && cursor + len < size
      ensures p == old(p) || fresh(p)
    {
      AlignedMakesRoom(size, cursor, len);
      RoomIsExact(size, cursor, len);
      var need := Need(len);
      var room := Room(size, cursor, len);
      if room <= 0 {
        var grown := new char[size + need](_ => '\0');
        if p != null {
          var data := p;
          forall k | 0 <= k < data.Length {
            grown[k] := data[k];
          }
          assert grown[..cursor] == data[..cursor];
        }
        p := grown;
        size := size + need;
      }
    }

    method WriteBuffer(data: seq<char>) returns (ret: int)
      requires Valid() && size <= INT_MAX && |data| <= INT_MAX - 64
      modifies this, p
      ensures Valid() && Value() == Step(old(Value()), Write(data))
      ensures ret == if data == [] then -1 else 0
      ensures data != [] ==> Value().contents == data
      ensures p == old(p) || fresh(p)
    {
      if |data| == 0 {
        return -1;
      }
      Align(|data|);
      var storage := p;
      forall k | 0 <= k < |data| {
        storage[k] := data[k];
      }
      cursor := |data|;
      assert storage[..cursor] == data;
      return 0;
    }

    method AppendStringToBuffer(text: seq<char>) returns (ret: int)
      requires Valid() && size <= INT_MAX && |text| < INT_MAX - 64
      modifies this, p
      ensures Valid() && Value() == Step(old(Value()), AppendString(text))
      ensures ret == |text| && Value().contents == old(Value()).contents + text
      ensures p != null && cursor < p.Length && p[cursor] == '\0'
      ensures p == old(p) || fresh(p)
    {
      ghost var before := Value().contents;
      Align(|text| + 1);
      var storage, at := p, cursor;
      forall k | 0 <= k < |text| {
        storage[at + k] := text[k];
      }
      cursor := at + |text|;
      storage[cursor] := '\0';
      assert storage[..cursor] == before + text;
      return |text|;
    }

    /** The other buffer may be this one. */
    method AppendBuffer(c: Buffer) returns (ret: int)
      requires Valid() && size <= INT_MAX && c.Valid() && c.cursor <= INT_MAX - 64
      requires c == this || c.p == null || c.p != p
      modifies this, p
      ensures Valid() && Value() == Step(old(Value()), AppendContents(old(c.Value()).contents))
      ensures c != this ==> c.Value() == old(c.Value())
      ensures ret == 0
      ensures p == old(p) || fresh(p)
    {
      ghost var before, added := Value().contents, c.Value().contents;
      var count := c.cursor;
      Align(count);
      var storage, at := p, cursor;
      if c.p != null {
        assert c.p[..count] == added;
        MemMove(storage, at, c.p, count);
      }
      cursor := at + count;
      assert storage[..cursor] == before + added;
      return 0;
    }
  }

  /** Appending a buffer to itself doubles its contents. */
  method AppendToItself(b: Buffer)
    requires b.Valid() && b.size <= INT_MAX - 64
    modifies b, b.p
    ensures b.Valid() && b.Value().contents == old(b.Value().contents) + old(b.Value().contents)
  {
    var _ := b.AppendBuffer(b);
  }
}
