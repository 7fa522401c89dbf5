/** The generic writer (bncode.c): a recursive walk that prints into a bounded region of an output
    buffer and keeps its place by return counts. */
module BencodeWriter {
  import opened Decimal
  import opened CStrings
  import opened Bencode

  // ---------- C strings in an array ----------

  /** The array holds this C string at this offset, terminator included. */
  ghost predicate HoldsString(out: seq<char>, at: nat, s: string) {
    at + |s| < |out| && out[at..at + |s|] == s && out[at + |s|] == '\0'
  }

  /** snprintf of an already formatted text: prints as much as fits, terminates, and returns the
      full length. */
  method Snprintf(out: array<char>, at: nat, size: nat, text: string) returns (n: nat)
    requires at + size <= out.Length
    modifies out
    ensures n == |text|
    ensures out[..at] == old(out[..at])
    ensures size == 0 ==> out[..] == old(out[..])
    ensures size > 0 ==>
              var kept := if |text| < size then |text| else size - 1;
              HoldsString(out[..], at, text[..kept]) && out[at + kept + 1..] == old(out[at + kept + 1..])
  {
    if size > 0 {
      var kept := if |text| < size then |text| else size - 1;
      forall k | 0 <= k < kept {
        out[at + k] := text[k];
      }
      out[at + kept] := '\0';
      assert out[..][at..at + kept] == text[..kept];
    }
    return |text|;
  }

  method Strlen(out: array<char>, at: nat, ghost s: string) returns (n: nat)
    requires HoldsString(out[..], at, s) && NulFree(s)
    ensures n == |s|
  {
    n := 0;
    assert forall k :: 0 <= k < |s| ==> out[at + k] == out[..][at..at + |s|][k] == s[k] && s[k] in s;
    while out[at + n] != '\0'
      invariant n <= |s|
      decreases |s| - n
    {
      n := n + 1;
    }
  }

  // ---------- What the writer accepts ----------

  /** The value the writer prints for a tree: every integer narrowed. */
  function Narrow(v: Value): Value {
    match v
    case Int(n) => Int(ToInt32(n))
    case Str(s) => v
    case List(items) => List(NarrowItems(items))
    case Dict(entries) => Dict(NarrowEntries(entries))
  }

  function NarrowItems(items: Items): Items {
    match items
    case Nil => Nil
    case Cons(head, tail) => Cons(Narrow(head), NarrowItems(tail))
  }

  function NarrowEntries(entries: Entries): Entries {
    match entries
    case End => End
    case Pair(key, value, next) => Pair(key, Narrow(value), NarrowEntries(next))
  }

  predicate Printable(s: string) {
    s != "" && NulFree(s)
  }

  /** Every string and key is a C string. */
  predicate NulFreeTree(v: Value) {
    match v
    case Int(_) => true
    case Str(s) => NulFree(s)
    case List(items) => NulFreeItems(items)
    case Dict(entries) => NulFreeEntries(entries)
  }

  predicate NulFreeItems(items: Items) {
    match items
    case Nil => true
    case Cons(head, tail) => NulFreeTree(head) && NulFreeItems(tail)
  }

  predicate NulFreeEntries(entries: Entries) {
    match entries
    case End => true
    case Pair(key, value, next) => NulFree(key) && NulFreeTree(value) && NulFreeEntries(next)
  }

  function EmptyStr(s: string): nat {
    if s == "" then 1 else 0
  }

  /** Empty strings and keys in a tree. */
  function Empties(v: Value): nat {
    match v
    case Int(_) => 0
    case Str(s) => EmptyStr(s)
    case List(items) => EmptiesItems(items)
    case Dict(entries) => EmptiesEntries(entries)
  }

  function EmptiesItems(items: Items): nat {
    match items
    case Nil => 0
    case Cons(head, tail) => Empties(head) + EmptiesItems(tail)
  }

  function EmptiesEntries(entries: Entries): nat {
    match entries
    case End => 0
    case Pair(key, value, next) => EmptyStr(key) + Empties(value) + EmptiesEntries(next)
  }

  // ---------- What the writer does ----------

  /** The count returned: encode_bytes answers -1 for an empty string, and the callers add that up. */
  function ReturnedStr(s: string): int {
    if s == "" then -1 else |EncStr(s)|
  }

  function Returned(v: Value): int {
    match v
    case Int(_) => |Enc(Narrow(v))|
    case Str(s) => ReturnedStr(s)
    case List(items) => 1 + ReturnedItems(items) + 1
    case Dict(entries) => 1 + ReturnedEntries(entries) + 1
  }

  function ReturnedItems(items: Items): int {
    match items
    case Nil => 0
    case Cons(head, tail) => Returned(head) + ReturnedItems(tail)
  }

  function ReturnedEntries(entries: Entries): int {
    match entries
    case End => 0
    case Pair(key, value, next) => ReturnedStr(key) + Returned(value) + ReturnedEntries(next)
  }

  /** What stands up to the writer's place after it has gone on from a text: an empty string moves the
      place back by one, and what follows overwrites the character there. */
  function PutStr(done: string, s: string): string {
    if s != "" then done + EncStr(s) else if done == "" then "" else done[..|done| - 1]
  }

  function Put(done: string, v: Value): string
    decreases v
  {
    match v
    case Int(_) => done + Enc(Narrow(v))
    case Str(s) => PutStr(done, s)
    case List(items) => PutItems(done + "l", items) + "e"
    case Dict(entries) => PutEntries(done + "d", entries) + "e"
  }

  function PutItems(done: string, items: Items): string
    decreases items
  {
    match items
    case Nil => done
    case Cons(head, tail) => PutItems(Put(done, head), tail)
  }

  function PutEntries(done: string, entries: Entries): string
    decreases entries
  {
    match entries
    case End => done
    case Pair(key, value, next) => PutEntries(Put(PutStr(done, key), value), next)
  }

  function Deeper(a: nat, b: int): nat {
    if a < b then b else a
  }

  /** How far before its start the writer's place can move back. */
  function Dip(v: Value): nat {
    match v
    case Int(_) => 0
    case Str(s) => EmptyStr(s)
    case List(items) => Deeper(0, DipItems(items) - 1)
    case Dict(entries) => Deeper(0, DipEntries(entries) - 1)
  }

  function DipItems(items: Items): nat {
    match items
    case Nil => 0
    case Cons(head, tail) => Deeper(Dip(head), DipItems(tail) - Returned(head))
  }

  function DipEntries(entries: Entries): nat {
    match entries
    case End => 0
    case Pair(key, value, next) =>
      Deeper(EmptyStr(key), Deeper(Dip(value), DipEntries(next) - Returned(value)) - ReturnedStr(key))
  }

  /** Every string and key is a non-empty C string. */
  predicate Writable(v: Value) {
    NulFreeTree(v) && Empties(v) == 0
  }

  // ---------- What it amounts to ----------

  lemma {:induction false} ReturnedFallsShort(v: Value)
    ensures Returned(v) == |Enc(Narrow(v))| - 3 * Empties(v)
    decreases v
  {
    match v {
      case Int(_) =>
      case Str(s) => if s == "" { assert EncStr("") == "0:"; }
      case List(items) => ReturnedItemsFallShort(items);
      case Dict(entries) => ReturnedEntriesFallShort(entries);
    }
  }

  lemma {:induction false} ReturnedItemsFallShort(items: Items)
    ensures ReturnedItems(items) == |EncItems(NarrowItems(items))| - 3 * EmptiesItems(items)
    decreases items
  {
    if items.Cons? {
      ReturnedFallsShort(items.head);
      ReturnedItemsFallShort(items.tail);
    }
  }

  lemma {:induction false} ReturnedEntriesFallShort(entries: Entries)
    ensures ReturnedEntries(entries) == |EncEntries(NarrowEntries(entries))| - 3 * EmptiesEntries(entries)
    decreases entries
  {
    if entries.Pair? {
      if entries.key == "" { assert EncStr("") == "0:"; }
      ReturnedFallsShort(entries.value);
      ReturnedEntriesFallShort(entries.next);
    }
  }

  /** Without empty strings the writer never moves back. */
  lemma {:induction false} NoDip(v: Value)
    requires Empties(v) == 0
    ensures Dip(v) == 0
    decreases v
  {
    match v {
      case Int(_) =>
      case Str(_) =>
      case List(items) => NoDipItems(items);
      case Dict(entries) => NoDipEntries(entries);
    }
  }

  lemma {:induction false} NoDipItems(items: Items)
    requires EmptiesItems(items) == 0
    ensures DipItems(items) == 0
    decreases items
  {
    if items.Cons? {
      NoDip(items.head);
      ReturnedFallsShort(items.head);
      NoDipItems(items.tail);
    }
  }

  lemma {:induction false} NoDipEntries(entries: Entries)
    requires EmptiesEntries(entries) == 0
    ensures DipEntries(entries) == 0
    decreases entries
  {
    if entries.Pair? {
      NoDip(entries.value);
      ReturnedFallsShort(entries.value);
      NoDipEntries(entries.next);
    }
  }

  /** It goes on with the encoding. */
  lemma {:induction false} PutEncodes(done: string, v: Value)
    requires Empties(v) == 0
    ensures Put(done, v) == done + Enc(Narrow(v))
    decreases v
  {
    match v {
      case Int(_) =>
      case Str(_) =>
      case List(items) =>
        PutItemsEncodes(done + "l", items);
        Wrapped(done, "l", EncItems(NarrowItems(items)), "e");
      case Dict(entries) =>
        PutEntriesEncodes(done + "d", entries);
        Wrapped(done, "d", EncEntries(NarrowEntries(entries)), "e");
    }
  }

  lemma {:induction false} Wrapped(done: string, mark: string, body: string, close: string)
    ensures done + mark + body + close == done + (mark + body + close)
  {
  }

  lemma {:induction false} PutItemsEncodes(done: string, items: Items)
    requires EmptiesItems(items) == 0
    ensures PutItems(done, items) == done + EncItems(NarrowItems(items))
    decreases items
  {
    if items.Cons? {
      PutEncodes(done, items.head);
      PutItemsEncodes(done + Enc(Narrow(items.head)), items.tail);
    }
  }

  lemma {:induction false} PutEntriesEncodes(done: string, entries: Entries)
    requires EmptiesEntries(entries) == 0
    ensures PutEntries(done, entries) == done + EncEntries(NarrowEntries(entries))
    decreases entries
  {
    if entries.Pair? {
      var k, value, next := EncStr(entries.key), Enc(Narrow(entries.value)), EncEntries(NarrowEntries(entries.next));
      EntriesText(done, entries);
      hide EncStr, Enc, Narrow, PutStr, EncEntries, NarrowEntries;
      PutEncodes(done + k, entries.value);
      PutEntriesEncodes(done + k + value, entries.next);
    }
  }

  lemma {:induction false} EntriesText(done: string, entries: Entries)
    requires entries.Pair? && entries.key != ""
    ensures PutStr(done, entries.key) == done + EncStr(entries.key)
    ensures var k, value, next := EncStr(entries.key), Enc(Narrow(entries.value)), EncEntries(NarrowEntries(entries.next));
            done + EncEntries(NarrowEntries(entries)) == done + k + value + next
  {
    hide EncStr, Enc, Narrow;
  }

  // ---------- The writer ----------

  /** Prints a string; refuses the empty one. Returns the length of the C string it leaves, which is
      the one that was there when there is no room at all. */
  method EncodeBytes(input: string, out: array<char>, at: nat, size: nat, ghost was: string := "") returns (ret: int)
    requires at + size <= out.Length && NulFree(input)
    requires size == 0 ==> HoldsString(out[..], at, was) && NulFree(was)
    modifies out
    ensures input == "" ==> ret == -1
    ensures input == "" || size == 0 ==> out[..] == old(out[..])
    ensures input != "" && size == 0 ==> ret == |was|
    ensures input != "" && size > 0 ==>
              var text := EncStr(input);
              var kept := if |text| < size then |text| else size - 1;
              && ret == kept && HoldsString(out[..], at, text[..kept])
              && out[..at] == old(out[..at]) && out[at + kept + 1..] == old(out[at + kept + 1..])
  {
    if |input| <= 0 {
      return -1;
    }
    var text := EncStr(input);
    ghost var left := if size == 0 then was else if |text| < size then text else text[..size - 1];
    EncStrNulFree(input);
    var _ := Snprintf(out, at, size, text);
    assert text[..|text|] == text;
    assert size > 0 ==> forall c :: c in left ==> c in text;
    ret := Strlen(out, at, left);
  }

  method EncodeInt(input: int, out: array<char>, at: nat, size: nat, ghost was: string := "") returns (ret: int)
    requires at + size <= out.Length && IsInt32(input)
    requires size == 0 ==> HoldsString(out[..], at, was) && NulFree(was)
    modifies out
    ensures size == 0 ==> ret == |was| && out[..] == old(out[..])
    ensures size > 0 ==>
              var text := Enc(Int(input));
              var kept := if |text| < size then |text| else size - 1;
              && ret == kept && HoldsString(out[..], at, text[..kept])
              && out[..at] == old(out[..at]) && out[at + kept + 1..] == old(out[at + kept + 1..])
  {
    var text := "i" + Dec(input) + "e";
    ghost var left := if size == 0 then was else if |text| < size then text else text[..size - 1];
    DecNulFree(input);
    hide Dec;
    var _ := Snprintf(out, at, size, text);
    assert text[..|text|] == text;
    assert size > 0 ==> forall c :: c in left ==> c in text;
    ret := Strlen(out, at, left);
  }

  lemma {:induction false} DecNulFree(n: int)
    ensures NulFree(Dec(n)) && NulFree(Enc(Int(n)))
  {
    var m := if n < 0 then -n else n;
    DecNatDenotes(m);
    assert forall c :: c in Dec(n) ==> c == '-' || c in DecNat(m);
  }

  lemma {:induction false} EncStrNulFree(s: string)
    requires NulFree(s)
    ensures NulFree(EncStr(s))
  {
    DecNulFree(|s|);
  }

  lemma {:induction false} Extend(before: seq<char>, after: seq<char>, at: nat, done: string, more: string)
    requires HoldsString(before, at, done) && at + |done| <= |after|
    requires after[..at + |done|] == before[..at + |done|]
    requires HoldsString(after, at + |done|, more)
    ensures HoldsString(after, at, done + more)
    ensures after[..at] == before[..at]
  {
    assert after[at..at + |done|] == after[..at + |done|][at..] == before[at..at + |done|];
    assert after[at..at + |done + more|] == after[at..at + |done|] + after[at + |done|..at + |done| + |more|];
    assert after[..at] == after[..at + |done|][..at];
  }

  /** Nothing after the end of the finished text has changed when nothing after a part of it has. */
  lemma {:induction false} TailKept(before: seq<char>, after: seq<char>, from: nat, to: nat)
    requires from <= to <= |before| && |before| == |after| && after[from..] == before[from..]
    ensures after[to..] == before[to..]
  {
    assert after[to..] == after[from..][to - from..];
  }

  /** Prints the next part of a text after what is already there. */
  method PrintNext(out: array<char>, at: nat, size: nat, count: nat, part: string,
                   ghost done: string, ghost rest: string, ghost text: string) returns (total: nat)
    requires at + size <= out.Length && |text| < size
    requires HoldsString(out[..], at, done) && count == |done|
    requires text == done + (part + rest)
    modifies out
    ensures total == |done + part| && HoldsString(out[..], at, done + part)
    ensures text == done + part + rest
    ensures out[..at] == old(out[..at]) && out[at + |text| + 1..] == old(out[at + |text| + 1..])
  {
    ghost var before := out[..];
    var n := Snprintf(out, at + count, size - count, part);
    assert part[..|part|] == part;
    Extend(before, out[..], at, done, part);
    TailKept(before, out[..], at + count + n + 1, at + |text| + 1);
    total := count + n;
  }

  /** Main result on the writer, for every tree of C strings, given room for the encoding and as much
      before it as the place may move back: it returns what it adds up, leaves what its moves amount to,
      and touches nothing past the room of the encoding. */
  method WriteValue(v: Value, out: array<char>, at: nat, size: nat) returns (count: int)
    requires at + size <= out.Length && NulFreeTree(v)
    requires |Enc(Narrow(v))| < size && Dip(v) <= at
    modifies out
    ensures count == Returned(v) && 0 <= at + count <= at + |Enc(Narrow(v))|
    ensures out[..at + count] == Put(old(out[..at]), v)
    ensures v != Str("") ==> out[at + count] == '\0'
    ensures out[at + |Enc(Narrow(v))| + 1..] == old(out[at + |Enc(Narrow(v))| + 1..])
    decreases v, 0
  {
    hide Put, Returned, Enc, Narrow, Dip, NulFree;
    match v {
      case Int(n) =>
        count := WriteInt(n, out, at, size);
      case Str(s) =>
        count := WriteStr(s, out, at, size);
      case List(items) =>
        count := WriteItems(items, out, at, size);
      case Dict(entries) =>
        count := WriteEntries(entries, out, at, size);
    }
  }

  /** Without empty strings that is exactly the encoding, terminated, with nothing else changed. */
  method WriteEncoding(v: Value, out: array<char>, at: nat, size: nat) returns (count: int)
    requires at + size <= out.Length && Writable(v) && |Enc(Narrow(v))| < size
    modifies out
    ensures count == |Enc(Narrow(v))| && HoldsString(out[..], at, Enc(Narrow(v)))
    ensures out[..at] == old(out[..at]) && out[at + count + 1..] == old(out[at + count + 1..])
  {
    hide Enc, Narrow, Put, Dip, Returned;
    ghost var before := out[..at];
    NoDip(v);
    PutEncodes(before, v);
    count := WriteValue(v, out, at, size);
    LeavesEncoding(before, out[..], v, count);
  }

  lemma {:induction false} LeavesEncoding(before: string, after: seq<char>, v: Value, count: int)
    requires count == Returned(v) && 0 <= |before| + count < |after|
    requires after[..|before| + count] == Put(before, v)
    requires after[|before| + count] == '\0' && Empties(v) == 0
    ensures count == |Enc(Narrow(v))| && HoldsString(after, |before|, Enc(Narrow(v))) && after[..|before|] == before
  {
    hide Put, Enc, Narrow, Returned;
    ReturnedFallsShort(v);
    PutEncodes(before, v);
    var text := after[..|before| + count];
    assert text[..|before|] == after[..|before|] && text[|before|..] == after[|before|..|before| + count];
  }

  method WriteInt(n: int, out: array<char>, at: nat, size: nat) returns (count: int)
    requires at + size <= out.Length && |Enc(Narrow(Int(n)))| < size
    modifies out
    ensures count == Returned(Int(n)) == |Enc(Narrow(Int(n)))|
    ensures out[..at + count] == Put(old(out[..at]), Int(n)) && out[at + count] == '\0'
    ensures out[at + |Enc(Narrow(Int(n)))| + 1..] == old(out[at + |Enc(Narrow(Int(n)))| + 1..])
  {
    ghost var text := Enc(Narrow(Int(n)));
    count := EncodeInt(ToInt32(n), out, at, size);
    hide Enc, Narrow, ToInt32;
    assert text[..count] == text;
  }

  method WriteStr(s: string, out: array<char>, at: nat, size: nat) returns (count: int)
    requires at + size <= out.Length && NulFree(s) && |Enc(Narrow(Str(s)))| < size && Dip(Str(s)) <= at
    modifies out
    ensures count == Returned(Str(s)) <= |Enc(Narrow(Str(s)))| && 0 <= at + count
    ensures out[..at + count] == Put(old(out[..at]), Str(s)) && (s != "" ==> out[at + count] == '\0')
    ensures out[at + |Enc(Narrow(Str(s)))| + 1..] == old(out[at + |Enc(Narrow(Str(s)))| + 1..])
  {
    ghost var was, text := out[..at], EncStr(s);
    hide EncStr;
    count := EncodeBytes(s, out, at, size);
    assert text[..|text|] == text;
    if s == "" {
      assert out[..at + count] == was[..at - 1];
    } else {
      assert out[..at + count] == was + text;
    }
  }

  /** An opening or closing mark; end is a place past it. */
  method PrintMark(mark: string, out: array<char>, at: nat, size: nat, ghost end: nat)
    requires at + size <= out.Length && |mark| == 1 < size && at + 2 <= end <= out.Length
    modifies out
    ensures out[..at + 1] == old(out[..at]) + mark && out[at + 1] == '\0'
    ensures out[end..] == old(out[end..])
  {
    ghost var was, before := out[..at], out[..];
    var _ := Snprintf(out, at, size, mark);
    assert mark[..1] == mark;
    TailKept(before, out[..], at + 2, end);
    assert out[..at + 1] == was + mark;
  }

  lemma {:induction false} ListParts(done: string, items: Items)
    ensures |Enc(Narrow(List(items)))| == |EncItems(NarrowItems(items))| + 2
    ensures DipItems(items) <= Dip(List(items)) + 1
    ensures Returned(List(items)) == 1 + ReturnedItems(items) + 1
    ensures Put(done, List(items)) == PutItems(done + "l", items) + "e"
  {
  }

  lemma {:induction false} DictParts(done: string, entries: Entries)
    ensures |Enc(Narrow(Dict(entries)))| == |EncEntries(NarrowEntries(entries))| + 2
    ensures DipEntries(entries) <= Dip(Dict(entries)) + 1
    ensures Returned(Dict(entries)) == 1 + ReturnedEntries(entries) + 1
    ensures Put(done, Dict(entries)) == PutEntries(done + "d", entries) + "e"
  {
  }

  lemma {:induction false} StrParts(done: string, s: string)
    ensures Enc(Narrow(Str(s))) == EncStr(s) && Dip(Str(s)) == EmptyStr(s)
    ensures Returned(Str(s)) == ReturnedStr(s) && Put(done, Str(s)) == PutStr(done, s)
  {
  }

  /** The list case of the writer. */
  method WriteItems(items: Items, out: array<char>, at: nat, size: nat) returns (count: int)
    requires at + size <= out.Length && NulFreeItems(items)
    requires |Enc(Narrow(List(items)))| < size && Dip(List(items)) <= at
    modifies out
    ensures count == Returned(List(items)) && 0 <= at + count <= at + |Enc(Narrow(List(items)))|
    ensures out[..at + count] == Put(old(out[..at]), List(items)) && out[at + count] == '\0'
    ensures out[at + |Enc(Narrow(List(items)))| + 1..] == old(out[at + |Enc(Narrow(List(items)))| + 1..])
    decreases items, 4
  {
    hide Enc, Narrow, Put, Dip, Returned, PutItems, EncItems, NarrowItems, DipItems, ReturnedItems, NulFreeItems;
    ghost var was, room := out[..at], |Enc(Narrow(List(items)))|;
    ghost var end := at + room + 1;
    ghost var tail := out[end..];
    ListParts(was, items);
    PrintMark("l", out, at, size, end);
    assert out[..at + 1] == was + "l" && out[end..] == tail;
    count := WriteEachItem(items, out, at + 1, size - 1, end);
    assert out[..at + 1 + count] == PutItems(was + "l", items) && out[end..] == tail;
    PrintMark("e", out, at + 1 + count, size - 1 - count, end);
    count := 1 + count + 1;
    assert out[..at + count] == Put(was, List(items));
  }

  /** Its loop; end is a place past the room of the items and the closing mark. */
  method WriteEachItem(items: Items, out: array<char>, at: nat, size: nat, ghost end: nat) returns (count: int)
    requires at + size <= out.Length && NulFreeItems(items)
    requires |EncItems(NarrowItems(items))| < size && DipItems(items) <= at
    requires at + |EncItems(NarrowItems(items))| + 1 <= end <= out.Length
    modifies out
    ensures count == ReturnedItems(items) && 0 <= at + count <= at + |EncItems(NarrowItems(items))|
    ensures out[..at + count] == PutItems(old(out[..at]), items)
    ensures out[end..] == old(out[end..])
    decreases items, 3
  {
    hide Enc, Narrow, Put, Dip, Returned, NulFreeTree;
    ghost var start, total := out[..at], |EncItems(NarrowItems(items))|;
    count := 0;
    var pt := items;
    while pt.Cons?
      invariant NulFreeItems(pt) && DipItems(pt) <= at + count
      invariant 0 <= at + count && at + count + |EncItems(NarrowItems(pt))| <= at + total
      invariant count + ReturnedItems(pt) == ReturnedItems(items)
      invariant PutItems(out[..at + count], pt) == PutItems(start, items)
      invariant out[end..] == old(out[end..])
      invariant pt == items || pt < items
      decreases pt
    {
      var n := WriteItem(pt.head, out, at + count, size - count, end);
      count := count + n;
      pt := pt.tail;
    }
  }

  /** One element; end is a place past its room. */
  method WriteItem(head: Value, out: array<char>, at: nat, size: nat, ghost end: nat) returns (n: int)
    requires at + size <= out.Length && NulFreeTree(head)
    requires |Enc(Narrow(head))| < size && Dip(head) <= at && at + |Enc(Narrow(head))| + 1 <= end <= out.Length
    modifies out
    ensures n == Returned(head) && 0 <= at + n <= at + |Enc(Narrow(head))|
    ensures out[..at + n] == Put(old(out[..at]), head)
    ensures out[end..] == old(out[end..])
    decreases head, 1
  {
    hide Enc, Narrow, Put, Dip, Returned, NulFreeTree;
    ghost var before := out[..];
    n := WriteValue(head, out, at, size);
    TailKept(before, out[..], at + |Enc(Narrow(head))| + 1, end);
  }

  /** The dictionary case of the writer. */
  method WriteEntries(entries: Entries, out: array<char>, at: nat, size: nat) returns (count: int)
    requires at + size <= out.Length && NulFreeEntries(entries)
    requires |Enc(Narrow(Dict(entries)))| < size && Dip(Dict(entries)) <= at
    modifies out
    ensures count == Returned(Dict(entries)) && 0 <= at + count <= at + |Enc(Narrow(Dict(entries)))|
    ensures out[..at + count] == Put(old(out[..at]), Dict(entries)) && out[at + count] == '\0'
    ensures out[at + |Enc(Narrow(Dict(entries)))| + 1..] == old(out[at + |Enc(Narrow(Dict(entries)))| + 1..])
    decreases entries, 4
  {
    hide Enc, Narrow, Put, Dip, Returned, PutEntries, EncEntries, NarrowEntries, DipEntries, ReturnedEntries, NulFreeEntries;
    ghost var was, room := out[..at], |Enc(Narrow(Dict(entries)))|;
    ghost var end := at + room + 1;
    ghost var tail := out[end..];
    DictParts(was, entries);
    PrintMark("d", out, at, size, end);
    assert out[..at + 1] == was + "d" && out[end..] == tail;
    count := WriteEachEntry(entries, out, at + 1, size - 1, end);
    assert out[..at + 1 + count] == PutEntries(was + "d", entries) && out[end..] == tail;
    PrintMark("e", out, at + 1 + count, size - 1 - count, end);
    count := 1 + count + 1;
    assert out[..at + count] == Put(was, Dict(entries));
  }

  /** Its loop; end is a place past the room of the entries and the closing mark. */
  method WriteEachEntry(entries: Entries, out: array<char>, at: nat, size: nat, ghost end: nat) returns (count: int)
    requires at + size <= out.Length && NulFreeEntries(entries)
    requires |EncEntries(NarrowEntries(entries))| < size && DipEntries(entries) <= at
    requires at + |EncEntries(NarrowEntries(entries))| + 1 <= end <= out.Length
    modifies out
    ensures count == ReturnedEntries(entries) && 0 <= at + count <= at + |EncEntries(NarrowEntries(entries))|
    ensures out[..at + count] == PutEntries(old(out[..at]), entries)
    ensures out[end..] == old(out[end..])
    decreases entries, 3
  {
    hide Enc, Narrow, Put, PutStr, Dip, Returned, ReturnedStr, EncStr, NulFree, NulFreeTree, EmptyStr;
    ghost var start, total := out[..at], |EncEntries(NarrowEntries(entries))|;
    count := 0;
    var pd := entries;
    while pd.Pair?
      invariant NulFreeEntries(pd) && DipEntries(pd) <= at + count
      invariant 0 <= at + count && at + count + |EncEntries(NarrowEntries(pd))| <= at + total
      invariant count + ReturnedEntries(pd) == ReturnedEntries(entries)
      invariant PutEntries(out[..at + count], pd) == PutEntries(start, entries)
      invariant out[end..] == old(out[end..])
      invariant pd == entries || pd < entries
      decreases pd
    {
      var n := WriteEntry(pd.key, pd.value, out, at + count, size - count, end);
      count := count + n;
      pd := pd.next;
    }
  }

  /** One key and its value. */
  method WriteEntry(key: string, value: Value, out: array<char>, at: nat, size: nat, ghost end: nat) returns (count: int)
    requires at + size <= out.Length && NulFree(key) && NulFreeTree(value)
    requires |EncStr(key)| + |Enc(Narrow(value))| < size && at + |EncStr(key)| + |Enc(Narrow(value))| + 1 <= end <= out.Length
    requires EmptyStr(key) <= at && Dip(value) <= at + ReturnedStr(key)
    modifies out
    ensures count == ReturnedStr(key) + Returned(value)
    ensures 0 <= at + count <= at + |EncStr(key)| + |Enc(Narrow(value))|
    ensures out[..at + count] == Put(PutStr(old(out[..at]), key), value)
    ensures out[end..] == old(out[end..])
    decreases value, 2
  {
    hide Enc, Narrow, Put, PutStr, Dip, Returned, ReturnedStr, EncStr, NulFreeTree, NulFree, EmptyStr;
    count := WriteKey(key, out, at, size, end);
    var n := WriteItem(value, out, at + count, size - count, end);
    count := count + n;
  }

  /** The key; end is a place past its room. */
  method WriteKey(key: string, out: array<char>, at: nat, size: nat, ghost end: nat) returns (count: int)
    requires at + size <= out.Length && NulFree(key)
    requires |EncStr(key)| < size && at + |EncStr(key)| + 1 <= end <= out.Length && EmptyStr(key) <= at
    modifies out
    ensures count == ReturnedStr(key) <= |EncStr(key)| && 0 <= at + count
    ensures out[..at + count] == PutStr(old(out[..at]), key)
    ensures out[end..] == old(out[end..])
  {
    StrParts(out[..at], key);
    hide Enc, Narrow, Put, PutStr, Dip, Returned, ReturnedStr, EncStr, NulFree, EmptyStr;
    ghost var before := out[..];
    count := WriteStr(key, out, at, size);
    TailKept(before, out[..], at + |EncStr(key)| + 1, end);
  }

  // ---------- Empty strings ----------

  lemma {:induction false} PutLength(done: string, v: Value)
    requires Dip(v) <= |done|
    ensures |Put(done, v)| == |done| + Returned(v)
    decreases v
  {
    match v {
      case Int(_) =>
      case Str(_) =>
      case List(items) => PutItemsLength(done + "l", items);
      case Dict(entries) => PutEntriesLength(done + "d", entries);
    }
  }

  lemma {:induction false} PutItemsLength(done: string, items: Items)
    requires DipItems(items) <= |done|
    ensures |PutItems(done, items)| == |done| + ReturnedItems(items)
    decreases items
  {
    if items.Cons? {
      PutLength(done, items.head);
      PutItemsLength(Put(done, items.head), items.tail);
    }
  }

  lemma {:induction false} PutEntriesLength(done: string, entries: Entries)
    requires DipEntries(entries) <= |done|
    ensures |PutEntries(done, entries)| == |done| + ReturnedEntries(entries)
    decreases entries
  {
    if entries.Pair? {
      var key := PutStr(done, entries.key);
      PutLength(key, entries.value);
      PutEntriesLength(Put(key, entries.value), entries.next);
    }
  }

  /** The writer returns the length of the encoding, and leaves the encoding, exactly for trees without
      empty strings: each of them costs three characters. */
  lemma {:induction false} ReturnedExact(done: string, v: Value)
    requires Dip(v) <= |done|
    ensures Returned(v) == |Enc(Narrow(v))| - 3 * Empties(v)
    ensures Returned(v) == |Enc(Narrow(v))| <==> Empties(v) == 0
    ensures Put(done, v) == done + Enc(Narrow(v)) <==> Empties(v) == 0
  {
    ReturnedFallsShort(v);
    PutLength(done, v);
    if Empties(v) == 0 {
      PutEncodes(done, v);
    }
  }

  const ONE_EMPTY: Value := List(Cons(Str(""), Nil))

  /** An input on which it does not: a list of one empty string comes out as a lone end mark. */
  lemma {:induction false} EmptyStringMiscounted()
    ensures Returned(ONE_EMPTY) == 1 && |Enc(ONE_EMPTY)| == 4 && Dip(ONE_EMPTY) == 0
    ensures Narrow(ONE_EMPTY) == ONE_EMPTY && Put("", ONE_EMPTY) == "e"
  {
    var items := Cons(Str(""), Nil);
    assert EncStr("") == "0:";
    assert NarrowItems(items) == items;
    assert EncItems(items) == "0:" + EncItems(Nil);
    assert ReturnedItems(items) == -1 + ReturnedItems(Nil);
    assert DipItems(items) == 1;
    assert "" + "l" == "l" && PutStr("l", "") == "";
    assert PutItems("l", items) == PutItems("", Nil);
  }

  method WriteOneEmpty(out: array<char>, size: nat) returns (count: int)
    requires 4 < size <= out.Length
    modifies out
    ensures count == 1 && HoldsString(out[..], 0, "e")
  {
    EmptyStringMiscounted();
    hide Put, Returned, Dip, Enc, Narrow, Empties;
    count := WriteValue(ONE_EMPTY, out, 0, size);
    assert out[..0] == "";
  }
}
