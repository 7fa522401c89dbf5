/** Bencoding (the "bencoding" section of BEP 3): the trees the server builds, the text that stands
    for each, and a decoder, which the repository lacks and which serves here as the meaning of the
    text. Dictionaries are ordered lists of pairs, as in the source; keys are not sorted. */
module Bencode {
  import opened Decimal

  /** Tagged nodes; lists and dictionaries are linked, as the source's LIST_HEADs are. */
  datatype Value = Int(n: int) | Str(s: string) | List(items: Items) | Dict(entries: Entries)
  datatype Items = Nil | Cons(head: Value, tail: Items)
  datatype Entries = End | Pair(key: string, value: Value, next: Entries)

  function EncStr(s: string): string {
    Dec(|s|) + ":" + s
  }

  function Enc(v: Value): string {
    match v
    case Int(n) => "i" + Dec(n) + "e"
    case Str(s) => EncStr(s)
    case List(items) => "l" + EncItems(items) + "e"
    case Dict(entries) => "d" + EncEntries(entries) + "e"
  }

  function EncItems(items: Items): string {
    match items
    case Nil => ""
    case Cons(head, tail) => Enc(head) + EncItems(tail)
  }

  function EncEntries(entries: Entries): string {
    match entries
    case End => ""
    case Pair(key, value, next) => EncStr(key) + Enc(value) + EncEntries(next)
  }

  // ---------- Looking into a tree ----------

  function Length(items: Items): nat {
    match items
    case Nil => 0
    case Cons(_, tail) => 1 + Length(tail)
  }

  function Nth(items: Items, i: nat): Value
    requires i < Length(items)
  {
    if i == 0 then items.head else Nth(items.tail, i - 1)
  }

  function Size(entries: Entries): nat {
    match entries
    case End => 0
    case Pair(_, _, next) => 1 + Size(next)
  }

  function KeyAt(entries: Entries, i: nat): string
    requires i < Size(entries)
  {
    if i == 0 then entries.key else KeyAt(entries.next, i - 1)
  }

  function ValueAt(entries: Entries, i: nat): Value
    requires i < Size(entries)
  {
    if i == 0 then entries.value else ValueAt(entries.next, i - 1)
  }

  // ---------- The decoder ----------

  function DecodeStr(s: string): (r: Read<string>)
    ensures r.Got? ==> |r.rest| < |s|
  {
    var r := ReadInt(s);
    if r.Got? && r.value >= 0 && r.rest != "" && r.rest[0] == ':' && r.value <= |r.rest| - 1
    then Got(r.rest[1..1 + r.value], r.rest[1 + r.value..])
    else Failed
  }

  function Decode(s: string): (r: Read<Value>)
    ensures r.Got? ==> |r.rest| < |s|
    decreases |s|, 0
  {
    if s == "" then Failed
    else if s[0] == 'i' then
      var r := ReadInt(s[1..]);
      if r.Got? && r.rest != "" && r.rest[0] == 'e' then Got(Int(r.value), r.rest[1..]) else Failed
    else if s[0] == 'l' then
      var r := DecodeItems(s[1..]);
      if r.Got? then Got(List(r.value), r.rest) else Failed
    else if s[0] == 'd' then
      var r := DecodeEntries(s[1..]);
      if r.Got? then Got(Dict(r.value), r.rest) else Failed
    else
      var r := DecodeStr(s);
      if r.Got? then Got(Str(r.value), r.rest) else Failed
  }

  function DecodeItems(s: string): (r: Read<Items>)
    ensures r.Got? ==> |r.rest| < |s|
    decreases |s|, 1
  {
    if s == "" then Failed
    else if s[0] == 'e' then Got(Nil, s[1..])
    else
      var r := Decode(s);
      if r.Failed? then Failed
      else
        var q := DecodeItems(r.rest);
        if q.Failed? then Failed else Got(Cons(r.value, q.value), q.rest)
  }

  function DecodeEntries(s: string): (r: Read<Entries>)
    ensures r.Got? ==> |r.rest| < |s|
    decreases |s|, 1
  {
    if s == "" then Failed
    else if s[0] == 'e' then Got(End, s[1..])
    else
      var k := DecodeStr(s);
      if k.Failed? then Failed
      else
        var r := Decode(k.rest);
        if r.Failed? then Failed
        else
          var q := DecodeEntries(r.rest);
          if q.Failed? then Failed else Got(Pair(k.value, r.value, q.value), q.rest)
  }

  // ---------- Decoding undoes encoding ----------

  lemma {:induction false} DecFirst(n: nat)
    ensures Dec(n) != "" && IsDigit(Dec(n)[0])
  {
    DecNatDenotes(n);
    assert Dec(n)[0] in Dec(n);
  }

  lemma {:induction false} StrRoundTrip(str: string, rest: string)
    ensures DecodeStr(EncStr(str) + rest) == Got(str, rest)
    ensures EncStr(str) != "" && IsDigit(EncStr(str)[0])
  {
    var after := ":" + str + rest;
    assert EncStr(str) + rest == Dec(|str|) + after;
    ReadIntOf(|str|, after);
    DecFirst(|str|);
    assert after[1..1 + |str|] == str && after[1 + |str|..] == rest;
  }

  /** No encoding starts with the end marker. */
  lemma {:induction false} EncFirst(v: Value)
    ensures Enc(v) != "" && Enc(v)[0] != 'e'
  {
    if v.Str? { StrRoundTrip(v.s, ""); }
  }

  lemma {:induction false} RoundTrip(v: Value, rest: string)
    ensures Decode(Enc(v) + rest) == Got(v, rest)
    decreases v
  {
    hide Dec, ReadInt, EncItems, EncEntries, DecodeItems, DecodeEntries, DecodeStr;
    var s := Enc(v) + rest;
    match v {
      case Int(n) =>
        assert s[1..] == Dec(n) + ("e" + rest);
        ReadIntOf(n, "e" + rest);
        assert ("e" + rest)[1..] == rest;
      case Str(str) =>
        StrRoundTrip(str, rest);
      case List(items) =>
        assert s[1..] == EncItems(items) + "e" + rest;
        ItemsRoundTrip(items, rest);
      case Dict(entries) =>
        assert s[1..] == EncEntries(entries) + "e" + rest;
        EntriesRoundTrip(entries, rest);
    }
  }

  lemma {:induction false} ItemsRoundTrip(items: Items, rest: string)
    ensures DecodeItems(EncItems(items) + "e" + rest) == Got(items, rest)
    decreases items
  {
    var s := EncItems(items) + "e" + rest;
    match items {
      case Nil =>
        assert s[1..] == rest;
      case Cons(head, tail) =>
        var after := EncItems(tail) + "e" + rest;
        assert s == Enc(head) + after;
        EncFirst(head);
        RoundTrip(head, after);
        ItemsRoundTrip(tail, rest);
    }
  }

  lemma {:induction false} EntriesRoundTrip(entries: Entries, rest: string)
    ensures DecodeEntries(EncEntries(entries) + "e" + rest) == Got(entries, rest)
    decreases entries
  {
    var s := EncEntries(entries) + "e" + rest;
    match entries {
      case End =>
        assert s[1..] == rest;
      case Pair(key, value, next) =>
        var after := EncEntries(next) + "e" + rest;
        assert s == EncStr(key) + (Enc(value) + after);
        StrRoundTrip(key, Enc(value) + after);
        RoundTrip(value, after);
        EntriesRoundTrip(next, rest);
    }
  }

  // ---------- The decoder accepts nothing but encodings ----------

  lemma {:induction false} DecodeStrSound(s: string)
    ensures DecodeStr(s).Got? ==> s == EncStr(DecodeStr(s).value) + DecodeStr(s).rest
  {
    hide Dec, ReadInt;
    if DecodeStr(s).Got? {
      var r := ReadInt(s);
      ReadIntExact(s, r.value, r.rest);
      assert r.rest == ":" + DecodeStr(s).value + DecodeStr(s).rest;
    }
  }

  /** A marker, a body and an end marker, seen from both ends. */
  lemma {:induction false} Wrap(s: string, marker: string, body: string, rest: string)
    requires |marker| == 1 && s != "" && s[..1] == marker
    requires s[1..] == body + "e" + rest || s[1..] == body + ("e" + rest)
    ensures s == marker + body + "e" + rest
  {
    assert s == marker + s[1..];
  }

  lemma {:induction false} DecodeSound(s: string)
    ensures Decode(s).Got? ==> s == Enc(Decode(s).value) + Decode(s).rest
    decreases |s|, 0
  {
    hide Dec, ReadInt, EncItems, EncEntries, DecodeItems, DecodeEntries, DecodeStr, EncStr;
    var d := Decode(s);
    if d.Got? {
      if s[0] == 'i' {
        var r := ReadInt(s[1..]);
        ReadIntExact(s[1..], r.value, r.rest);
        Wrap(s, "i", Dec(r.value), d.rest);
      } else if s[0] == 'l' {
        DecodeItemsSound(s[1..]);
        Wrap(s, "l", EncItems(d.value.items), d.rest);
      } else if s[0] == 'd' {
        DecodeEntriesSound(s[1..]);
        Wrap(s, "d", EncEntries(d.value.entries), d.rest);
      } else {
        DecodeStrSound(s);
      }
    }
  }

  lemma {:induction false} DecodeItemsSound(s: string)
    ensures DecodeItems(s).Got? ==> s == EncItems(DecodeItems(s).value) + "e" + DecodeItems(s).rest
    decreases |s|, 1
  {
    hide Dec, ReadInt, Enc, Decode;
    if DecodeItems(s).Got? && s[0] != 'e' {
      DecodeSound(s);
      DecodeItemsSound(Decode(s).rest);
    }
  }

  lemma {:induction false} DecodeEntriesSound(s: string)
    ensures DecodeEntries(s).Got? ==> s == EncEntries(DecodeEntries(s).value) + "e" + DecodeEntries(s).rest
    decreases |s|, 1
  {
    hide Dec, ReadInt, Enc, Decode, DecodeStr, EncStr;
    if DecodeEntries(s).Got? && s[0] != 'e' {
      DecodeStrSound(s);
      var k := DecodeStr(s);
      DecodeSound(k.rest);
      var r := Decode(k.rest);
      DecodeEntriesSound(r.rest);
      var q := DecodeEntries(r.rest);
      var key, value, next := EncStr(k.value), Enc(r.value), EncEntries(q.value);
      assert key + (value + (next + "e" + q.rest)) == key + value + next + "e" + q.rest;
    }
  }

  /** Main result: the decoder reads a value off a text exactly when the text starts with its encoding. */
  lemma {:induction false} DecodeExact(s: string, v: Value, rest: string)
    ensures Decode(s) == Got(v, rest) <==> s == Enc(v) + rest
  {
    if s == Enc(v) + rest {
      RoundTrip(v, rest);
    }
    DecodeSound(s);
  }

  /** So no encoding is a proper prefix of another, and different values have different texts. */
  lemma {:induction false} PrefixFree(v: Value, w: Value, a: string, b: string)
    requires Enc(v) + a == Enc(w) + b
    ensures v == w && a == b
  {
    RoundTrip(v, a);
    RoundTrip(w, b);
  }
}
