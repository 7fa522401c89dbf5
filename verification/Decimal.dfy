/** Decimal numerals as printed by %d, %ld and %zu, and how to read them back. */
module Decimal {

  predicate IsDigit(c: char) {
    '0' <= c <= '9'
  }

  function Digit(d: nat): (c: char)
    requires d < 10
    ensures IsDigit(c) && DigitValue(c) == d
  {
    ['0', '1', '2', '3', '4', '5', '6', '7', '8', '9'][d]
  }

  function DigitValue(c: char): (d: nat)
    requires IsDigit(c)
    ensures d < 10
  {
    c as int - '0' as int
  }

  function DecNat(n: nat): (s: string) {
    if n < 10 then [Digit(n)] else DecNat(n / 10) + [Digit(n % 10)]
  }

  function Dec(n: int): string {
    if n < 0 then "-" + DecNat(-n) else DecNat(n)
  }

  predicate AllDigits(s: string) {
    forall c :: c in s ==> IsDigit(c)
  }

  function NatOf(s: string): nat
    requires AllDigits(s)
  {
    if s == "" then 0 else NatOf(s[..|s| - 1]) * 10 + DigitValue(s[|s| - 1])
  }

  /** A numeral is made of digits and denotes its number. */
  lemma {:induction false} DecNatDenotes(n: nat)
    ensures AllDigits(DecNat(n)) && DecNat(n) != "" && NatOf(DecNat(n)) == n
  {
    if n < 10 {
      assert DecNat(n)[..0] == "";
    } else {
      DecNatDenotes(n / 10);
      assert DecNat(n)[..|DecNat(n)| - 1] == DecNat(n / 10);
    }
  }

  function Pow10(k: nat): nat {
    if k == 0 then 1 else 10 * Pow10(k - 1)
  }

  /** A number has at most k digits exactly when it is below 10^k. */
  lemma {:induction false} DecNatLength(n: nat, k: nat)
    requires k > 0
    ensures |DecNat(n)| <= k <==> n < Pow10(k)
  {
    if k == 1 {
      assert Pow10(1) == 10;
      DecNatDenotes(n / 10);
    } else if n < 10 {
      PowPositive(k - 1);
    } else {
      assert n < Pow10(k) <==> n / 10 < Pow10(k - 1);
      DecNatLength(n / 10, k - 1);
    }
  }

  lemma {:induction false} PowPositive(k: nat)
    ensures Pow10(k) >= 1
  {
    if k > 0 {
      PowPositive(k - 1);
    }
  }

  predicate IsInt32(n: int) {
    -0x8000_0000 <= n < 0x8000_0000
  }

  /** Conversion of a wider integer to a 32-bit int: its low 32 bits. */
  function ToInt32(n: int): (r: int)
    ensures IsInt32(r) && (n - r) % 0x1_0000_0000 == 0 && (IsInt32(n) ==> r == n)
  {
    var low := n % 0x1_0000_0000;
    if low >= 0x8000_0000 then low - 0x1_0000_0000 else low
  }

  /** A 32-bit int prints in at most eleven characters, sign included. */
  lemma {:induction false} Int32Length(n: int)
    requires IsInt32(n)
    ensures 1 <= |Dec(n)| <= 11
  {
    assert Pow10(10) == 10_000_000_000 by {
      assert Pow10(5) == 100_000;
    }
    var m := if n < 0 then -n else n;
    DecNatLength(m, 10);
    DecNatDenotes(m);
  }

  // ---------- Reading ----------

  datatype Read<T> = Failed | Got(value: T, rest: string)

  /** How many digits a text starts with. */
  function DigitRun(s: string): (n: nat)
    ensures n <= |s| && AllDigits(s[..n])
    ensures n < |s| ==> !IsDigit(s[n])
  {
    if s == "" || !IsDigit(s[0]) then 0
    else
      var n := 1 + DigitRun(s[1..]);
      assert s[..n] == [s[0]] + s[1..][..n - 1];
      n
  }

  /** Reads a numeral in the one form the printer uses: no leading zero, no minus zero. */
  function ReadInt(s: string): (r: Read<int>)
    ensures r.Got? ==> |r.rest| < |s|
  {
    var sign := if s != "" && s[0] == '-' then 1 else 0;
    var digits := s[sign..];
    var run := DigitRun(digits);
    if run == 0 then Failed
    else
      var n := if sign == 1 then -(NatOf(digits[..run]) as int) else NatOf(digits[..run]);
      if Dec(n) == s[..sign + run] then Got(n, digits[run..]) else Failed
  }

  lemma {:induction false} DigitRunOf(d: string, rest: string)
    requires AllDigits(d) && (rest == "" || !IsDigit(rest[0]))
    ensures DigitRun(d + rest) == |d|
  {
    if d == "" {
      assert d + rest == rest;
    } else {
      assert d[0] in d;
      assert (d + rest)[1..] == d[1..] + rest;
      DigitRunOf(d[1..], rest);
    }
  }

  lemma {:induction false} ReadIntOf(n: int, rest: string)
    requires rest == "" || !IsDigit(rest[0])
    ensures ReadInt(Dec(n) + rest) == Got(n, rest)
  {
    hide DecNat, NatOf, DigitRun;
    var m := if n < 0 then -n else n;
    DecNatDenotes(m);
    var d := DecNat(m);
    assert d[0] in d;
    DigitRunOf(d, rest);
    SignSplit(n, d, rest);
    var s, sign := Dec(n) + rest, if n < 0 then 1 else 0;
    assert s[sign..][..|d|] == d && s[sign..][|d|..] == rest;
    hide Dec;
    ReadIntIs(s, n, d, rest);
  }

  lemma {:induction false} ReadIntIs(s: string, n: int, d: string, rest: string)
    requires s != "" && (s[0] == '-' <==> n < 0) && d != "" && AllDigits(d)
    requires var sign := if n < 0 then 1 else 0;
             && sign + |d| <= |s| && s[..sign + |d|] == Dec(n) && s[sign..][..|d|] == d && s[sign..][|d|..] == rest
             && DigitRun(s[sign..]) == |d| && NatOf(d) == if n < 0 then -n else n
    ensures ReadInt(s) == Got(n, rest)
  {
    hide Dec, NatOf, DigitRun;
  }

  lemma {:induction false} SignSplit(n: int, d: string, rest: string)
    requires d != "" && IsDigit(d[0]) && d == DecNat(if n < 0 then -n else n)
    ensures var s, sign := Dec(n) + rest, if n < 0 then 1 else 0;
            (s[0] == '-' <==> n < 0) && s[sign..] == d + rest && s[..sign + |d|] == Dec(n)
  {
    hide DecNat;
  }

  /** Reading undoes printing, and reads nothing else. */
  lemma {:induction false} ReadIntExact(s: string, n: int, rest: string)
    requires rest == "" || !IsDigit(rest[0])
    ensures ReadInt(s) == Got(n, rest) <==> s == Dec(n) + rest
  {
    hide Dec, NatOf, DigitRun;
    if s == Dec(n) + rest {
      ReadIntOf(n, rest);
    }
    if ReadInt(s) == Got(n, rest) {
      assert s == s[..|s| - |rest|] + rest;
    }
  }
}
