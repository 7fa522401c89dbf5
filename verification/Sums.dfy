/** Totals of naturals over a sequence. The invariants of the pipeline and of the torrent
    counters are equations between such totals. */
module Sums {

  function Sum<T>(s: seq<T>, f: T -> nat): nat {
    if s == [] then 0 else f(s[0]) + Sum(s[1..], f)
  }

  lemma {:induction false} SumConcat<T>(a: seq<T>, b: seq<T>, f: T -> nat)
    ensures Sum(a + b, f) == Sum(a, f) + Sum(b, f)
  {
    if a == [] {
      assert a + b == b;
    } else {
      assert (a + b)[1..] == a[1..] + b;
      SumConcat(a[1..], b, f);
    }
  }

  lemma {:induction false} SumOne<T>(x: T, f: T -> nat)
    ensures Sum([x], f) == f(x)
  {
    assert [x][1..] == [];
  }

  /** Replacing one element exchanges its part of the total for the new one. */
  lemma {:induction false} SumUpdate<T>(s: seq<T>, i: nat, x: T, f: T -> nat)
    requires i < |s|
    ensures Sum(s[i := x], f) + f(s[i]) == Sum(s, f) + f(x)
  {
    if i == 0 {
      assert s[0 := x][1..] == s[1..];
    } else {
      assert s[i := x][1..] == s[1..][i - 1 := x];
      SumUpdate(s[1..], i - 1, x, f);
    }
  }

  /** A total is at least each of its parts, and at least any two of them. */
  lemma {:induction false} SumContains<T>(s: seq<T>, i: nat, f: T -> nat)
    requires i < |s|
    ensures f(s[i]) <= Sum(s, f)
  {
    if i > 0 {
      SumContains(s[1..], i - 1, f);
    }
  }

  lemma {:induction false} SumContainsTwo<T>(s: seq<T>, i: nat, j: nat, f: T -> nat)
    requires i < j < |s|
    ensures f(s[i]) + f(s[j]) <= Sum(s, f)
  {
    if i == 0 {
      SumContains(s[1..], j - 1, f);
    } else {
      SumContainsTwo(s[1..], i - 1, j - 1, f);
    }
  }

  /** A positive total has a positive part. */
  lemma {:induction false} SumSource<T>(s: seq<T>, f: T -> nat) returns (i: nat)
    requires Sum(s, f) > 0
    ensures i < |s| && f(s[i]) > 0
  {
    if f(s[0]) > 0 {
      i := 0;
    } else {
      i := SumSource(s[1..], f);
      i := i + 1;
    }
  }

  lemma {:induction false} SumZero<T>(s: seq<T>, f: T -> nat)
    requires forall x :: x in s ==> f(x) == 0
    ensures Sum(s, f) == 0
  {
    if s != [] {
      SumZero(s[1..], f);
    }
  }

  /** Comparing two totals part by part. */
  lemma {:induction false} SumWithin<T>(s: seq<T>, f: T -> nat, g: T -> nat, h: T -> nat)
    requires forall x :: x in s ==> f(x) <= g(x) + h(x)
    ensures Sum(s, f) <= Sum(s, g) + Sum(s, h)
  {
    if s != [] {
      SumWithin(s[1..], f, g, h);
    }
  }

  lemma {:induction false} SumAtMost<T>(s: seq<T>, f: T -> nat)
    requires forall x :: x in s ==> f(x) <= 1
    ensures Sum(s, f) <= |s|
    ensures Sum(s, f) == |s| <==> (forall x :: x in s ==> f(x) == 1)
  {
    if s != [] {
      SumAtMost(s[1..], f);
      assert s == [s[0]] + s[1..];
    }
  }

  /** Two totals that make up one for each element and a third total. */
  lemma {:induction false} SumBalance<T>(s: seq<T>, f: T -> nat, g: T -> nat, h: T -> nat)
    requires forall x :: x in s ==> f(x) + g(x) == 1 + h(x)
    ensures Sum(s, f) + Sum(s, g) == |s| + Sum(s, h)
  {
    if s != [] {
      SumBalance(s[1..], f, g, h);
    }
  }

  lemma {:induction false} SumSame<T>(s: seq<T>, f: T -> nat, g: T -> nat)
    requires forall x :: x in s ==> f(x) == g(x)
    ensures Sum(s, f) == Sum(s, g)
  {
    if s != [] {
      SumSame(s[1..], f, g);
    }
  }
}
