/** Sums over process tables, and how they move when one entry changes. */
module Sums {
  function Sum<T>(f: T -> int, s: seq<T>): int {
    if s == [] then 0 else f(s[0]) + Sum(f, s[1..])
  }

  lemma {:induction false} SumUpdate<T>(f: T -> int, s: seq<T>, i: nat, v: T)
    requires i < |s|
    ensures Sum(f, s[i := v]) == Sum(f, s) - f(s[i]) + f(v)
  {
    if i == 0 {
      assert s[i := v][1..] == s[1..];
    } else {
      assert s[i := v][1..] == s[1..][i - 1 := v];
      SumUpdate(f, s[1..], i - 1, v);
    }
  }

  lemma {:induction false} SumAtLeast<T>(f: T -> int, s: seq<T>, i: nat)
    requires i < |s| && forall k | 0 <= k < |s| :: f(s[k]) >= 0
    ensures Sum(f, s) >= f(s[i])
  {
    SumNonNegative(f, s[1..]);
    if i > 0 {
      SumAtLeast(f, s[1..], i - 1);
    }
  }

  lemma {:induction false} SumNonNegative<T>(f: T -> int, s: seq<T>)
    requires forall k | 0 <= k < |s| :: f(s[k]) >= 0
    ensures Sum(f, s) >= 0
  {
    if s != [] {
      SumNonNegative(f, s[1..]);
    }
  }

  lemma {:induction false} SumSame<T>(f: T -> int, g: T -> int, s: seq<T>, t: seq<T>)
    requires |s| == |t| && forall k | 0 <= k < |s| :: f(s[k]) == g(t[k])
    ensures Sum(f, s) == Sum(g, t)
  {
    if s != [] {
      SumSame(f, g, s[1..], t[1..]);
    }
  }

  lemma {:induction false} SumZero<T>(f: T -> int, s: seq<T>)
    requires forall k | 0 <= k < |s| :: f(s[k]) == 0
    ensures Sum(f, s) == 0
  {
    if s != [] {
      SumZero(f, s[1..]);
    }
  }

  /** A positive sum of non-negative terms has a positive term. */
  lemma {:induction false} SumWitness<T>(f: T -> int, s: seq<T>) returns (i: nat)
    requires Sum(f, s) > 0
    ensures i < |s| && f(s[i]) > 0
  {
    if f(s[0]) > 0 {
      i := 0;
    } else {
      var j := SumWitness(f, s[1..]);
      i := j + 1;
    }
  }

  lemma {:induction false} SumPair<T>(f: T -> int, s: seq<T>, i: nat, j: nat)
    requires i < j < |s| && forall k | 0 <= k < |s| :: f(s[k]) >= 0
    ensures Sum(f, s) >= f(s[i]) + f(s[j])
  {
    if i == 0 {
      SumAtLeast(f, s[1..], j - 1);
    } else {
      SumPair(f, s[1..], i - 1, j - 1);
    }
  }

  lemma {:induction false} SumAtMost<T>(f: T -> int, g: T -> int, s: seq<T>)
    requires forall k | 0 <= k < |s| :: f(s[k]) <= g(s[k])
    ensures Sum(f, s) <= Sum(g, s)
  {
    if s != [] {
      SumAtMost(f, g, s[1..]);
    }
  }

  lemma {:induction false} SumLess<T>(f: T -> int, g: T -> int, s: seq<T>, i: nat)
    requires i < |s| && f(s[i]) < g(s[i]) && forall k | 0 <= k < |s| :: f(s[k]) <= g(s[k])
    ensures Sum(f, s) < Sum(g, s)
  {
    SumAtMost(f, g, s[1..]);
    if i > 0 {
      SumLess(f, g, s[1..], i - 1);
    }
  }

  /** Terms of at most m in the first n places and at most 0 after them; exactly so, the bound is met. */
  lemma {:induction false} SumPrefix<T>(f: T -> int, s: seq<T>, n: nat, m: nat)
    requires n <= |s| && forall k | 0 <= k < |s| :: f(s[k]) <= if k < n then m else 0
    ensures Sum(f, s) <= n * m
    ensures (forall k | 0 <= k < |s| :: f(s[k]) == if k < n then m else 0) ==> Sum(f, s) == n * m
  {
    if s != [] {
      SumPrefix(f, s[1..], if n == 0 then 0 else n - 1, m);
      assert n > 0 ==> n * m == m + (n - 1) * m;
    }
  }

  /** A sum of zeros and ones that reaches the length has only ones. */
  lemma {:induction false} SumFull<T>(f: T -> int, s: seq<T>)
    requires forall k | 0 <= k < |s| :: f(s[k]) <= 1
    ensures Sum(f, s) <= |s|
    ensures Sum(f, s) == |s| ==> forall k | 0 <= k < |s| :: f(s[k]) == 1
  {
    if s != [] {
      SumFull(f, s[1..]);
      assert forall k | 1 <= k < |s| :: s[k] == s[1..][k - 1];
    }
  }

  /** Terms that grow by at most d each. */
  lemma {:induction false} SumWithin<T>(f: T -> int, s: seq<T>, t: seq<T>, d: nat)
    requires |t| == |s| && forall k | 0 <= k < |s| :: f(t[k]) <= f(s[k]) + d
    ensures Sum(f, t) <= Sum(f, s) + d * |s|
  {
    if s != [] {
      SumWithin(f, s[1..], t[1..], d);
    }
  }
}
