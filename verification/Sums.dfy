/** Weighted sums over sequences: how the protocols count threads at program points. */
module Sums {

  datatype Option<+A> = None | Some(value: A)

  function SumTo<T>(s: seq<T>, f: T -> nat, n: nat): nat
    requires n <= |s|
  {
    if n == 0 then 0 else SumTo(s, f, n - 1) + f(s[n - 1])
  }

  function Sum<T>(s: seq<T>, f: T -> nat): nat {
    SumTo(s, f, |s|)
  }

  lemma {:induction false} SumToUpdate<T>(s: seq<T>, i: nat, x: T, f: T -> nat, n: nat)
    requires i < |s| && n <= |s|
    ensures i < n ==> SumTo(s[i := x], f, n) + f(s[i]) == SumTo(s, f, n) + f(x) && f(s[i]) <= SumTo(s, f, n)
    ensures n <= i ==> SumTo(s[i := x], f, n) == SumTo(s, f, n)
  {
    if n == 0 {
    } else {
      SumToUpdate(s, i, x, f, n - 1);
    }
  }

  lemma SumUpdate<T>(s: seq<T>, i: nat, x: T, f: T -> nat)
    requires i < |s|
    ensures Sum(s[i := x], f) + f(s[i]) == Sum(s, f) + f(x)
    ensures f(s[i]) <= Sum(s, f)
  {
    SumToUpdate(s, i, x, f, |s|);
  }

  /** Two different members together weigh no more than the sum. */
  lemma {:induction false} SumToPair<T>(s: seq<T>, i: nat, j: nat, f: T -> nat, n: nat)
    requires i < j < n <= |s|
    ensures f(s[i]) + f(s[j]) <= SumTo(s, f, n)
  {
    if j == n - 1 { SumToUpdate(s, i, s[i], f, n - 1); } else { SumToPair(s, i, j, f, n - 1); }
  }

  lemma {:induction false} SumToLe<T>(s: seq<T>, f: T -> nat, g: T -> nat, n: nat)
    requires n <= |s| && forall i :: 0 <= i < |s| ==> f(s[i]) <= g(s[i])
    ensures SumTo(s, f, n) <= SumTo(s, g, n)
  {
    if n == 0 {
    } else {
      SumToLe(s, f, g, n - 1);
    }
  }

  lemma {:induction false} SumToBound<T>(s: seq<T>, f: T -> nat, b: nat, n: nat)
    requires n <= |s| && forall i :: 0 <= i < |s| ==> f(s[i]) <= b
    ensures SumTo(s, f, n) <= b * n
  {
    if n == 0 {
    } else {
      SumToBound(s, f, b, n - 1);
    }
  }

  lemma SumLe<T>(s: seq<T>, f: T -> nat, g: T -> nat)
    requires forall i :: 0 <= i < |s| ==> f(s[i]) <= g(s[i])
    ensures Sum(s, f) <= Sum(s, g)
  {
    SumToLe(s, f, g, |s|);
  }

  lemma {:induction false} SumToPrefix<T>(s: seq<T>, x: T, f: T -> nat, n: nat)
    requires n <= |s|
    ensures SumTo(s + [x], f, n) == SumTo(s, f, n)
  {
    if n == 0 {
    } else {
      SumToPrefix(s, x, f, n - 1);
    }
  }

  lemma SumSnoc<T>(s: seq<T>, x: T, f: T -> nat)
    ensures Sum(s + [x], f) == Sum(s, f) + f(x)
  {
    SumToPrefix(s, x, f, |s|);
  }

  lemma SumPair<T>(s: seq<T>, i: nat, j: nat, f: T -> nat)
    requires i < |s| && j < |s| && i != j
    ensures f(s[i]) + f(s[j]) <= Sum(s, f)
  {
    if i < j { SumToPair(s, i, j, f, |s|); } else { SumToPair(s, j, i, f, |s|); }
  }

  lemma SumBound<T>(s: seq<T>, f: T -> nat, b: nat)
    requires forall i :: 0 <= i < |s| ==> f(s[i]) <= b
    ensures Sum(s, f) <= b * |s|
  {
    SumToBound(s, f, b, |s|);
  }

  lemma {:induction false} SumToLe2<T>(s: seq<T>, f: T -> nat, g: T -> nat, h: T -> nat, n: nat)
    requires n <= |s| && forall i :: 0 <= i < |s| ==> f(s[i]) <= g(s[i]) + h(s[i])
    ensures SumTo(s, f, n) <= SumTo(s, g, n) + SumTo(s, h, n)
  {
    if n == 0 {
    } else {
      SumToLe2(s, f, g, h, n - 1);
    }
  }

  /** When weight `f` is held by one member alone, any weight below `f` is that member's too. */
  lemma SoleHolder<T>(s: seq<T>, i: nat, f: T -> nat, g: T -> nat)
    requires i < |s| && Sum(s, f) <= 1 && f(s[i]) == 1
    requires forall j :: 0 <= j < |s| ==> g(s[j]) <= f(s[j])
    ensures forall j :: 0 <= j < |s| && j != i ==> f(s[j]) == 0
    ensures Sum(s, g) == g(s[i])
  {
    forall j | 0 <= j < |s| && j != i ensures f(s[j]) == 0 { SumPair(s, i, j, f); }
    SumLe(s, g, f);
    SumUpdate(s, i, s[i], g);
    if g(s[i]) == 0 { SumBound(s, g, 0); }
  }

  lemma {:induction false} SumToWitness<T>(s: seq<T>, f: T -> nat, n: nat) returns (i: nat)
    requires n <= |s| && SumTo(s, f, n) > 0
    ensures i < n && f(s[i]) > 0
  {
    if f(s[n - 1]) > 0 { i := n - 1; } else { i := SumToWitness(s, f, n - 1); }
  }

  lemma SumUniform<T>(ts: seq<T>, f: T -> nat, b: nat)
    requires forall i :: 0 <= i < |ts| ==> f(ts[i]) == b
    ensures Sum(ts, f) == b * |ts|
  {
    SumToUniform(ts, f, b, |ts|);
  }

  lemma {:induction false} SumToUniform<T>(ts: seq<T>, f: T -> nat, b: nat, n: nat)
    requires n <= |ts| && forall i :: 0 <= i < |ts| ==> f(ts[i]) == b
    ensures SumTo(ts, f, n) == b * n
  {
    if n == 0 {
    } else {
      SumToUniform(ts, f, b, n - 1);
    }
  }

  // ---- laps of a circular index ----

  lemma MulSign(d: int, n: nat)
    ensures d >= 1 ==> d * n >= n
    ensures d <= -1 ==> d * n <= -(n as int)
    ensures d == 0 ==> d * n == 0
  {
  }

  lemma ModUnique(a: nat, n: nat, q: nat, r: nat)
    requires r < n && a == q * n + r
    ensures a % n == r
  {
    var d := a / n - q;
    MulSign(d, n);
    assert a == (a / n) * n + a % n;
    assert d * n == r - a % n;
  }

  lemma ModSucc(a: nat, n: nat)
    requires n >= 1
    ensures (a % n + 1) % n == (a + 1) % n
  {
    var q, r := a / n, a % n;
    assert a == q * n + r;
    if r + 1 < n {
      ModUnique(a + 1, n, q, r + 1);
      ModUnique(r + 1, n, 0, r + 1);
    } else {
      assert a + 1 == (q + 1) * n;
      ModUnique(a + 1, n, q + 1, 0);
      ModUnique(r + 1, n, 1, 0);
    }
  }

  /** Two positions less than a lap apart occupy different slots. */
  lemma ModDistinct(a: nat, b: nat, n: nat)
    requires a < b < a + n
    ensures a % n != b % n
  {
    var d := b / n - a / n;
    MulSign(d, n);
    assert a == (a / n) * n + a % n;
    assert b == (b / n) * n + b % n;
    assert b - a == d * n + (b % n - a % n);
  }

  lemma Regroup<T>(a: seq<T>, b: seq<T>, c: seq<T>)
    ensures (a + b) + c == a + (b + c)
  {
  }
}
