/** Sums over a table whose ids are 1, 2, ..., n. */
module Totals {

  ghost predicate Dense<T>(m: map<int, T>, n: nat) {
    forall id :: id in m <==> 1 <= id <= n
  }

  ghost function Sum<T>(m: map<int, T>, f: T -> int, n: nat): int
    requires forall id :: 1 <= id <= n ==> id in m
  {
    if n == 0 then 0 else Sum(m, f, n - 1) + f(m[n])
  }

  lemma {:induction false} SumUpdate<T>(m: map<int, T>, f: T -> int, n: nat, id: int, v: T)
    requires (forall i :: 1 <= i <= n ==> i in m) && id in m
    ensures Sum(m[id := v], f, n) == Sum(m, f, n) + if 1 <= id <= n then f(v) - f(m[id]) else 0
  {
    if n != 0 {
      SumUpdate(m, f, n - 1, id, v);
    }
  }

  lemma {:induction false} SumAgrees<T>(m: map<int, T>, m1: map<int, T>, f: T -> int, n: nat)
    requires forall i :: 1 <= i <= n ==> i in m && i in m1 && m[i] == m1[i]
    ensures Sum(m, f, n) == Sum(m1, f, n)
  {
    if n != 0 {
      SumAgrees(m, m1, f, n - 1);
    }
  }

  lemma SumExtend<T>(m: map<int, T>, f: T -> int, n: nat, v: T)
    requires forall i :: 1 <= i <= n ==> i in m
    ensures Sum(m[n + 1 := v], f, n + 1) == Sum(m, f, n) + f(v)
  {
    SumAgrees(m[n + 1 := v], m, f, n);
  }

  /** A sum of terms that are not negative is at least each of them. */
  lemma {:induction false} SumAtLeast<T>(m: map<int, T>, f: T -> int, n: nat, id: int)
    requires forall i :: 1 <= i <= n ==> i in m && 0 <= f(m[i])
    ensures 0 <= Sum(m, f, n)
    ensures 1 <= id <= n ==> f(m[id]) <= Sum(m, f, n)
  {
    if n != 0 {
      SumAtLeast(m, f, n - 1, id);
    }
  }

  /** Sums add up term by term. */
  lemma {:induction false} SumPointwise<T>(m: map<int, T>, f: T -> int, g: T -> int, h: T -> int, n: nat)
    requires forall i :: 1 <= i <= n ==> i in m && f(m[i]) + g(m[i]) == h(m[i])
    ensures Sum(m, f, n) + Sum(m, g, n) == Sum(m, h, n)
  {
    if n != 0 {
      SumPointwise(m, f, g, h, n - 1);
    }
  }

  /** A sum of terms that are not negative is zero exactly when every term is. */
  lemma {:induction false} SumZero<T>(m: map<int, T>, f: T -> int, n: nat)
    requires forall i :: 1 <= i <= n ==> i in m && 0 <= f(m[i])
    ensures Sum(m, f, n) == 0 <==> forall i :: 1 <= i <= n ==> f(m[i]) == 0
  {
    if n != 0 {
      SumAtLeast(m, f, n - 1, n - 1);
      SumZero(m, f, n - 1);
    }
  }
}
