/** Finite sums over an initial segment of the naturals. */
module Sums {

  ghost function Sum(n: nat, f: nat -> nat): nat
  {
    if n == 0 then 0 else Sum(n - 1, f) + f(n - 1)
  }

  lemma {:induction false} SumEqual(n: nat, f: nat -> nat, g: nat -> nat)
    requires forall i :: 0 <= i < n ==> f(i) == g(i)
    ensures Sum(n, f) == Sum(n, g)
  {
    if n > 0 { SumEqual(n - 1, f, g); }
  }

  lemma {:induction false} SumAdd(n: nat, f: nat -> nat, g: nat -> nat, h: nat -> nat)
    requires forall i :: 0 <= i < n ==> f(i) + g(i) == h(i)
    ensures Sum(n, f) + Sum(n, g) == Sum(n, h)
  {
    if n > 0 { SumAdd(n - 1, f, g, h); }
  }

  lemma {:induction false} SumMonotone(n: nat, f: nat -> nat, g: nat -> nat)
    requires forall i :: 0 <= i < n ==> f(i) <= g(i)
    ensures Sum(n, f) <= Sum(n, g)
  {
    if n > 0 { SumMonotone(n - 1, f, g); }
  }

  /** g is f with v added at position k. */
  lemma {:induction false} SumPoint(n: nat, f: nat -> nat, g: nat -> nat, k: nat, v: nat)
    requires forall i :: 0 <= i < n && i != k ==> f(i) == g(i)
    requires g(k) == f(k) + v
    ensures Sum(n, g) == Sum(n, f) + (if k < n then v else 0)
  {
    if n > 0 { SumPoint(n - 1, f, g, k, v); }
  }

  lemma {:induction false} SumZero(n: nat, f: nat -> nat)
    ensures Sum(n, f) == 0 <==> forall i :: 0 <= i < n ==> f(i) == 0
  {
    if n > 0 { SumZero(n - 1, f); }
  }

  /** A sum with at most one non-zero term. */
  lemma {:induction false} SumSingle(n: nat, f: nat -> nat, k: nat)
    requires k < n
    requires forall i :: 0 <= i < n && i != k ==> f(i) == 0
    ensures Sum(n, f) == f(k)
  {
    if k == n - 1 {
      SumZero(n - 1, f);
    } else {
      SumSingle(n - 1, f, k);
    }
  }

  lemma {:induction false} SumTerm(n: nat, f: nat -> nat, k: nat)
    requires k < n
    ensures f(k) <= Sum(n, f)
  {
    if k < n - 1 { SumTerm(n - 1, f, k); }
  }

  lemma {:induction false} SumExtend(m: nat, n: nat, f: nat -> nat)
    requires m <= n
    requires forall i :: m <= i < n ==> f(i) == 0
    ensures Sum(n, f) == Sum(m, f)
  {
    if m < n { SumExtend(m, n - 1, f); }
  }

  /** Summing along a list that names once every place where f is not zero. */
  lemma {:induction false} SumReindexed(n: nat, f: nat -> nat, order: seq<nat>, g: nat -> nat)
    requires forall k :: 0 <= k < |order| ==> order[k] < n && g(k) == f(order[k])
    requires forall k, m :: 0 <= k < m < |order| ==> order[k] != order[m]
    requires forall i :: 0 <= i < n && i !in order ==> f(i) == 0
    ensures Sum(|order|, g) == Sum(n, f)
  {
    if order == [] {
      SumZero(n, f);
    } else {
      var m := |order| - 1;
      var x := order[m];
      var rest := (i: nat) => if i == x then 0 else f(i);
      SumReindexed(n, rest, order[..m], g);
      SumPoint(n, rest, f, x, f(x));
    }
  }

  ghost function Shift(f: nat -> nat, m: nat): nat -> nat
  {
    (i: nat) => f(m + i)
  }

  lemma {:induction false} SumSplit(m: nat, n: nat, f: nat -> nat)
    ensures Sum(m + n, f) == Sum(m, f) + Sum(n, Shift(f, m))
  {
    if n > 0 { SumSplit(m, n - 1, f); }
  }

  ghost function Row(f: (nat, nat) -> nat, i: nat): nat -> nat
  {
    j => f(i, j)
  }

  ghost function Column(f: (nat, nat) -> nat, j: nat): nat -> nat
  {
    i => f(i, j)
  }

  ghost function RowSums(f: (nat, nat) -> nat, n: nat): nat -> nat
  {
    i => Sum(n, Row(f, i))
  }

  ghost function ColumnSums(f: (nat, nat) -> nat, m: nat): nat -> nat
  {
    j => Sum(m, Column(f, j))
  }

  /** Summing a matrix by rows or by columns gives the same total. */
  lemma {:induction false} SumExchange(m: nat, n: nat, f: (nat, nat) -> nat)
    ensures Sum(m, RowSums(f, n)) == Sum(n, ColumnSums(f, m))
  {
    if m == 0 {
      SumZero(n, ColumnSums(f, 0));
    } else {
      SumExchange(m - 1, n, f);
      SumAdd(n, ColumnSums(f, m - 1), Row(f, m - 1), ColumnSums(f, m));
    }
  }
}
