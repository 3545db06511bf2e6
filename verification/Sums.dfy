/** Finite sums of reals, used by the covariance arithmetic. */
module Sums {

  /** f(0) + ... + f(n-1) */
  ghost function Sum(n: nat, f: nat -> real): real {
    if n == 0 then 0.0 else Sum(n - 1, f) + f(n - 1)
  }

  ghost function RowOf(F: (nat, nat) -> real, i: nat): nat -> real {
    (j: nat) => F(i, j)
  }

  ghost function RowSums(n: nat, F: (nat, nat) -> real): nat -> real {
    (i: nat) => Sum(n, RowOf(F, i))
  }

  /** The sum of F over the m by n rectangle, row by row. */
  ghost function Sum2(m: nat, n: nat, F: (nat, nat) -> real): real {
    Sum(m, RowSums(n, F))
  }

  lemma DistributeSum(a: real, p: real, q: real, total: real)
    requires total == p + q
    ensures a * total == a * p + a * q
  {
  }

  lemma SumMonotone(n: nat, f: nat -> real, g: nat -> real)
    requires forall k :: 0 <= k < n ==> f(k) <= g(k)
    ensures Sum(n, f) <= Sum(n, g)
  {
  }

  lemma SumEqual(n: nat, f: nat -> real, g: nat -> real)
    requires forall k :: 0 <= k < n ==> f(k) == g(k)
    ensures Sum(n, f) == Sum(n, g)
  {
  }

  /** Sums are linear. */
  lemma {:induction false} SumCombine(n: nat, f: nat -> real, g: nat -> real, h: nat -> real, a: real, b: real)
    requires forall k :: 0 <= k < n ==> h(k) == a * f(k) + b * g(k)
    ensures Sum(n, h) == a * Sum(n, f) + b * Sum(n, g)
  {
    if n > 0 {
      SumCombine(n - 1, f, g, h, a, b);
      var sf, sg := Sum(n - 1, f), Sum(n - 1, g);
      assert a * (sf + f(n - 1)) == a * sf + a * f(n - 1);
      assert b * (sg + g(n - 1)) == b * sg + b * g(n - 1);
    }
  }

  /** Changing two places without changing their total keeps the sum. */
  lemma {:induction false} SumExchange(n: nat, f: nat -> real, g: nat -> real, r: nat, c: nat)
    requires r < c < n
    requires forall k :: 0 <= k < n && k != r && k != c ==> f(k) == g(k)
    ensures Sum(n, f) - Sum(n, g) == f(r) + f(c) - g(r) - g(c)
  {
    if c == n - 1 {
      SumChange(n - 1, f, g, r);
    } else {
      SumExchange(n - 1, f, g, r, c);
    }
  }

  lemma {:induction false} SumChange(n: nat, f: nat -> real, g: nat -> real, r: nat)
    requires r < n
    requires forall k :: 0 <= k < n && k != r ==> f(k) == g(k)
    ensures Sum(n, f) - Sum(n, g) == f(r) - g(r)
  {
    if r == n - 1 {
      SumEqual(n - 1, f, g);
    } else {
      SumChange(n - 1, f, g, r);
    }
  }

  /** A term of a sum of nonnegative terms is at most the sum. */
  lemma {:induction false} SumTerm(n: nat, f: nat -> real, r: nat)
    requires r < n
    requires forall k :: 0 <= k < n ==> f(k) >= 0.0
    ensures Sum(n, f) >= f(r)
  {
    SumMonotone(n - 1, Zero(), f);
    SumZero(n - 1);
    if r < n - 1 {
      SumTerm(n - 1, f, r);
    }
  }

  ghost function Zero(): nat -> real {
    (k: nat) => 0.0
  }

  lemma SumZero(n: nat)
    ensures Sum(n, Zero()) == 0.0
  {
  }

  ghost function Constant(k: real): nat -> real {
    (i: nat) => k
  }

  lemma SumConstant(n: nat, k: real)
    ensures Sum(n, Constant(k)) == n as real * k
  {
    if n > 0 {
      SumConstant(n - 1, k);
      assert n as real == (n - 1) as real + 1.0;
      assert n as real * k == (n - 1) as real * k + k;
    }
  }

  /** Two distinct terms of a sum of nonnegative terms are together at most the sum. */
  lemma {:induction false} SumTwoTerms(n: nat, f: nat -> real, r: nat, c: nat)
    requires r < c < n
    requires forall k :: 0 <= k < n ==> f(k) >= 0.0
    ensures Sum(n, f) >= f(r) + f(c)
  {
    if c == n - 1 {
      SumTerm(n - 1, f, r);
    } else {
      SumTwoTerms(n - 1, f, r, c);
    }
  }

  lemma Sum2Monotone(m: nat, n: nat, F: (nat, nat) -> real, G: (nat, nat) -> real)
    requires forall i, j :: 0 <= i < m && 0 <= j < n ==> F(i, j) <= G(i, j)
    ensures Sum2(m, n, F) <= Sum2(m, n, G)
  {
    forall i | 0 <= i < m ensures RowSums(n, F)(i) <= RowSums(n, G)(i) {
      SumMonotone(n, RowOf(F, i), RowOf(G, i));
    }
    SumMonotone(m, RowSums(n, F), RowSums(n, G));
  }

  lemma Sum2Combine(m: nat, n: nat, F: (nat, nat) -> real, G: (nat, nat) -> real, H: (nat, nat) -> real, a: real,
                    b: real)
    requires forall i, j :: 0 <= i < m && 0 <= j < n ==> H(i, j) == a * F(i, j) + b * G(i, j)
    ensures Sum2(m, n, H) == a * Sum2(m, n, F) + b * Sum2(m, n, G)
  {
    forall i | 0 <= i < m ensures RowSums(n, H)(i) == a * RowSums(n, F)(i) + b * RowSums(n, G)(i) {
      SumCombine(n, RowOf(F, i), RowOf(G, i), RowOf(H, i), a, b);
    }
    SumCombine(m, RowSums(n, F), RowSums(n, G), RowSums(n, H), a, b);
  }

  ghost function Blend(f: nat -> real, g: nat -> real, a: real, b: real): nat -> real {
    (k: nat) => a * f(k) + b * g(k)
  }

  lemma SumBlend(n: nat, f: nat -> real, g: nat -> real, a: real, b: real)
    ensures Sum(n, Blend(f, g, a, b)) == a * Sum(n, f) + b * Sum(n, g)
  {
    SumCombine(n, f, g, Blend(f, g, a, b), a, b);
  }

  /** Summing by columns gives the same total as summing by rows. */
  lemma {:induction false} Sum2Transpose(m: nat, n: nat, F: (nat, nat) -> real, G: (nat, nat) -> real)
    requires forall i, j :: 0 <= i < m && 0 <= j < n ==> G(j, i) == F(i, j)
    ensures Sum2(m, n, F) == Sum2(n, m, G)
  {
    if m == 0 {
      forall j | 0 <= j < n ensures RowSums(0, G)(j) == Zero()(j) {}
      SumEqual(n, RowSums(0, G), Zero());
      SumZero(n);
    } else {
      Sum2Transpose(m - 1, n, F, G);
      var last := RowOf(F, m - 1);
      forall j | 0 <= j < n
        ensures RowSums(m, G)(j) == 1.0 * RowSums(m - 1, G)(j) + 1.0 * last(j)
      {
        assert RowOf(G, j)(m - 1) == G(j, m - 1);
      }
      SumCombine(n, RowSums(m - 1, G), last, RowSums(m, G), 1.0, 1.0);
    }
  }
}
