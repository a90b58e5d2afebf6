/**
 Products and remainders.  A product of two variables is named, so that proofs can
 hide it and step through it one factor at a time.
 */
module Arith {

  function Times(a: int, i: int): (r: int)
    ensures a >= 0 && i >= 0 ==> r >= 0
  {
    a * i
  }

  lemma TimesStep(a: int, i: int)
    ensures Times(a, i + 1) == Times(a, i) + a && Times(a, 0) == 0
  {
    assert a * (i + 1) == a * i + a;
  }

  lemma TimesMonotone(a: int, i: int, j: int)
    requires a >= 0 && i <= j
    ensures Times(a, i) <= Times(a, j) && (i >= 0 ==> Times(a, i) >= 0)
  {
    assert a * (j - i) == a * j - a * i;
  }

  lemma Quotient(m: int, n: int)
    requires n > 0
    ensures m == Times(n, m / n) + m % n && Times(n, m / n) == Times(m / n, n) && 0 <= m % n < n
  {
    assert m == n * (m / n) + m % n;
  }

  /** One turn around. */
  lemma Wraps(x: int, n: int)
    requires 0 <= x < 2 * n
    ensures x % n == if x < n then x else x - n
  {
  }
}
