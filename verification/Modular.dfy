/** Counters that wrap around: residues of consecutive integers. */
module Modular {
  import Bits

  function Wrap(n: int, m: int): int
    requires m > 0
  {
    n % m
  }

  lemma WrapRange(n: int, m: int)
    requires m > 0
    ensures 0 <= Wrap(n, m) < m
  {
  }

  /** Stepping a wrapped counter wraps the next number. */
  lemma WrapNext(n: int, m: int)
    requires m > 0
    ensures (Wrap(n, m) + 1) % m == Wrap(n + 1, m)
  {
    var q, r := n / m, n % m;
    assert n + 1 == q * m + (r + 1);
    if r + 1 < m {
      Bits.DivModUnique(n + 1, m, q, r + 1);
      Bits.DivModUnique(r + 1, m, 0, r + 1);
    } else {
      assert (q + 1) * m == q * m + m;
      Bits.DivModUnique(n + 1, m, q + 1, 0);
      Bits.DivModUnique(m, m, 1, 0);
    }
  }

  lemma WrapAround(n: int, m: int)
    requires m > 0
    ensures Wrap(n + m, m) == Wrap(n, m)
  {
    assert n + m == (n / m + 1) * m + n % m;
    Bits.DivModUnique(n + m, m, n / m + 1, n % m);
  }

  lemma WrapSmall(n: int, m: int)
    requires 0 <= n < m
    ensures Wrap(n, m) == n
  {
  }

  /** Numbers less than `m` apart have different residues. */
  lemma WrapSame(a: int, b: int, m: int)
    requires m > 0 && a - m < b < a + m && Wrap(a, m) == Wrap(b, m)
    ensures a == b
  {
    var d := a / m - b / m;
    assert a - b == d * m by { assert a == a / m * m + a % m && b == b / m * m + b % m; }
    assert d >= 1 ==> d * m >= m;
    assert d <= -1 ==> d * m <= -m;
  }

  /** Every other residue is met within one turn. */
  lemma WrapFind(f: int, q: int, m: int) returns (n: int)
    requires m > 0 && 0 <= q < m && q != Wrap(f, m)
    ensures f < n < f + m && Wrap(n, m) == q
  {
    var r := Wrap(f, m);
    n := if q > r then f + q - r else f + q - r + m;
    assert f == f / m * m + r;
    if q > r {
      Bits.DivModUnique(n, m, f / m, q);
    } else {
      assert (f / m + 1) * m == f / m * m + m;
      Bits.DivModUnique(n, m, f / m + 1, q);
    }
  }
}
