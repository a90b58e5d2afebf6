/**
 Bitwise operators on unbounded naturals, defined one bit at a time, and the
 arithmetic they amount to on the words the program builds: masking with
 `2^k - 1`, combining disjoint fields, and setting or clearing one bit.
 */
module Bits {

  function Pow2(n: nat): (r: nat)
    ensures r > 0
  {
    if n == 0 then 1 else 2 * Pow2(n - 1)
  }

  function And(a: nat, b: nat): nat {
    if a == 0 || b == 0 then 0
    else (if a % 2 == 1 && b % 2 == 1 then 1 else 0) + 2 * And(a / 2, b / 2)
  }

  function Or(a: nat, b: nat): nat {
    if a == 0 then b
    else if b == 0 then a
    else (if a % 2 == 1 || b % 2 == 1 then 1 else 0) + 2 * Or(a / 2, b / 2)
  }

  /** Bit `i` of `x`. */
  predicate Bit(x: nat, i: nat) {
    if i == 0 then x % 2 == 1 else Bit(x / 2, i - 1)
  }

  /** `x & ~(1 << i)`. */
  function ClearBit(x: nat, i: nat): nat {
    if i == 0 then x - x % 2 else x % 2 + 2 * ClearBit(x / 2, i - 1)
  }

  lemma {:induction false} Pow2Sum(a: nat, b: nat)
    ensures Pow2(a + b) == Pow2(a) * Pow2(b)
  {
    if a > 0 {
      Pow2Sum(a - 1, b);
    }
  }

  lemma SmallPowers()
    ensures Pow2(1) == 2 && Pow2(2) == 4 && Pow2(8) == 0x100
    ensures Pow2(16) == 0x1_0000 && Pow2(31) == 0x8000_0000
  {
    Pow2Sum(8, 8);
    Pow2Sum(8, 7);
    Pow2Sum(15, 16);
  }

  lemma {:induction false} Pow2Monotone(a: nat, b: nat)
    requires a <= b
    ensures Pow2(a) <= Pow2(b)
  {
    if a < b {
      Pow2Monotone(a, b - 1);
    }
  }

  lemma {:induction false} HalvesMod(x: nat, m: nat)
    requires m > 0
    ensures x % (2 * m) == x % 2 + 2 * (x / 2 % m)
  {
    var q, r := x / 2 / m, x / 2 % m;
    assert x / 2 == q * m + r;
    assert x == 2 * (q * m + r) + x % 2;
    assert x == q * (2 * m) + (2 * r + x % 2) by { assert 2 * (q * m) == q * (2 * m); }
    DivModUnique(x, 2 * m, q, 2 * r + x % 2);
  }

  lemma {:induction false} DivModUnique(x: int, m: int, q: int, r: int)
    requires m > 0 && 0 <= r < m && x == q * m + r
    ensures x / m == q && x % m == r
  {
    var q', r' := x / m, x % m;
    assert x == q' * m + r';
    var d := q - q';
    assert d * m == r' - r;
    assert d >= 1 ==> d * m >= m;
    assert d <= -1 ==> d * m <= -m;
  }

  lemma {:induction false} AndMaskStep(x: nat, p: nat)
    requires p > 0 && And(x / 2, p - 1) == x / 2 % p
    ensures And(x, 2 * p - 1) == x % (2 * p)
  {
    HalvesMod(x, p);
    var m := 2 * p - 1;
    assert m % 2 == 1 && m / 2 == p - 1;
    if x > 0 {
      assert And(x, m) == x % 2 + 2 * And(x / 2, m / 2);
    }
  }

  /** Masking with `2^k - 1` is the remainder modulo `2^k`. */
  lemma {:induction false} AndMask(x: nat, k: nat)
    ensures And(x, Pow2(k) - 1) == x % Pow2(k)
  {
    if k == 0 {
      assert Pow2(k) - 1 == 0;
    } else {
      AndMask(x / 2, k - 1);
      AndMaskStep(x, Pow2(k - 1));
    }
  }

  /** `x << k`. */
  function Shl(x: nat, k: nat): nat {
    x * Pow2(k)
  }

  lemma {:induction false} OrCommutes(a: nat, b: nat)
    ensures Or(a, b) == Or(b, a)
    decreases a
  {
    if a != 0 && b != 0 {
      OrCommutes(a / 2, b / 2);
    }
  }

  /** Fields that do not overlap combine by addition. */
  lemma {:induction false} OrDisjoint(high: nat, low: nat, k: nat)
    requires low < Pow2(k)
    ensures Or(Shl(high, k), low) == Shl(high, k) + low
  {
    if k > 0 && low > 0 && high > 0 {
      var p := Pow2(k - 1);
      assert Shl(high, k) == 2 * Shl(high, k - 1) by { assert high * (2 * p) == 2 * (high * p); }
      assert Shl(high, k - 1) > 0 by { assert high * p >= 1 * 1; }
      OrDisjoint(high, low / 2, k - 1);
    }
  }

  lemma MulAssociates(x: int, a: int, b: int)
    ensures x * a * b == x * (a * b)
  {
  }

  lemma ShlShl(x: nat, j: nat, k: nat)
    ensures Shl(Shl(x, j), k) == Shl(x, j + k)
  {
    hide Pow2;
    Pow2Sum(j, k);
    MulAssociates(x, Pow2(j), Pow2(k));
  }

  lemma ShlPlus(x: nat, y: nat, k: nat)
    ensures Shl(x + y, k) == Shl(x, k) + Shl(y, k)
  {
  }

  lemma {:induction false} MulLess(x: nat, a: nat, b: nat)
    requires x < a && b > 0
    ensures x * b < a * b
    decreases a
  {
  }

  lemma ShlLess(x: nat, j: nat, k: nat)
    requires x < Pow2(j)
    ensures Shl(x, k) < Pow2(j + k)
  {
    hide Pow2;
    Pow2Sum(j, k);
    MulLess(x, Pow2(j), Pow2(k));
  }

  /** Two adjacent fields, the low one `k` bits wide, both shifted. */
  lemma OrFields(high: nat, low: nat, k: nat, shift: nat)
    requires low < Pow2(k)
    ensures Or(Shl(high, k + shift), Shl(low, shift)) == Shl(Shl(high, k) + low, shift)
  {
    hide Pow2, Shl, Or;
    ShlLess(low, k, shift);
    OrDisjoint(high, Shl(low, shift), k + shift);
    ShlShl(high, k, shift);
    ShlPlus(Shl(high, k), low, shift);
  }

  /** Fields can be read back. */
  lemma FieldsUnique(high: nat, low: nat, high': nat, low': nat, k: nat)
    requires low < Pow2(k) && low' < Pow2(k) && Shl(high, k) + low == Shl(high', k) + low'
    ensures high == high' && low == low'
  {
    hide Pow2;
    var p := Pow2(k);
    DivModUnique(high * p + low, p, high, low);
    DivModUnique(high' * p + low', p, high', low');
  }

  lemma {:induction false} BitOfZero(i: nat)
    ensures !Bit(0, i)
  {
    if i > 0 { BitOfZero(i - 1); }
  }

  lemma {:induction false} BitOr(a: nat, b: nat, i: nat)
    ensures Bit(Or(a, b), i) <==> Bit(a, i) || Bit(b, i)
  {
    if a == 0 || b == 0 {
      BitOfZero(i);
    } else if i > 0 {
      BitOr(a / 2, b / 2, i - 1);
    }
  }

  lemma {:induction false} BitPow2(r: nat, i: nat)
    ensures Bit(Pow2(r), i) <==> i == r
  {
    if r == 0 {
      if i > 0 { BitOfZero(i - 1); }
    } else if i > 0 {
      BitPow2(r - 1, i - 1);
    }
  }

  /** Testing one bit with a mask. */
  lemma {:induction false} AndPow2(x: nat, r: nat)
    ensures And(x, Pow2(r)) != 0 <==> Bit(x, r)
  {
    if x == 0 {
      BitOfZero(r);
    } else if r > 0 {
      AndPow2(x / 2, r - 1);
    }
  }

  /** The bits from `r` on of a smaller number are clear. */
  lemma {:induction false} BitOfSmall(x: nat, r: nat)
    requires x < Pow2(r)
    ensures !Bit(x, r)
  {
    if r > 0 { BitOfSmall(x / 2, r - 1); }
  }

  lemma {:induction false} BitMask(n: nat, i: nat)
    ensures Bit(Pow2(n) - 1, i) <==> i < n
  {
    if n == 0 {
      BitOfZero(i);
    } else if i > 0 {
      assert (Pow2(n) - 1) / 2 == Pow2(n - 1) - 1;
      BitMask(n - 1, i - 1);
    }
  }

  lemma {:induction false} BitClear(x: nat, j: nat, i: nat)
    ensures Bit(ClearBit(x, j), i) <==> i != j && Bit(x, i)
  {
    if i == 0 || j == 0 {
      if j == 0 && i > 0 {
        assert (x - x % 2) / 2 == x / 2;
      }
    } else {
      BitClear(x / 2, j - 1, i - 1);
    }
  }

  /** A word is determined by its bits. */
  lemma {:induction false} BitsDetermine(a: nat, b: nat)
    requires forall i: nat :: Bit(a, i) <==> Bit(b, i)
    ensures a == b
    decreases a + b
  {
    assert Bit(a, 0) <==> Bit(b, 0);
    if a != 0 || b != 0 {
      forall i: nat ensures Bit(a / 2, i) <==> Bit(b / 2, i) {
        assert Bit(a, i + 1) <==> Bit(b, i + 1);
      }
      BitsDetermine(a / 2, b / 2);
    }
  }
}
