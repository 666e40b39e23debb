/** Unsigned bit operations on natural numbers. */
module Bits {
  function Pow2(n: nat): (r: nat)
    ensures r >= 1
  {
    if n == 0 then 1 else 2 * Pow2(n - 1)
  }

  /** Bitwise and, lowest bit first. */
  function And(x: nat, y: nat): nat
    decreases x + y
  {
    if x == 0 || y == 0 then 0 else 2 * And(x / 2, y / 2) + (x % 2) * (y % 2)
  }

  /** Splitting off the lowest bit of a remainder by a power of two. */
  lemma HalfMod(x: nat, m: nat)
    requires m > 0
    ensures x % (2 * m) == 2 * ((x / 2) % m) + x % 2
  {
    var q := (x / 2) / m;
    var r := 2 * ((x / 2) % m) + x % 2;
    assert x / 2 == q * m + (x / 2) % m;
    assert x == q * (2 * m) + r;
    ModUnique(x, 2 * m, q, r);
  }

  lemma ModUnique(x: int, m: int, q: int, r: int)
    requires m > 0 && 0 <= r < m && x == q * m + r
    ensures x % m == r && x / m == q
  {
    var a, b := x / m, x % m;
    assert x == a * m + b;
    QuotientUnique(m, a, b, q, r);
  }

  lemma QuotientUnique(m: int, a: int, b: int, q: int, r: int)
    requires m > 0 && 0 <= b < m && 0 <= r < m && a * m + b == q * m + r
    ensures a == q && b == r
  {
    if a < q {
      MulAtLeast(q - a, m);
    } else if q < a {
      MulAtLeast(a - q, m);
    }
  }

  lemma MulAtLeast(d: int, m: int)
    requires d >= 1 && m > 0
    ensures d * m >= m
  {
  }

  /** One more mask bit, with the remainders by `m` and `2 * m` named. */
  lemma {:induction false} MaskStep(x: nat, m: nat, low: nat, r: nat)
    requires m > 0 && And(x / 2, m - 1) == low && r == 2 * low + x % 2
    ensures And(x, 2 * m - 1) == r
  {
  }

  /** Masking with one less than a power of two is the remainder by that power. */
  lemma {:induction false} MaskIsMod(x: nat, n: nat)
    ensures And(x, Pow2(n) - 1) == x % Pow2(n)
    decreases n
  {
    if n > 0 {
      MaskIsMod(x / 2, n - 1);
      HalfMod(x, Pow2(n - 1));
      MaskStep(x, Pow2(n - 1), (x / 2) % Pow2(n - 1), x % Pow2(n));
    }
  }

  lemma {:induction false} Pow2Add(a: nat, b: nat)
    ensures Pow2(a + b) == Pow2(a) * Pow2(b)
    decreases b
  {
    if b > 0 {
      Pow2Add(a, b - 1);
    }
  }

  lemma {:induction false} Pow2Grows(a: nat, b: nat)
    requires a <= b
    ensures Pow2(a) <= Pow2(b)
    ensures a < b ==> 2 * Pow2(a) <= Pow2(b)
    decreases b - a
  {
    if a < b {
      Pow2Grows(a, b - 1);
    }
  }
}
