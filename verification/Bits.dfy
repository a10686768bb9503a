/** The bit operations of `bigint` on non-negative numbers, and what they compute. */
module Bits {
  function Pow2(n: nat): (p: nat)
    ensures 0 < p
  {
    if n == 0 then 1 else 2 * Pow2(n - 1)
  }

  function And(a: nat, b: nat): nat {
    if a == 0 || b == 0 then 0 else 2 * And(a / 2, b / 2) + (a % 2) * (b % 2)
  }

  function Or(a: nat, b: nat): nat {
    if a == 0 then b else if b == 0 then a
    else 2 * Or(a / 2, b / 2) + (if a % 2 == 1 || b % 2 == 1 then 1 else 0)
  }

  function Xor(a: nat, b: nat): nat {
    if a == 0 then b else if b == 0 then a
    else 2 * Xor(a / 2, b / 2) + (if a % 2 != b % 2 then 1 else 0)
  }

  function ShiftLeft(a: nat, n: nat): nat {
    a * Pow2(n)
  }

  function ShiftRight(a: nat, n: nat): nat {
    if n == 0 then a else ShiftRight(a / 2, n - 1)
  }

  // ---------- Division ----------

  lemma AtLeastOnce(m: int, d: int)
    requires 0 < m && 1 <= d
    ensures m <= m * d
  {
    assert m * d == m + m * (d - 1);
    assert 0 <= m * (d - 1);
  }

  lemma DivModIs(a: int, m: int, q: int, r: int)
    requires a == m * q + r && 0 <= r < m
    ensures a / m == q && a % m == r
  {
    var q1, r1 := a / m, a % m;
    var d, e := q - q1, q1 - q;
    assert m * q == m * q1 + m * d && m * q1 == m * q + m * e;
    assert m * d == r1 - r && m * e == r - r1;
    if d >= 1 { AtLeastOnce(m, d); }
    if e >= 1 { AtLeastOnce(m, e); }
  }

  /** Dividing by an even number: halve first. */
  lemma HalveFirst(a: nat, m: nat)
    requires 0 < m
    ensures a / (2 * m) == (a / 2) / m
    ensures a % (2 * m) == 2 * ((a / 2) % m) + a % 2
  {
    var h := a / 2;
    var q, r := h / m, h % m;
    var p := m * q;
    assert h == p + r;
    assert (2 * m) * q == 2 * p;
    DivModIs(a, 2 * m, q, 2 * r + a % 2);
  }

  lemma {:induction false} ShiftRightDivides(a: nat, n: nat)
    ensures ShiftRight(a, n) == a / Pow2(n)
    decreases n
  {
    if n > 0 {
      ShiftRightDivides(a / 2, n - 1);
      HalveFirst(a, Pow2(n - 1));
    }
  }

  lemma {:induction false} Pow2Adds(m: nat, n: nat)
    ensures Pow2(m + n) == Pow2(m) * Pow2(n)
  {
    if m > 0 {
      Pow2Adds(m - 1, n);
      assert Pow2(m + n) == 2 * Pow2(m + n - 1);
    }
  }

  lemma {:induction false} Pow2Grows(m: nat, n: nat)
    requires m <= n
    ensures Pow2(m) <= Pow2(n)
  {
    if m < n { Pow2Grows(m, n - 1); }
  }

  // ---------- Masks ----------

  /** The low mask keeps the remainder. */
  lemma {:induction false} AndLowMask(a: nat, k: nat)
    ensures And(a, Pow2(k) - 1) == a % Pow2(k)
    decreases k
  {
    if k > 0 {
      var half := Pow2(k - 1);
      assert (Pow2(k) - 1) / 2 == half - 1 && (Pow2(k) - 1) % 2 == 1;
      AndLowMask(a / 2, k - 1);
      HalveFirst(a, half);
    }
  }

  lemma AndEven(a: nat, b: nat)
    ensures And(a, 2 * b) == 2 * And(a / 2, b)
  {
    assert (2 * b) / 2 == b && (2 * b) % 2 == 0;
  }

  lemma HighMaskStep(a: nat, big: nat, half: nat)
    requires 0 < half <= big && And(a / 2, big - half) == a / 2 - (a / 2) % half
    ensures And(a, 2 * big - 2 * half) == a - a % (2 * half)
  {
    hide And;
    AndEven(a, big - half);
    assert 2 * (big - half) == 2 * big - 2 * half;
    HalveFirst(a, half);
  }

  /** The high mask of an `n`-bit word clears the low `k` bits. */
  lemma {:induction false} AndHighMask(a: nat, n: nat, k: nat)
    requires k <= n && a < Pow2(n)
    ensures Pow2(k) <= Pow2(n) && And(a, Pow2(n) - Pow2(k)) == a - a % Pow2(k)
    decreases k
  {
    hide And;
    Pow2Grows(k, n);
    if k == 0 {
      AndLowMask(a, n);
      DivModIs(a, Pow2(n), 0, a);
    } else {
      Pow2Grows(k - 1, n - 1);
      AndHighMask(a / 2, n - 1, k - 1);
      HighMaskStep(a, Pow2(n - 1), Pow2(k - 1));
    }
  }

  /** Complementing the high mask gives the low mask. */
  lemma {:induction false} XorMasks(n: nat, k: nat)
    requires k <= n
    ensures Pow2(k) <= Pow2(n) && Xor(Pow2(n) - 1, Pow2(n) - Pow2(k)) == Pow2(k) - 1
  {
    hide Xor;
    Pow2Grows(k, n);
    if k == 0 {
      XorSelf(Pow2(n) - 1);
    } else {
      Pow2Grows(k - 1, n - 1);
      XorMasks(n - 1, k - 1);
      XorStep(Pow2(n - 1), Pow2(k - 1));
    }
  }

  lemma XorStep(big: nat, half: nat)
    requires 0 < half <= big
    ensures Xor(2 * big - 1, 2 * big - 2 * half) == 2 * Xor(big - 1, big - half) + 1
  {
    assert (2 * big - 1) / 2 == big - 1 && (2 * big - 1) % 2 == 1;
    assert (2 * big - 2 * half) / 2 == big - half && (2 * big - 2 * half) % 2 == 0;
  }

  lemma {:induction false} XorSelf(a: nat)
    ensures Xor(a, a) == 0
  {
    if a > 0 { XorSelf(a / 2); }
  }

  /** Numbers with no bit in common: their disjunction is their sum. */
  lemma {:induction false} OrDisjoint(a: nat, b: nat, k: nat)
    requires a % Pow2(k) == 0 && b < Pow2(k)
    ensures Or(a, b) == a + b
    decreases k
  {
    if k > 0 && a > 0 && b > 0 {
      var half := Pow2(k - 1);
      HalveFirst(a, half);
      OrDisjoint(a / 2, b / 2, k - 1);
    }
  }

  lemma OnesTimes(m: nat, x: nat)
    requires 0 < x <= m
    ensures 0 <= (m - 1) * x && ((m - 1) * x) % m == m - x
  {
    var mx := m * x;
    assert (m - 1) * x == mx - x;
    assert m * (x - 1) == mx - m;
    DivModIs(mx - x, m, x - 1, m - x);
    AtLeastOnce(x, m);
    assert x * m == mx;
  }

  /** A word of `n` ones, moved up by `k` and cut to `n` bits. */
  lemma ShiftedOnes(n: nat, k: nat)
    requires k <= n
    ensures Pow2(k) <= Pow2(n)
    ensures And(ShiftLeft(Pow2(n) - 1, k), Pow2(n) - 1) == Pow2(n) - Pow2(k)
  {
    hide And, Pow2;
    Pow2Grows(k, n);
    OnesTimes(Pow2(n), Pow2(k));
    AndLowMask(ShiftLeft(Pow2(n) - 1, k), n);
  }
}
