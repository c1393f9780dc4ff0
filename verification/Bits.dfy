/**
 * The highest set bit of a 32-bit word (src/libxively/xi_helpers.c, xi_highest_bit_filter), with words
 * as natural numbers and the bit operations defined bit by bit.
 */
module Bits {
  import opened Common

  function Pow2(k: nat): (p: nat)
    ensures p > 0
  {
    if k == 0 then 1 else 2 * Pow2(k - 1)
  }

  function Or(a: nat, b: nat): (r: nat)
  {
    if a == 0 && b == 0 then 0
    else 2 * Or(a / 2, b / 2) + if a % 2 == 1 || b % 2 == 1 then 1 else 0
  }

  /** a & ~b */
  function AndNot(a: nat, b: nat): (r: nat)
  {
    if a == 0 then 0
    else 2 * AndNot(a / 2, b / 2) + if a % 2 == 1 && b % 2 == 0 then 1 else 0
  }

  function Shr(a: nat, k: nat): (r: nat)
  {
    if k == 0 then a else Shr(a / 2, k - 1)
  }

  const WORD := 0x1_0000_0000

  function HighestBitFilter(value: nat): (r: nat)
  {
    var v := Fill(Fill(Fill(Fill(Fill(value, 1), 2), 4), 8), 16);
    AndNot(v, Shr(v, 1))
  }

  /** value |= value >> s */
  function Fill(value: nat, s: nat): (r: nat)
  {
    Or(value, Shr(value, s))
  }

  // ---------------------------------------------------------------------------------------------
  // Smearing the highest bit downwards

  /** v has k bits, of which the m highest are set. */
  ghost predicate TopOnes(v: nat, k: nat, m: nat)
  {
    m <= k && Shr(v, k - m) == Pow2(m) - 1
  }

  lemma {:induction false} ShrOr(a: nat, b: nat, k: nat)
    ensures Shr(Or(a, b), k) == Or(Shr(a, k), Shr(b, k))
  {
    if k > 0 {
      assert Or(a, b) / 2 == Or(a / 2, b / 2);
      ShrOr(a / 2, b / 2, k - 1);
    }
  }

  lemma {:induction false} ShrShr(a: nat, j: nat, k: nat)
    ensures Shr(Shr(a, j), k) == Shr(a, j + k)
  {
    if j > 0 {
      ShrShr(a / 2, j - 1, k);
    }
  }

  /** Ones from position s up to position n, filled from below by ones up to position a >= s, give all ones. */
  lemma {:induction false} OrFills(x: nat, n: nat, s: nat, a: nat)
    requires s <= a <= n && s <= n && Shr(x, s) == Pow2(n - s) - 1
    ensures Or(x, Pow2(a) - 1) == Pow2(n) - 1
    decreases n
  {
    if s > 0 {
      OrFills(x / 2, n - 1, s - 1, a - 1);
      OrStep(x, n, a);
    } else {
      OrOnes(n, a);
    }
  }

  lemma {:induction false} OrOnes(n: nat, a: nat)
    requires a <= n
    ensures Or(Pow2(n) - 1, Pow2(a) - 1) == Pow2(n) - 1
  {
    if n > 0 {
      OnesHalve(n);
      if a > 0 {
        OrOnes(n - 1, a - 1);
        OrStep(Pow2(n) - 1, n, a);
      } else {
        OrOnes(n - 1, 0);
        OrOdd(Pow2(n) - 1, 0, n);
      }
    }
  }

  lemma OrStep(x: nat, n: nat, a: nat)
    requires n > 0 && a > 0 && Or(x / 2, Pow2(a - 1) - 1) == Pow2(n - 1) - 1
    ensures Or(x, Pow2(a) - 1) == Pow2(n) - 1
  {
    OnesHalve(a);
    OrOdd(x, Pow2(a) - 1, n);
  }

  lemma OnesHalve(k: nat)
    requires k > 0
    ensures (Pow2(k) - 1) / 2 == Pow2(k - 1) - 1 && (Pow2(k) - 1) % 2 == 1
  {
  }

  lemma OrOdd(x: nat, y: nat, n: nat)
    requires n > 0 && Or(x / 2, y / 2) == Pow2(n - 1) - 1 && (x % 2 == 1 || y % 2 == 1)
    ensures Or(x, y) == Pow2(n) - 1
  {
  }

  /** One smearing step at most doubles the number of leading ones. */
  lemma Smear(v: nat, k: nat, m: nat, s: nat)
    requires TopOnes(v, k, m) && s <= m
    ensures TopOnes(Fill(v, s), k, if m + s <= k then m + s else k)
  {
    var n := if m + s <= k then m + s else k;
    var d, a := k - n, m - (s + (k - n) - (k - m));
    ShrOr(v, Shr(v, s), d);
    assert Shr(Shr(v, d), n - m) == Pow2(m) - 1 by { ShrShr(v, d, n - m); }
    assert Shr(Shr(v, s), d) == Pow2(a) - 1 by { ShiftedOnes(v, k, m, s, d); }
    OrFills(Shr(v, d), n, n - m, a);
  }

  lemma ShiftedOnes(v: nat, k: nat, m: nat, s: nat, d: nat)
    requires TopOnes(v, k, m) && k - m <= s + d <= k
    ensures Shr(Shr(v, s), d) == Pow2(k - (s + d)) - 1
  {
    ShrShr(v, s, d);
    ShrShr(v, k - m, s + d - (k - m));
    ShrOnes(m, s + d - (k - m));
  }

  lemma {:induction false} ShrOnes(m: nat, j: nat)
    requires j <= m
    ensures Shr(Pow2(m) - 1, j) == Pow2(m - j) - 1
  {
    if j > 0 {
      assert (Pow2(m) - 1) / 2 == Pow2(m - 1) - 1;
      ShrOnes(m - 1, j - 1);
    }
  }

  lemma {:induction false} TopBit(v: nat, k: nat)
    requires 0 < k && Pow2(k - 1) <= v < Pow2(k)
    ensures TopOnes(v, k, 1)
  {
    if k > 1 {
      TopBit(v / 2, k - 1);
    }
  }

  lemma {:induction false} OnesMinusHalf(k: nat)
    requires k > 0
    ensures AndNot(Pow2(k) - 1, Pow2(k - 1) - 1) == Pow2(k - 1)
  {
    if k > 1 {
      OnesMinusHalf(k - 1);
      assert (Pow2(k) - 1) / 2 == Pow2(k - 1) - 1 && (Pow2(k) - 1) % 2 == 1;
      assert (Pow2(k - 1) - 1) / 2 == Pow2(k - 2) - 1 && (Pow2(k - 1) - 1) % 2 == 1;
    } else {
      assert AndNot(1, 0) == 2 * AndNot(0, 0) + 1;
    }
  }

  /** Of a word with k significant bits, the filter leaves the highest one. */
  lemma HighestBit(v: nat, k: nat)
    requires 0 < k <= 32 && Pow2(k - 1) <= v < Pow2(k)
    ensures HighestBitFilter(v) == Pow2(k - 1)
  {
    TopBit(v, k);
    FirstTwo(v, k);
    AllOnes(Fill(Fill(v, 1), 2), k);
    OnesMinusHalf(k);
    ShrOnes(k, 1);
  }

  /** The first two steps set the four bits from the highest one on. */
  lemma FirstTwo(v: nat, k: nat)
    requires 0 < k && TopOnes(v, k, 1)
    ensures TopOnes(Fill(Fill(v, 1), 2), k, Min(4, k))
  {
    SmearAgain(v, k, 1);
    SmearAgain(Fill(v, 1), k, 2);
  }

  /** The last three steps set all bits below the highest one. */
  lemma AllOnes(v: nat, k: nat)
    requires k <= 32 && TopOnes(v, k, Min(4, k))
    ensures Fill(Fill(Fill(v, 4), 8), 16) == Pow2(k) - 1
  {
    SmearAgain(v, k, 4);
    SmearAgain(Fill(v, 4), k, 8);
    SmearAgain(Fill(Fill(v, 4), 8), k, 16);
  }

  /** A step with shift s on a word whose s highest bits, or all k of them, are set. */
  lemma SmearAgain(v: nat, k: nat, s: nat)
    requires TopOnes(v, k, Min(s, k))
    ensures TopOnes(Fill(v, s), k, Min(2 * s, k))
  {
    if s <= k {
      Smear(v, k, s, s);
    } else {
      assert v == Pow2(k) - 1;
      ShrOnes(k, k);
      ShrShr(v, k, s - k);
      assert Shr(v, s) == 0 by { ShrZero(s - k); }
      OrFills(v, k, 0, 0);
    }
  }

  lemma {:induction false} ShrZero(k: nat)
    ensures Shr(0, k) == 0
  {
    if k > 0 {
      ShrZero(k - 1);
    }
  }

  lemma {:induction false} BitLength(v: nat, bound: nat) returns (k: nat)
    requires 0 < v < Pow2(bound)
    ensures 0 < k <= bound && Pow2(k - 1) <= v < Pow2(k)
  {
    if Pow2(bound - 1) <= v {
      k := bound;
    } else {
      k := BitLength(v, bound - 1);
    }
  }

  lemma {:induction false} Pow2Grows(j: nat, k: nat)
    requires j < k
    ensures 2 * Pow2(j) <= Pow2(k)
  {
    if j + 1 < k {
      Pow2Grows(j, k - 1);
    }
  }
}
