/** Subset bit masks as the tour optimiser uses them: `1 << k`, `s & (1 << k)`,
    `s | (1 << k)` and `s ^ (1 << k)` on non-negative Java ints, written as
    arithmetic on `nat` so that masks can index arrays directly. */
module Bits {

  /** `1 << k` */
  function Pow2(k: nat): (r: nat)
    ensures r >= 1
  {
    if k == 0 then 1 else 2 * Pow2(k - 1)
  }

  /** `(s & (1 << k)) != 0` */
  predicate HasBit(s: nat, k: nat)
  {
    if k == 0 then s % 2 == 1 else HasBit(s / 2, k - 1)
  }

  lemma {:induction false} Pow2Monotone(j: nat, k: nat)
    requires j < k
    ensures 2 * Pow2(j) <= Pow2(k)
  {
    if j + 1 < k {
      Pow2Monotone(j, k - 1);
    }
  }

  /** Bit 0 is the parity bit. */
  lemma OddHasBitZero(s: nat)
    ensures HasBit(s, 0) <==> s % 2 == 1
  {
  }

  /** Setting a clear bit `k` (`s | (1 << k)` when the bit is clear) is adding
      `1 << k`: bit `k` becomes set and no other bit changes. */
  lemma {:induction false} SetBit(s: nat, k: nat)
    requires !HasBit(s, k)
    ensures forall j: nat {:trigger HasBit(s + Pow2(k), j)} ::
      HasBit(s + Pow2(k), j) <==> (j == k || HasBit(s, j))
  {
    forall j: nat ensures HasBit(s + Pow2(k), j) <==> (j == k || HasBit(s, j)) {
      SetBitAt(s, k, j);
    }
  }

  lemma {:induction false} SetBitAt(s: nat, k: nat, j: nat)
    requires !HasBit(s, k)
    ensures HasBit(s + Pow2(k), j) <==> (j == k || HasBit(s, j))
  {
    if k == 0 {
      if j > 0 {
        assert (s + 1) / 2 == s / 2;
      }
    } else {
      assert (s + Pow2(k)) % 2 == s % 2;
      if j > 0 {
        assert (s + Pow2(k)) / 2 == s / 2 + Pow2(k - 1);
        SetBitAt(s / 2, k - 1, j - 1);
      }
    }
  }

  /** A set bit `k` is worth at least `1 << k`. */
  lemma {:induction false} BitBound(s: nat, k: nat)
    requires HasBit(s, k)
    ensures s >= Pow2(k)
  {
    if k > 0 {
      BitBound(s / 2, k - 1);
    }
  }

  /** Clearing a set bit `k` (`s ^ (1 << k)` when the bit is set) is
      subtracting `1 << k`: bit `k` becomes clear and no other bit changes. */
  lemma {:induction false} ClearBit(s: nat, k: nat)
    requires HasBit(s, k)
    ensures s >= Pow2(k)
    ensures forall j: nat {:trigger HasBit(s - Pow2(k), j)} ::
      HasBit(s - Pow2(k), j) <==> (j != k && HasBit(s, j))
  {
    BitBound(s, k);
    var t: nat := s - Pow2(k);
    forall j: nat ensures HasBit(t, j) <==> (j != k && HasBit(s, j)) {
      ClearBitAt(s, k, j);
    }
  }

  lemma {:induction false} ClearBitAt(s: nat, k: nat, j: nat)
    requires HasBit(s, k)
    ensures s >= Pow2(k)
    ensures HasBit(s - Pow2(k), j) <==> (j != k && HasBit(s, j))
  {
    BitBound(s, k);
    if k == 0 {
      if j > 0 {
        assert (s - 1) / 2 == s / 2;
      }
    } else {
      assert (s - Pow2(k)) % 2 == s % 2;
      if j > 0 {
        assert (s - Pow2(k)) / 2 == s / 2 - Pow2(k - 1);
        ClearBitAt(s / 2, k - 1, j - 1);
      }
    }
  }

  /** A mask below `1 << n` has no bit at or above `n`. */
  lemma {:induction false} NoHighBits(s: nat, n: nat, j: nat)
    requires s < Pow2(n) && j >= n
    ensures !HasBit(s, j)
  {
    if n == 0 {
      assert s == 0;
      ZeroHasNoBits(j);
    } else if j > 0 {
      NoHighBits(s / 2, n - 1, j - 1);
    }
  }

  lemma {:induction false} ZeroHasNoBits(j: nat)
    ensures !HasBit(0, j)
  {
    if j > 0 {
      ZeroHasNoBits(j - 1);
    }
  }

  /** `(1 << n) - 1` has exactly the bits `0 .. n-1`. */
  lemma {:induction false} FullMask(n: nat, j: nat)
    ensures HasBit(Pow2(n) - 1, j) <==> j < n
  {
    if n == 0 {
      ZeroHasNoBits(j);
    } else if j > 0 {
      assert (Pow2(n) - 1) / 2 == Pow2(n - 1) - 1;
      FullMask(n - 1, j - 1);
    }
  }

  /** Setting a clear bit below `n` keeps a mask below `1 << n`. */
  lemma {:induction false} SetBitBound(s: nat, k: nat, n: nat)
    requires s < Pow2(n) && k < n && !HasBit(s, k)
    ensures s + Pow2(k) < Pow2(n)
  {
    if k == 0 {
      assert s % 2 == 0;
    } else {
      SetBitBound(s / 2, k - 1, n - 1);
    }
  }

  /** Two masks with the same bits are the same number. */
  lemma {:induction false} SameBits(a: nat, b: nat)
    requires forall j: nat :: HasBit(a, j) == HasBit(b, j)
    ensures a == b
    decreases a + b
  {
    assert HasBit(a, 0) == HasBit(b, 0);
    if a + b > 0 {
      forall j: nat ensures HasBit(a / 2, j) == HasBit(b / 2, j) {
        assert HasBit(a, j + 1) == HasBit(b, j + 1);
      }
      SameBits(a / 2, b / 2);
    }
  }
}
