/** Integer bit operations of the host language on unbounded two's-complement
    integers, and the powers-of-two arithmetic they amount to. */
module Bits {

  function Pow2(n: nat): (p: nat)
    ensures p >= 1
  {
    if n == 0 then 1 else 2 * Pow2(n - 1)
  }

  lemma {:induction false} Pow2Less(a: nat, b: nat)
    requires a < b
    ensures 2 * Pow2(a) <= Pow2(b)
    decreases b
  {
    if a + 1 < b {
      Pow2Less(a, b - 1);
    }
  }

  lemma {:induction false} Pow2Sum(a: nat, b: nat)
    ensures Pow2(a + b) == Pow2(a) * Pow2(b)
  {
    if a > 0 {
      Pow2Sum(a - 1, b);
    }
  }

  /** `x >> k`: arithmetic shift, one bit at a time (Dafny's division by 2
      rounds towards minus infinity, as the host's shift does). */
  function ShiftRight(x: int, k: nat): int
    decreases k
  {
    if k == 0 then x else ShiftRight(x / 2, k - 1)
  }

  /** `x & y` for a non-negative `y`; `x` may be negative. */
  function And(x: int, y: nat): nat
    decreases y
  {
    if y == 0 then 0 else (if x % 2 == 1 && y % 2 == 1 then 1 else 0) + 2 * And(x / 2, y / 2)
  }

  /** `x | y` for non-negative operands. */
  function Or(x: nat, y: nat): nat
    decreases x + y
  {
    if x == 0 && y == 0 then 0
    else (if x % 2 == 1 || y % 2 == 1 then 1 else 0) + 2 * Or(x / 2, y / 2)
  }

  /** `x ^ y` for non-negative operands. */
  function Xor(x: nat, y: nat): nat
    decreases x + y
  {
    if x == 0 && y == 0 then 0
    else (if x % 2 != y % 2 then 1 else 0) + 2 * Xor(x / 2, y / 2)
  }

  /** `~x` */
  function Not(x: int): int {
    -x - 1
  }

  /** `x.bit_length()` for a non-negative integer. */
  function BitLength(x: nat): nat {
    if x == 0 then 0 else 1 + BitLength(x / 2)
  }

  lemma {:induction false} BitLengthBounds(x: nat)
    requires x > 0
    ensures BitLength(x) > 0 && Pow2(BitLength(x) - 1) <= x < Pow2(BitLength(x))
  {
    if x > 1 {
      BitLengthBounds(x / 2);
    }
  }

  lemma {:induction false} BitLengthOfOnes(k: nat)
    ensures BitLength(Pow2(k) - 1) == k
  {
    if k > 0 {
      BitLengthOfOnes(k - 1);
      assert (Pow2(k) - 1) / 2 == Pow2(k - 1) - 1;
    }
  }

  // ----- multiples of a power of two -----

  /** The low `k` bits of `x` are zero. */
  ghost predicate Aligned(x: int, k: nat)
    decreases k
  {
    k == 0 || (x % 2 == 0 && Aligned(x / 2, k - 1))
  }

  /** `x` with its low `k` bits cleared: the largest multiple of 2^k not above `x`. */
  function Clear(x: int, k: nat): int
    decreases k
  {
    if k == 0 then x else 2 * Clear(x / 2, k - 1)
  }

  /** The low k bits are zero exactly when 2^k divides the number. */
  lemma {:induction false} AlignedIsDivisible(x: int, k: nat)
    ensures Aligned(x, k) <==> x % Pow2(k) == 0
    decreases k
  {
    if k > 0 {
      AlignedIsDivisible(x / 2, k - 1);
      DoubleMod(x, Pow2(k - 1));
    }
  }

  lemma DoubleMod(x: int, p: nat)
    requires p > 0
    ensures x % (2 * p) == 2 * ((x / 2) % p) + x % 2
  {
    var q, r := (x / 2) / p, (x / 2) % p;
    assert x == (2 * p) * q + (2 * r + x % 2) by {
      assert x / 2 == p * q + r;
      assert (2 * p) * q == 2 * (p * q);
    }
    ModUnique(x, 2 * p, q, 2 * r + x % 2);
  }

  lemma ModUnique(x: int, d: nat, q: int, r: nat)
    requires d > 0 && r < d && x == d * q + r
    ensures x % d == r && x / d == q
  {
    var q', r' := x / d, x % d;
    MulSpread(d, q - q');
    assert d * (q - q') == r' - r;
  }

  lemma MulSpread(d: nat, m: int)
    ensures m >= 1 ==> d * m >= d
    ensures m <= -1 ==> d * m + d <= 0
  {
  }

  lemma {:induction false} ClearBounds(x: int, k: nat)
    ensures Aligned(Clear(x, k), k)
    ensures Clear(x, k) <= x < Clear(x, k) + Pow2(k)
    decreases k
  {
    if k > 0 {
      ClearBounds(x / 2, k - 1);
    }
  }

  /** Two multiples of 2^k are equal or at least 2^k apart. */
  lemma {:induction false} AlignedGap(x: int, y: int, k: nat)
    requires Aligned(x, k) && Aligned(y, k) && x < y
    ensures x + Pow2(k) <= y
    decreases k
  {
    if k > 0 {
      AlignedGap(x / 2, y / 2, k - 1);
    }
  }

  lemma {:induction false} AlignedWeaken(x: int, j: nat, k: nat)
    requires j <= k && Aligned(x, k)
    ensures Aligned(x, j)
    decreases k
  {
    if j > 0 {
      AlignedWeaken(x / 2, j - 1, k - 1);
    }
  }

  lemma {:induction false} AlignedSum(x: int, y: int, k: nat)
    requires Aligned(x, k) && Aligned(y, k)
    ensures Aligned(x + y, k) && Aligned(x - y, k)
    decreases k
  {
    if k > 0 {
      AlignedSum(x / 2, y / 2, k - 1);
      assert (x + y) / 2 == x / 2 + y / 2 && (x - y) / 2 == x / 2 - y / 2;
    }
  }

  lemma {:induction false} AlignedPow2(j: nat, k: nat)
    requires j <= k
    ensures Aligned(Pow2(k), j)
    decreases j
  {
    if j > 0 {
      AlignedPow2(j - 1, k - 1);
      assert Pow2(k) / 2 == Pow2(k - 1) && Pow2(k) % 2 == 0;
    }
  }

  lemma {:induction false} AlignedZero(k: nat)
    ensures Aligned(0, k)
  {
    if k > 0 {
      AlignedZero(k - 1);
    }
  }

  /** A number aligned to 2^k but not to 2^(k+1) is an odd multiple of 2^k. */
  lemma {:induction false} AlignedStep(x: int, k: nat)
    requires Aligned(x, k) && !Aligned(x, k + 1)
    ensures Aligned(x - Pow2(k), k + 1) && Aligned(x + Pow2(k), k + 1)
    decreases k
  {
    if k > 0 {
      AlignedStep(x / 2, k - 1);
      assert (x - Pow2(k)) / 2 == x / 2 - Pow2(k - 1);
      assert (x + Pow2(k)) / 2 == x / 2 + Pow2(k - 1);
    }
  }

  /** A non-zero number below 2^w is not aligned to 2^w. */
  lemma AlignedSmall(x: nat, w: nat)
    requires Aligned(x, w) && x < Pow2(w)
    ensures x == 0
  {
    AlignedZero(w);
    if x > 0 {
      AlignedGap(0, x, w);
    }
  }

  lemma ClearUnique(x: int, y: int, k: nat)
    requires Aligned(y, k) && y <= x < y + Pow2(k)
    ensures Clear(x, k) == y
  {
    ClearBounds(x, k);
    if Clear(x, k) < y {
      AlignedGap(Clear(x, k), y, k);
    } else if y < Clear(x, k) {
      AlignedGap(y, Clear(x, k), k);
    }
  }

  // ----- the bit operations as arithmetic -----

  /** Masking with the ones of bit positions k..m-1 clears the low k bits. */
  lemma {:induction false} AndMask(x: nat, m: nat, k: nat)
    requires k <= m && x < Pow2(m)
    ensures Pow2(k) <= Pow2(m)
    ensures And(x, Pow2(m) - Pow2(k)) == Clear(x, k)
    decreases m
  {
    if k < m {
      Pow2Less(k, m);
      var y := Pow2(m) - Pow2(k);
      if k > 0 {
        AndMask(x / 2, m - 1, k - 1);
        HalveDifference(m, k);
        assert y % 2 == 0 && y / 2 == Pow2(m - 1) - Pow2(k - 1);
      } else {
        AndMask(x / 2, m - 1, 0);
        assert y % 2 == 1 && y / 2 == Pow2(m - 1) - 1;
      }
    } else {
      ClearOfSmall(x, k);
    }
  }

  lemma HalveDifference(m: nat, k: nat)
    requires m > 0 && k > 0
    ensures (Pow2(m) - Pow2(k)) % 2 == 0
    ensures (Pow2(m) - Pow2(k)) / 2 == Pow2(m - 1) - Pow2(k - 1)
  {
  }

  lemma {:induction false} ClearOfSmall(x: nat, k: nat)
    requires x < Pow2(k)
    ensures Clear(x, k) == 0
    decreases k
  {
    if k > 0 {
      ClearOfSmall(x / 2, k - 1);
    }
  }

  /** Or-ing the low k ones into a multiple of 2^k adds them. */
  lemma OrOnes(x: nat, k: nat)
    requires Aligned(x, k)
    ensures Or(x, Pow2(k) - 1) == x + (Pow2(k) - 1)
  {
    OrDisjoint(x, Pow2(k) - 1, k);
  }

  /** `x << k` */
  function ShiftLeft(x: nat, k: nat): nat {
    x * Pow2(k)
  }

  lemma {:induction false} ShiftLeftAligned(x: nat, k: nat)
    ensures Aligned(ShiftLeft(x, k), k)
  {
    if k > 0 {
      ShiftLeftAligned(x, k - 1);
      assert x * Pow2(k) == 2 * (x * Pow2(k - 1));
    }
  }

  /** Or-ing a k-bit number into a multiple of 2^k adds it. */
  lemma {:induction false} OrDisjoint(x: nat, y: nat, k: nat)
    requires Aligned(x, k) && y < Pow2(k)
    ensures Or(x, y) == x + y
    decreases k, x
  {
    if k > 0 {
      OrDisjoint(x / 2, y / 2, k - 1);
    } else if x > 0 {
      AlignedTrivial(x / 2);
      OrDisjoint(x / 2, 0, 0);
    }
  }

  lemma AlignedTrivial(x: int)
    ensures Aligned(x, 0)
  {
  }

  /** Flipping the low w bits of x < 2^w subtracts it from the all-ones value. */
  lemma {:induction false} XorOnes(x: nat, w: nat)
    requires x < Pow2(w)
    ensures Xor(Pow2(w) - 1, x) == Pow2(w) - 1 - x && Xor(x, Pow2(w) - 1) == Pow2(w) - 1 - x
    decreases w
  {
    if w > 0 {
      XorOnes(x / 2, w - 1);
      assert (Pow2(w) - 1) / 2 == Pow2(w - 1) - 1;
    }
  }

  lemma {:induction false} ShiftRightOnes(w: nat, k: nat)
    requires k <= w
    ensures ShiftRight(Pow2(w) - 1, k) == Pow2(w - k) - 1
    decreases k
  {
    if k > 0 {
      ShiftRightOnes(w - 1, k - 1);
      assert (Pow2(w) - 1) / 2 == Pow2(w - 1) - 1;
    }
  }

  /** `~x & (x - 1)` turns the k trailing zero bits of x into k ones and clears the rest. */
  lemma {:induction false} TrailingZeroMask(x: nat, k: nat)
    requires x > 0 && Aligned(x, k) && !Aligned(x, k + 1)
    ensures And(Not(x), x - 1) == Pow2(k) - 1
    decreases k
  {
    if k > 0 {
      TrailingZeroMask(x / 2, k - 1);
      assert Not(x) / 2 == Not(x / 2) && (x - 1) / 2 == x / 2 - 1;
    } else {
      assert x % 2 == 1;
      AndComplement(x / 2);
      assert Not(x) / 2 == Not(x / 2) && (x - 1) / 2 == x / 2;
    }
  }

  lemma {:induction false} AndComplement(x: nat)
    ensures And(Not(x), x) == 0
  {
    if x > 0 {
      AndComplement(x / 2);
      assert Not(x) / 2 == Not(x / 2);
    }
  }
}
