/** Bitwise arithmetic on integers in two's complement, as the two languages define it. */
module Bits {

  function Pow2(k: nat): (p: int)
    ensures p >= 1
  {
    if k == 0 then 1 else 2 * Pow2(k - 1)
  }

  // a >> k: halving k times, rounding down.
  function Shr(a: int, k: nat): int
    decreases k
  {
    if k == 0 then a else Shr(a / 2, k - 1)
  }

  /** The low `k` bits. */
  function Low(a: int, k: nat): int
    decreases k
  {
    if k == 0 then 0 else 2 * Low(a / 2, k - 1) + a % 2
  }

  predicate BitSet(a: int, k: nat) {
    Shr(a, k) % 2 == 1
  }

  // a & b, on integers of unbounded width.
  function And(a: int, b: int): int
    decreases if b < 0 then -b else b
  {
    if b == 0 then 0
    else if b == -1 then a
    else 2 * And(a / 2, b / 2) + (if a % 2 == 1 && b % 2 == 1 then 1 else 0)
  }

  // a | b.
  function Or(a: nat, b: nat): nat {
    if a == 0 then b
    else if b == 0 then a
    else 2 * Or(a / 2, b / 2) + (if a % 2 == 1 || b % 2 == 1 then 1 else 0)
  }

  lemma AndUnfold(a: int, b: int)
    ensures And(a, b) == 2 * And(a / 2, b / 2) + (if a % 2 == 1 && b % 2 == 1 then 1 else 0)
  {}

  lemma {:induction false} AndBounds(a: int, b: int)
    requires a >= 0 || b >= 0
    ensures And(a, b) >= 0
    ensures a >= 0 ==> And(a, b) <= a
    decreases if b < 0 then -b else b
  {
    if b != 0 && b != -1 {
      AndBounds(a / 2, b / 2);
    }
  }

  lemma {:induction false} AndExtremes(b: int)
    ensures And(0, b) == 0 && And(-1, b) == b
    decreases if b < 0 then -b else b
  {
    if b != 0 && b != -1 {
      AndExtremes(b / 2);
    }
  }

  lemma Halves(half: int, bit: int)
    requires 0 <= bit <= 1
    ensures (2 * half + bit) / 2 == half && (2 * half + bit) % 2 == bit
  {}

  /** A bit of a conjunction is set when it is set in both. */
  lemma {:induction false} AndBit(a: int, b: int, k: nat)
    ensures BitSet(And(a, b), k) <==> BitSet(a, k) && BitSet(b, k)
    decreases k
  {
    AndUnfold(a, b);
    Halves(And(a / 2, b / 2), if a % 2 == 1 && b % 2 == 1 then 1 else 0);
    if k > 0 {
      AndBit(a / 2, b / 2, k - 1);
    }
  }

  /** Testing one bit with a mask of one bit. */
  lemma {:induction false} AndOneBit(a: int, k: nat)
    ensures And(a, Pow2(k)) != 0 <==> BitSet(a, k)
    decreases k
  {
    AndUnfold(a, Pow2(k));
    if k > 0 {
      AndOneBit(a / 2, k - 1);
      assert Pow2(k) / 2 == Pow2(k - 1);
    }
  }

  lemma DoubleProduct(x: int, p: int)
    ensures x * (2 * p) == 2 * (x * p)
  {}

  lemma {:induction false} LowAndShr(a: int, k: nat)
    ensures 0 <= Low(a, k) < Pow2(k)
    ensures a == Shr(a, k) * Pow2(k) + Low(a, k)
    decreases k
  {
    if k > 0 {
      LowAndShr(a / 2, k - 1);
      DoubleProduct(Shr(a, k), Pow2(k - 1));
    }
  }

  /** Adding a multiple of the power splits off again. */
  lemma {:induction false} ShrOfSum(q: int, r: int, k: nat)
    requires 0 <= r < Pow2(k)
    ensures Shr(q * Pow2(k) + r, k) == q && Low(q * Pow2(k) + r, k) == r
    decreases k
  {
    if k > 0 {
      DoubleProduct(q, Pow2(k - 1));
      ShrOfSum(q, r / 2, k - 1);
      assert (q * Pow2(k) + r) / 2 == q * Pow2(k - 1) + r / 2;
    }
  }

  lemma SmallShr(a: int, k: nat)
    requires 0 <= a < Pow2(k)
    ensures Shr(a, k) == 0 && Low(a, k) == a
  {
    ShrOfSum(0, a, k);
  }

  /** The top bit of a `k + 1`-bit number decides which half it is in. */
  lemma {:induction false} TopBit(a: int, k: nat)
    requires 0 <= a < Pow2(k + 1)
    ensures BitSet(a, k) <==> a >= Pow2(k)
    decreases k
  {
    if k > 0 {
      TopBit(a / 2, k - 1);
    }
  }

  lemma {:induction false} ShrNarrows(a: int, k: nat, width: nat)
    requires 0 <= a < Pow2(width)
    ensures 0 <= Shr(a, k) < Pow2(width)
    ensures k > 0 && width > 0 ==> Shr(a, k) < Pow2(width - 1)
    decreases k
  {
    if k > 0 {
      if width > 0 { ShrNarrows(a / 2, k - 1, width - 1); } else { ShrNarrows(a / 2, k - 1, 0); }
    }
  }

  lemma {:induction false} ShrKeepsSign(a: int, k: nat)
    ensures a < 0 <==> Shr(a, k) < 0
    decreases k
  {
    if k > 0 {
      ShrKeepsSign(a / 2, k - 1);
    }
  }

  /** Shifting past bits that were added above them. */
  lemma {:induction false} ShrBelow(x: int, h: int, width: nat, k: nat)
    requires k <= width
    ensures Shr(x + h * Pow2(width), k) == Shr(x, k) + h * Pow2(width - k)
    decreases k
  {
    if k > 0 {
      DoubleProduct(h, Pow2(width - 1));
      assert (x + h * Pow2(width)) / 2 == x / 2 + h * Pow2(width - 1);
      ShrBelow(x / 2, h, width - 1, k - 1);
    }
  }

  lemma {:induction false} PowMonotone(j: nat, k: nat)
    requires j <= k
    ensures Pow2(j) <= Pow2(k)
    decreases k - j
  {
    if j < k {
      PowMonotone(j, k - 1);
    }
  }

  lemma PowerOfByte(k: nat)
    ensures Pow2(k + 8) == 256 * Pow2(k)
  {
    assert Pow2(k + 4) == 2 * Pow2(k + 3) == 4 * Pow2(k + 2) == 8 * Pow2(k + 1) == 16 * Pow2(k);
    assert Pow2(k + 8) == 2 * Pow2(k + 7) == 4 * Pow2(k + 6) == 8 * Pow2(k + 5) == 16 * Pow2(k + 4);
  }

  /** Or-ing bits into the zeros below a multiple of a power is addition. */
  lemma {:induction false} OrBelow(q: nat, r: nat, k: nat)
    requires r < Pow2(k)
    ensures 0 <= q * Pow2(k)
    ensures Or(q * Pow2(k), r) == q * Pow2(k) + r
    decreases k
  {
    if k > 0 {
      DoubleProduct(q, Pow2(k - 1));
      OrBelow(q, r / 2, k - 1);
      assert (q * Pow2(k)) / 2 == q * Pow2(k - 1);
    }
  }

  lemma {:induction false} OrCommutes(a: nat, b: nat)
    ensures Or(a, b) == Or(b, a)
    decreases a
  {
    if a != 0 && b != 0 {
      OrCommutes(a / 2, b / 2);
    }
  }

  lemma {:induction false} PowSum(j: nat, k: nat)
    ensures Pow2(j + k) == Pow2(j) * Pow2(k)
    decreases k
  {
    if k > 0 {
      PowSum(j, k - 1);
      DoubleProduct(Pow2(j), Pow2(k - 1));
    }
  }

  // ------------------------------------------------------------------ numbers bit by bit

  lemma {:induction false} ShrSum(a: int, j: nat, k: nat)
    ensures Shr(a, j + k) == Shr(Shr(a, j), k)
    decreases j
  {
    if j > 0 { ShrSum(a / 2, j - 1, k); }
  }

  predicate SameBits(x: int, y: int, k: nat) {
    BitSet(x, k) == BitSet(y, k)
  }

  function Distance(x: int): nat {
    if x < 0 then -x else x
  }

  /** Two numbers with the same bits, of all heights, are the same. */
  lemma {:induction false} BitsDetermine(x: int, y: int)
    requires forall k: nat :: SameBits(x, y, k)
    ensures x == y
    decreases Distance(x) + Distance(y)
  {
    assert SameBits(x, y, 0);
    if !(-1 <= x <= 0 && -1 <= y <= 0) {
      forall k: nat ensures SameBits(x / 2, y / 2, k) {
        assert SameBits(x, y, k + 1);
      }
      BitsDetermine(x / 2, y / 2);
    }
  }

  /** All ones, or all zeros. */
  function Alike(ones: bool): int {
    if ones then -1 else 0
  }

  lemma {:induction false} BitOfAlike(ones: bool, k: nat)
    ensures BitSet(Alike(ones), k) == ones
    decreases k
  {
    if k > 0 { BitOfAlike(ones, k - 1); }
  }

  /** Above its width a number has no bits. */
  lemma HighBits(x: int, width: nat, k: nat)
    requires 0 <= x < Pow2(width) && k >= width
    ensures !BitSet(x, k)
  {
    ShrSum(x, width, k - width);
    SmallShr(x, width);
    BitOfAlike(false, k - width);
  }

  /** Lowered by the power, a number keeps its bits and has ones above them. */
  lemma LoweredBits(x: int, width: nat, k: nat)
    requires 0 <= x < Pow2(width)
    ensures BitSet(x - Pow2(width), k) <==> k >= width || BitSet(x, k)
  {
    if k < width {
      ShrBelow(x, -1, width, k);
    } else {
      ShrSum(x - Pow2(width), width, k - width);
      ShrOfSum(-1, x, width);
      BitOfAlike(true, k - width);
    }
  }

  lemma {:induction false} BitOfPower(i: nat, k: nat)
    ensures BitSet(Pow2(i), k) <==> k == i
    decreases k
  {
    if k == 0 {
    } else if i == 0 {
      BitOfAlike(false, k - 1);
    } else {
      BitOfPower(i - 1, k - 1);
      assert Pow2(i) / 2 == Pow2(i - 1);
    }
  }

  /** Ones everywhere from `k` on, or zeros everywhere. */
  lemma HighBitsAlike(x: int, k: nat, ones: bool)
    ensures Shr(x, k) == Alike(ones) <==> forall i: nat :: i >= k ==> BitSet(x, i) == ones
  {
    if Shr(x, k) == Alike(ones) {
      forall i: nat | i >= k ensures BitSet(x, i) == ones {
        ShrSum(x, k, i - k);
        BitOfAlike(ones, i - k);
      }
    }
    if forall i: nat :: i >= k ==> BitSet(x, i) == ones {
      forall i: nat ensures SameBits(Shr(x, k), Alike(ones), i) {
        ShrSum(x, k, i);
        BitOfAlike(ones, i);
        assert BitSet(x, k + i) == ones;
      }
      BitsDetermine(Shr(x, k), Alike(ones));
    }
  }

  // ------------------------------------------------------------------ words of a fixed width

  /** What a word of `width` bits keeps of a shift to the left. */
  function Shl(a: nat, k: nat, width: nat): int {
    Low(a * Pow2(k), width)
  }

  /** Reading the low `width` bits as a signed number. */
  function TwosComplement(raw: nat, width: nat): int
    requires width > 0
  {
    if raw >= Pow2(width - 1) then raw - Pow2(width) else raw
  }

  lemma OnesTimes(p: int, all: int, q: int)
    ensures (all - 1) * p == (p - 1) * all + (all - p)
    ensures (q - 1) * p == q * p - p
  {}

  /** A word of ones shifted left by `k`: ones above, zeros below. */
  lemma OnesAbove(k: nat, width: nat)
    requires k <= width
    ensures Shl(Pow2(width) - 1, k, width) == Pow2(width) - Pow2(k)
    ensures Pow2(width) - Pow2(k) == (Pow2(width - k) - 1) * Pow2(k)
  {
    var p, all := Pow2(k), Pow2(width);
    PowSum(width - k, k);
    PowMonotone(k, width);
    OnesTimes(p, all, Pow2(width - k));
    ShrOfSum(p - 1, all - p, width);
  }

  /** Filling the bits above a field with ones, in a word, gives its two's complement. */
  lemma SignExtension(raw: nat, bits: nat, width: nat)
    requires 0 < bits <= width && raw < Pow2(bits)
    ensures And(raw, Pow2(bits - 1)) != 0 <==> raw >= Pow2(bits - 1)
    ensures 0 <= Shl(Pow2(width) - 1, bits, width)
    ensures raw >= Pow2(bits - 1) ==>
      TwosComplement(Or(raw, Shl(Pow2(width) - 1, bits, width)), width) == TwosComplement(raw, bits)
  {
    AndOneBit(raw, bits - 1);
    TopBit(raw, bits - 1);
    OnesAbove(bits, width);
    PowMonotone(bits, width);
    PowMonotone(bits - 1, width - 1);
    OrBelow(Pow2(width - bits) - 1, raw, bits);
    OrCommutes(raw, Pow2(width) - Pow2(bits));
  }
}
