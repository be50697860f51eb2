/** The branch-free leading- and trailing-zero counts of os-l3/abstract-machine/klib/src/int64.c. */
module BitCounts {
  import opened Bits
  import opened Int64

  /** `-(condition)` as a 32-bit mask. */
  function Mask(condition: bool): (m: nat)
    ensures m < W32
  {
    if condition then W32 - 1 else 0
  }

  lemma MaskSelects(x: nat, condition: bool)
    requires x < W32
    ensures And(x, Mask(condition)) == if condition then x else 0
    ensures And(Mask(condition), 32) == if condition then 32 else 0
  {
    WordSizes();
    AndLowMask(x, 32);
    AndCommutes(W32 - 1, 32);
    AndLowMask(32, 32);
  }

  lemma {:induction false} AndCommutes(x: nat, y: nat)
    ensures And(x, y) == And(y, x)
  {
    if x > 0 && y > 0 {
      AndCommutes(x / 2, y / 2);
    }
  }

  lemma {:induction false} BitLenShift(x: nat, k: nat)
    ensures BitLen(x) <= k ==> Shr(x, k) == 0
    ensures BitLen(x) > k ==> Shr(x, k) > 0 && BitLen(x) == k + BitLen(Shr(x, k))
    decreases k
  {
    if k > 0 {
      BitLenShift(x / 2, k - 1);
    }
  }

  lemma {:induction false} ShlPositive(x: nat, k: nat)
    ensures Shl(x, k) == 0 <==> x == 0
  {
    if k > 0 {
      ShlPositive(x, k - 1);
    }
  }

  lemma {:induction false} LowOfShort(x: nat, k: nat)
    requires BitLen(x) <= k
    ensures Low(x, k) == x
  {
    if k > 0 {
      LowOfShort(x / 2, k - 1);
    }
  }

  /** Testing the upper half of a field tells whether the value fits in the lower half. */
  lemma UpperHalfTest(x: nat, k: nat)
    requires BitLen(x) <= 2 * k
    ensures And(x, Shl(Ones(k), k)) == 0 <==> BitLen(x) <= k
  {
    AndShiftedMask(x, Ones(k), k);
    AndOnes(Shr(x, k), k);
    BitLenShift(x, k);
    LowOfShort(Shr(x, k), k);
    ShlPositive(Low(Shr(x, k), k), k);
  }

  /** The bit masks of the four halving steps. */
  lemma Masks()
    ensures Ones(16) == 0xFFFF && Ones(8) == 0xFF && Ones(4) == 0xF && Ones(2) == 0x3
    ensures Shl(Ones(16), 16) == 0xFFFF0000 && Shl(Ones(8), 8) == 0xFF00
    ensures Shl(Ones(4), 4) == 0xF0 && Shl(Ones(2), 2) == 0xC
  {
    DoublePower(2, 4);
    DoublePower(4, 16);
    DoublePower(8, 256);
    OnesValue(2);
    OnesValue(4);
    OnesValue(8);
    OnesValue(16);
    ShlIsProduct(0x3, 2);
    ShlIsProduct(0xF, 4);
    ShlIsProduct(0xFF, 8);
    ShlIsProduct(0xFFFF, 16);
  }

  predicate IsUpperMask(mask: nat, k: nat) {
    (k == 16 && mask == 0xFFFF0000) || (k == 8 && mask == 0xFF00) || (k == 4 && mask == 0xF0) || (k == 2 && mask == 0xC)
  }

  /** The leading zeros of `a` counted in r, with the rest of the count left in the 2k bits of x. */
  ghost predicate LeadingCounted(a: nat, x: nat, r: nat, k: nat) {
    BitLen(x) <= k && BitLen(a) + r + k == 32 + BitLen(x)
  }

  /** One of the four halvings: count k zeros and keep the field, or shift its upper half down. */
  method HalveLeading(ghost a: nat, x: nat, r: nat, mask: nat, k: nat) returns (x': nat, r': nat)
    requires LeadingCounted(a, x, r, 2 * k) && IsUpperMask(mask, k)
    ensures LeadingCounted(a, x', r', k)
  {
    Masks();
    UpperHalfTest(x, k);
    var t := if And(x, mask) == 0 then k else 0;
    BitLenShift(x, k - t);
    x', r' := Shr(x, k - t), r + t;
  }

  /** `__clzsi2`. The source asks for a non-zero argument; on zero it yields 32. */
  method Clzsi2(a: nat) returns (count: nat)
    requires a < W32
    ensures count == 32 - BitLen(a)
    ensures if a == 0 then count == 32 else count < 32 && Pow2(31 - count) <= a < Pow2(32 - count)
  {
    if a > 0 {
      BitLenBounds(a);
    }
    WordSizes();
    BitLenAtMost(a, 32);
    var x, r := HalveLeading(a, a, 0, 0xFFFF0000, 16);
    x, r := HalveLeading(a, x, r, 0xFF00, 8);
    x, r := HalveLeading(a, x, r, 0xF0, 4);
    x, r := HalveLeading(a, x, r, 0xC, 2);
    LastLeading(x);
    count := r + And((2 - x) % W32, Mask(And(x, 2) == 0));
  }

  lemma LastLeading(x: nat)
    requires BitLen(x) <= 2
    ensures And((2 - x) % W32, Mask(And(x, 2) == 0)) == 2 - BitLen(x)
  {
    ShortValue(x);
    MaskSelects((2 - x) % W32, And(x, 2) == 0);
  }

  lemma ShortValue(x: nat)
    requires BitLen(x) <= 2
    ensures x <= 3 && (And(x, 2) == 0 <==> x < 2)
    ensures BitLen(x) == if x < 2 then x else 2
    ensures (2 - x) % W32 == if x == 3 then W32 - 1 else 2 - x
  {
    assert BitLen(x / 2 / 2) == 0;
    assert x / 2 / 2 == 0;
  }

  lemma BitLenAtMost(x: nat, n: nat)
    requires x < Pow2(n)
    ensures BitLen(x) <= n
  {
    if x > 0 {
      BitLenBounds(x);
      if BitLen(x) > n {
        Pow2Mono(n, BitLen(x) - 1);
      }
    }
  }

  lemma {:induction false} CtzShift(x: nat, k: nat)
    requires x > 0 && Ctz(x) >= k
    ensures Shr(x, k) > 0 && Ctz(x) == k + Ctz(Shr(x, k))
    decreases k
  {
    if k > 0 {
      CtzShift(x / 2, k - 1);
    }
  }

  /** The k low bits are zero exactly when k or more zeros trail. */
  lemma {:induction false} LowIsZero(x: nat, k: nat)
    requires x > 0
    ensures Low(x, k) == 0 <==> Ctz(x) >= k
  {
    if k > 0 && x % 2 == 0 {
      LowIsZero(x / 2, k - 1);
    }
  }

  /** The count of trailing zeros of an argument with `width` bits, `width` itself on zero. */
  function TrailingZeros(x: nat, width: nat): nat {
    if x == 0 then width else Ctz(x)
  }

  /** The power of two of the count divides the argument, and its quotient is odd. */
  lemma {:induction false} CtzMeans(x: nat)
    requires x > 0
    ensures x % Pow2(Ctz(x)) == 0 && x / Pow2(Ctz(x)) % 2 == 1
  {
    if x % 2 == 0 {
      var p := Pow2(Ctz(x / 2));
      CtzMeans(x / 2);
      DivDiv(x, 2, p);
      var q := x / 2 / p;
      DoubleProduct(q, p);
      DivUnique(x, 2 * p, q, 0);
    }
  }

  /** The trailing zeros of `a` counted in r, with the rest of the count left in the k low bits
      of x. */
  ghost predicate TrailingCounted(a: nat, x: nat, r: nat, k: nat) {
    if a == 0 then x == 0 && r + k == 32 else x > 0 && Ctz(x) < k && Ctz(a) == r + Ctz(x)
  }

  lemma CtzStart(a: nat)
    requires a < W32
    ensures TrailingCounted(a, a, 0, 32)
  {
    if a > 0 {
      WordSizes();
      BitLenAtMost(a, 32);
      LowOfShort(a, 32);
      LowIsZero(a, 32);
    }
  }

  /** One of the four halvings: the lower half is kept, or counted and shifted out when it is all
      zero. */
  method HalveTrailing(ghost a: nat, x: nat, r: nat, mask: nat, k: nat) returns (x': nat, r': nat)
    requires TrailingCounted(a, x, r, 2 * k) && mask == Ones(k)
    ensures TrailingCounted(a, x', r', k)
  {
    AndOnes(x, k);
    var t := if And(x, mask) == 0 then k else 0;
    if x > 0 {
      LowIsZero(x, k);
      CtzShift(x, t);
    }
    x', r' := Shr(x, t), r + t;
  }

  lemma TwoLowBits(x: nat)
    ensures And(x, 3) == x % 4 && And(x % 4, 1) == x % 2
    ensures x > 0 && Ctz(x) < 2 ==> x % 4 > 0 && Ctz(x) == if x % 4 == 2 then 1 else 0
  {
    AndLowMask(x, 2);
    AndLowMask(x % 4, 1);
    if x > 0 && x % 2 == 0 {
      assert Ctz(x) == 1 + Ctz(x / 2);
    }
  }

  lemma LastTrailing(x: nat)
    requires x == 0 || Ctz(x) < 2
    ensures And(x, 3) <= 3
    ensures And(2 - Shr(And(x, 3), 1), Mask(And(And(x, 3), 1) == 0)) == if x == 0 then 2 else Ctz(x)
  {
    TwoLowBits(x);
    MaskSelects(2 - Shr(x % 4, 1), x % 2 == 0);
  }

  /** `__ctzsi2`. The source asks for a non-zero argument; on zero it yields 32. */
  method Ctzsi2(a: nat) returns (count: nat)
    requires a < W32
    ensures count == TrailingZeros(a, 32)
    ensures if a == 0 then count == 32 else a % Pow2(count) == 0 && a / Pow2(count) % 2 == 1
  {
    if a > 0 {
      CtzMeans(a);
    }
    CtzStart(a);
    Masks();
    var x, r := HalveTrailing(a, a, 0, 0xFFFF, 16);
    x, r := HalveTrailing(a, x, r, 0xFF, 8);
    x, r := HalveTrailing(a, x, r, 0xF, 4);
    x, r := HalveTrailing(a, x, r, 0x3, 2);
    LastTrailing(x);
    x := And(x, 3);
    count := r + And(2 - Shr(x, 1), Mask(And(x, 1) == 0));
  }

  lemma SelectWord(high: nat, low: nat, condition: bool)
    requires high < W32 && low < W32
    ensures Or(And(high, Mask(condition)), And(low, Mask(!condition))) == if condition then high else low
  {
    MaskSelects(high, condition);
    MaskSelects(low, !condition);
    OrZero(high);
  }

  lemma BitLenOfDouble(x: nat, y: nat, low: nat)
    requires x == 2 * y && y > 0
    ensures BitLen(x + low) == 1 + BitLen(y + low / 2)
  {
    assert (x + low) / 2 == y + low / 2;
  }

  lemma BitLenOfHalf(low: nat)
    ensures BitLen(low) == if low == 0 then 0 else 1 + BitLen(low / 2)
    ensures low <= 1 ==> BitLen(low / 2) == 0
  {}

  lemma WordDoubled(high: nat, k: nat)
    ensures k == 0 ==> high * Pow2(k) == high
    ensures high == 0 ==> high * Pow2(k) == 0
    ensures k > 0 && high > 0 ==> high * Pow2(k) == 2 * (high * Pow2(k - 1)) && high * Pow2(k - 1) > 0
  {
    if k > 0 && high > 0 {
      DoubleProduct(high, Pow2(k - 1));
      MulMono(1, high, Pow2(k - 1));
    }
  }

  lemma {:induction false} BitLenOfWords(high: nat, low: nat, k: nat)
    requires BitLen(low) <= k
    ensures BitLen(high * Pow2(k) + low) == if high == 0 then BitLen(low) else k + BitLen(high)
  {
    hide BitLen, Pow2;
    WordDoubled(high, k);
    BitLenOfHalf(low);
    if k > 0 && high > 0 {
      BitLenOfWords(high, low / 2, k - 1);
      BitLenOfDouble(high * Pow2(k), high * Pow2(k - 1), low);
    }
  }

  /** `__clzdi2`: the leading zeros of a double word, 64 on zero. */
  method Clzdi2(a: nat) returns (count: nat)
    requires a < W64
    ensures count == 64 - BitLen(a)
    ensures if a == 0 then count == 64 else count < 64 && Pow2(63 - count) <= a < Pow2(64 - count)
  {
    hide And, Or, Pow2;
    if a > 0 {
      BitLenBounds(a);
    }
    var x := Halves(a);
    var f := Mask(x.high == 0);
    SelectWord(x.high, x.low, x.high != 0);
    MaskSelects(32, x.high == 0);
    WordSizes();
    BitLenAtMost(x.low, 32);
    BitLenOfWords(x.high, x.low, 32);
    assert W32 - 1 - f == Mask(x.high != 0);
    count := Clzsi2(Or(And(x.high, W32 - 1 - f), And(x.low, f)));
    count := count + And(f, 32);
  }

  lemma {:induction false} CtzOfWords(high: nat, low: nat, k: nat)
    requires low < Pow2(k) && high + low > 0
    ensures high * Pow2(k) + low > 0
    ensures Ctz(high * Pow2(k) + low) == if low == 0 then k + Ctz(high) else Ctz(low)
  {
    MulMono(1, Pow2(k), high);
    if k > 0 {
      DoubleProduct(high, Pow2(k - 1));
      var rest := high * Pow2(k - 1) + low / 2;
      var x := high * Pow2(k) + low;
      assert x == 2 * (high * Pow2(k - 1)) + low;
      assert x / 2 == rest && x % 2 == low % 2;
      if x % 2 == 0 {
        CtzOfWords(high, low / 2, k - 1);
      }
    }
  }

  /** `__ctzdi2`: the trailing zeros of a double word, 64 on zero. */
  method Ctzdi2(a: nat) returns (count: nat)
    requires a < W64
    ensures count == TrailingZeros(a, 64)
    ensures if a == 0 then count == 64 else a % Pow2(count) == 0 && a / Pow2(count) % 2 == 1
  {
    var x := Halves(a);
    var f := Mask(x.low == 0);
    SelectWord(x.high, x.low, x.low == 0);
    MaskSelects(32, x.low == 0);
    WordSizes();
    if a > 0 {
      CtzMeans(a);
      CtzOfWords(x.high, x.low, 32);
    }
    assert W32 - 1 - f == Mask(x.low != 0);
    count := Ctzsi2(Or(And(x.high, f), And(x.low, W32 - 1 - f)));
    count := count + And(f, 32);
  }
}
