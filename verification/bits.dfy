/** Bit-level operations of C on unsigned words, defined on natural numbers bit by bit, and the
    arithmetic each mask, shift and flip amounts to. */
module Bits {

  function Pow2(k: nat): (p: nat)
    ensures p > 0
  {
    if k == 0 then 1 else 2 * Pow2(k - 1)
  }

  /** `x << k` before truncation to a word. */
  function Shl(x: nat, k: nat): nat
    decreases k
  {
    if k == 0 then x else 2 * Shl(x, k - 1)
  }

  /** `x >> k`. */
  function Shr(x: nat, k: nat): nat
    decreases x
  {
    if k == 0 || x == 0 then x else Shr(x / 2, k - 1)
  }

  /** Bitwise `x & y`. */
  function And(x: nat, y: nat): nat {
    if x == 0 || y == 0 then 0
    else 2 * And(x / 2, y / 2) + (if x % 2 == 1 && y % 2 == 1 then 1 else 0)
  }

  /** Bitwise `x | y`. */
  function Or(x: nat, y: nat): nat
    decreases x
  {
    if x == 0 then y
    else 2 * Or(x / 2, y / 2) + (if x % 2 == 1 || y % 2 == 1 then 1 else 0)
  }

  /** Bitwise `x ^ y`. */
  function Xor(x: nat, y: nat): nat
    decreases x
  {
    if x == 0 then y
    else 2 * Xor(x / 2, y / 2) + (if x % 2 != y % 2 then 1 else 0)
  }

  lemma DivUnique(x: int, m: int, q: int, r: int)
    requires x == q * m + r && 0 <= r < m
    ensures x / m == q && x % m == r
  {
    var d := x / m - q;
    assert x == (x / m) * m + x % m;
    assert d * m == r - x % m;
    MultipleIsLarge(d, m);
  }

  lemma MultipleIsLarge(d: int, m: int)
    requires m > 0
    ensures d == 0 || d * m >= m || d * m <= -m
  {}

  lemma DivDiv(x: nat, a: nat, b: nat)
    requires a > 0 && b > 0
    ensures a * b > 0
    ensures x / (a * b) == (x / a) / b
    ensures x % (a * b) == (x / a) % b * a + x % a
  {
    var y := x / a;
    assert x == y * a + x % a;
    assert y == (y / b) * b + y % b;
    assert x == ((y / b) * b + y % b) * a + x % a;
    assert ((y / b) * b + y % b) * a == (y / b) * (a * b) + y % b * a by {
      MulRearrange(y / b, b, y % b, a);
    }
    assert (y % b) * a + x % a < a * b by {
      assert y % b <= b - 1;
      MulMono(y % b, b - 1, a);
      assert (b - 1) * a == a * b - a;
    }
    assert 0 <= (y % b) * a;
    DivUnique(x, a * b, y / b, (y % b) * a + x % a);
  }

  lemma MulRearrange(p: int, b: int, r: int, a: int)
    ensures (p * b + r) * a == p * (a * b) + r * a
  {}

  lemma MulMono(x: nat, y: nat, m: nat)
    requires x <= y
    ensures x * m <= y * m
  {}

  lemma {:induction false} Pow2Add(a: nat, b: nat)
    ensures Pow2(a + b) == Pow2(a) * Pow2(b)
  {
    if a > 0 {
      Pow2Add(a - 1, b);
    }
  }

  lemma {:induction false} Pow2Mono(a: nat, b: nat)
    requires a <= b
    ensures Pow2(a) <= Pow2(b)
    ensures a < b ==> 2 * Pow2(a) <= Pow2(b)
  {
    if a < b {
      Pow2Mono(a, b - 1);
    }
  }

  lemma DoublePower(k: nat, v: nat)
    requires Pow2(k) == v
    ensures Pow2(2 * k) == v * v
    ensures k > 0 ==> 2 * Pow2(2 * k - 1) == v * v
  {
    Pow2Add(k, k);
  }

  lemma HalfOfMultiple(x: nat, m: nat)
    requires m > 0
    requires x % (2 * m) == 0
    ensures x % 2 == 0 && (x / 2) % m == 0
  {
    DivDiv(x, 2, m);
  }

  /** Oring a value into the zero low bits of another adds it. */
  lemma {:induction false} OrDisjoint(x: nat, y: nat, k: nat)
    requires x % Pow2(k) == 0 && y < Pow2(k)
    ensures Or(x, y) == x + y
  {
    if k > 0 && x > 0 {
      HalfOfMultiple(x, Pow2(k - 1));
      OrDisjoint(x / 2, y / 2, k - 1);
    } else if x > 0 {
      OrZero(x);
    }
  }

  /** The lowest bits of the three words, and their other bits. */
  lemma LowestBits(x: nat, y: nat)
    ensures And(x, y) / 2 == And(x / 2, y / 2) && (And(x, y) % 2 == 1 <==> x % 2 == 1 && y % 2 == 1)
    ensures Or(x, y) / 2 == Or(x / 2, y / 2) && (Or(x, y) % 2 == 1 <==> x % 2 == 1 || y % 2 == 1)
    ensures Xor(x, y) / 2 == Xor(x / 2, y / 2) && (Xor(x, y) % 2 == 1 <==> x % 2 != y % 2)
  {}

  lemma HigherBit(x: nat, k: nat)
    requires k > 0
    ensures x / Pow2(k) == x / 2 / Pow2(k - 1)
  {
    DivDiv(x, 2, Pow2(k - 1));
  }

  /** Bit k of the three words. */
  lemma {:induction false} BitsOf(x: nat, y: nat, k: nat)
    ensures And(x, y) / Pow2(k) % 2 == 1 <==> x / Pow2(k) % 2 == 1 && y / Pow2(k) % 2 == 1
    ensures Or(x, y) / Pow2(k) % 2 == 1 <==> x / Pow2(k) % 2 == 1 || y / Pow2(k) % 2 == 1
    ensures Xor(x, y) / Pow2(k) % 2 == 1 <==> x / Pow2(k) % 2 != y / Pow2(k) % 2
  {
    hide And, Or, Xor;
    LowestBits(x, y);
    if k == 0 {
      assert Pow2(k) == 1;
    } else {
      HigherBit(x, k);
      HigherBit(y, k);
      HigherBit(And(x, y), k);
      HigherBit(Or(x, y), k);
      HigherBit(Xor(x, y), k);
      BitsOf(x / 2, y / 2, k - 1);
    }
  }

  lemma {:induction false} OrZero(x: nat)
    ensures Or(x, 0) == x
  {
    if x > 0 {
      OrZero(x / 2);
    }
  }

  lemma {:induction false} OrCommutes(x: nat, y: nat)
    ensures Or(x, y) == Or(y, x)
    decreases x
  {
    if x == 0 {
      OrZero(y);
    } else if y == 0 {
      OrZero(x);
    } else {
      OrCommutes(x / 2, y / 2);
    }
  }

  /** The word with exactly its k low bits set. */
  function Ones(k: nat): nat {
    if k == 0 then 0 else 2 * Ones(k - 1) + 1
  }

  lemma {:induction false} OnesValue(k: nat)
    ensures Ones(k) == Pow2(k) - 1
  {
    if k > 0 {
      OnesValue(k - 1);
    }
  }

  /** The k low bits of a word. */
  function Low(x: nat, k: nat): nat
    decreases x
  {
    if k == 0 || x == 0 then 0 else 2 * Low(x / 2, k - 1) + x % 2
  }

  lemma {:induction false} LowIsRemainder(x: nat, k: nat)
    ensures Low(x, k) == x % Pow2(k)
  {
    if x == 0 {
      DivUnique(0, Pow2(k), 0, 0);
    } else if k > 0 {
      LowIsRemainder(x / 2, k - 1);
      DivDiv(x, 2, Pow2(k - 1));
    }
  }

  lemma {:induction false} AndOnes(x: nat, k: nat)
    ensures And(x, Ones(k)) == Low(x, k)
  {
    if k > 0 {
      AndOnes(x / 2, k - 1);
      if x == 0 {
        assert And(0, Ones(k - 1)) == 0;
      }
    }
  }

  /** `x & (2^k - 1)` is the remainder modulo 2^k. */
  lemma AndLowMask(x: nat, k: nat)
    ensures And(x, Pow2(k) - 1) == x % Pow2(k)
  {
    OnesValue(k);
    AndOnes(x, k);
    LowIsRemainder(x, k);
  }

  lemma {:induction false} ShlIsProduct(x: nat, k: nat)
    ensures Shl(x, k) == x * Pow2(k)
  {
    if k > 0 {
      ShlIsProduct(x, k - 1);
      DoubleProduct(x, Pow2(k - 1));
    }
  }

  lemma DoubleProduct(m: nat, p: nat)
    ensures m * (2 * p) == 2 * (m * p)
  {}

  lemma {:induction false} ShrIsQuotient(x: nat, k: nat)
    ensures Shr(x, k) == x / Pow2(k)
  {
    if x == 0 {
      DivUnique(0, Pow2(k), 0, 0);
    } else if k > 0 {
      ShrIsQuotient(x / 2, k - 1);
      DivDiv(x, 2, Pow2(k - 1));
    }
  }

  /** `x & (m << k)` keeps of `x >> k` what `m` keeps. */
  lemma {:induction false} AndShiftedMask(x: nat, m: nat, k: nat)
    ensures And(x, Shl(m, k)) == Shl(And(Shr(x, k), m), k)
  {
    if k > 0 {
      AndShiftedMask(x / 2, m, k - 1);
      assert And(x, 2 * Shl(m, k - 1)) == 2 * And(x / 2, Shl(m, k - 1));
    }
  }

  /** `x & ~(2^k - 1)` on a word of w + k bits clears the low bits. */
  lemma AndHighMask(x: nat, w: nat, k: nat)
    requires x / Pow2(k) < Pow2(w)
    ensures And(x, Shl(Ones(w), k)) == x / Pow2(k) * Pow2(k)
  {
    AndShiftedMask(x, Ones(w), k);
    ShrIsQuotient(x, k);
    AndOnes(x / Pow2(k), w);
    LowIsRemainder(x / Pow2(k), w);
    DivUnique(x / Pow2(k), Pow2(w), 0, x / Pow2(k));
    ShlIsProduct(x / Pow2(k), k);
  }

  lemma PowerOf52()
    ensures Pow2(52) == 0x10_0000_0000_0000
  {
    DoublePower(13, 8192);
    DoublePower(26, 0x400_0000);
  }

  /** The start of the page of 4096 bytes that an address lies in: the address and the complement of 4095, on a
      64-bit word. */
  function PageBase(addr: nat): nat {
    And(addr, Shl(Ones(52), 12))
  }

  lemma PageBaseValue(addr: nat)
    requires addr < 0x1_0000_0000_0000_0000
    ensures PageBase(addr) == addr / 4096 * 4096
  {
    assert Pow2(12) == 4096;
    PowerOf52();
    AndHighMask(addr, 52, 12);
  }

  lemma QuotientBelow(x: nat, p: nat, r: nat)
    requires p > 0 && x < p * r
    ensures x / p < r
  {
    assert x == x / p * p + x % p;
    if x / p >= r {
      MulMono(r, x / p, p);
    }
  }

  /** Flipping bit k adds or subtracts 2^k. */
  lemma {:induction false} XorBit(x: nat, k: nat)
    ensures Xor(x, Pow2(k)) == if (x / Pow2(k)) % 2 == 0 then x + Pow2(k) else x - Pow2(k)
  {
    if x == 0 {
      DivUnique(0, Pow2(k), 0, 0);
    } else if k > 0 {
      DivDiv(x, 2, Pow2(k - 1));
      XorBit(x / 2, k - 1);
    } else {
      XorZero(x / 2);
    }
  }

  lemma {:induction false} XorZero(x: nat)
    ensures Xor(x, 0) == x
  {
    if x > 0 {
      XorZero(x / 2);
    }
  }

  lemma {:induction false} XorAllOnes(x: nat, k: nat)
    requires x <= Ones(k)
    ensures Xor(x, Ones(k)) == Ones(k) - x
  {
    if x > 0 {
      XorAllOnes(x / 2, k - 1);
    }
  }

  /** Flipping all of k bits is the complement. */
  lemma XorOnes(x: nat, k: nat)
    requires x < Pow2(k)
    ensures Xor(x, Pow2(k) - 1) == Pow2(k) - 1 - x
  {
    OnesValue(k);
    XorAllOnes(x, k);
  }

  /** The test `(x & (x - 1)) == 0` accepts exactly the powers of two. */
  lemma {:induction false} PowerOfTwoTest(x: nat) returns (k: nat)
    requires x > 0
    ensures And(x, x - 1) == 0 <==> x == Pow2(k)
    ensures Pow2(k) <= x < 2 * Pow2(k)
  {
    if x == 1 {
      k := 0;
    } else {
      k := PowerOfTwoTest(x / 2);
      k := k + 1;
      if x % 2 == 1 {
        AndSelf(x / 2);
        assert (x - 1) / 2 == x / 2;
      } else {
        assert (x - 1) / 2 == x / 2 - 1;
      }
    }
  }

  lemma {:induction false} AndSelf(x: nat)
    ensures And(x, x) == x
  {
    if x > 0 {
      AndSelf(x / 2);
    }
  }
}
