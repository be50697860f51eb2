/** The unsigned 64-bit division of os-l3/abstract-machine/klib/src/int64.c, by normalising shift and
    branch-free shift-subtract on two words. Words are naturals below 2^32 or 2^64; every wrap-around is
    written out. */
module Int64 {
  import opened Bits

  const W31: int := 0x8000_0000
  const W32: int := 0x1_0000_0000
  const W63: int := 0x8000_0000_0000_0000
  const W64: int := 0x1_0000_0000_0000_0000

  lemma WordSizes()
    ensures Pow2(1) == 2 && Pow2(31) == W31 && Pow2(32) == W32 && Pow2(63) == W63 && Pow2(64) == W64
  {
    DoublePower(8, 256);
    DoublePower(16, 0x1_0000);
    DoublePower(32, W32);
  }

  /** The union `udwords`: a 64-bit value seen as two 32-bit halves. */
  datatype Words = Words(high: nat, low: nat) {
    function All(): nat { high * W32 + low }

    predicate Fits() { high < W32 && low < W32 }
  }

  function Halves(a: nat): (w: Words)
    requires a < W64
    ensures w.Fits() && w.All() == a
  {
    Words(a / W32, a % W32)
  }

  /** A left shift of a 32-bit word, whose high bits drop off. */
  function Shl32(x: nat, k: nat): (y: nat)
    ensures y < W32
  {
    Shl(x, k) % W32
  }

  function BitLen(x: nat): nat {
    if x == 0 then 0 else 1 + BitLen(x / 2)
  }

  lemma {:induction false} BitLenBounds(x: nat)
    requires x > 0
    ensures BitLen(x) > 0 && Pow2(BitLen(x) - 1) <= x < Pow2(BitLen(x))
  {
    if x > 1 {
      BitLenBounds(x / 2);
    }
  }

  /** `__builtin_clz`: the number of zero bits above the top one of a non-zero 32-bit word. */
  function Clz32(x: nat): (c: nat)
    requires 0 < x < W32
    ensures c <= 31 && Pow2(31 - c) <= x < Pow2(32 - c)
  {
    WordSizes();
    BitLenBounds(x);
    assert BitLen(x) <= 32 by {
      if BitLen(x) > 32 {
        Pow2Mono(32, BitLen(x) - 1);
      }
    }
    32 - BitLen(x)
  }

  /** `__builtin_ctz`: the number of zero bits below the lowest one bit. */
  function Ctz(x: nat): nat
    requires x > 0
  {
    if x % 2 == 1 then 0 else 1 + Ctz(x / 2)
  }

  lemma {:induction false} CtzOfPower(k: nat)
    ensures Ctz(Pow2(k)) == k
  {
    if k > 0 {
      CtzOfPower(k - 1);
    }
  }

  // ----- Shifts across the two halves -------------------------------------------------------

  lemma ShlWrap(x: nat, k: nat)
    requires x < W32 && k <= 32
    ensures Shl32(x, k) == (x % Pow2(32 - k)) * Pow2(k)
  {
    var p, r := Pow2(32 - k), Pow2(k);
    WordSizes();
    Pow2Add(32 - k, k);
    ShlIsProduct(x, k);
    ModMul(x, p, r);
  }

  lemma ModMul(x: nat, p: nat, r: nat)
    requires p > 0 && r > 0
    ensures p * r > 0
    ensures x * r % (p * r) == x % p * r
    ensures 0 <= x % p * r < p * r
  {
    var l1, l0 := x / p, x % p;
    MulRearrange(l1, p, l0, r);
    MulMono(l0, p - 1, r);
    assert (p - 1) * r == p * r - r;
    assert 0 <= l0 * r < p * r;
    DivUnique(x * r, p * r, l1, l0 * r);
  }

  /** A word made of the low bits of one word and the high bits of the next. */
  lemma JoinedWord(high: nat, low: nat, k: nat)
    requires high < W32 && low < W32 && 1 <= k <= 31
    ensures Or(Shl32(high, 32 - k), Shr(low, k)) == high % Pow2(k) * Pow2(32 - k) + low / Pow2(k) < W32
  {
    var p, r := Pow2(k), Pow2(32 - k);
    WordSizes();
    Pow2Add(k, 32 - k);
    ShlWrap(high, 32 - k);
    ShrIsQuotient(low, k);
    var h0 := high % p;
    QuotientBelow(low, p, r);
    RemainderTimes(h0, p, r);
    DivUnique(h0 * r, r, h0, 0);
    OrDisjoint(h0 * r, low / p, 32 - k);
  }

  /** The bits shifted out of a word, moved to the top of a double word. */
  lemma ShiftedOut(low: nat, k: nat)
    requires low < W32 && 1 <= k <= 31
    ensures Shl32(low, 32 - k) == low % Pow2(k) * Pow2(32 - k)
    ensures Shl32(low, 32 - k) * W32 == low % Pow2(k) * Pow2(64 - k)
  {
    WordSizes();
    ShlWrap(low, 32 - k);
    Pow2Add(32 - k, 32);
    MulAssoc(low % Pow2(k), Pow2(32 - k), W32);
  }

  /** `q = n << (64 - sr)` and `r = n >> sr` word by word, for a shift below one word. */
  lemma NormaliseBelow(n: Words, sr: nat)
    requires n.Fits() && 1 <= sr <= 31
    ensures Shl32(n.low, 32 - sr) * W32 == n.All() % Pow2(sr) * Pow2(64 - sr)
    ensures Or(Shl32(n.high, 32 - sr), Shr(n.low, sr)) < W32 && Shr(n.high, sr) < W32
    ensures Shr(n.high, sr) * W32 + Or(Shl32(n.high, 32 - sr), Shr(n.low, sr)) == n.All() / Pow2(sr)
  {
    WordSizes();
    Pow2Add(sr, 32 - sr);
    SplitQuotient(n.high, n.low, Pow2(sr), Pow2(32 - sr));
    ShiftedOut(n.low, sr);
    JoinedWord(n.high, n.low, sr);
    ShrIsQuotient(n.high, sr);
    QuotientAtMost(n.high, Pow2(sr));
  }

  lemma QuotientAtMost(x: nat, p: nat)
    requires p > 0
    ensures x / p <= x
  {
    var q := x / p;
    assert x == q * p + x % p;
    MulMono(1, p, q);
  }

  lemma RemainderTimes(h: nat, p: nat, r: nat)
    requires h < p
    ensures h * r + r <= p * r
  {
    MulMono(h + 1, p, r);
    assert (h + 1) * r == h * r + r;
  }

  lemma SplitQuotient(high: nat, low: nat, p: nat, r: nat)
    requires p > 0 && r > 0 && p * r == W32 && low < W32
    ensures (high * W32 + low) / p == high / p * W32 + (high % p * r + low / p)
    ensures (high * W32 + low) % p == low % p
  {
    var h1, h0, l1, l0 := high / p, high % p, low / p, low % p;
    var q := h1 * W32 + h0 * r + l1;
    assert high == h1 * p + h0 && low == l1 * p + l0;
    calc {
      high * W32 + low;
      (h1 * p + h0) * (p * r) + l1 * p + l0;
      { Distribute(h1, h0, l1, p, r); }
      (h1 * (p * r) + h0 * r + l1) * p + l0;
      q * p + l0;
    }
    DivUnique(high * W32 + low, p, q, l0);
  }

  lemma Distribute(h1: nat, h0: nat, l1: nat, p: nat, r: nat)
    ensures (h1 * p + h0) * (p * r) + l1 * p == (h1 * (p * r) + h0 * r + l1) * p
  {
    var w := p * r;
    assert (h1 * p + h0) * w == h1 * p * w + h0 * w by { MulRearrange(h1, p, h0, w); }
    assert h1 * p * w == h1 * w * p;
    assert h0 * w == h0 * r * p;
    assert (h1 * w + h0 * r + l1) * p == (h1 * w) * p + (h0 * r) * p + l1 * p;
  }

  /** The same for a shift by exactly one word. */
  lemma NormaliseWord(n: Words)
    requires n.Fits()
    ensures n.low * W32 == n.All() % Pow2(32) * Pow2(32)
    ensures n.high == n.All() / Pow2(32)
  {
    WordSizes();
    DivUnique(n.All(), W32, n.high, n.low);
  }

  /** The same for a shift of more than one word: the part shifted out, */
  lemma NormaliseAboveOut(n: Words, k: nat)
    requires n.Fits() && 1 <= k <= 31
    ensures Or(Shl32(n.high, 32 - k), Shr(n.low, k)) < W32
    ensures Or(Shl32(n.high, 32 - k), Shr(n.low, k)) * W32 + Shl32(n.low, 32 - k)
            == n.All() % Pow2(32 + k) * Pow2(32 - k)
  {
    WordSizes();
    Pow2Add(32, k);
    Pow2Add(k, 32 - k);
    ShiftedOut(n.low, k);
    JoinedWord(n.high, n.low, k);
    DivUnique(n.All(), W32, n.high, n.low);
    DivDiv(n.All(), W32, Pow2(k));
    RegroupRemainder(n.high % Pow2(k), n.low, Pow2(k), Pow2(32 - k));
  }

  /** and the part that stays. */
  lemma NormaliseAboveIn(n: Words, k: nat)
    requires n.Fits() && 1 <= k <= 31
    ensures Shr(n.high, k) == n.All() / Pow2(32 + k) < W32
  {
    WordSizes();
    Pow2Add(32, k);
    ShrIsQuotient(n.high, k);
    QuotientAtMost(n.high, Pow2(k));
    DivUnique(n.All(), W32, n.high, n.low);
    DivDiv(n.All(), W32, Pow2(k));
  }

  lemma RegroupRemainder(h0: nat, low: nat, p: nat, r: nat)
    requires p > 0 && p * r == W32
    ensures (h0 * W32 + low) * r == (h0 * r + low / p) * W32 + low % p * r
  {
    MulRearrange(h0, W32, low, r);
    MulRearrange(low / p, p, low % p, r);
    MulAssoc(h0, W32, r);
    MulAssoc(h0, r, W32);
  }

  // ----- The shift-subtract loop ------------------------------------------------------------

  /** `x << 1` with a bit shifted in at the bottom. */
  function ShiftIn(x: nat, bit: nat): nat {
    Or(Shl32(x, 1), bit)
  }

  /** The halves of r after `r:q = (r:q << 1) | carry`. */
  function NextR(r: Words, q: Words): Words {
    Words(ShiftIn(r.high, Shr(r.low, 31)), ShiftIn(r.low, Shr(q.high, 31)))
  }

  /** The halves of q after `r:q = (r:q << 1) | carry`. */
  function NextQ(q: Words, carry: nat): Words {
    Words(ShiftIn(q.high, Shr(q.low, 31)), ShiftIn(q.low, carry))
  }

  lemma OrLowBit(m: nat, bit: nat)
    requires bit <= 1
    ensures Or(2 * m, bit) == 2 * m + bit
  {
    OrZero(m);
  }

  lemma ShiftInValue(x: nat, bit: nat)
    requires x < W32 && bit <= 1
    ensures ShiftIn(x, bit) == 2 * (x % W31) + bit < W32
  {
    var m := if x < W31 then x else x - W31;
    DivUnique(x, W31, if x < W31 then 0 else 1, m);
    DivUnique(2 * x, W32, if x < W31 then 0 else 1, 2 * m);
    assert Shl(x, 1) == 2 * Shl(x, 0);
    OrLowBit(m, bit);
  }

  lemma TopBit(x: nat)
    requires x < W32
    ensures Shr(x, 31) == x / W31 <= 1
    ensures x == x / W31 * W31 + x % W31
  {
    WordSizes();
    ShrIsQuotient(x, 31);
  }

  lemma TopOfDouble(q: Words)
    requires q.Fits()
    ensures q.All() / W63 == q.high / W31 && q.All() % W63 == q.high % W31 * W32 + q.low
  {
    TopBit(q.high);
    DivUnique(q.All(), W63, q.high / W31, q.high % W31 * W32 + q.low);
  }

  /** The step loses no bit of r unless the top bit of r is set. */
  lemma ShiftPair(r: Words, q: Words)
    requires r.Fits() && q.Fits() && r.All() < W63
    ensures NextR(r, q).Fits() && NextR(r, q).All() == 2 * r.All() + q.All() / W63
  {
    TopBit(r.low);
    TopBit(q.high);
    ShiftInValue(r.high, r.low / W31);
    ShiftInValue(r.low, q.high / W31);
    TopOfDouble(q);
    assert r.high < W31;
    DivUnique(r.high, W31, 0, r.high);
  }

  lemma ShiftQuotient(q: Words, carry: nat)
    requires q.Fits() && carry <= 1
    ensures NextQ(q, carry).Fits() && NextQ(q, carry).All() == 2 * (q.All() % W63) + carry
  {
    TopBit(q.low);
    ShiftInValue(q.high, q.low / W31);
    ShiftInValue(q.low, carry);
    TopOfDouble(q);
  }

  /** `(di_int)x >> 63` as a 64-bit word: all ones when the sign bit of x is set. */
  function SignMask(x: nat): (s: nat)
    requires x < W64
    ensures s < W64
  {
    if x >= W63 then W64 - 1 else 0
  }

  /** `d - r - 1` in 64-bit arithmetic. */
  function BorrowWord(d: nat, r: nat): (x: nat)
    ensures x < W64
  {
    (d - r - 1) % W64
  }

  /** The sign of the wrapped difference reads as the comparison `r >= d` exactly when the true
      difference is representable as a signed 64-bit number, on every pair of words. */
  lemma SignReadsComparison(d: nat, r: nat)
    requires d < W64 && r < W64
    ensures (SignMask(BorrowWord(d, r)) == (if r >= d then W64 - 1 else 0))
            <==> -W63 <= d - r - 1 < W63
  {
    var x := d - r - 1;
    if x >= 0 {
      DivUnique(x, W64, 0, x);
    } else {
      DivUnique(x, W64, -1, x + W64);
    }
  }

  lemma MaskWord(x: nat)
    requires x < W64
    ensures And(x, W64 - 1) == x && And(x, 0) == 0
    ensures And(W64 - 1, 1) == 1 && And(0, 1) == 0
  {
    hide And, Pow2;
    WordSizes();
    AndLowMask(x, 64);
    LowBit(x, 0);
    LowBit(W64 - 1, 1);
    LowBit(0, 1);
  }

  lemma LowBit(x: nat, y: nat)
    requires y <= 1
    ensures And(x, y) == if y == 0 then 0 else x % 2
  {}

  /** What the loop has established with `sr` quotient bits still to come. `done` is the quotient so
      far; `rest` are the bits of the dividend not yet moved into r. */
  ghost predicate Progress(a: nat, d: nat, q: nat, r: nat, carry: nat, sr: nat, done: nat, rest: nat, low: nat) {
    && sr <= 63 && carry <= 1
    && rest < Pow2(sr) && low < Pow2(63 - sr)
    && a == (d * done + r) * Pow2(sr) + rest
    && q == rest * Pow2(64 - sr) + low
    && done == 2 * low + carry
    && r < d < W64
  }

  /** The next partial remainder `2r + top bit of q` differs from the divisor by a signed 64-bit
      amount: trivially for a divisor below 2^63, and otherwise because only one bit is left. */
  ghost predicate Comparable(d: nat, q: nat, r: nat, sr: nat) {
    d < W63 || sr == 0 || (sr == 1 && r < W63 && 2 * r + q / W63 >= W63)
  }

  /** The top bit of q is the next bit of the dividend. */
  lemma NextBit(q: nat, sr: nat, rest: nat, low: nat) returns (top: nat, rest': nat)
    requires 0 < sr <= 63 && rest < Pow2(sr) && low < Pow2(63 - sr) && q == rest * Pow2(64 - sr) + low
    ensures top == q / W63 <= 1 && rest' < Pow2(sr - 1) && rest == top * Pow2(sr - 1) + rest'
    ensures q % W63 == rest' * Pow2(64 - sr) + low
  {
    WordSizes();
    Pow2Add(sr - 1, 64 - sr);
    Pow2Mono(63 - sr, 64 - sr);
    top := if rest < Pow2(sr - 1) then 0 else 1;
    rest' := rest - top * Pow2(sr - 1);
    TopOfProduct(q, Pow2(sr - 1), Pow2(64 - sr), top, rest', low);
  }

  lemma TopOfProduct(q: nat, p: nat, b: nat, top: nat, rest': nat, low: nat)
    requires p * b == W63 && rest' < p && low < b && top <= 1
    requires q == (top * p + rest') * b + low
    ensures q / W63 == top && q % W63 == rest' * b + low
  {
    RemainderTimes(rest', p, b);
    Distribute2(p, rest', b);
    DivUnique(q, W63, top, rest' * b + low);
  }

  lemma Distribute2(p: nat, r: nat, b: nat)
    ensures (p + r) * b == p * b + r * b
  {}

  /** Bringing down one bit of the dividend. */
  lemma BringDown(d: nat, done: nat, r: nat, p: nat, top: nat, rest': nat)
    ensures (d * done + r) * (2 * p) + (top * p + rest') == (d * (2 * done) + (2 * r + top)) * p + rest'
  {
    var x := d * done + r;
    DoubleProduct(x, p);
    MulRearrange(x, 2, top, p);
    DoubleProduct(d, done);
  }

  lemma ProgressStep(a: nat, d: nat, q: nat, r: nat, carry: nat, sr: nat, done: nat, rest: nat, low: nat)
    returns (r1: nat, rest': nat)
    requires Progress(a, d, q, r, carry, sr, done, rest, low) && sr > 0
    ensures q / W63 <= 1 && r1 == 2 * r + q / W63
    ensures 2 * (q % W63) + carry == rest' * Pow2(64 - (sr - 1)) + done
    ensures rest' < Pow2(sr - 1) && done < Pow2(63 - (sr - 1))
    ensures a == (d * (2 * done) + r1) * Pow2(sr - 1) + rest'
  {
    var top;
    top, rest' := NextBit(q, sr, rest, low);
    r1 := 2 * r + top;
    DoubleProduct(rest', Pow2(64 - sr));
    BringDown(d, done, r, Pow2(sr - 1), top, rest');
  }

  lemma MulAssoc(x: int, y: int, z: int)
    ensures x * (y * z) == x * y * z
  {}

  lemma TakeDivisor(d: nat, done: nat, r: nat)
    ensures r >= d ==> d * (2 * done) + r == d * (2 * done + 1) + (r - d)
  {}

  /** `r.all -= d.all & s`. */
  function Reduce(r: Words, d: nat, s: nat): (r': Words)
    ensures r'.Fits()
  {
    Halves((r.All() - And(d, s)) % W64)
  }

  /** The branch-free comparison: `(di_int)(d.all - r.all - 1) >> 63`. */
  function CompareMask(d: nat, r: nat): (s: nat)
    ensures s < W64
  {
    SignMask(BorrowWord(d, r))
  }

  /** The branch-free compare and subtract, where the comparison is not misread. */
  lemma BranchFreeSubtract(d: nat, r: Words)
    requires d < W64 && r.Fits() && -W63 <= d - r.All() - 1 < W63
    ensures And(CompareMask(d, r.All()), 1) == if r.All() >= d then 1 else 0
    ensures Reduce(r, d, CompareMask(d, r.All())).All() == if r.All() >= d then r.All() - d else r.All()
  {
    SignReadsComparison(d, r.All());
    MaskWord(d);
    if r.All() >= d {
      DivUnique(r.All() - d, W64, 0, r.All() - d);
    } else {
      DivUnique(r.All(), W64, 0, r.All());
    }
  }

  /** The loop's state: the two word pairs and the carry. */
  datatype LoopState = LoopState(r: Words, q: Words, carry: nat) {
    /** One pass of the loop body against the divisor d. */
    function Next(d: nat): (s': LoopState)
      requires d < W64
    {
      var r1 := NextR(r, q);
      var s := CompareMask(d, r1.All());
      LoopState(Reduce(r1, d, s), NextQ(q, carry), And(s, 1))
    }
  }

  /** The loop invariant, with the ghost quotient and rest of `Progress` existentially hidden. */
  ghost predicate Dividing(a: nat, d: nat, s: LoopState, sr: nat) {
    && s.q.Fits() && s.r.Fits()
    && Comparable(d, s.q.All(), s.r.All(), sr)
    && exists done: nat, rest: nat, low: nat :: Progress(a, d, s.q.All(), s.r.All(), s.carry, sr, done, rest, low)
  }

  lemma DividingStart(a: nat, d: nat, q: Words, r: Words, sr: nat)
    requires a < W64 && d < W64 && q.Fits() && r.Fits() && 1 <= sr <= 63
    requires r.All() == a / Pow2(sr) < d
    requires q.All() == a % Pow2(sr) * Pow2(64 - sr)
    requires d < W63 || (sr == 1 && a >= W63)
    ensures Dividing(a, d, LoopState(r, q, 0), sr)
  {
    QuotientRemainder(a, Pow2(sr));
    if d >= W63 {
      WordSizes();
      DivUnique(q.All(), W63, a % 2, 0);
    }
    assert Progress(a, d, q.All(), r.All(), 0, sr, 0, a % Pow2(sr), 0);
  }

  /** The value of one pass: shift in the top bit of q, then subtract the divisor when it fits. */
  lemma NextValue(s: LoopState, d: nat, r1: nat)
    requires s.r.Fits() && s.q.Fits() && s.carry <= 1 && s.r.All() < W63 && d < W64
    requires r1 == 2 * s.r.All() + s.q.All() / W63 && -W63 <= d - r1 - 1 < W63
    ensures s.Next(d).r.Fits() && s.Next(d).r.All() == if r1 >= d then r1 - d else r1
    ensures s.Next(d).q.Fits() && s.Next(d).q.All() == 2 * (s.q.All() % W63) + s.carry
    ensures s.Next(d).carry == if r1 >= d then 1 else 0
  {
    ShiftPair(s.r, s.q);
    ShiftQuotient(s.q, s.carry);
    BranchFreeSubtract(d, NextR(s.r, s.q));
  }

  lemma DividingStep(a: nat, d: nat, s: LoopState, sr: nat)
    requires d < W64 && Dividing(a, d, s, sr) && sr > 0
    ensures Dividing(a, d, s.Next(d), sr - 1)
  {
    hide LoopState.Next, Pow2;
    var done: nat, rest: nat, low: nat :| Progress(a, d, s.q.All(), s.r.All(), s.carry, sr, done, rest, low);
    NeverMisread(d, s.q.All(), s.r.All(), sr);
    NextValue(s, d, 2 * s.r.All() + s.q.All() / W63);
    var s' := s.Next(d);
    var rest' := ProgressOn(a, d, s.q.All(), s.r.All(), s.carry, sr, done, rest, low, s'.q.All(), s'.r.All(), s'.carry);
  }

  lemma ProgressOn(a: nat, d: nat, q: nat, r: nat, carry: nat, sr: nat, done: nat, rest: nat, low: nat,
                   q': nat, r': nat, carry': nat) returns (rest': nat)
    requires Progress(a, d, q, r, carry, sr, done, rest, low) && sr > 0
    requires q' == 2 * (q % W63) + carry
    requires var r1 := 2 * r + q / W63; r' == (if r1 >= d then r1 - d else r1) && carry' == if r1 >= d then 1 else 0
    ensures Progress(a, d, q', r', carry', sr - 1, 2 * done + carry', rest', done)
  {
    var r1;
    r1, rest' := ProgressStep(a, d, q, r, carry, sr, done, rest, low);
    ProgressNext(a, d, q', r1, sr, done, rest');
  }

  /** In the loop the comparison is never misread: this is why no partial remainder loses its top
      bit and why the signed shift sees the true sign. */
  lemma NeverMisread(d: nat, q: nat, r: nat, sr: nat)
    requires Comparable(d, q, r, sr) && sr > 0 && r < d < W64 && q < W64
    ensures r < W63
    ensures -W63 <= d - (2 * r + q / W63) - 1 < W63
  {}

  lemma ProgressNext(a: nat, d: nat, q: nat, r: nat, sr: nat, done: nat, rest: nat)
    requires 0 < sr <= 63 && r < 2 * d && d < W64
    requires rest < Pow2(sr - 1) && done < Pow2(63 - (sr - 1))
    requires a == (d * (2 * done) + r) * Pow2(sr - 1) + rest && q == rest * Pow2(64 - (sr - 1)) + done
    ensures r >= d ==> Progress(a, d, q, r - d, 1, sr - 1, 2 * done + 1, rest, done)
    ensures r < d ==> Progress(a, d, q, r, 0, sr - 1, 2 * done, rest, done)
  {
    TakeDivisor(d, done, r);
  }

  lemma DividingEnd(a: nat, d: nat, s: LoopState)
    requires a < W64 && Dividing(a, d, s, 0)
    ensures a == Or(Shl(s.q.All(), 1) % W64, s.carry) * d + s.r.All() && s.r.All() < d
  {
    var done: nat, rest: nat, low: nat :| Progress(a, d, s.q.All(), s.r.All(), s.carry, 0, done, rest, low);
    FinalQuotient(a, d, s.q.All(), s.r.All(), s.carry, done, rest, low);
  }

  /** The loop at the end of the division: from the normalised pair it computes quotient and
      remainder. */
  method ShiftSubtract(n: nat, d: Words, q0: Words, r0: Words, sr0: nat) returns (quotient: nat, rem: nat)
    requires n < W64 && d.Fits() && q0.Fits() && r0.Fits() && 1 <= sr0 <= 63
    requires r0.All() == n / Pow2(sr0) < d.All()
    requires q0.All() == n % Pow2(sr0) * Pow2(64 - sr0)
    requires d.All() < W63 || (sr0 == 1 && n >= W63)
    ensures IsDivision(n, d.All(), quotient, rem)
  {
    var sr, q, r, carry := sr0, q0, r0, 0;
    DividingStart(n, d.All(), q, r, sr);
    while sr > 0
      invariant Dividing(n, d.All(), LoopState(r, q, carry), sr)
    {
      DividingStep(n, d.All(), LoopState(r, q, carry), sr);
      r, q := NextR(r, q), NextQ(q, carry);
      var s := CompareMask(d.All(), r.All());
      carry := And(s, 1);
      r := Reduce(r, d.All(), s);
      sr := sr - 1;
    }
    DividingEnd(n, d.All(), LoopState(r, q, carry));
    quotient := Or(Shl(q.All(), 1) % W64, carry);
    rem := r.All();
  }

  lemma FinalQuotient(a: nat, d: nat, q: nat, r: nat, carry: nat, done: nat, rest: nat, low: nat)
    requires Progress(a, d, q, r, carry, 0, done, rest, low) && a < W64
    ensures Or(Shl(q, 1) % W64, carry) == done
    ensures a == done * d + r
  {
    assert rest == 0 && q == low;
    assert a == d * done + r;
    MulMono(1, d, done);
    assert done < W64;
    DivUnique(2 * q, W64, 0, 2 * q);
    WordSizes();
    OrDisjoint(2 * q, carry, 1);
  }

  // ----- The special cases ------------------------------------------------------------------

  ghost predicate IsDivision(a: nat, b: nat, q: nat, r: nat) {
    a == q * b + r && r < b
  }

  /** The 32-bit divide and remainder instructions. */
  function Div32(x: nat, y: nat): nat
    requires y > 0
  {
    x / y
  }

  function Mod32(x: nat, y: nat): nat
    requires y > 0
  {
    x % y
  }

  lemma DivideSmall(n: Words, d: Words)
    requires n.Fits() && d.Fits() && n.high == 0 && d.All() > 0
    ensures d.high == 0 ==> IsDivision(n.All(), d.All(), Div32(n.low, d.low), Mod32(n.low, d.low))
    ensures d.high > 0 ==> IsDivision(n.All(), d.All(), 0, n.low)
  {
    if d.high == 0 {
      QuotientRemainder(n.low, d.low);
    }
  }

  lemma DivideRound(n: Words, d: Words)
    requires n.Fits() && n.low == 0 && d.high > 0 && d.low == 0
    ensures IsDivision(n.All(), d.All(), Div32(n.high, d.high), Words(Mod32(n.high, d.high), 0).All())
  {
    DivideHigh(n, d.high, n.high / d.high, n.high % d.high);
  }

  lemma DivideHighPower(n: Words, d: Words)
    requires n.Fits() && d.Fits() && d.high > 0 && d.low == 0 && And(d.high, d.high - 1) == 0
    ensures IsDivision(n.All(), d.All(), Shr(n.high, Ctz(d.high)), Words(And(n.high, d.high - 1), n.low).All())
  {
    PowerDivisor(n.high, d.high);
    QuotientRemainder(n.high, d.high);
    DivideHigh(n, d.high, Shr(n.high, Ctz(d.high)), And(n.high, d.high - 1));
  }

  lemma DivideHigh(n: Words, dh: nat, q: nat, rh: nat)
    requires n.Fits() && dh > 0
    requires n.high == q * dh + rh && rh < dh
    ensures n.All() == q * (dh * W32) + (rh * W32 + n.low)
    ensures rh * W32 + n.low < dh * W32
  {
    MulRearrange(q, dh, rh, W32);
  }

  /** What the power-of-two branches compute. */
  lemma PowerDivisor(x: nat, d: nat)
    requires 0 < d < W32 && And(d, d - 1) == 0
    ensures And(x, d - 1) == x % d < d && Shr(x, Ctz(d)) == x / d
    ensures d == Pow2(Ctz(d)) && Ctz(d) < 32
  {
    var k := PowerOfTwoTest(d);
    CtzOfPower(k);
    WordSizes();
    if k >= 32 {
      Pow2Mono(32, k);
    }
    AndLowMask(x, k);
    ShrIsQuotient(x, k);
  }

  /** A divisor with more bits than the dividend. */
  lemma DivisorLonger(n: Words, d: Words)
    requires n.Fits() && d.Fits() && n.high > 0 && d.high > 0 && Clz32(d.high) < Clz32(n.high)
    ensures n.All() < d.All()
  {
    Pow2Mono(32 - Clz32(n.high), 31 - Clz32(d.high));
  }

  lemma DividendLength(n: Words)
    requires n.Fits() && n.high > 0
    ensures n.All() < Pow2(64 - Clz32(n.high))
  {
    var c := Clz32(n.high);
    Pow2Add(32 - c, 32);
    WordSizes();
    MulMono(n.high + 1, Pow2(32 - c), W32);
  }

  /** Shifting by one more than the difference in length leaves less than the divisor. */
  lemma NormalisedBelowDivisor(n: Words, d: nat, len: nat, sr: nat)
    requires n.Fits() && n.high > 0 && sr + len == 64 - Clz32(n.high)
    requires Pow2(len) <= d
    ensures n.All() / Pow2(sr) < d
  {
    DividendLength(n);
    Pow2Add(sr, len);
    QuotientBelow(n.All(), Pow2(sr), Pow2(len));
  }

  lemma HighWordLength(d: Words)
    requires d.Fits() && d.high > 0
    ensures Pow2(63 - Clz32(d.high)) <= d.All()
    ensures d.All() >= W63 <==> Clz32(d.high) == 0
  {
    var c := Clz32(d.high);
    Pow2Add(31 - c, 32);
    WordSizes();
    MulMono(Pow2(31 - c), d.high, W32);
    if c > 0 {
      Pow2Mono(32 - c, 31);
    }
  }

  /** `__udivmoddi4`: for every dividend and every non-zero divisor, the exact quotient and
      remainder. */
  method Udivmoddi4(a: nat, b: nat) returns (quotient: nat, rem: nat)
    requires a < W64 && 0 < b < W64
    ensures quotient == a / b && rem == a % b
  {
    quotient, rem := DivideWords(Halves(a), Halves(b));
    DivUnique(a, b, quotient, rem);
  }

  method DivideWords(n: Words, d: Words) returns (quotient: nat, rem: nat)
    requires n.Fits() && d.Fits() && d.All() > 0
    ensures IsDivision(n.All(), d.All(), quotient, rem)
  {
    hide IsDivision, And, Shr, Ctz, Div32, Mod32;
    if n.high == 0 {
      DivideSmall(n, d);
      if d.high == 0 {
        return Div32(n.low, d.low), Mod32(n.low, d.low);
      }
      return 0, n.low;
    }
    if d.low == 0 {
      if n.low == 0 {
        DivideRound(n, d);
        return Div32(n.high, d.high), Words(Mod32(n.high, d.high), 0).All();
      }
      if And(d.high, d.high - 1) == 0 {
        DivideHighPower(n, d);
        return Shr(n.high, Ctz(d.high)), Words(And(n.high, d.high - 1), n.low).All();
      }
    } else if d.high == 0 {
      quotient, rem := DivideByLowWord(n, d);
      return;
    }
    quotient, rem := DivideByHighWord(n, d);
  }

  lemma DivideLowPower(n: Words, d: Words, k: nat)
    requires n.Fits() && 1 < d.low < W32 && d.high == 0 && And(d.low, d.low - 1) == 0 && k == Ctz(d.low)
    ensures 1 <= k <= 31
    ensures IsDivision(n.All(), d.All(),
                       Words(Shr(n.high, k), Or(Shl32(n.high, 32 - k), Shr(n.low, k))).All(), And(n.low, d.low - 1))
  {
    PowerDivisor(n.low, d.low);
    NormaliseBelow(n, k);
    LowRemainder(n, k);
    QuotientRemainder(n.All(), d.low);
  }

  lemma LowRemainder(n: Words, k: nat)
    requires n.Fits() && k <= 32
    ensures n.All() % Pow2(k) == n.low % Pow2(k)
  {
    Pow2Add(k, 32 - k);
    WordSizes();
    SplitQuotient(n.high, n.low, Pow2(k), Pow2(32 - k));
  }

  lemma QuotientRemainder(x: nat, d: nat)
    requires d > 0
    ensures x == x / d * d + x % d
  {}

  /** The initial pair `q = n << (64 - sr)`, `r = n >> sr`, word by word as the source writes it out
      in each branch. */
  method Normalise(n: Words, sr: nat) returns (q: Words, r: Words)
    requires n.Fits() && 1 <= sr <= 63
    ensures q.Fits() && q.All() == n.All() % Pow2(sr) * Pow2(64 - sr)
    ensures r.Fits() && r.All() == n.All() / Pow2(sr)
  {
    if sr == 32 {
      NormaliseWord(n);
      q, r := Words(n.low, 0), Words(0, n.high);
    } else if sr < 32 {
      NormaliseBelow(n, sr);
      q := Words(Shl32(n.low, 32 - sr), 0);
      r := Words(Shr(n.high, sr), Or(Shl32(n.high, 32 - sr), Shr(n.low, sr)));
    } else {
      NormaliseAboveOut(n, sr - 32);
      NormaliseAboveIn(n, sr - 32);
      q := Words(Or(Shl32(n.high, 64 - sr), Shr(n.low, sr - 32)), Shl32(n.low, 64 - sr));
      r := Words(0, Shr(n.high, sr - 32));
    }
  }

  /** The branch with a one-word divisor. */
  method DivideByLowWord(n: Words, d: Words) returns (quotient: nat, rem: nat)
    requires n.Fits() && n.high > 0 && d.high == 0 && 0 < d.low < W32
    ensures IsDivision(n.All(), d.All(), quotient, rem)
  {
    hide IsDivision, And, Shr, Or, Shl32, Ctz;
    if And(d.low, d.low - 1) == 0 {
      if d.low == 1 {
        DivideByOne(n, d);
        return n.All(), And(n.low, d.low - 1);
      }
      var sr := Ctz(d.low);
      DivideLowPower(n, d, sr);
      return Words(Shr(n.high, sr), Or(Shl32(n.high, 32 - sr), Shr(n.low, sr))).All(), And(n.low, d.low - 1);
    }
    var sr := 1 + 32 + Clz32(d.low) - Clz32(n.high);
    NotPowerShift(d.low, Clz32(d.low));
    NormalisedBelowDivisor(n, d.low, 31 - Clz32(d.low), sr);
    var q, r := Normalise(n, sr);
    quotient, rem := ShiftSubtract(n.All(), d, q, r, sr);
  }

  lemma DivideByOne(n: Words, d: Words)
    requires d == Words(0, 1)
    ensures IsDivision(n.All(), d.All(), n.All(), And(n.low, d.low - 1))
  {
    AndLowMask(n.low, 0);
  }

  /** A word that is no power of two has at least two bits, so its shift stays in range. */
  lemma NotPowerShift(x: nat, c: nat)
    requires 0 < x < W32 && And(x, x - 1) != 0 && c == Clz32(x)
    ensures c < 31
  {
    assert Pow2(0) == 1 && Pow2(1) == 2;
    assert And(1, 0) == 0;
  }

  /** The unsigned difference of the two lengths is small, or the divisor is longer. */
  lemma LengthDifference(n: Words, d: Words, sr: nat)
    requires n.Fits() && d.Fits() && n.high > 0 && d.high > 0
    requires d.low == 0 ==> And(d.high, d.high - 1) != 0
    requires sr == (Clz32(d.high) - Clz32(n.high)) % W32
    ensures sr > (if d.low == 0 then 30 else 31) ==> n.All() < d.All()
    ensures sr <= (if d.low == 0 then 30 else 31) ==> sr == Clz32(d.high) - Clz32(n.high)
  {
    var c, e := Clz32(d.high), Clz32(n.high);
    if c < e {
      DivUnique(c - e, W32, -1, c - e + W32);
      DivisorLonger(n, d);
    } else {
      DivUnique(c - e, W32, 0, c - e);
      if d.low == 0 {
        NotPowerShift(d.high, c);
      }
    }
  }

  lemma HighShift(n: Words, d: Words, sr: nat)
    requires n.Fits() && d.Fits() && n.high > 0 && d.high > 0
    requires sr == 1 + Clz32(d.high) - Clz32(n.high)
    ensures n.All() / Pow2(sr) < d.All()
    ensures d.All() >= W63 && sr > 0 ==> sr == 1 && n.All() >= W63
  {
    HighWordLength(d);
    HighWordLength(n);
    NormalisedBelowDivisor(n, d.All(), 63 - Clz32(d.high), sr);
  }

  /** The branch with a two-word divisor, after its special cases. */
  method DivideByHighWord(n: Words, d: Words) returns (quotient: nat, rem: nat)
    requires n.Fits() && d.Fits() && n.high > 0 && d.high > 0
    requires d.low == 0 ==> n.low > 0 && And(d.high, d.high - 1) != 0
    ensures IsDivision(n.All(), d.All(), quotient, rem)
  {
    hide And;
    var sr := (Clz32(d.high) - Clz32(n.high)) % W32;
    LengthDifference(n, d, sr);
    if sr > if d.low == 0 then 30 else 31 {
      assert IsDivision(n.All(), d.All(), 0, n.All());
      return 0, n.All();
    }
    sr := sr + 1;
    HighShift(n, d, sr);
    var q, r := Normalise(n, sr);
    quotient, rem := ShiftSubtract(n.All(), d, q, r, sr);
  }
}
