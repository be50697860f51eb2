/** The signed wrappers around the unsigned division of os-l3/abstract-machine/klib/src/int64.c. A
    `di_int` is an integer between -2^63 and 2^63 - 1; the wrappers compute on its two's complement
    word, as the source's own assumptions say. */
module Int64Signed {
  import opened Bits
  import opened Int64

  predicate IsDiInt(x: int) {
    -W63 <= x < W63
  }

  function ToWord(x: int): (u: nat)
    ensures u < W64
  {
    x % W64
  }

  function ToSigned(u: nat): (x: int)
    requires u < W64
    ensures IsDiInt(x)
  {
    if u >= W63 then u - W64 else u
  }

  /** `x >> 63`: the sign bit in every place. */
  function SignFill(x: int): (s: nat)
    ensures s < W64
  {
    if x < 0 then W64 - 1 else 0
  }

  /** `(x ^ s) - s` on words: negation when s is all ones. */
  function ConditionalNegate(x: nat, s: nat): (y: nat)
    ensures y < W64
  {
    (Xor(x, s) - s) % W64
  }

  lemma WordOf(x: int)
    ensures IsDiInt(x) ==> ToWord(x) == if x < 0 then x + W64 else x
    ensures 0 <= x < W64 ==> ToWord(x) == x
    ensures -W64 <= x < 0 ==> ToWord(x) == x + W64
    ensures ToWord(-W64) == 0 && ToWord(W64) == 0
  {
    if 0 <= x < W64 {
      DivUnique(x, W64, 0, x);
    } else if -W64 <= x < 0 {
      DivUnique(x, W64, -1, x + W64);
    }
  }

  lemma NegateWord(x: nat, s: nat)
    requires x < W64 && (s == 0 || s == W64 - 1)
    ensures ConditionalNegate(x, s) == if s == 0 || x == 0 then x else W64 - x
  {
    if s == 0 {
      XorZero(x);
      WordOf(x);
    } else {
      WordSizes();
      XorOnes(x, 64);
      WordOf(0 - x);
    }
  }

  function Abs(x: int): nat {
    if x < 0 then -x else x
  }

  lemma AbsoluteWord(x: int)
    requires IsDiInt(x)
    ensures ConditionalNegate(ToWord(x), SignFill(x)) == Abs(x)
  {
    WordOf(x);
    NegateWord(ToWord(x), SignFill(x));
  }

  lemma SignOfQuotient(a: int, b: int)
    ensures Xor(SignFill(a), SignFill(b)) == if (a < 0) == (b < 0) then 0 else W64 - 1
  {
    WordSizes();
    XorOnes(W64 - 1, 64);
    XorZero(W64 - 1);
  }

  /** Division truncated toward zero, as section 6.5.5 of ISO/IEC 9899:2011 defines `/`. */
  function TruncQuotient(a: int, b: int): int
    requires b != 0
  {
    if (a < 0) == (b < 0) then Abs(a) / Abs(b) else -(Abs(a) / Abs(b))
  }

  /** The remainder that section 6.5.5 of ISO/IEC 9899:2011 defines for `%`. */
  function TruncRemainder(a: int, b: int): int
    requires b != 0
  {
    if a < 0 then -(Abs(a) % Abs(b)) else Abs(a) % Abs(b)
  }

  lemma TruncatedDivision(a: int, b: int)
    requires b != 0
    ensures a == TruncQuotient(a, b) * b + TruncRemainder(a, b)
    ensures (if b < 0 then b else -b) < TruncRemainder(a, b) < if b < 0 then -b else b
    ensures TruncRemainder(a, b) > 0 ==> a > 0
    ensures TruncRemainder(a, b) < 0 ==> a < 0
  {
    hide TruncQuotient, TruncRemainder;
    OfAbsolutes(a, b);
  }

  lemma OfAbsolutes(a: int, b: int)
    requires b != 0
    ensures a == TruncQuotient(a, b) * b + TruncRemainder(a, b)
    ensures Abs(TruncRemainder(a, b)) < Abs(b)
    ensures TruncRemainder(a, b) > 0 ==> a > 0
    ensures TruncRemainder(a, b) < 0 ==> a < 0
  {
    QuotientRemainder(Abs(a), Abs(b));
    SignedProduct(Abs(a) / Abs(b), b);
  }

  lemma SignedProduct(q: nat, b: int)
    ensures q * Abs(b) == (if b < 0 then 0 - q else q) * b
    ensures -(q * Abs(b)) == (if b < 0 then q else 0 - q) * b
  {
    Signs(q, b);
  }

  lemma Signs(q: int, b: int)
    ensures (-q) * b == -(q * b) && q * (-b) == -(q * b) && (-q) * (-b) == q * b
  {}

  /** The two functions are the only pair that rounds toward zero. */
  lemma TruncationUnique(a: int, b: int, q: int, r: int)
    requires b != 0 && a == q * b + r && (if b < 0 then b else -b) < r < (if b < 0 then -b else b)
    requires (r > 0 ==> a > 0) && (r < 0 ==> a < 0)
    ensures q == TruncQuotient(a, b) && r == TruncRemainder(a, b)
  {
    var q' := if (a < 0) == (b < 0) then q else -q;
    Signs(q, b);
    DivUnique(Abs(a), Abs(b), q', Abs(r));
  }

  lemma QuotientRange(a: int, b: int)
    requires IsDiInt(a) && IsDiInt(b) && b != 0
    ensures Abs(a) / Abs(b) <= Abs(a)
    ensures IsDiInt(TruncQuotient(a, b)) <==> !(a == -W63 && b == -1)
  {
    QuotientAtMost(Abs(a), Abs(b));
    if a == -W63 && b != -1 && b < 0 {
      QuotientRemainder(W63, Abs(b));
      MulMono(2, Abs(b), Abs(a) / Abs(b));
    }
  }

  /** `__divdi3`: the truncated quotient for every pair but INT64_MIN / -1, where the result wraps
      round to INT64_MIN. */
  method Divdi3(a: int, b: int) returns (q: int)
    requires -0x8000_0000_0000_0000 <= a < 0x8000_0000_0000_0000
    requires -0x8000_0000_0000_0000 <= b < 0x8000_0000_0000_0000 && b != 0
    ensures q == TruncQuotient(a, b) <==> !(a == -0x8000_0000_0000_0000 && b == -1)
    ensures a == -0x8000_0000_0000_0000 && b == -1 ==> q == -0x8000_0000_0000_0000
  {
    var sA, sB := SignFill(a), SignFill(b);
    AbsoluteWord(a);
    AbsoluteWord(b);
    SignOfQuotient(a, b);
    QuotientRange(a, b);
    var n, d := ConditionalNegate(ToWord(a), sA), ConditionalNegate(ToWord(b), sB);
    sA := Xor(sA, sB);
    var uq, _ := Udivmoddi4(n, d);
    NegateWord(uq, sA);
    q := ToSigned(ConditionalNegate(uq, sA));
  }

  /** `__moddi3`: the truncated remainder for every pair. */
  method Moddi3(a: int, b: int) returns (r: int)
    requires -0x8000_0000_0000_0000 <= a < 0x8000_0000_0000_0000
    requires -0x8000_0000_0000_0000 <= b < 0x8000_0000_0000_0000 && b != 0
    ensures r == TruncRemainder(a, b)
  {
    var s := SignFill(b);
    AbsoluteWord(b);
    var d := ConditionalNegate(ToWord(b), s);
    s := SignFill(a);
    AbsoluteWord(a);
    var n := ConditionalNegate(ToWord(a), s);
    var _, ur := Udivmoddi4(n, d);
    TruncatedDivision(a, b);
    NegateWord(ur, s);
    r := ToSigned(ConditionalNegate(ur, s));
  }

  /** `__divmoddi4`: the remainder is right even where the quotient has wrapped round. */
  method Divmoddi4(a: int, b: int) returns (q: int, rem: int)
    requires -0x8000_0000_0000_0000 <= a < 0x8000_0000_0000_0000
    requires -0x8000_0000_0000_0000 <= b < 0x8000_0000_0000_0000 && b != 0
    ensures q == TruncQuotient(a, b) <==> !(a == -0x8000_0000_0000_0000 && b == -1)
    ensures rem == TruncRemainder(a, b)
  {
    q := Divdi3(a, b);
    rem := ToSigned(ToWord(a - q * b));
    TruncatedDivision(a, b);
    if a == -W63 && b == -1 {
      Signs(W63, 1);
      assert a - q * b == -W64;
      WordOf(-W64);
      assert TruncRemainder(a, b) == 0;
    } else {
      assert a - q * b == TruncRemainder(a, b);
      WordOf(TruncRemainder(a, b));
    }
  }
}
