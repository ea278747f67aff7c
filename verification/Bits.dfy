/** Machine words as bounded naturals, with the bitwise operators Rust applies to them. */
module Bits {

  const TWO_64: int := 0x1_0000_0000_0000_0000
  const TWO_32: int := 0x1_0000_0000

  type byte = b: int | 0 <= b < 256
  type u32 = x: int | 0 <= x < TWO_32
  type u64 = x: int | 0 <= x < TWO_64

  function Pow2(n: nat): (p: nat)
    ensures p > 0
  {
    if n == 0 then 1 else 2 * Pow2(n - 1)
  }

  /** Rust's `a >> k` on an unsigned word. */
  function Shr(a: nat, k: nat): nat {
    if k == 0 then a else Shr(a / 2, k - 1)
  }

  /** `a << k` without the loss of high bits. */
  function Shl(a: nat, k: nat): nat {
    if k == 0 then a else 2 * Shl(a, k - 1)
  }

  /** Bit `i` of `a`, counted from the least significant one. */
  predicate Bit(a: nat, i: nat) {
    if i == 0 then a % 2 == 1 else Bit(a / 2, i - 1)
  }

  function And(a: nat, b: nat): nat {
    if a == 0 || b == 0 then 0
    else 2 * And(a / 2, b / 2) + (if a % 2 == 1 && b % 2 == 1 then 1 else 0)
  }

  function Or(a: nat, b: nat): nat
    decreases a + b
  {
    if a == 0 then b else if b == 0 then a
    else 2 * Or(a / 2, b / 2) + (if a % 2 == 1 || b % 2 == 1 then 1 else 0)
  }

  function Xor(a: nat, b: nat): nat
    decreases a + b
  {
    if a == 0 then b else if b == 0 then a
    else 2 * Xor(a / 2, b / 2) + (if a % 2 != b % 2 then 1 else 0)
  }

  /** Rust's `!x` on a `u64`. */
  function Not64(x: u64): u64 {
    TWO_64 - 1 - x
  }

  // ----- reading single bits -----

  lemma {:induction false} ZeroBit(i: nat)
    ensures !Bit(0, i)
  {
    if i > 0 { ZeroBit(i - 1); }
  }

  lemma {:induction false} XorBit(a: nat, b: nat, i: nat)
    ensures Bit(Xor(a, b), i) == (Bit(a, i) != Bit(b, i))
  {
    if a == 0 || b == 0 {
      ZeroBit(i);
    } else if i > 0 {
      XorBit(a / 2, b / 2, i - 1);
    }
  }

  lemma {:induction false} AndBit(a: nat, b: nat, i: nat)
    ensures Bit(And(a, b), i) == (Bit(a, i) && Bit(b, i))
  {
    if a == 0 || b == 0 {
      ZeroBit(i);
    } else if i > 0 {
      AndBit(a / 2, b / 2, i - 1);
    }
  }

  /** Two naturals with the same bits are equal. */
  lemma {:induction false} SameBits(a: nat, b: nat)
    requires forall i: nat :: Bit(a, i) == Bit(b, i)
    ensures a == b
    decreases a + b
  {
    assert Bit(a, 0) == Bit(b, 0);
    if a + b > 0 {
      forall i: nat ensures Bit(a / 2, i) == Bit(b / 2, i) {
        assert Bit(a, i + 1) == Bit(b, i + 1);
      }
      if a / 2 + b / 2 < a + b {
        SameBits(a / 2, b / 2);
      }
    }
  }

  // ----- algebra of exclusive or -----

  lemma XorComm(a: nat, b: nat)
    ensures Xor(a, b) == Xor(b, a)
  {}

  lemma XorAssoc(a: nat, b: nat, c: nat)
    ensures Xor(Xor(a, b), c) == Xor(a, Xor(b, c))
  {
    forall i: nat ensures Bit(Xor(Xor(a, b), c), i) == Bit(Xor(a, Xor(b, c)), i) {
      XorBit(Xor(a, b), c, i);
      XorBit(a, b, i);
      XorBit(a, Xor(b, c), i);
      XorBit(b, c, i);
    }
    SameBits(Xor(Xor(a, b), c), Xor(a, Xor(b, c)));
  }

  lemma XorSelf(a: nat)
    ensures Xor(a, a) == 0
  {}

  lemma XorShift(a: nat, b: nat, k: nat)
    ensures Shr(Xor(a, b), k) == Xor(Shr(a, k), Shr(b, k))
  {}

  lemma {:induction false} ShrShr(a: nat, j: nat, k: nat)
    ensures Shr(Shr(a, j), k) == Shr(a, j + k)
  {
    if j > 0 { ShrShr(a / 2, j - 1, k); }
  }

  lemma {:induction false} ShrBound(a: nat, k: nat)
    ensures Shr(a, k) <= a
  {
    if k > 0 { ShrBound(a / 2, k - 1); }
  }

  lemma {:induction false} ShrOut(a: nat, k: nat)
    requires a < Pow2(k)
    ensures Shr(a, k) == 0
  {
    if k > 0 { ShrOut(a / 2, k - 1); }
  }

  lemma {:induction false} XorBound(a: nat, b: nat, n: nat)
    requires a < Pow2(n) && b < Pow2(n)
    ensures Xor(a, b) < Pow2(n)
  {
    if n > 0 && a > 0 && b > 0 {
      XorBound(a / 2, b / 2, n - 1);
    }
  }

  // ----- words -----

  lemma QuotientUnique(a: int, d: int, q: int, r: int)
    requires d > 0 && a == d * q + r && 0 <= r < d
    ensures a / d == q && a % d == r
  {
    var q', r' := a / d, a % d;
    MultipleBelow(d, q - q', r' - r);
  }

  /** The only multiple of `d` strictly between `-d` and `d` is zero. */
  lemma MultipleBelow(d: int, k: int, m: int)
    requires -d < m < d && d * k == m
    ensures k == 0
  {}

  lemma Pow2Words()
    ensures Pow2(8) == 256 && Pow2(16) == 0x1_0000 && Pow2(32) == TWO_32 && Pow2(64) == TWO_64
  {
    assert Pow2(8) == 256;
    hide Pow2;
    Pow2Sum(8, 8);
    Pow2Sum(16, 16);
    Pow2Sum(32, 32);
  }

  lemma {:induction false} Pow2Sum(a: nat, b: nat)
    ensures Pow2(a + b) == Pow2(a) * Pow2(b)
  {
    if a > 0 { Pow2Sum(a - 1, b); }
  }

  lemma {:induction false} Pow2Monotonic(a: nat, b: nat)
    requires a <= b
    ensures Pow2(a) <= Pow2(b)
    decreases b
  {
    if a < b { Pow2Monotonic(a, b - 1); }
  }

  // ----- shifting back and forth -----

  lemma {:induction false} ShrShl(a: nat, k: nat)
    ensures Shr(Shl(a, k), k) == a
  {
    if k > 0 { ShrShl(a, k - 1); }
  }

  lemma {:induction false} ShlBound(a: nat, k: nat, n: nat)
    requires a < Pow2(n)
    ensures Shl(a, k) < Pow2(n + k)
  {
    if k > 0 { ShlBound(a, k - 1, n); }
  }

  lemma {:induction false} ShrFits(a: nat, k: nat, n: nat)
    requires a < Pow2(k + n)
    ensures Shr(a, k) < Pow2(n)
  {
    if k > 0 { ShrFits(a / 2, k - 1, n); }
  }

  lemma {:induction false} AndOnes(x: nat, w: nat)
    requires x < Pow2(w)
    ensures And(x, Pow2(w) - 1) == x
  {
    if w > 0 && x > 0 {
      AndOnes(x / 2, w - 1);
      var ones := Pow2(w) - 1;
      assert ones / 2 == Pow2(w - 1) - 1 && ones % 2 == 1;
      hide Pow2;
    }
  }

  /** Masking with the ones from position `s` up to `w` clears the `s` low bits. */
  lemma {:induction false} AndHighOnes(x: nat, w: nat, s: nat)
    requires x < Pow2(w) && s <= w
    ensures Pow2(s) <= Pow2(w)
    ensures And(x, Pow2(w) - Pow2(s)) == Shl(Shr(x, s), s)
  {
    Pow2Monotonic(s, w);
    if s == 0 {
      AndOnes(x, w);
    } else {
      AndHighOnes(x / 2, w - 1, s - 1);
      var m := Pow2(w) - Pow2(s);
      assert m / 2 == Pow2(w - 1) - Pow2(s - 1) && m % 2 == 0;
      ShlZero(s);
    }
  }

  lemma {:induction false} ShlZero(k: nat)
    ensures Shl(0, k) == 0
  {
    if k > 0 { ShlZero(k - 1); }
  }

  lemma {:induction false} ShlOnes(w: nat, k: nat)
    ensures Shl(Pow2(w) - 1, k) == Pow2(w + k) - Pow2(k)
  {
    if k > 0 { ShlOnes(w, k - 1); }
  }
}
