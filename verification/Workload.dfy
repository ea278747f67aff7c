/** SplitMix64, the generator behind every random draw of the benchmark (benches/spoe/workload.rs). */
module Workload {
  import opened Bits

  const GAMMA: u64 := 0x9E37_79B9_7F4A_7C15
  const MULTIPLIER_1: u64 := 0xBF58_476D_1CE4_E5B9
  const MULTIPLIER_2: u64 := 0x94D0_49BB_1331_11EB

  // Inverses of the three odd constants modulo 2^64.
  const GAMMA_INVERSE: u64 := 0xF1DE_83E1_9937_733D
  const MULTIPLIER_1_INVERSE: u64 := 0x96DE_1B17_3F11_9089
  const MULTIPLIER_2_INVERSE: u64 := 0x3196_42B2_D24D_8EC3

  function WrapAdd(a: u64, b: u64): u64 {
    (a + b) % TWO_64
  }

  function WrapMul(a: u64, b: u64): u64 {
    (a * b) % TWO_64
  }

  /** `z ^ (z >> s)` */
  function XorShr(z: u64, s: nat): (r: u64) {
    XorShrWord(z, s);
    Xor(z, Shr(z, s))
  }

  lemma XorShrWord(z: u64, s: nat)
    ensures Shr(z, s) < TWO_64 && Xor(z, Shr(z, s)) < TWO_64
  {
    Pow2Words();
    ShrBound(z, s);
    XorBound(z, Shr(z, s), 64);
  }

  /** What `next_u64` computes from the advanced state. */
  function Mix(state: u64): u64 {
    var z := WrapMul(XorShr(state, 30), MULTIPLIER_1);
    var z := WrapMul(XorShr(z, 27), MULTIPLIER_2);
    XorShr(z, 31)
  }

  class SplitMix64 {
    var state: u64

    constructor (seed: u64)
      ensures state == Xor(seed, GAMMA)
    {
      Pow2Words();
      XorBound(seed, GAMMA, 64);
      state := Xor(seed, GAMMA);
    }

    method NextU64() returns (z: u64)
      modifies this
      ensures state == WrapAdd(old(state), GAMMA)
      ensures z == Mix(state)
    {
      state := WrapAdd(state, GAMMA);
      z := state;
      z := WrapMul(XorShr(z, 30), MULTIPLIER_1);
      z := WrapMul(XorShr(z, 27), MULTIPLIER_2);
      z := XorShr(z, 31);
    }

    /** Rust panics on a zero bound; every caller passes a positive one. */
    method Below(bound: u64) returns (r: u64)
      requires bound > 0
      modifies this
      ensures state == WrapAdd(old(state), GAMMA)
      ensures r < bound && r == Mix(state) % bound
    {
      var z := NextU64();
      r := z % bound;
    }
  }

  // ----- whole runs of the generator -----

  /** State after `k` calls of `next_u64`. */
  function StateAfter(state: u64, k: nat): u64 {
    if k == 0 then state else WrapAdd(StateAfter(state, k - 1), GAMMA)
  }

  lemma {:induction false} StateAfterValue(state: u64, k: nat)
    ensures StateAfter(state, k) == (state + k * GAMMA) % TWO_64
  {
    if k > 0 {
      StateAfterValue(state, k - 1);
      ModAdd(state + (k - 1) * GAMMA, GAMMA);
    }
  }

  /** Result of the `k`-th call, counted from one. */
  function Draw(state: u64, k: nat): u64 {
    Mix(StateAfter(state, k))
  }

  /** `j` calls and then `k` more are `j + k` calls. */
  lemma {:induction false} StateAfterSum(state: u64, j: nat, k: nat)
    ensures StateAfter(StateAfter(state, j), k) == StateAfter(state, j + k)
  {
    if k > 0 { StateAfterSum(state, j, k - 1); }
  }

  lemma ModAdd(a: nat, b: nat)
    ensures (a % TWO_64 + b) % TWO_64 == (a + b) % TWO_64
  {
    var q, r := a / TWO_64, a % TWO_64;
    var q2, r2 := (r + b) / TWO_64, (r + b) % TWO_64;
    QuotientUnique(a + b, TWO_64, q + q2, r2);
  }

  lemma MulCancels(y: u64, c: nat, d: nat, q: nat)
    requires c * d == 1 + TWO_64 * q
    ensures (y * c % TWO_64) * d % TWO_64 == y
  {
    var k, r := y * c / TWO_64, y * c % TWO_64;
    assert y * c == TWO_64 * k + r;
    assert (y * c) * d == y + TWO_64 * (q * y) by {
      assert (y * c) * d == y * (c * d);
      assert y * (1 + TWO_64 * q) == y + TWO_64 * (q * y);
    }
    assert (TWO_64 * k + r) * d == TWO_64 * (k * d) + r * d;
    assert TWO_64 * (q * y - k * d) == TWO_64 * (q * y) - TWO_64 * (k * d);
    QuotientUnique(r * d, TWO_64, q * y - k * d, y);
  }

  /** Inverse of `z ^ (z >> s)` for the shifts the generator uses. */
  function UnXorShr(y: u64, s: nat): (z: u64) {
    UnXorShrWord(y, s);
    Xor(XorShr(y, s), Shr(y, 2 * s))
  }

  lemma UnXorShrWord(y: u64, s: nat)
    ensures Xor(XorShr(y, s), Shr(y, 2 * s)) < TWO_64
  {
    Pow2Words();
    ShrBound(y, 2 * s);
    XorBound(XorShr(y, s), Shr(y, 2 * s), 64);
  }

  lemma XorShrInverse(y: u64, s: nat)
    requires 3 * s >= 64
    ensures XorShr(UnXorShr(y, s), s) == y
    ensures UnXorShr(XorShr(y, s), s) == y
  {
    var b, c := Shr(y, s), Shr(y, 2 * s);
    assert Shr(b, s) == c && Shr(c, s) == 0 by {
      ShrShr(y, s, s);
      ShrShr(y, 2 * s, s);
      Pow2Words();
      Pow2Monotonic(64, 3 * s);
      ShrOut(y, 3 * s);
    }
    // Shifting either combination moves every term one place.
    XorShift(Xor(y, b), c, s);
    XorShift(y, b, s);
    XorAssoc(Xor(y, b), c, Xor(b, c));
    Cancel(b, c);
    Cancel3(y, b);

    var x := Xor(y, b);
    assert Shr(x, s) == Xor(b, c);
    assert Shr(x, 2 * s) == c by {
      ShrShr(x, s, s);
      XorShift(b, c, s);
    }
    XorAssoc(y, b, Xor(b, c));
    Cancel(c, b);
    XorComm(b, c);
    assert Xor(x, Xor(b, c)) == Xor(y, c) by {
      XorAssoc(b, b, c);
      XorSelf(b);
    }
    Cancel3(y, c);
  }

  lemma Cancel(b: nat, c: nat)
    ensures Xor(c, Xor(b, c)) == b
  {
    XorComm(b, c);
    XorAssoc(c, c, b);
    XorSelf(c);
  }

  lemma Cancel3(a: nat, b: nat)
    ensures Xor(Xor(a, b), b) == a
  {
    XorAssoc(a, b, b);
    XorSelf(b);
  }

  /** The state whose mixed value is `y`. */
  function Unmix(y: u64): u64 {
    var z := UnXorShr(y, 31);
    var z := UnXorShr(WrapMul(z, MULTIPLIER_2_INVERSE), 27);
    UnXorShr(WrapMul(z, MULTIPLIER_1_INVERSE), 30)
  }

  /** The output function is a bijection of the 64-bit words. */
  lemma MixBijective(y: u64)
    ensures Mix(Unmix(y)) == y
    ensures Unmix(Mix(y)) == y
  {
    MixUnmix(y);
    UnmixMix(y);
  }

  lemma MixUnmix(y: u64)
    ensures Mix(Unmix(y)) == y
  {
    var z3 := UnXorShr(y, 31);
    var w2 := WrapMul(z3, MULTIPLIER_2_INVERSE);
    var z2 := UnXorShr(w2, 27);
    var w1 := WrapMul(z2, MULTIPLIER_1_INVERSE);
    XorShrInverse(w1, 30);
    MulCancels(z2, MULTIPLIER_1_INVERSE, MULTIPLIER_1, 8125545580553827436);
    XorShrInverse(w2, 27);
    MulCancels(z3, MULTIPLIER_2_INVERSE, MULTIPLIER_2, 2077064247507883091);
    XorShrInverse(y, 31);
  }

  lemma UnmixMix(y: u64)
    ensures Unmix(Mix(y)) == y
  {
    var z1 := XorShr(y, 30);
    var w1 := WrapMul(z1, MULTIPLIER_1);
    var z2 := XorShr(w1, 27);
    var w2 := WrapMul(z2, MULTIPLIER_2);
    XorShrInverse(w2, 31);
    MulCancels(z2, MULTIPLIER_2, MULTIPLIER_2_INVERSE, 2077064247507883091);
    XorShrInverse(w1, 27);
    MulCancels(z1, MULTIPLIER_1, MULTIPLIER_1_INVERSE, 8125545580553827436);
    XorShrInverse(y, 30);
  }

  function Gap(state: u64, target: u64): u64 {
    (target + TWO_64 - state) % TWO_64
  }

  /** Number of additions of GAMMA that lead from `state` to `target`. */
  function Steps(state: u64, target: u64): u64 {
    Gap(state, target) * GAMMA_INVERSE % TWO_64
  }

  lemma GapCloses(state: u64, target: u64)
    ensures (Gap(state, target) + state) % TWO_64 == target
  {
    assert Gap(state, target) == if state <= target then target - state else target + TWO_64 - state;
  }

  lemma StepsReach(state: u64, target: u64)
    ensures StateAfter(state, Steps(state, target)) == target
  {
    hide StateAfter, Gap;
    var gap, k := Gap(state, target), Steps(state, target);
    MulCancels(gap, GAMMA_INVERSE, GAMMA, 10771413168148108919);
    StateAfterValue(state, k);
    ModAdd(k * GAMMA, state);
    GapCloses(state, target);
  }

  /** Full period, uniqueness: two draws fewer than 2^64 calls apart come from different states. */
  lemma StepsUnique(state: u64, k: u64)
    ensures Steps(state, StateAfter(state, k)) == k
  {
    var target := StateAfter(state, k);
    StateAfterValue(state, k);
    var wide := state + k * GAMMA;
    var q := wide / TWO_64;
    assert wide == TWO_64 * q + target;
    var gap := Gap(state, target);
    assert gap == k * GAMMA % TWO_64 by {
      var g, h := k * GAMMA / TWO_64, k * GAMMA % TWO_64;
      assert target + TWO_64 - state == TWO_64 * (g - q + 1) + h;
      QuotientUnique(target + TWO_64 - state, TWO_64, g - q + 1, h);
    }
    MulCancels(k, GAMMA, GAMMA_INVERSE, 10771413168148108919);
  }

  /** Number of further draws, minus one, after which `next_u64` returns `y`. */
  function DrawsUntil(state: u64, y: u64): u64 {
    Steps(WrapAdd(state, GAMMA), Unmix(y))
  }

  lemma DrawReached(state: u64, y: u64)
    ensures Draw(state, DrawsUntil(state, y) + 1) == y
  {
    StepsReach(WrapAdd(state, GAMMA), Unmix(y));
    StateAfterSum(state, 1, DrawsUntil(state, y));
    MixBijective(y);
  }

  lemma DrawUnique(state: u64, k: nat)
    requires 1 <= k <= TWO_64
    ensures k == DrawsUntil(state, Draw(state, k)) + 1
  {
    StateAfterSum(state, 1, k - 1);
    MixBijective(StateAfter(state, k));
    StepsUnique(WrapAdd(state, GAMMA), k - 1);
  }

  /**
   * Full period: from any state, 2^64 consecutive draws contain every 64-bit value exactly once.
   */
  lemma FullPeriod(state: u64, y: u64, k: nat)
    requires 1 <= k <= TWO_64
    ensures Draw(state, k) == y <==> k == DrawsUntil(state, y) + 1
  {
    DrawReached(state, y);
    DrawUnique(state, k);
  }
}
