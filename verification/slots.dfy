/** The anti-grind slot: the pseudo-random index a (nonce, chain id, depth) triple pins. */
module Slots {
  import opened Arith
  import opened Bytes

  const WRAP: nat := 0x1_0000_0000
  const WORD_BITS: nat := 32
  const MULTIPLIER: nat := 1103515245
  const INCREMENT: nat := 12345

  /** Arithmetic on `u32` keeps the low 32 bits. */
  function Wrapping(x: nat): nat {
    LowBits(x, WORD_BITS)
  }

  lemma WrappingIsMod(x: nat)
    ensures Wrapping(x) == x % WRAP
  {
    var bits := WORD_BITS;
    LowBitsIsMod(x, bits);
    WrapIsPow2(bits);
  }

  /** One round of the generator: `wrapping_mul`, then `wrapping_add`. */
  function Lcg(x: nat): nat {
    Wrapping(Wrapping(Times(x, MULTIPLIER)) + INCREMENT)
  }

  /** The round in plain arithmetic. */
  lemma LcgArithmetic(x: nat)
    ensures Lcg(x) == (x * 1103515245 % 0x1_0000_0000 + 12345) % 0x1_0000_0000
  {
    TimesIsProduct(x, MULTIPLIER);
    WrappingIsMod(x * MULTIPLIER);
    WrappingIsMod(Wrapping(x * MULTIPLIER) + INCREMENT);
  }

  /** `get_expected_index`. A shift of 32 or more overflows in the source, so callers stay below it. */
  function ExpectedIndex(nonce: u32, chainId: u32, height: nat): nat
    requires height < 32
  {
    var rand := Lcg(Wrapping(Lcg(nonce) + chainId));
    LowBits(rand, height)
  }

  /** The slot in plain arithmetic: two rounds with the chain id added in between, reduced to the tree. */
  lemma SlotWritten(nonce: u32, chainId: u32, height: nat)
    requires height < 32
    ensures var first := (nonce * 1103515245 % 0x1_0000_0000 + 12345) % 0x1_0000_0000;
            var mixed := (first + chainId) % 0x1_0000_0000;
            var second := (mixed * 1103515245 % 0x1_0000_0000 + 12345) % 0x1_0000_0000;
            ExpectedIndex(nonce, chainId, height) == second % Pow2(height)
  {
    hide Lcg, Wrapping;
    LcgArithmetic(nonce);
    WrappingIsMod(Lcg(nonce) + chainId);
    LcgArithmetic(Wrapping(Lcg(nonce) + chainId));
    LowBitsIsMod(Lcg(Wrapping(Lcg(nonce) + chainId)), height);
  }

  lemma PowBound(height: nat)
    requires height < 32
    ensures Pow2(height) < WRAP
    ensures Pow2(32 - height) * Pow2(height) == WRAP
  {
    var n := 32;
    WrapIsPow2(n);
    Pow2Monotone(height, n);
    Pow2Add(n - height, height);
  }

  lemma WrapIsPow2(n: nat)
    requires n == 32
    ensures Pow2(n) == WRAP
  {
    Pow256IsPow2(n / 8);
    assert Pow256(n / 8 - 2) == 0x1_0000;
  }

  /** A power of two below the word size does not see the wrap-around. */
  lemma WrapInvisible(x: nat, height: nat)
    requires height < 32
    ensures Wrapping(x) % Pow2(height) == x % Pow2(height)
  {
    PowBound(height);
    WrappingIsMod(x);
    ModOfMod(x, Pow2(32 - height), Pow2(height));
  }

  /** One round, without the wrap-around. */
  lemma LcgMod(x: nat, height: nat)
    requires height < 32
    ensures Lcg(x) % Pow2(height) == (MULTIPLIER * x + INCREMENT) % Pow2(height)
  {
    var y := x * MULTIPLIER;
    TimesIsProduct(x, MULTIPLIER);
    WrapInvisible(Wrapping(y) + INCREMENT, height);
    WrapInvisible(y, height);
    AddKeepsMod(Wrapping(y), y, INCREMENT, Pow2(height));
  }

  lemma AddKeepsMod(a: int, b: int, c: int, m: nat)
    requires m > 0 && a % m == b % m
    ensures (a + c) % m == (b + c) % m
  {
    ModEqual(a, b, m);
    ModEqual(a + c, b + c, m);
  }

  lemma LinearKeepsMod(a: int, b: int, height: nat)
    requires height < 32 && a % Pow2(height) == b % Pow2(height)
    ensures (MULTIPLIER * a + INCREMENT) % Pow2(height) == (MULTIPLIER * b + INCREMENT) % Pow2(height)
  {
    var m := Pow2(height);
    ModEqual(a, b, m);
    OddMultiple(a - b, height);
    ModEqual(MULTIPLIER * a, MULTIPLIER * b, m);
    AddKeepsMod(MULTIPLIER * a, MULTIPLIER * b, INCREMENT, m);
  }

  /** The slot as one linear expression of the chain id. */
  lemma SlotIsLinear(nonce: u32, chainId: u32, height: nat)
    requires height < 32
    ensures ExpectedIndex(nonce, chainId, height)
            == (1103515245 * (Lcg(nonce) + chainId) + 12345) % Pow2(height)
  {
    hide Lcg;
    var s := Lcg(nonce) + chainId;
    var x := Wrapping(s);
    LowBitsIsMod(Lcg(x), height);
    LcgMod(x, height);
    WrapInvisible(s, height);
    LinearKeepsMod(x, s, height);
  }

  /** The multiplier is odd, so it is invertible modulo every power of two. */
  lemma OddMultiple(d: int, height: nat)
    requires height < 32
    ensures MULTIPLIER * d % Pow2(height) == 0 <==> d % Pow2(height) == 0
  {
    var inverse, k, m := 4005161829, 1029054899, Pow2(height);
    assert inverse * MULTIPLIER == 1 + k * WRAP;
    if d % m == 0 {
      MulAssoc(MULTIPLIER, d / m, m);
      DivModUnique(MULTIPLIER * d, m, MULTIPLIER * (d / m), 0);
    }
    if MULTIPLIER * d % m == 0 {
      PowBound(height);
      Cancel(d, inverse, k, MULTIPLIER * d / m, Pow2(32 - height), m);
    }
  }

  lemma Cancel(d: int, inverse: int, k: int, q: int, c: int, m: nat)
    requires m > 0 && inverse * MULTIPLIER == 1 + k * WRAP && c * m == WRAP
    requires MULTIPLIER * d == q * m
    ensures d % m == 0
  {
    var e := inverse * q - k * c * d;
    calc {
      d;
      (inverse * MULTIPLIER - k * WRAP) * d;
      inverse * (MULTIPLIER * d) - k * (c * m) * d;
      inverse * (q * m) - k * (c * m) * d;
      e * m;
    }
    DivModUnique(d, m, e, 0);
  }

  /** Two chain ids share a slot exactly when they are congruent modulo the tree size. */
  lemma SlotCollision(nonce: u32, c1: u32, c2: u32, height: nat)
    requires height < 32
    ensures ExpectedIndex(nonce, c1, height) == ExpectedIndex(nonce, c2, height)
            <==> c1 % Pow2(height) == c2 % Pow2(height)
  {
    hide ExpectedIndex, Lcg;
    SlotIsLinear(nonce, c1, height);
    SlotIsLinear(nonce, c2, height);
    LinearCollision(Lcg(nonce), c1, c2, height);
  }

  lemma LinearCollision(r: int, c1: int, c2: int, height: nat)
    requires height < 32
    ensures (MULTIPLIER * (r + c1) + INCREMENT) % Pow2(height) == (MULTIPLIER * (r + c2) + INCREMENT) % Pow2(height)
            <==> c1 % Pow2(height) == c2 % Pow2(height)
  {
    var m := Pow2(height);
    ModEqual(MULTIPLIER * (r + c1) + INCREMENT, MULTIPLIER * (r + c2) + INCREMENT, m);
    assert MULTIPLIER * (r + c1) - MULTIPLIER * (r + c2) == MULTIPLIER * (c1 - c2);
    OddMultiple(c1 - c2, height);
    ModEqual(c1, c2, m);
  }

  /** A smaller tree's slot is the larger tree's slot reduced. */
  lemma SlotOfSmallerTree(nonce: u32, chainId: u32, small: nat, large: nat)
    requires small <= large < 32
    ensures ExpectedIndex(nonce, chainId, small)
            == ExpectedIndex(nonce, chainId, large) % Pow2(small)
  {
    var rand := Lcg(Wrapping(Lcg(nonce) + chainId));
    LowBitsIsMod(rand, small);
    LowBitsIsMod(rand, large);
    Pow2Add(large - small, small);
    ModOfMod(rand, Pow2(large - small), Pow2(small));
  }
}
