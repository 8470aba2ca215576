/** Powers of two and the few facts about division by a power that the byte-level code relies on. */
module Arith {
  function Min(n: nat, m: nat): nat { if n < m then n else m }

  function Pow2(n: nat): (r: nat)
    ensures r > 0
  {
    if n == 0 then 1 else 2 * Pow2(n - 1)
  }

  function Pow256(n: nat): (r: nat)
    ensures r > 0
  {
    if n == 0 then 1 else 256 * Pow256(n - 1)
  }

  lemma {:induction false} Pow2Add(a: nat, b: nat)
    ensures Pow2(a + b) == Pow2(a) * Pow2(b)
  {
    if a > 0 {
      Pow2Add(a - 1, b);
      MulAssoc(2, Pow2(a - 1), Pow2(b));
    }
  }

  lemma {:induction false} Pow256IsPow2(n: nat)
    ensures Pow256(n) == Pow2(8 * n)
  {
    if n > 0 {
      Pow256IsPow2(n - 1);
      Pow2Add(8, 8 * (n - 1));
      assert Pow2(8) == 256;
    }
  }

  lemma {:induction false} Pow256Add(a: nat, b: nat)
    ensures Pow256(a + b) == Pow256(a) * Pow256(b)
  {
    Pow256IsPow2(a);
    Pow256IsPow2(b);
    Pow256IsPow2(a + b);
    Pow2Add(8 * a, 8 * b);
  }

  lemma {:induction false} Pow2Monotone(a: nat, b: nat)
    requires a < b
    ensures Pow2(a) < Pow2(b)
  {
    if a + 1 < b {
      Pow2Monotone(a, b - 1);
    }
  }

  lemma Pow2Injective(a: nat, b: nat)
    requires Pow2(a) == Pow2(b)
    ensures a == b
  {
    if a < b {
      Pow2Monotone(a, b);
    } else if b < a {
      Pow2Monotone(b, a);
    }
  }

  lemma {:induction false} Pow256Monotone(a: nat, b: nat)
    requires a <= b
    ensures Pow256(a) <= Pow256(b)
  {
    if a < b {
      Pow256Monotone(a, b - 1);
    }
  }

  /** Natural division, with the facts the solver does not find for a symbolic divisor. */
  function FloorDiv(n: nat, d: nat): (q: nat)
    requires d > 0
    ensures q == n / d && q <= n
  {
    DivShrinks(n, d);
    n / d
  }

  lemma DivShrinks(n: nat, d: nat)
    requires d > 0
    ensures 0 <= n / d <= n
  {
    var q := n / d;
    assert n == q * d + n % d;
    if q < 0 {
      MulMonotone(q, -1, d);
    } else {
      MulMonotone(1, d, q);
    }
  }

  lemma SuccMul(a: int, d: int)
    ensures (a + 1) * d == a * d + d
  {
  }

  lemma QuotientAntitone(n: nat, x: nat, y: nat)
    requires 0 < x <= y
    ensures n / y <= n / x
  {
    var a, b := n / x, n / y;
    assert n == a * x + n % x;
    assert n == b * y + n % y;
    if a < b {
      SuccMul(a, x);
      DivShrinks(n, x);
      MulMonotone(x, y, a + 1);
      MulMonotone(a + 1, b, y);
    }
  }

  lemma MulAssoc(a: int, b: int, c: int)
    ensures (a * b) * c == a * (b * c)
  {
  }

  lemma MulMonotone(a: int, b: int, c: nat)
    requires a <= b
    ensures a * c <= b * c
  {
  }

  /** Quotient and remainder are the only pair of their kind. */
  lemma DivModUnique(x: int, d: int, q: int, r: int)
    requires d > 0 && 0 <= r < d
    requires x == q * d + r
    ensures x / d == q && x % d == r
  {
    var q', r' := x / d, x % d;
    assert x == q' * d + r';
    assert (q - q') * d == r' - r;
    if q > q' {
      MulMonotone(1, q - q', d);
    } else if q < q' {
      MulMonotone(1, q' - q, d);
    }
  }

  /** Adding a multiple of the divisor adds to the quotient and keeps the remainder. */
  lemma DivAddMultiple(x: int, k: int, d: int)
    requires d > 0
    ensures (x + k * d) / d == x / d + k
    ensures (x + k * d) % d == x % d
  {
    assert x + k * d == (x / d + k) * d + x % d;
    DivModUnique(x + k * d, d, x / d + k, x % d);
  }

  /** Congruence modulo `d` is a difference that is a multiple of `d`. */
  lemma ModEqual(x: int, y: int, d: int)
    requires d > 0
    ensures x % d == y % d <==> (x - y) % d == 0
  {
    if x % d == y % d {
      assert x - y == (x / d - y / d) * d + 0;
      DivModUnique(x - y, d, x / d - y / d, 0);
    } else if (x - y) % d == 0 {
      assert x == y + ((x - y) / d) * d;
      DivAddMultiple(y, (x - y) / d, d);
    }
  }

  /** Reducing first by a multiple of the modulus loses nothing. */
  lemma ModOfMod(x: int, k: nat, d: nat)
    requires k > 0 && d > 0
    ensures k * d > 0
    ensures (x % (k * d)) % d == x % d
  {
    MulMonotone(1, k, d);
    var q := x / (k * d);
    assert x == q * (k * d) + x % (k * d);
    MulAssoc(q, k, d);
    DivAddMultiple(x % (k * d), q * k, d);
  }

  /** `n * d`, one bit of `n` at a time: unfolding it costs the solver no multiplication. */
  function Times(n: nat, d: nat): nat {
    if n == 0 then 0 else 2 * Times(n / 2, d) + (if n % 2 == 1 then d else 0)
  }

  lemma {:induction false} TimesIsProduct(n: nat, d: nat)
    ensures Times(n, d) == n * d
  {
    if n > 0 {
      TimesIsProduct(n / 2, d);
      Doubling(n / 2, d);
      assert n == 2 * (n / 2) + n % 2;
    }
  }

  lemma Doubling(h: nat, d: nat)
    ensures (2 * h) * d == 2 * (h * d)
    ensures (2 * h + 1) * d == 2 * (h * d) + d
  {
  }

  /** `x % 2^k` by repeated subtraction: unfolding it costs the solver no division. */
  function LowBits(x: nat, k: nat): nat {
    if x < Pow2(k) then x else LowBits(x - Pow2(k), k)
  }

  lemma {:induction false} LowBitsIsMod(x: nat, k: nat)
    ensures LowBits(x, k) == x % Pow2(k)
    decreases x
  {
    var p := Pow2(k);
    if x < p {
      DivModUnique(x, p, 0, x);
    } else {
      LowBitsIsMod(x - p, k);
      DivAddMultiple(x - p, 1, p);
    }
  }
}
