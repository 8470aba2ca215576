/** 256-bit big-endian arithmetic on 32-byte words: addition, shift, comparison, subtraction,
    long division, and the work of a block. Every operation is tied to the number the bytes denote. */
module U256 {
  import opened Arith
  import opened Bytes

  /** The number a big-endian byte string denotes. */
  function Be(s: Bytes): nat {
    if s == [] then 0 else 256 * Be(s[..|s| - 1]) + s[|s| - 1]
  }

  /** The `len`-byte big-endian encoding of `n`, modulo 256^len. */
  function BeBytes(n: nat, len: nat): (s: Bytes)
    ensures |s| == len
  {
    if len == 0 then [] else BeBytes(n / 256, len - 1) + [n % 256]
  }

  const TWO_256: nat := 0x1_0000_0000_0000_0000_0000_0000_0000_0000_0000_0000_0000_0000_0000_0000_0000_0000

  // ---------------------------------------------------------------- the denotation

  /** What 256 bits keep of a number. */
  function Wrapped(n: nat): (r: nat)
    ensures n < TWO_256 ==> r == n
  {
    n % TWO_256
  }

  lemma FourBytes(n: nat)
    ensures Pow256(n + 4) == 0x1_0000_0000 * Pow256(n)
  {
    assert Pow256(n + 2) == 0x1_0000 * Pow256(n);
  }

  lemma WordLimit(n: nat)
    requires n == 32
    ensures Pow256(n) == TWO_256
  {
    assert Pow256(n - 32) == 1;
    hide Pow256;
    FourBytes(n - 32);
    FourBytes(n - 28);
    FourBytes(n - 24);
    FourBytes(n - 20);
    FourBytes(n - 16);
    FourBytes(n - 12);
    FourBytes(n - 8);
    FourBytes(n - 4);
  }

  lemma WordBound(s: Digest)
    ensures Be(s) < TWO_256
  {
    BeBound(s);
    WordLimit(|s|);
  }

  /** `n` moved up by `k` byte positions; keeping it recursive keeps the proofs below linear. */
  function Scale(n: int, k: nat): (r: int)
    ensures n >= 0 ==> r >= 0
  {
    if k == 0 then n else 256 * Scale(n, k - 1)
  }

  lemma {:induction false} ScaleLinear(a: int, b: int, k: nat)
    ensures Scale(a + b, k) == Scale(a, k) + Scale(b, k)
    ensures Scale(256 * a, k) == Scale(a, k + 1)
    ensures a <= b ==> Scale(a, k) <= Scale(b, k)
    ensures Scale(0, k) == 0 && Scale(1, k) == Pow256(k)
  {
    if k > 0 {
      ScaleLinear(a, b, k - 1);
    }
  }

  lemma {:induction false} ScaleIsProduct(n: int, k: nat)
    ensures Scale(n, k) == n * Pow256(k)
  {
    if k > 0 {
      ScaleIsProduct(n, k - 1);
      var p := Pow256(k - 1);
      assert 256 * (n * p) == n * (256 * p);
    }
  }

  lemma {:induction false} BeBound(s: Bytes)
    ensures Be(s) < Pow256(|s|)
  {
    if s != [] {
      BeBound(s[..|s| - 1]);
    }
  }

  lemma {:induction false} BeConcat(s: Bytes, t: Bytes)
    ensures Be(s + t) == Scale(Be(s), |t|) + Be(t)
  {
    if t == [] {
      assert s + t == s;
    } else {
      var t' := t[..|t| - 1];
      assert (s + t)[..|s + t| - 1] == s + t';
      BeConcat(s, t');
    }
  }

  lemma BeSuffix(s: Bytes, i: nat)
    requires i < |s|
    ensures Be(s[i..]) == Scale(s[i], |s| - 1 - i) + Be(s[i + 1..])
  {
    assert s[i..] == [s[i]] + s[i + 1..];
    BeConcat([s[i]], s[i + 1..]);
    assert Be([s[i]]) == s[i];
  }

  lemma BeSplit(s: Bytes, k: nat)
    requires k <= |s|
    ensures Be(s) == Scale(Be(s[..k]), |s| - k) + Be(s[k..])
    ensures Be(s[k..]) < Pow256(|s| - k)
  {
    assert s == s[..k] + s[k..];
    BeConcat(s[..k], s[k..]);
    BeBound(s[k..]);
  }

  lemma BeSnoc(s: Bytes, i: nat)
    requires i < |s|
    ensures Be(s[..i + 1]) == 256 * Be(s[..i]) + s[i]
  {
    assert s[..i + 1][..i] == s[..i];
  }

  lemma {:induction false} BeOfBeBytes(n: nat, len: nat)
    requires n < Pow256(len)
    ensures Be(BeBytes(n, len)) == n
  {
    if len > 0 {
      BeOfBeBytes(n / 256, len - 1);
      assert BeBytes(n, len)[..len - 1] == BeBytes(n / 256, len - 1);
    }
  }

  /** Two words of one length are equal exactly when their numbers are. */
  lemma {:induction false} BeInjective(s: Bytes, t: Bytes)
    requires |s| == |t| && Be(s) == Be(t)
    ensures s == t
  {
    if s != [] {
      var n := |s| - 1;
      BeInjective(s[..n], t[..n]);
      assert s == s[..n] + [s[n]] && t == t[..n] + [t[n]];
    }
  }

  /** The first differing byte decides the numeric order. */
  lemma FirstDifference(a: Bytes, b: Bytes, i: nat)
    requires |a| == |b| && i < |a| && a[..i] == b[..i] && a[i] < b[i]
    ensures Be(a) < Be(b)
  {
    BeSnoc(a, i);
    BeSnoc(b, i);
    BeSplit(a, i + 1);
    BeSplit(b, i + 1);
    ScaleLinear(Be(a[..i + 1]), 1, |a| - i - 1);
    ScaleLinear(Be(a[..i + 1]) + 1, Be(b[..i + 1]), |a| - i - 1);
  }

  lemma {:induction false} ZeroWord(s: Bytes)
    requires forall i :: 0 <= i < |s| ==> s[i] == 0
    ensures Be(s) == 0
  {
    if s != [] {
      ZeroWord(s[..|s| - 1]);
    }
  }

  lemma {:induction false} AllOnes(s: Bytes)
    requires forall i :: 0 <= i < |s| ==> s[i] == 255
    ensures Be(s) == Pow256(|s|) - 1
  {
    if s != [] {
      AllOnes(s[..|s| - 1]);
    }
  }

  // ---------------------------------------------------------------- addition

  /** From byte `i` down, `a + b` is `sum` plus a carry out of byte `i`. */
  ghost predicate Columns(sum: Digest, a: Digest, b: Digest, carry: int, i: nat)
    requires i <= 32
  {
    Be(sum[i..]) + Scale(carry, |sum| - i) == Be(a[i..]) + Be(b[i..])
  }

  /** One byte column: what does not fit in the byte moves one position up. */
  lemma ColumnStep(sum: Digest, a: Digest, b: Digest, carry: int, carry': int, i: nat)
    requires i < 32 && Columns(sum, a, b, carry, i + 1)
    requires a[i] as int + b[i] as int + carry == sum[i] as int + 256 * carry'
    ensures Columns(sum, a, b, carry', i)
  {
    BeSuffix(sum, i);
    BeSuffix(a, i);
    BeSuffix(b, i);
    CarryStep(a[i], b[i], carry, sum[i], carry', 31 - i);
  }

  lemma CarryStep(a: int, b: int, carry: int, out: int, carry': int, k: nat)
    requires a + b + carry == out + 256 * carry'
    ensures Scale(a, k) + Scale(b, k) + Scale(carry, k) == Scale(out, k) + Scale(carry', k + 1)
  {
    ScaleLinear(a, b, k);
    ScaleLinear(a + b, carry, k);
    ScaleLinear(carry', 0, k);
    ScaleLinear(out, 256 * carry', k);
  }

  lemma ColumnsInit(sum: Digest, a: Digest, b: Digest)
    ensures Columns(sum, a, b, 0, 32)
  {
  }

  /** Only the suffixes matter. */
  lemma ColumnsFrame(sum: Digest, a: Digest, b: Digest, sum': Digest, a': Digest, carry: int, i: nat)
    requires i <= 32 && Columns(sum, a, b, carry, i)
    requires sum'[i..] == sum[i..] && a'[i..] == a[i..]
    ensures Columns(sum', a', b, carry, i)
  {
  }

  lemma ColumnsDone(sum: Digest, a: Digest, b: Digest, carry: int, i: nat)
    requires i == 0 && Columns(sum, a, b, carry, i)
    ensures Be(sum) == Wrapped(Be(a) + Be(b))
    ensures 0 <= carry && Be(b) <= Be(sum) ==> Be(a) == Be(sum) - Be(b)
  {
    hide Be, Wrapped, Scale, Pow256;
    assert sum[i..] == sum && a[i..] == a && b[i..] == b;
    ScaleIsProduct(carry, |sum|);
    WordLimit(|sum|);
    WordBound(sum);
    WordBound(a);
    SumWraps(Be(a), Be(b), Be(sum), carry);
  }

  lemma SumWraps(x: nat, y: nat, s: nat, carry: int)
    requires s + carry * TWO_256 == x + y && s < TWO_256 && x < TWO_256
    ensures s == Wrapped(x + y)
    ensures 0 <= carry && y <= s ==> x == s - y
  {
    DivModUnique(x + y, TWO_256, carry, s);
  }

  /** `acc += addend`, wrapping at 2^256. */
  method AddBe(acc: array<byte>, addend: Digest)
    requires acc.Length == 32
    modifies acc
    ensures Be(acc[..]) == Wrapped(old(Be(acc[..])) + Be(addend))
  {
    hide Columns, Be, Wrapped;
    ghost var was: Digest := acc[..];
    var carry := 0;
    ColumnsInit(was, was, addend);
    for i := 32 downto 0
      invariant 0 <= carry <= 1
      invariant acc[..i] == was[..i]
      invariant Columns(acc[..], was, addend, carry, i)
    {
      ghost var before := acc[..];
      var s: int := acc[i] as int + addend[i] as int + carry;
      acc[i] := s % 256;
      ColumnsFrame(before, was, addend, acc[..], was, carry, i + 1);
      ColumnStep(acc[..], was, addend, carry, s / 256, i);
      carry := s / 256;
    }
    ColumnsDone(acc[..], was, addend, carry, 0);
  }

  /** `value + 1`, and whether it left 256 bits. */
  method AddOne(value: Digest) returns (out: Digest, overflow: bool)
    ensures overflow <==> Be(value) == TWO_256 - 1
    ensures Be(out) == if overflow then 0 else Be(value) + 1
  {
    var word := new byte[32](i requires 0 <= i < 32 => value[i]);
    for i := 32 downto 0
      invariant word[..i] == value[..i]
      invariant forall k :: i <= k < 32 ==> value[k] == 255 && word[k] == 0
    {
      if value[i] < 255 {
        word[i] := value[i] + 1;
        CarryStops(value, word[..], i);
        WordBound(word[..]);
        return word[..], false;
      }
      word[i] := 0;
    }
    AllOnes(value);
    WordLimit(|value|);
    ZeroWord(word[..]);
    return word[..], true;
  }

  /** A carry that runs through trailing 255s and stops at byte `i` adds one. */
  lemma CarryStops(a: Bytes, b: Bytes, i: nat)
    requires |a| == |b| && i < |a| && a[..i] == b[..i] && b[i] as int == a[i] as int + 1
    requires forall k :: i < k < |a| ==> a[k] == 255 && b[k] == 0
    ensures Be(b) == Be(a) + 1
  {
    hide Be, Scale, Pow256;
    BeSnoc(a, i);
    BeSnoc(b, i);
    var x, k := Be(a[..i + 1]), |a| - i - 1;
    assert Be(b[..i + 1]) == x + 1;
    BeSplit(a, i + 1);
    BeSplit(b, i + 1);
    AllOnes(a[i + 1..]);
    ZeroWord(b[i + 1..]);
    ScaleLinear(x, 1, k);
  }

  // ---------------------------------------------------------------- shift, comparison, subtraction

  /** The bit shifted out of a byte is the carry into the next. */
  lemma ShiftedByte(b: byte, carry: int)
    requires 0 <= carry <= 1
    ensures 0 <= 2 * (b as int) % 256 + carry < 256 && 0 <= b as int / 128 <= 1
    ensures b as int + b as int + carry == (2 * (b as int) % 256 + carry) + 256 * (b as int / 128)
  {
  }

  /** `v <<= 1`; the top bit is lost. */
  method Shl1(v: array<byte>)
    requires v.Length == 32
    modifies v
    ensures Be(v[..]) == Wrapped(2 * old(Be(v[..])))
  {
    hide Columns, Be, Wrapped;
    ghost var was: Digest := v[..];
    var carry := 0;
    ColumnsInit(was, was, was);
    for i := 32 downto 0
      invariant 0 <= carry <= 1
      invariant v[..i] == was[..i]
      invariant Columns(v[..], was, was, carry, i)
    {
      ghost var before := v[..];
      ShiftedByte(v[i], carry);
      var newCarry := v[i] as int / 128;
      v[i] := 2 * (v[i] as int) % 256 + carry;
      ColumnsFrame(before, was, was, v[..], was, carry, i + 1);
      ColumnStep(v[..], was, was, carry, newCarry, i);
      carry := newCarry;
    }
    ColumnsDone(v[..], was, was, carry, 0);
  }

  /** `a >= b`, by the first differing byte. */
  method Ge(a: Digest, b: Digest) returns (r: bool)
    ensures r <==> Be(a) >= Be(b)
  {
    for i := 0 to 32
      invariant a[..i] == b[..i]
    {
      if a[i] != b[i] {
        if a[i] < b[i] {
          FirstDifference(a, b, i);
        } else {
          FirstDifference(b, a, i);
        }
        return a[i] > b[i];
      }
    }
    assert a == a[..32] && b == b[..32];
    return true;
  }

  /** `a -= b` for `a >= b`. */
  method Sub(a: array<byte>, b: Digest)
    requires a.Length == 32 && Be(a[..]) >= Be(b)
    modifies a
    ensures Be(a[..]) == old(Be(a[..])) - Be(b)
  {
    hide Columns, Be, Wrapped;
    ghost var was: Digest := a[..];
    var borrow := 0;
    ColumnsInit(was, was, b);
    for i := 32 downto 0
      invariant 0 <= borrow <= 1
      invariant a[..i] == was[..i]
      invariant Columns(was, a[..], b, borrow, i)
    {
      ghost var before, borrowed := a[..], borrow;
      var diff := a[i] as int - b[i] as int - borrow;
      if diff < 0 {
        a[i] := diff + 256;
        borrow := 1;
      } else {
        a[i] := diff;
        borrow := 0;
      }
      ColumnsFrame(was, before, b, was, a[..], borrowed, i + 1);
      ColumnStep(was, a[..], b, borrowed, borrow, i);
    }
    ColumnsDone(was, a[..], b, borrow, 0);
  }

  // ---------------------------------------------------------------- long division

  /** `b >> k`. */
  function Shr(b: nat, k: nat): nat {
    if k == 0 then b else Shr(b / 2, k - 1)
  }

  /** `(b >> k) & 1`. */
  function Bit(b: nat, k: nat): nat {
    Shr(b, k) % 2
  }

  /** `b | (1 << k)`. */
  function SetBit(b: nat, k: nat): nat {
    if k == 0 then b - b % 2 + 1 else 2 * SetBit(b / 2, k - 1) + b % 2
  }

  lemma {:induction false} SetBitSets(b: nat, k: nat, j: nat)
    ensures Bit(SetBit(b, k), j) == if j == k then 1 else Bit(b, j)
  {
    if k > 0 && j > 0 {
      SetBitSets(b / 2, k - 1, j - 1);
    }
    assert SetBit(b, k) / 2 == if k == 0 then b / 2 else SetBit(b / 2, k - 1);
  }

  lemma {:induction false} SetBitBound(b: nat, k: nat, n: nat)
    requires b < Pow2(n) && k < n
    ensures SetBit(b, k) < Pow2(n)
  {
    if k > 0 {
      SetBitBound(b / 2, k - 1, n - 1);
    }
  }

  /** Bit `i` of a word, counting from the most significant one. */
  function WordBit(s: Digest, i: nat): nat
    requires i < 256
  {
    Bit(s[i / 8], 7 - i % 8)
  }

  /** The number formed by the first `i` bits of a word. */
  function Prefix(s: Digest, i: nat): (n: nat)
    requires i <= 256
    ensures n < Pow2(i)
  {
    if i == 0 then 0 else 2 * Prefix(s, i - 1) + WordBit(s, i - 1)
  }

  lemma {:induction false} PrefixOfEqualBits(s: Digest, t: Digest, i: nat)
    requires i <= 256 && forall k :: 0 <= k < i ==> WordBit(s, k) == WordBit(t, k)
    ensures Prefix(s, i) == Prefix(t, i)
  {
    if i > 0 {
      PrefixOfEqualBits(s, t, i - 1);
    }
  }

  lemma {:induction false} PrefixIsBe(s: Digest, j: nat)
    requires j <= 32
    ensures Prefix(s, 8 * j) == Be(s[..j])
  {
    if j > 0 {
      hide Be, Prefix, WordBit;
      PrefixIsBe(s, j - 1);
      BeSnoc(s, j - 1);
      EightBits(s, j - 1);
    } else {
      assert s[..j] == [];
    }
  }

  lemma EightBits(s: Digest, j: nat)
    requires j < 32
    ensures Prefix(s, 8 * j + 8) == 256 * Prefix(s, 8 * j) + s[j]
  {
    ShrOut(s[j], 8);
    BitsOfByte(s, j, 8);
    DoubledByte(Prefix(s, 8 * j), 8);
  }

  function Doubled(n: nat, times: nat): nat {
    if times == 0 then n else 2 * Doubled(n, times - 1)
  }

  lemma DoubledByte(n: nat, m: nat)
    requires m == 8
    ensures Doubled(n, m) == 256 * n
  {
    assert Doubled(n, m - 7) == 2 * n;
    assert Doubled(n, m - 5) == 4 * Doubled(n, m - 7);
    assert Doubled(n, m - 3) == 4 * Doubled(n, m - 5);
    assert Doubled(n, m - 1) == 4 * Doubled(n, m - 3);
  }

  lemma {:induction false} BitsOfByte(s: Digest, j: nat, m: nat)
    requires j < 32 && m <= 8 && Shr(s[j], 8) == 0
    ensures Prefix(s, 8 * j + m) == Doubled(Prefix(s, 8 * j), m) + Shr(s[j], 8 - m)
  {
    if m > 0 {
      BitsOfByte(s, j, m - 1);
      ShrBit(s[j], 8 - m);
      PrefixNext(s, j, m);
      hide Prefix, Shr, Bit;
    }
  }

  lemma PrefixNext(s: Digest, j: nat, m: nat)
    requires j < 32 && 1 <= m <= 8
    ensures Prefix(s, 8 * j + m) == 2 * Prefix(s, 8 * j + (m - 1)) + Bit(s[j], 8 - m)
  {
    hide Bit;
    BitIndex(j, m);
  }

  lemma BitIndex(j: nat, m: nat)
    requires 1 <= m <= 8
    ensures (8 * j + m - 1) / 8 == j && 7 - (8 * j + m - 1) % 8 == 8 - m
  {
  }

  lemma ShrBit(b: nat, k: nat)
    ensures Shr(b, k) == 2 * Shr(b, k + 1) + Bit(b, k)
  {
    ShrSucc(b, k);
    hide Shr;
  }

  lemma {:induction false} ShrSucc(b: nat, k: nat)
    ensures Shr(b, k + 1) == Shr(b, k) / 2
  {
    if k > 0 {
      ShrSucc(b / 2, k - 1);
    }
  }

  lemma {:induction false} ShrOut(b: nat, k: nat)
    requires b < Pow2(k)
    ensures Shr(b, k) == 0
  {
    if k > 0 {
      ShrOut(b / 2, k - 1);
    }
  }

  /** After `i` rounds: the numerator bits read so far are divided exactly, and the quotient bits
      still to come are zero. */
  ghost predicate Divided(num: Digest, den: Digest, quot: Digest, rem: nat, i: nat)
    requires i <= 256
  {
    && Prefix(num, i) == Times(Prefix(quot, i), Be(den)) + rem
    && rem < Be(den)
    && forall k :: i <= k < 256 ==> WordBit(quot, k) == 0
  }

  /** The first half of a division round: `r <<= 1; r[31] |= bit`. */
  method ShiftIn(rem: array<byte>, bit: nat)
    requires rem.Length == 32 && bit <= 1
    requires 2 * Be(rem[..]) < TWO_256
    modifies rem
    ensures Be(rem[..]) == 2 * old(Be(rem[..])) + bit
  {
    hide Wrapped, Be;
    Shl1(rem);
    if bit == 1 {
      ghost var shifted := rem[..];
      SetBitBound(rem[31], 0, 8);
      rem[31] := SetBit(rem[31], 0);
      SetLowBit(shifted, rem[..]);
    }
  }

  /** The second half of a division round: `r -= den; q[byte] |= 1 << bit`. */
  method TakeDivisor(rem: array<byte>, quot: array<byte>, den: Digest, byt: nat, bit: nat)
    requires rem.Length == quot.Length == 32 && rem != quot && byt < 32 && bit < 8
    requires Be(rem[..]) >= Be(den)
    modifies rem, quot
    ensures Be(rem[..]) == old(Be(rem[..])) - Be(den)
    ensures quot[byt] == SetBit(old(quot[byt]), bit)
    ensures quot[..] == old(quot[..])[byt := quot[byt]]
  {
    Sub(rem, den);
    ghost var left := rem[..];
    SetBitBound(quot[byt], bit, 8);
    quot[byt] := SetBit(quot[byt], bit);
    assert rem[..] == left;
  }

  /** Round `i` of the division. */
  method DivRound(num: Digest, den: Digest, quot: array<byte>, rem: array<byte>, i: nat)
    requires quot.Length == rem.Length == 32 && quot != rem && i < 256
    requires Divided(num, den, quot[..], Be(rem[..]), i)
    modifies quot, rem
    ensures Divided(num, den, quot[..], Be(rem[..]), i + 1)
  {
    ghost var q0: Digest, r0 := quot[..], Be(rem[..]);
    NoBitLost(num, den, q0, r0, i);
    ShiftIn(rem, WordBit(num, i));
    ghost var r1 := Be(rem[..]);
    assert quot[..] == q0;
    var ge := Ge(rem[..], den);
    if ge {
      TakeDivisor(rem, quot, den, i / 8, 7 - i % 8);
      QuotientBitOne(num, den, q0, quot[..], r0, r1, i);
    } else {
      QuotientBitZero(num, den, q0, r0, r1, i);
    }
  }

  /** Bit-at-a-time long division. The source panics on a zero denominator. The one-bit shift never
      loses a bit, because the remainder never exceeds the bits of the numerator read so far. */
  method DivMod(num: Digest, den: Digest) returns (q: Digest, r: Digest)
    requires Be(den) != 0
    ensures Be(num) == Be(q) * Be(den) + Be(r)
    ensures Be(r) < Be(den)
  {
    var quot := new byte[32](_ => 0);
    var rem := new byte[32](_ => 0);
    DividedInit(num, den, quot[..], rem[..]);
    for i := 0 to 256
      invariant Divided(num, den, quot[..], Be(rem[..]), i)
    {
      DivRound(num, den, quot, rem, i);
    }
    q, r := quot[..], rem[..];
    DividedDone(num, den, q, Be(r), 32);
  }

  lemma DividedDone(num: Digest, den: Digest, q: Digest, r: nat, n: nat)
    requires n == 32 && Divided(num, den, q, r, 8 * n)
    ensures Be(num) == Be(q) * Be(den) + r && r < Be(den)
  {
    PrefixIsBe(num, n);
    PrefixIsBe(q, n);
    assert num == num[..n] && q == q[..n];
    TimesIsProduct(Be(q), Be(den));
  }

  lemma DividedInit(num: Digest, den: Digest, quot: Digest, rem: Digest)
    requires Be(den) != 0
    requires forall k :: 0 <= k < 32 ==> quot[k] == 0 && rem[k] == 0
    ensures Divided(num, den, quot, Be(rem), 0)
  {
    ZeroWord(rem);
    forall k | 0 <= k < 256
      ensures WordBit(quot, k) == 0
    {
      ZeroBits(7 - k % 8);
    }
  }

  lemma QuotientBitZero(num: Digest, den: Digest, quot: Digest, r0: nat, r1: nat, i: nat)
    requires i < 256 && Divided(num, den, quot, r0, i)
    requires r1 == 2 * r0 + WordBit(num, i) < Be(den)
    ensures Divided(num, den, quot, r1, i + 1)
  {
    assert Prefix(quot, i + 1) / 2 == Prefix(quot, i);
  }

  lemma QuotientBitOne(num: Digest, den: Digest, quot: Digest, quot': Digest, r0: nat, r1: nat, i: nat)
    requires i < 256 && Divided(num, den, quot, r0, i)
    requires r1 == 2 * r0 + WordBit(num, i) >= Be(den)
    requires quot' == quot[i / 8 := quot'[i / 8]]
    requires quot'[i / 8] == SetBit(quot[i / 8], 7 - i % 8)
    ensures Divided(num, den, quot', r1 - Be(den), i + 1)
  {
    SetWordBit(quot, quot', i);
    assert Prefix(quot', i + 1) / 2 == Prefix(quot, i);
  }

  lemma {:induction false} ZeroBits(k: nat)
    ensures Bit(0, k) == 0
  {
    if k > 0 {
      ZeroBits(k - 1);
    }
  }

  lemma NoBitLost(num: Digest, den: Digest, quot: Digest, r0: nat, i: nat)
    requires i < 256 && Divided(num, den, quot, r0, i)
    ensures 2 * r0 + 1 < TWO_256
  {
    var top := 32;
    Pow256IsPow2(top);
    WordLimit(top);
    if i < 255 {
      Pow2Monotone(i, 8 * top - 1);
    }
  }

  lemma SetLowBit(s: Digest, t: Digest)
    requires Be(s) % 2 == 0 && t == s[31 := t[31]] && t[31] == SetBit(s[31], 0)
    ensures Be(t) == Be(s) + 1
  {
    assert s[..31] == t[..31];
  }

  lemma SetWordBit(s: Digest, t: Digest, i: nat)
    requires i < 256 && WordBit(s, i) == 0
    requires forall k :: 0 <= k < 32 && k != i / 8 ==> t[k] == s[k]
    requires t[i / 8] == SetBit(s[i / 8], 7 - i % 8)
    ensures Prefix(t, i + 1) == Prefix(s, i + 1) + 1 == 2 * Prefix(s, i) + 1
    ensures forall k :: i < k < 256 ==> WordBit(t, k) == WordBit(s, k)
  {
    forall k | 0 <= k < 256 && k != i
      ensures WordBit(t, k) == WordBit(s, k)
    {
      SetBitSets(s[i / 8], 7 - i % 8, 7 - k % 8);
    }
    SetBitSets(s[i / 8], 7 - i % 8, 7 - i % 8);
    PrefixOfEqualBits(s, t, i);
  }

  // ---------------------------------------------------------------- block work

  /** The work of a header whose target denotes `t`: floor(2^256 / (t + 1)), except that for `t == 0`
      that number is 2^256 itself, which wraps to zero. */
  function Work(t: nat): nat {
    if t == 0 then 0 else TWO_256 / (t + 1)
  }

  method BlockWork(target: Digest) returns (work: Digest)
    ensures Be(work) == Work(Be(target))
  {
    ghost var t := Be(target);
    var denom, denomOverflow := AddOne(target);
    if denomOverflow {
      var one := seq(31, _ => 0) + [1];
      ZeroWord(one[..31]);
      BeSnoc(one, 31);
      assert one[..32] == one;
      DivModUnique(TWO_256, t + 1, 1, 0);
      return one;
    }
    var num := Complement(target);
    var q, r := DivMod(num, denom);
    var overflow;
    work, overflow := AddOne(q);
    WorkIdentity(t, Be(q), Be(r));
  }

  /** Inverts every bit. */
  method Complement(s: Digest) returns (out: Digest)
    ensures Be(out) == TWO_256 - 1 - Be(s)
  {
    var num := new byte[32](i requires 0 <= i < 32 => s[i]);
    for i := 0 to 32
      invariant forall k :: 0 <= k < i ==> num[k] as int == 255 - s[k] as int
      invariant num[i..] == s[i..]
    {
      num[i] := 255 - num[i];
    }
    out := num[..];
    ComplementNumber(s, out);
    WordLimit(|s|);
  }

  lemma {:induction false} ComplementNumber(s: Bytes, t: Bytes)
    requires |s| == |t| && forall k :: 0 <= k < |s| ==> t[k] as int == 255 - s[k] as int
    ensures Be(t) == Pow256(|s|) - 1 - Be(s)
  {
    if s != [] {
      ComplementNumber(s[..|s| - 1], t[..|s| - 1]);
    }
  }

  /** Bitcoin Core's identity: `~t / (t + 1) + 1` is `2^256 / (t + 1)`. */
  lemma WorkIdentity(t: nat, q: nat, r: nat)
    requires t < TWO_256 - 1 && TWO_256 - 1 - t == q * (t + 1) + r && r < t + 1
    ensures t == 0 ==> q == TWO_256 - 1
    ensures t > 0 ==> q + 1 == Work(t) < TWO_256
  {
    assert (q + 1) * (t + 1) == q * (t + 1) + (t + 1);
    DivModUnique(TWO_256, t + 1, q + 1, r);
    if t > 0 {
      MulMonotone(2, t + 1, q + 1);
    }
  }

  /** A harder (smaller) target never has less work, except that target zero has none. */
  lemma WorkAntitone(t: nat, u: nat)
    requires 1 <= t <= u
    ensures Work(u) <= Work(t)
  {
    QuotientAntitone(TWO_256, t + 1, u + 1);
  }

  // ---------------------------------------------------------------- compact targets

  function CompactSize(bits: u32): nat {
    bits / 0x100_0000
  }

  /** The 23-bit mantissa. */
  function CompactWord(bits: u32): nat {
    bits % 0x80_0000
  }

  predicate CompactNegative(bits: u32) {
    bits / 0x80_0000 % 2 == 1
  }

  /** word * 256^(size - 3), rounded down. */
  function CompactValue(bits: u32): nat {
    var size, word := CompactSize(bits), CompactWord(bits);
    if size <= 3 then FloorDiv(word, Pow256(3 - size)) else Scale(word, size - 3)
  }

  /** `expand_target`: the 256-bit target of a compact `nBits`. */
  function ExpandTarget(bits: u32): (target: Option<Digest>) {
    var size, word := CompactSize(bits), CompactWord(bits);
    if word == 0 then
      None
    else if CompactNegative(bits) then
      None
    else if size > 34 || (word > 0xff && size > 33) || (word > 0xffff && size > 32) then
      None
    else
      if size <= 3 then
        Some(Mantissa(FloorDiv(word, Pow256(3 - size)), 31))
      else
        Some(Mantissa(word, 34 - size))
  }

  /** A zero word with the three bytes of `w` ending at index `lsb`; the bytes that would fall off
      the front of the array are skipped. */
  function Mantissa(w: nat, lsb: nat): (t: Digest)
    requires lsb < 32
    ensures t[lsb] == w % 256
    ensures lsb >= 1 ==> t[lsb - 1] == w / 0x100 % 256
    ensures lsb >= 2 ==> t[lsb - 2] == w / 0x1_0000 % 256
    ensures forall i :: 0 <= i < 32 && !(lsb - 2 <= i <= lsb) ==> t[i] == 0
  {
    var zero: seq<byte> := seq(32, _ => 0);
    var t0 := zero[lsb := w % 256];
    var t1 := if lsb >= 1 then t0[lsb - 1 := w / 0x100 % 256] else t0;
    if lsb >= 2 then t1[lsb - 2 := w / 0x1_0000 % 256] else t1
  }

  /** The three parts of `nBits`: eight bits of size, the sign bit, and 23 bits of mantissa. */
  lemma CompactParts(bits: u32, size: nat, sign: nat, word: nat)
    requires sign < 2 && word < 0x80_0000 && bits == size * 0x100_0000 + sign * 0x80_0000 + word
    ensures CompactSize(bits) == size && CompactWord(bits) == word && (CompactNegative(bits) <==> sign == 1)
  {
  }

  /** The number a compact encoding stands for: `word * 256^(size - 3)`, rounded down. */
  ghost predicate Denotes(size: nat, word: nat, n: nat) {
    if size <= 3 then n == word / Pow256(3 - size) else n == word * Pow256(size - 3)
  }

  /** An `nBits` expands exactly when its mantissa is not zero, its sign bit is clear and the number it stands
      for fits 256 bits; and the expansion is that number. */
  lemma ExpandTargetExact(bits: u32, size: nat, sign: nat, word: nat, n: nat)
    requires sign < 2 && word < 0x80_0000 && bits == size * 0x100_0000 + sign * 0x80_0000 + word
    requires Denotes(size, word, n)
    ensures ExpandTarget(bits).Some? <==> word != 0 && sign == 0 && n < TWO_256
    ensures ExpandTarget(bits).Some? ==> Be(ExpandTarget(bits).value) == n
  {
    hide ExpandTarget, CompactSize, CompactWord, CompactNegative;
    CompactParts(bits, size, sign, word);
    ExpandedValue(bits);
    if size > 3 {
      ScaleIsProduct(word, size - 3);
    }
  }

  /** The same on the parts the program computes. */
  lemma ExpandedValue(bits: u32)
    ensures ExpandTarget(bits).Some? <==>
            CompactWord(bits) != 0 && !CompactNegative(bits) && CompactValue(bits) < TWO_256
    ensures ExpandTarget(bits).Some? ==> Be(ExpandTarget(bits).value) == CompactValue(bits)
  {
    var size, word := CompactSize(bits), CompactWord(bits);
    if word != 0 && !CompactNegative(bits) {
      CompactFits(size, word);
      if ExpandTarget(bits).Some? {
        if size <= 3 {
          MantissaNumber(CompactValue(bits), 31);
        } else {
          MantissaNumber(word, 34 - size);
        }
      }
    }
  }

  /** The overflow guard is exactly "does not fit in 256 bits". */
  lemma CompactFits(size: nat, word: nat)
    requires 0 < word < 0x80_0000
    ensures word < TWO_256
    ensures size > 3 ==>
              (Scale(word, size - 3) >= TWO_256 <==>
               size > 34 || (word > 0xff && size > 33) || (word > 0xffff && size > 32))
  {
    var n := 32;
    WordLimit(n);
    if size >= 35 {
      ScaleLess(word, 0, size - 3);
      Pow256Monotone(n, size - 3);
    } else if size > 3 {
      ScaleLess(word, n - (size - 3), size - 3);
      PowersOf256(n - (size - 3));
    }
  }

  lemma {:induction false} ScaleScale(n: int, a: nat, b: nat)
    ensures Scale(Scale(n, a), b) == Scale(n, a + b)
  {
    if b > 0 {
      ScaleScale(n, a, b - 1);
    }
  }

  lemma ScaleLess(n: nat, a: nat, k: nat)
    ensures Scale(n, k) < Pow256(a + k) <==> n < Pow256(a)
  {
    ScaleLinear(1, 0, a);
    ScaleLinear(1, 0, a + k);
    ScaleScale(1, a, k);
    if n < Pow256(a) {
      ScaleLinear(n, 1, k);
      ScaleLinear(n + 1, Pow256(a), k);
    } else {
      ScaleLinear(Pow256(a), n, k);
    }
  }

  lemma {:induction false} PowersOf256(j: nat)
    ensures j == 1 ==> Pow256(j) == 0x100
    ensures j == 2 ==> Pow256(j) == 0x1_0000
    ensures j >= 3 ==> Pow256(j) >= 0x100_0000
  {
    if j > 0 {
      PowersOf256(j - 1);
    }
  }

  lemma MantissaNumber(w: nat, lsb: nat)
    requires lsb < 32 && w < 0x80_0000
    requires w > 0xff ==> lsb >= 1
    requires w > 0xffff ==> lsb >= 2
    ensures Be(Mantissa(w, lsb)) == Scale(w, 31 - lsb)
  {
    var t := Mantissa(w, lsb);
    hide Mantissa, Scale;
    BeSplit(t, lsb + 1);
    ZeroWord(t[lsb + 1..]);
    MantissaHead(t, w, lsb);
    hide Be;
  }

  /** The bytes up to `lsb` are those of `w`. */
  lemma MantissaHead(t: Digest, w: nat, lsb: nat)
    requires lsb < 32 && w < 0x80_0000
    requires (w > 0xff ==> lsb >= 1) && (w > 0xffff ==> lsb >= 2)
    requires t[lsb] == w % 256 && (lsb >= 1 ==> t[lsb - 1] == w / 0x100 % 256)
    requires lsb >= 2 ==> t[lsb - 2] == w / 0x1_0000 % 256
    requires forall i :: 0 <= i < lsb - 2 ==> t[i] == 0
    ensures Be(t[..lsb + 1]) == w
  {
    ThreeBytes(w);
    BeSnoc(t, lsb);
    if lsb >= 1 {
      BeSnoc(t, lsb - 1);
    }
    if lsb >= 2 {
      BeSnoc(t, lsb - 2);
      ZeroWord(t[..lsb - 2]);
    }
    hide Be;
    assert lsb == 0 ==> t[..lsb] == [];
    assert lsb == 1 ==> t[..lsb - 1] == [];
  }

  lemma ThreeBytes(w: nat)
    requires w < 0x80_0000
    ensures w == 256 * (256 * (w / 0x1_0000 % 256) + w / 0x100 % 256) + w % 256
  {
  }

  /** Numeric `<=` on targets, which is what `target_leq` computes. */
  predicate TargetLeq(a: Digest, b: Digest) {
    Be(a) <= Be(b)
  }

  /** `target_leq`, by the first differing byte. */
  method CompareTargets(a: Digest, b: Digest) returns (r: bool)
    ensures r <==> TargetLeq(a, b)
  {
    for i := 0 to 32
      invariant a[..i] == b[..i]
    {
      if a[i] != b[i] {
        if a[i] < b[i] {
          FirstDifference(a, b, i);
        } else {
          FirstDifference(b, a, i);
        }
        return a[i] < b[i];
      }
    }
    assert a == a[..32] && b == b[..32];
    return true;
  }
}
