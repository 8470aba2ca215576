/** Bytes, fixed-width integers, the little-endian codec, and the abstract double hash. */
module Bytes {
  import opened Arith

  datatype Option<+T> = None | Some(value: T) {
    predicate IsFailure() { None? }
    function PropagateFailure<U>(): Option<U>
      requires None?
    {
      None
    }
    function Extract(): T
      requires Some?
    {
      value
    }
  }

  datatype Result<+T, +E> = Ok(value: T) | Err(error: E) {
    predicate IsFailure() { Err? }
    function PropagateFailure<U>(): Result<U, E>
      requires Err?
    {
      Err(error)
    }
    function Extract(): T
      requires Ok?
    {
      value
    }
  }

  type byte = x: int | 0 <= x < 256
  type u32 = x: int | 0 <= x < 0x1_0000_0000
  type u64 = x: int | 0 <= x < 0x1_0000_0000_0000_0000

  const U64_LIMIT: int := 0x1_0000_0000_0000_0000

  type Bytes = seq<byte>

  /** The source's `[u8; 32]`: hashes, targets and work values. */
  type Digest = s: Bytes | |s| == 32 witness seq(32, _ => 0)

  /** `sha256d` is a parameter: all that is known of it is that it returns 32 bytes. */
  type HashFn = Bytes -> Digest

  /** Two different strings of `s` have the same hash. `s` is always the finite set of strings that
      the checks in question really hash, so this is a concrete break of the hash. */
  ghost predicate HasCollision(sha256d: HashFn, s: set<Bytes>) {
    exists x, y :: x in s && y in s && x != y && sha256d(x) == sha256d(y)
  }

  lemma CollisionMonotone(sha256d: HashFn, s: set<Bytes>, t: set<Bytes>)
    requires s <= t && HasCollision(sha256d, s)
    ensures HasCollision(sha256d, t)
  {
    var x, y :| x in s && y in s && x != y && sha256d(x) == sha256d(y);
    assert x in t && y in t;
  }

  /** `from_le_bytes`. */
  function Le(s: Bytes): (n: nat)
    ensures n < Pow256(|s|)
  {
    if s == [] then 0 else s[0] + 256 * Le(s[1..])
  }

  /** `to_le_bytes` at width `len`. */
  function LeBytes(n: nat, len: nat): (s: Bytes)
    ensures |s| == len
  {
    if len == 0 then [] else [n % 256] + LeBytes(n / 256, len - 1)
  }

  lemma {:induction false} LeOfLeBytes(n: nat, len: nat)
    requires n < Pow256(len)
    ensures Le(LeBytes(n, len)) == n
  {
    if len > 0 {
      LeOfLeBytes(n / 256, len - 1);
      assert LeBytes(n, len)[1..] == LeBytes(n / 256, len - 1);
    }
  }

  lemma {:induction false} LeBytesOfLe(s: Bytes)
    ensures LeBytes(Le(s), |s|) == s
  {
    if s != [] {
      LeBytesOfLe(s[1..]);
      hide Pow256;
      assert Le(s) % 256 == s[0] && Le(s) / 256 == Le(s[1..]);
      assert s == [s[0]] + s[1..];
    }
  }

  /** The byte-reverse of a sequence. */
  function Reversed<T>(s: seq<T>): (r: seq<T>)
    ensures |r| == |s|
    ensures forall i :: 0 <= i < |s| ==> r[i] == s[|s| - 1 - i]
  {
    if s == [] then [] else Reversed(s[1..]) + [s[0]]
  }

  lemma SliceOfSlice<T>(s: seq<T>, a: nat, b: nat, c: nat, d: nat)
    requires a <= b <= |s| && c <= d <= b - a
    ensures s[a..b][c..d] == s[a + c..a + d]
  {
    var x, y := s[a..b][c..d], s[a + c..a + d];
    forall i | 0 <= i < d - c
      ensures x[i] == y[i]
    {
      assert x[i] == s[a..b][c + i] == s[a + (c + i)];
    }
  }
}
