/** The AuxPoW witness and the merged-mining commitment check. */
module Commitment {
  import opened Arith
  import opened Bytes
  import opened Slots

  /** The witness attaching an aux block to its parent block. */
  datatype AuxPow = AuxPow(
    coinbaseTx: Bytes,
    parentMerkleBranch: seq<Digest>,
    parentIndex: u32,
    chainMerkleBranch: seq<Digest>,
    chainIndex: u32,
    parentHeader: Bytes)
  {
    function ParentMerkleRoot(): Option<Digest> {
      if |parentHeader| < 80 then None else Some(parentHeader[36..68])
    }

    function ParentChainId(): Option<u32> {
      if |parentHeader| < 4 then None else Some(U32At(parentHeader, 0) / 0x1_0000)
    }
  }

  datatype BlockHeader = BlockHeader(raw: Bytes, aux: Option<AuxPow>)

  const LTC_CHAIN_ID: u32 := 8192
  const AUXPOW_MAGIC: Bytes := [0xfa, 0xbe, 0x6d, 0x6d]
  const MAX_DEPTH: nat := 30

  /** The little-endian 32-bit word at offset `p`. */
  function U32At(b: Bytes, p: nat): u32
    requires p + 4 <= |b|
  {
    assert Pow256(4) == 0x1_0000_0000;
    Le(b[p..p + 4])
  }

  /** Four bytes read as a number, the lowest first. */
  function Word(b0: int, b1: int, b2: int, b3: int): int { b0 + 0x100 * b1 + 0x1_0000 * b2 + 0x100_0000 * b3 }

  /** The word from its four bytes. */
  lemma U32Bytes(b: Bytes, p: nat)
    requires p + 4 <= |b|
    ensures U32At(b, p) == Word(b[p], b[p + 1], b[p + 2], b[p + 3])
  {
    var s := b[p..p + 4];
    assert s[1..][1..] == s[2..] && s[2..][1..] == s[3..];
    assert Le(s[3..]) == s[3];
    assert Le(s[2..]) == s[2] as int + 256 * Le(s[3..]);
    assert Le(s[1..]) == s[1] as int + 256 * Le(s[2..]);
  }

  /** The chain id is the upper half of the version word. */
  lemma UpperHalf(b: Bytes)
    requires |b| >= 4
    ensures U32At(b, 0) / 0x1_0000 == Word(b[2], b[3], 0, 0)
    ensures U32At(b, 0) / 0x1_0000 == 0x2000 <==> b[2..4] == [0x00, 0x20]
  {
    U32Bytes(b, 0);
    assert b[2..4] == [b[2], b[3]];
  }

  // Header fields, for headers of the mandatory 80 bytes.

  function ChainIdOf(raw: Bytes): u32
    requires |raw| == 80
  {
    U32At(raw, 0) / 0x1_0000
  }

  function PrevHashOf(raw: Bytes): Digest
    requires |raw| == 80
  {
    raw[4..36]
  }

  function BitsOf(raw: Bytes): u32
    requires |raw| == 80
  {
    U32At(raw, 72)
  }

  // ---------------------------------------------------------------- merkle branches

  /** The 64 bytes hashed at one level: bit 0 of `index` clear means `acc` is the left child. */
  function Node(acc: Digest, sibling: Digest, index: nat): (n: Bytes)
    ensures |n| == 64
  {
    if index % 2 == 0 then acc + sibling else sibling + acc
  }

  /** The root reached from `leaf` along `branch`. */
  function Fold(sha256d: HashFn, leaf: Digest, branch: seq<Digest>, index: nat): Digest
    decreases |branch|
  {
    if branch == [] then leaf
    else Fold(sha256d, sha256d(Node(leaf, branch[0], index)), branch[1..], index / 2)
  }

  /** Every string hashed on the way. */
  function FoldInputs(sha256d: HashFn, leaf: Digest, branch: seq<Digest>, index: nat): set<Bytes>
    decreases |branch|
  {
    if branch == [] then {}
    else
      var n := Node(leaf, branch[0], index);
      {n} + FoldInputs(sha256d, sha256d(n), branch[1..], index / 2)
  }

  method MerkleFoldBranch(sha256d: HashFn, leaf: Digest, branch: seq<Digest>, index: u32)
    returns (acc: Digest)
    ensures acc == Fold(sha256d, leaf, branch, index)
  {
    acc := leaf;
    var idx: nat := index;
    for i := 0 to |branch|
      invariant Fold(sha256d, acc, branch[i..], idx) == Fold(sha256d, leaf, branch, index)
    {
      var buf: Bytes;
      if idx % 2 == 0 {
        buf := acc + branch[i];
      } else {
        buf := branch[i] + acc;
      }
      acc := sha256d(buf);
      idx := idx / 2;
    }
  }

  /** A root fixes the leaf and the whole branch, given the depth and the slot. */
  lemma {:induction false} FoldInjective(sha256d: HashFn, l1: Digest, b1: seq<Digest>, l2: Digest,
                                         b2: seq<Digest>, index: nat)
    requires |b1| == |b2|
    requires Fold(sha256d, l1, b1, index) == Fold(sha256d, l2, b2, index)
    ensures (l1 == l2 && b1 == b2)
            || HasCollision(sha256d, FoldInputs(sha256d, l1, b1, index)
                                     + FoldInputs(sha256d, l2, b2, index))
    decreases |b1|
  {
    if b1 != [] {
      var n1, n2 := Node(l1, b1[0], index), Node(l2, b2[0], index);
      var all := FoldInputs(sha256d, l1, b1, index) + FoldInputs(sha256d, l2, b2, index);
      FoldInjective(sha256d, sha256d(n1), b1[1..], sha256d(n2), b2[1..], index / 2);
      if sha256d(n1) == sha256d(n2) && b1[1..] == b2[1..] {
        if n1 == n2 {
          NodeInjective(l1, b1[0], l2, b2[0], index);
          assert b1 == [b1[0]] + b1[1..] && b2 == [b2[0]] + b2[1..];
        } else {
          assert n1 in all && n2 in all;
        }
      } else {
        CollisionMonotone(sha256d, FoldInputs(sha256d, sha256d(n1), b1[1..], index / 2)
                                   + FoldInputs(sha256d, sha256d(n2), b2[1..], index / 2), all);
      }
    }
  }

  lemma NodeInjective(l1: Digest, s1: Digest, l2: Digest, s2: Digest, index: nat)
    requires Node(l1, s1, index) == Node(l2, s2, index)
    ensures l1 == l2 && s1 == s2
  {
    var n1, n2 := Node(l1, s1, index), Node(l2, s2, index);
    assert n1[..32] == n2[..32] && n1[32..] == n2[32..];
    if index % 2 == 0 {
      assert n1[..32] == l1 && n1[32..] == s1 && n2[..32] == l2 && n2[32..] == s2;
    } else {
      assert n1[..32] == s1 && n1[32..] == l1 && n2[..32] == s2 && n2[32..] == l2;
    }
  }

  /** The leftmost leaf's fold, seen from the root: the last sibling is the right half. */
  lemma {:induction false} FoldSnoc(sha256d: HashFn, leaf: Digest, branch: seq<Digest>)
    requires branch != []
    ensures var m := |branch| - 1;
            var n := Node(Fold(sha256d, leaf, branch[..m], 0), branch[m], 0);
            && Fold(sha256d, leaf, branch, 0) == sha256d(n)
            && FoldInputs(sha256d, leaf, branch, 0) == FoldInputs(sha256d, leaf, branch[..m], 0) + {n}
    decreases |branch|
  {
    var m := |branch| - 1;
    var rest := branch[1..];
    if m > 0 {
      var l' := sha256d(Node(leaf, branch[0], 0));
      FoldSnoc(sha256d, l', rest);
      assert rest[..m - 1] == branch[..m][1..];
    }
  }

  /** One of the transactions is, byte for byte, an inner node on the way of the other. */
  ghost predicate ReadAsNode(sha256d: HashFn, cb1: Bytes, b1: seq<Digest>, cb2: Bytes, b2: seq<Digest>) {
    cb1 in FoldInputs(sha256d, sha256d(cb2), b2, 0) || cb2 in FoldInputs(sha256d, sha256d(cb1), b1, 0)
  }

  /** The generation transaction under a root is unique, whatever the branch lengths, unless one is read
      as an inner node. */
  lemma {:induction false} LeftmostLeafUnique(sha256d: HashFn, cb1: Bytes, b1: seq<Digest>, cb2: Bytes, b2: seq<Digest>)
    requires Fold(sha256d, sha256d(cb1), b1, 0) == Fold(sha256d, sha256d(cb2), b2, 0)
    ensures (cb1 == cb2 && b1 == b2)
            || ReadAsNode(sha256d, cb1, b1, cb2, b2)
            || HasCollision(sha256d, LeafInputs(sha256d, cb1, b1) + LeafInputs(sha256d, cb2, b2))
    decreases |b1| + |b2|
  {
    hide Fold, HasCollision, FoldInputs, LeafInputs, ReadAsNode;
    var all := LeafInputs(sha256d, cb1, b1) + LeafInputs(sha256d, cb2, b2);
    var n1 := TopInput(sha256d, cb1, b1);
    var n2 := TopInput(sha256d, cb2, b2);
    if n1 != n2 {
      CollisionOf(sha256d, all, n1, n2);
    } else if b1 != [] && b2 != [] {
      var m1, m2 := |b1| - 1, |b2| - 1;
      var c1, c2 := b1[..m1], b2[..m2];
      NodeInjective(Fold(sha256d, sha256d(cb1), c1, 0), b1[m1], Fold(sha256d, sha256d(cb2), c2, 0), b2[m2], 0);
      LeftmostLeafUnique(sha256d, cb1, c1, cb2, c2);
      PrefixInputs(sha256d, cb1, b1);
      PrefixInputs(sha256d, cb2, b2);
      if cb1 == cb2 && c1 == c2 {
        assert b1 == c1 + [b1[m1]] && b2 == c2 + [b2[m2]];
      } else if ReadAsNode(sha256d, cb1, c1, cb2, c2) {
        NodeOfPrefix(sha256d, cb1, b1, cb2, b2);
      } else {
        CollisionMonotone(sha256d, LeafInputs(sha256d, cb1, c1) + LeafInputs(sha256d, cb2, c2), all);
      }
    } else {
      OneIsTop(sha256d, cb1, b1, cb2, b2, n1);
    }
  }

  /** What is hashed below the top of a branch is hashed on the whole way too. */
  lemma PrefixInputs(sha256d: HashFn, cb: Bytes, branch: seq<Digest>)
    requires branch != []
    ensures FoldInputs(sha256d, sha256d(cb), branch[..|branch| - 1], 0) <= FoldInputs(sha256d, sha256d(cb), branch, 0)
    ensures LeafInputs(sha256d, cb, branch[..|branch| - 1]) <= LeafInputs(sha256d, cb, branch)
  {
    FoldSnoc(sha256d, sha256d(cb), branch);
    hide FoldInputs, Fold;
  }

  lemma NodeOfPrefix(sha256d: HashFn, cb1: Bytes, b1: seq<Digest>, cb2: Bytes, b2: seq<Digest>)
    requires b1 != [] && b2 != []
    requires ReadAsNode(sha256d, cb1, b1[..|b1| - 1], cb2, b2[..|b2| - 1])
    ensures ReadAsNode(sha256d, cb1, b1, cb2, b2)
  {
    hide FoldInputs, LeafInputs;
    PrefixInputs(sha256d, cb1, b1);
    PrefixInputs(sha256d, cb2, b2);
  }

  lemma OneIsTop(sha256d: HashFn, cb1: Bytes, b1: seq<Digest>, cb2: Bytes, b2: seq<Digest>, n: Bytes)
    requires b1 == [] || b2 == []
    requires if b1 == [] then n == cb1 else n in FoldInputs(sha256d, sha256d(cb1), b1, 0)
    requires if b2 == [] then n == cb2 else n in FoldInputs(sha256d, sha256d(cb2), b2, 0)
    ensures (cb1 == cb2 && b1 == b2) || ReadAsNode(sha256d, cb1, b1, cb2, b2)
  {
    hide FoldInputs;
  }

  lemma CollisionOf(sha256d: HashFn, s: set<Bytes>, x: Bytes, y: Bytes)
    requires x in s && y in s && x != y && sha256d(x) == sha256d(y)
    ensures HasCollision(sha256d, s)
  {
  }

  /** Only a transaction of exactly 64 bytes can be read as an inner node. */
  lemma {:induction false} NodesAre64Bytes(sha256d: HashFn, leaf: Digest, branch: seq<Digest>, index: nat)
    ensures forall n :: n in FoldInputs(sha256d, leaf, branch, index) ==> |n| == 64
    decreases |branch|
  {
    if branch != [] {
      NodesAre64Bytes(sha256d, sha256d(Node(leaf, branch[0], index)), branch[1..], index / 2);
    }
  }

  /** Everything hashed to take the transaction `cb` up to its root. */
  function LeafInputs(sha256d: HashFn, cb: Bytes, branch: seq<Digest>): set<Bytes> {
    {cb} + FoldInputs(sha256d, sha256d(cb), branch, 0)
  }

  /** The last string hashed on that way; it is 64 bytes long unless the branch is empty. */
  lemma TopInput(sha256d: HashFn, cb: Bytes, branch: seq<Digest>) returns (n: Bytes)
    ensures n in LeafInputs(sha256d, cb, branch)
    ensures sha256d(n) == Fold(sha256d, sha256d(cb), branch, 0)
    ensures if branch == [] then n == cb else n in FoldInputs(sha256d, sha256d(cb), branch, 0)
    ensures branch != [] ==>
              n == Node(Fold(sha256d, sha256d(cb), branch[..|branch| - 1], 0), branch[|branch| - 1], 0)
  {
    if branch == [] {
      n := cb;
    } else {
      FoldSnoc(sha256d, sha256d(cb), branch);
      n := Node(Fold(sha256d, sha256d(cb), branch[..|branch| - 1], 0), branch[|branch| - 1], 0);
    }
  }

  // ---------------------------------------------------------------- the commitment in the coinbase

  predicate OccursAt(hay: Bytes, needle: Bytes, i: nat) {
    i + |needle| <= |hay| && hay[i..i + |needle|] == needle
  }

  /** The first position of `needle`. */
  function FindSubslice(hay: Bytes, needle: Bytes): (r: Option<nat>)
    requires needle != []
    ensures r.Some? ==> OccursAt(hay, needle, r.value)
    ensures forall i: nat :: OccursAt(hay, needle, i) ==> r.Some? && r.value <= i
  {
    FindFrom(hay, needle, 0)
  }

  function FindFrom(hay: Bytes, needle: Bytes, from: nat): (r: Option<nat>)
    requires needle != []
    ensures r.Some? ==> r.value >= from && OccursAt(hay, needle, r.value)
    ensures forall i :: i >= from && OccursAt(hay, needle, i) ==> r.Some? && r.value <= i
    decreases |hay| - from
  {
    if from + |needle| > |hay| then None
    else if hay[from..from + |needle|] == needle then Some(from)
    else FindFrom(hay, needle, from + 1)
  }

  /** First half of the check: the coinbase is the parent's generation transaction and is in the
      parent block, and the parent is a Litecoin block and not one of our own chain. */
  predicate CoinbaseInParent(sha256d: HashFn, aux: AuxPow, chainId: u32) {
    if aux.parentIndex != 0 then false
    else if !(aux.ParentChainId().Some? && aux.ParentChainId().value != chainId
              && aux.ParentChainId().value == LTC_CHAIN_ID) then false
    else if aux.ParentMerkleRoot().None? then false
    else Fold(sha256d, sha256d(aux.coinbaseTx), aux.parentMerkleBranch, aux.parentIndex)
         == aux.ParentMerkleRoot().value
  }

  /** Second half: the chain root follows the only magic, with the size and the nonce that pin the slot. */
  predicate BlockInCoinbase(sha256d: HashFn, auxBlockHash: Digest, aux: AuxPow, chainId: u32) {
    var height := |aux.chainMerkleBranch|;
    if height > MAX_DEPTH then false
    else
      var needle := Reversed(Fold(sha256d, auxBlockHash, aux.chainMerkleBranch, aux.chainIndex));
      var cb := aux.coinbaseTx;
      var magicAt := FindSubslice(cb, AUXPOW_MAGIC);
      if magicAt.None? then false
      else if FindSubslice(cb[magicAt.value + 1..], AUXPOW_MAGIC).Some? then false
      else
        var rootPos := magicAt.value + |AUXPOW_MAGIC|;
        if rootPos + 40 > |cb| then false
        else TailPinsSlot(cb[rootPos..rootPos + 40], needle, aux.chainIndex, chainId, height)
  }

  /** The 40 bytes after the magic: root, size, nonce. */
  predicate TailPinsSlot(tail: Bytes, needle: Digest, chainIndex: u32, chainId: u32, height: nat)
    requires |tail| == 40 && height <= MAX_DEPTH
  {
    if tail[..32] != needle then false
    else if U32At(tail, 32) != Pow2(height) then false
    else chainIndex == ExpectedIndex(U32At(tail, 36), chainId, height)
  }

  /** `verify_auxpow_commitment`. */
  predicate VerifyCommitment(sha256d: HashFn, auxBlockHash: Digest, aux: AuxPow, chainId: u32) {
    CoinbaseInParent(sha256d, aux, chainId) && BlockInCoinbase(sha256d, auxBlockHash, aux, chainId)
  }

  // ---------------------------------------------------------------- what acceptance means

  /** The position just after the only merged-mining magic. */
  ghost predicate OnlyMagicBefore(cb: Bytes, rootPos: nat) {
    && rootPos >= 4 && rootPos + 40 <= |cb|
    && OccursAt(cb, [0xfa, 0xbe, 0x6d, 0x6d], rootPos - 4)
    && forall i: nat :: OccursAt(cb, [0xfa, 0xbe, 0x6d, 0x6d], i) ==> i == rootPos - 4
  }

  /** The parent half of the acceptance condition, on the bytes: the upper half of the parent's version is
      8192, the coinbase is its first transaction, and the merkle root is at its place. */
  ghost predicate ParentAccepted(sha256d: HashFn, aux: AuxPow, chainId: u32) {
    && aux.parentIndex == 0
    && |aux.parentHeader| >= 80
    && aux.parentHeader[2..4] == [0x00, 0x20]
    && chainId != 0x2000
    && Fold(sha256d, sha256d(aux.coinbaseTx), aux.parentMerkleBranch, 0) == aux.parentHeader[36..68]
  }

  /** The commitment half: at `rootPos` stand the reversed chain root, the tree size and the nonce. */
  ghost predicate ChainAccepted(sha256d: HashFn, auxBlockHash: Digest, aux: AuxPow, chainId: u32, rootPos: nat) {
    && |aux.chainMerkleBranch| <= 30
    && OnlyMagicBefore(aux.coinbaseTx, rootPos)
    && Reversed(aux.coinbaseTx[rootPos..rootPos + 32])
       == Fold(sha256d, auxBlockHash, aux.chainMerkleBranch, aux.chainIndex)
    && U32At(aux.coinbaseTx, rootPos + 32) == Pow2(|aux.chainMerkleBranch|)
    && aux.chainIndex == ExpectedIndex(U32At(aux.coinbaseTx, rootPos + 36), chainId, |aux.chainMerkleBranch|)
  }

  lemma ReversedTwice<T>(s: seq<T>)
    ensures Reversed(Reversed(s)) == s
  {
  }

  /** Looking again in the suffix after the first hit finds exactly the later hits. */
  lemma SecondMagic(cb: Bytes, at: nat)
    requires FindSubslice(cb, AUXPOW_MAGIC) == Some(at)
    ensures FindSubslice(cb[at + 1..], AUXPOW_MAGIC).Some?
            <==> exists i: nat :: i != at && OccursAt(cb, AUXPOW_MAGIC, i)
  {
    var rest, later := cb[at + 1..], FindSubslice(cb[at + 1..], AUXPOW_MAGIC);
    hide FindSubslice;
    if later.Some? {
      LaterMagic(cb, at, later.value);
    }
    if i: nat :| i != at && OccursAt(cb, AUXPOW_MAGIC, i) {
      LaterMagic(cb, at, i - at - 1);
    }
  }

  lemma LaterMagic(cb: Bytes, at: nat, j: nat)
    requires at < |cb|
    ensures OccursAt(cb[at + 1..], AUXPOW_MAGIC, j) <==> OccursAt(cb, AUXPOW_MAGIC, at + 1 + j)
  {
    var rest := cb[at + 1..];
    if j + 4 <= |rest| {
      assert rest[j..j + 4] == cb[at + 1 + j..at + 1 + j + 4];
    }
  }

  lemma CommittedIsAccepted(sha256d: HashFn, auxBlockHash: Digest, aux: AuxPow, chainId: u32)
    returns (rootPos: nat)
    requires BlockInCoinbase(sha256d, auxBlockHash, aux, chainId)
    ensures ChainAccepted(sha256d, auxBlockHash, aux, chainId, rootPos)
  {
    hide ExpectedIndex;
    var cb := aux.coinbaseTx;
    var at := FindSubslice(cb, AUXPOW_MAGIC).value;
    rootPos := at + 4;
    var root := Fold(sha256d, auxBlockHash, aux.chainMerkleBranch, aux.chainIndex);
    assert TailPinsSlot(cb[rootPos..rootPos + 40], Reversed(root), aux.chainIndex, chainId,
                        |aux.chainMerkleBranch|);
    assert OnlyMagicBefore(cb, rootPos) by {
      SecondMagic(cb, at);
    }
    TailFields(cb, rootPos);
    ReversedTwice(root);
  }

  lemma TailFields(cb: Bytes, rootPos: nat)
    requires rootPos + 40 <= |cb|
    ensures var tail := cb[rootPos..rootPos + 40];
            && tail[..32] == cb[rootPos..rootPos + 32]
            && U32At(tail, 32) == U32At(cb, rootPos + 32)
            && U32At(tail, 36) == U32At(cb, rootPos + 36)
  {
    SliceOfSlice(cb, rootPos, rootPos + 40, 0, 32);
    SliceOfSlice(cb, rootPos, rootPos + 40, 32, 36);
    SliceOfSlice(cb, rootPos, rootPos + 40, 36, 40);
  }

  lemma OnlyMagicFound(cb: Bytes, rootPos: nat)
    requires OnlyMagicBefore(cb, rootPos)
    ensures FindSubslice(cb, AUXPOW_MAGIC) == Some(rootPos - 4)
    ensures FindSubslice(cb[rootPos - 3..], AUXPOW_MAGIC).None?
  {
    assert FindSubslice(cb, AUXPOW_MAGIC) == Some(rootPos - 4);
    SecondMagic(cb, rootPos - 4);
  }

  lemma AcceptedIsCommitted(sha256d: HashFn, auxBlockHash: Digest, aux: AuxPow, chainId: u32, rootPos: nat)
    requires ChainAccepted(sha256d, auxBlockHash, aux, chainId, rootPos)
    ensures BlockInCoinbase(sha256d, auxBlockHash, aux, chainId)
  {
    hide ExpectedIndex, FindSubslice, Fold, U32At, Pow2;
    var cb := aux.coinbaseTx;
    OnlyMagicFound(cb, rootPos);
    TailFields(cb, rootPos);
    ReversedTwice(cb[rootPos..rootPos + 32]);
    hide OnlyMagicBefore;
    assert TailPinsSlot(cb[rootPos..rootPos + 40],
                        Reversed(Fold(sha256d, auxBlockHash, aux.chainMerkleBranch, aux.chainIndex)),
                        aux.chainIndex, chainId, |aux.chainMerkleBranch|);
  }

  lemma ParentMeaning(sha256d: HashFn, aux: AuxPow, chainId: u32)
    ensures CoinbaseInParent(sha256d, aux, chainId) <==> ParentAccepted(sha256d, aux, chainId)
  {
    hide Fold;
    if |aux.parentHeader| >= 80 {
      UpperHalf(aux.parentHeader);
    }
    hide U32At;
  }

  lemma ChainMeaning(sha256d: HashFn, auxBlockHash: Digest, aux: AuxPow, chainId: u32)
    ensures BlockInCoinbase(sha256d, auxBlockHash, aux, chainId)
            <==> exists rootPos :: ChainAccepted(sha256d, auxBlockHash, aux, chainId, rootPos)
  {
    hide BlockInCoinbase, ChainAccepted;
    if BlockInCoinbase(sha256d, auxBlockHash, aux, chainId) {
      var rootPos := CommittedIsAccepted(sha256d, auxBlockHash, aux, chainId);
    }
    if rootPos :| ChainAccepted(sha256d, auxBlockHash, aux, chainId, rootPos) {
      AcceptedIsCommitted(sha256d, auxBlockHash, aux, chainId, rootPos);
    }
  }

  /** The code accepts exactly the witnesses that meet the condition. */
  lemma CommitmentMeaning(sha256d: HashFn, auxBlockHash: Digest, aux: AuxPow, chainId: u32)
    ensures VerifyCommitment(sha256d, auxBlockHash, aux, chainId)
            <==> ParentAccepted(sha256d, aux, chainId)
                 && exists rootPos :: ChainAccepted(sha256d, auxBlockHash, aux, chainId, rootPos)
  {
    hide CoinbaseInParent, ParentAccepted, BlockInCoinbase, ChainAccepted;
    ParentMeaning(sha256d, aux, chainId);
    ChainMeaning(sha256d, auxBlockHash, aux, chainId);
  }

  // ---------------------------------------------------------------- one block per parent and chain

  /** Everything the check of one witness hashes. */
  function CheckInputs(sha256d: HashFn, auxBlockHash: Digest, aux: AuxPow): set<Bytes> {
    LeafInputs(sha256d, aux.coinbaseTx, aux.parentMerkleBranch)
    + FoldInputs(sha256d, auxBlockHash, aux.chainMerkleBranch, aux.chainIndex)
  }

  /** Two accepted witnesses with one coinbase agree on depth and chain root. */
  lemma SameCoinbase(sha256d: HashFn, h1: Digest, w1: AuxPow, c1: u32, h2: Digest, w2: AuxPow, c2: u32)
    requires VerifyCommitment(sha256d, h1, w1, c1) && VerifyCommitment(sha256d, h2, w2, c2)
    requires w1.coinbaseTx == w2.coinbaseTx
    ensures |w1.chainMerkleBranch| == |w2.chainMerkleBranch| <= MAX_DEPTH
    ensures Fold(sha256d, h1, w1.chainMerkleBranch, w1.chainIndex)
            == Fold(sha256d, h2, w2.chainMerkleBranch, w2.chainIndex)
    ensures exists nonce: u32 ::
              && w1.chainIndex == ExpectedIndex(nonce, c1, |w1.chainMerkleBranch|)
              && w2.chainIndex == ExpectedIndex(nonce, c2, |w1.chainMerkleBranch|)
  {
    var p1 := CommittedIsAccepted(sha256d, h1, w1, c1);
    var p2 := CommittedIsAccepted(sha256d, h2, w2, c2);
    hide VerifyCommitment, ChainAccepted, ExpectedIndex, U32At, Fold, Pow2, Reversed;
    OneTail(sha256d, h1, w1, c1, p1);
    OneTail(sha256d, h2, w2, c2, p2);
    OneMagic(w1.coinbaseTx, p1, p2);
    hide OnlyMagicBefore;
    Pow2Injective(|w1.chainMerkleBranch|, |w2.chainMerkleBranch|);
    var nonce := U32At(w1.coinbaseTx, p1 + 36);
    assert w1.chainIndex == ExpectedIndex(nonce, c1, |w1.chainMerkleBranch|);
  }

  /** What stands at the accepted position. */
  lemma OneTail(sha256d: HashFn, h: Digest, w: AuxPow, chainId: u32, rootPos: nat)
    requires ChainAccepted(sha256d, h, w, chainId, rootPos)
    ensures OnlyMagicBefore(w.coinbaseTx, rootPos) && |w.chainMerkleBranch| <= 30
    ensures Reversed(w.coinbaseTx[rootPos..rootPos + 32]) == Fold(sha256d, h, w.chainMerkleBranch, w.chainIndex)
    ensures U32At(w.coinbaseTx, rootPos + 32) == Pow2(|w.chainMerkleBranch|)
    ensures w.chainIndex == ExpectedIndex(U32At(w.coinbaseTx, rootPos + 36), chainId, |w.chainMerkleBranch|)
  {
  }

  lemma OneMagic(cb: Bytes, p1: nat, p2: nat)
    requires OnlyMagicBefore(cb, p1) && OnlyMagicBefore(cb, p2)
    ensures p1 == p2
  {
    assert OccursAt(cb, AUXPOW_MAGIC, p2 - 4);
  }

  /** One parent commits each chain at exactly one slot, to exactly one block: accepted witnesses for
      the same parent header and chain are the same witness for the same block, unless one coinbase is
      read as an inner merkle node. */
  lemma OneBlockOrNode(sha256d: HashFn, h1: Digest, w1: AuxPow, h2: Digest, w2: AuxPow, chainId: u32)
    requires VerifyCommitment(sha256d, h1, w1, chainId) && VerifyCommitment(sha256d, h2, w2, chainId)
    requires w1.parentHeader == w2.parentHeader
    ensures (h1 == h2 && w1 == w2)
            || ReadAsNode(sha256d, w1.coinbaseTx, w1.parentMerkleBranch, w2.coinbaseTx, w2.parentMerkleBranch)
            || HasCollision(sha256d, CheckInputs(sha256d, h1, w1) + CheckInputs(sha256d, h2, w2))
  {
    var all := CheckInputs(sha256d, h1, w1) + CheckInputs(sha256d, h2, w2);
    LeftmostLeafUnique(sha256d, w1.coinbaseTx, w1.parentMerkleBranch, w2.coinbaseTx, w2.parentMerkleBranch);
    if w1.coinbaseTx == w2.coinbaseTx && w1.parentMerkleBranch == w2.parentMerkleBranch {
      SameCoinbase(sha256d, h1, w1, chainId, h2, w2, chainId);
      FoldInjective(sha256d, h1, w1.chainMerkleBranch, h2, w2.chainMerkleBranch, w1.chainIndex);
      if !(h1 == h2 && w1.chainMerkleBranch == w2.chainMerkleBranch) {
        CollisionMonotone(sha256d, FoldInputs(sha256d, h1, w1.chainMerkleBranch, w1.chainIndex)
                                   + FoldInputs(sha256d, h2, w2.chainMerkleBranch, w1.chainIndex), all);
      }
    } else if !ReadAsNode(sha256d, w1.coinbaseTx, w1.parentMerkleBranch, w2.coinbaseTx, w2.parentMerkleBranch) {
      CollisionMonotone(sha256d, LeafInputs(sha256d, w1.coinbaseTx, w1.parentMerkleBranch)
                                 + LeafInputs(sha256d, w2.coinbaseTx, w2.parentMerkleBranch), all);
    }
  }

  /** The same, for coinbases that are not exactly 64 bytes long. */
  lemma OneBlockPerParent(sha256d: HashFn, h1: Digest, w1: AuxPow, h2: Digest, w2: AuxPow, chainId: u32)
    requires VerifyCommitment(sha256d, h1, w1, chainId) && VerifyCommitment(sha256d, h2, w2, chainId)
    requires w1.parentHeader == w2.parentHeader
    requires |w1.coinbaseTx| != 64 && |w2.coinbaseTx| != 64
    ensures (h1 == h2 && w1 == w2)
            || HasCollision(sha256d, CheckInputs(sha256d, h1, w1) + CheckInputs(sha256d, h2, w2))
  {
    hide VerifyCommitment, FoldInputs, CheckInputs, HasCollision;
    OneBlockOrNode(sha256d, h1, w1, h2, w2, chainId);
    NodesAre64Bytes(sha256d, sha256d(w1.coinbaseTx), w1.parentMerkleBranch, 0);
    NodesAre64Bytes(sha256d, sha256d(w2.coinbaseTx), w2.parentMerkleBranch, 0);
  }
}
