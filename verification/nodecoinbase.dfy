/** Why a coinbase of exactly 64 bytes must be excluded: with one, a single parent header can carry two
    different blocks of one chain, and no hash collision is involved. */
module NodeCoinbase {
  import opened Bytes
  import opened Slots
  import opened Commitment

  function Run(b: byte, n: nat): (s: Bytes)
    ensures |s| == n && forall i :: 0 <= i < n ==> s[i] == b
  {
    if n == 0 then [] else [b] + Run(b, n - 1)
  }

  /** A coinbase that commits a one-leaf tree: magic, root, size one, nonce zero, padding. */
  function Coinbase(root: Digest, padding: nat): (cb: Bytes)
    ensures |cb| == 44 + padding
  {
    AUXPOW_MAGIC + root + [1, 0, 0, 0, 0, 0, 0, 0] + Run(0, padding)
  }

  function Outer(): (cb: Bytes)
    ensures |cb| == 64
  {
    Coinbase(Run(0, 32), 20)
  }

  function Inner(): Bytes { Coinbase(Run(1, 32), 0) }

  /** A hash that makes the short coinbase the left half of the long one. */
  function NodeHash(x: Bytes): Digest { if x == Inner() then Outer()[..32] else Run(0, 32) }

  function Parent(): Bytes { [0, 0, 0, 0x20] + Run(0, 76) }

  /** The parent's tree read as a single leaf of 64 bytes, and read as a node over the shorter coinbase. */
  function AsLeaf(): AuxPow { AuxPow(Outer(), [], 0, [], 0, Parent()) }
  function AsNode(): AuxPow { AuxPow(Inner(), [Outer()[32..]], 0, [], 0, Parent()) }

  lemma OnlyMagic(root: Digest, padding: nat, fill: byte)
    requires fill < 2 && root == Run(fill, 32)
    ensures OnlyMagicBefore(Coinbase(root, padding), 4)
  {
    hide Run;
    var cb := Coinbase(root, padding);
    assert cb[0..4] == AUXPOW_MAGIC;
    assert cb[1] == 0xbe && cb[2] == 0x6d && cb[3] == 0x6d && forall j :: 4 <= j < |cb| ==> cb[j] < 2;
    forall i: nat | OccursAt(cb, AUXPOW_MAGIC, i)
      ensures i == 0
    {
      assert cb[i] == cb[i..i + 4][0] == 0xfa;
    }
  }

  lemma Fields(root: Digest, padding: nat)
    ensures var cb := Coinbase(root, padding);
            cb[4..36] == root && U32At(cb, 36) == 1 && U32At(cb, 40) == 0
  {
    hide Run;
    var cb := Coinbase(root, padding);
    assert cb[4..36] == root;
    assert cb[36..40] == [1, 0, 0, 0] && cb[40..44] == [0, 0, 0, 0];
    assert Le([1, 0, 0, 0]) == 1;
    assert Le([0, 0, 0, 0]) == 0;
  }

  lemma Commits(sha256d: HashFn, fill: byte, padding: nat, w: AuxPow, chainId: u32)
    requires fill < 2 && w.coinbaseTx == Coinbase(Run(fill, 32), padding)
    requires w.chainMerkleBranch == [] && w.chainIndex == 0
    ensures BlockInCoinbase(sha256d, Run(fill, 32), w, chainId)
  {
    OnlyMagic(Run(fill, 32), padding, fill);
    Fields(Run(fill, 32), padding);
    assert Reversed(Run(fill, 32)) == Run(fill, 32);
    SlotZero(0, chainId);
    hide Run, Coinbase, OnlyMagicBefore, ExpectedIndex;
    AcceptedIsCommitted(sha256d, Run(fill, 32), w, chainId, 4);
  }

  lemma SlotZero(nonce: u32, chainId: u32)
    ensures ExpectedIndex(nonce, chainId, 0) == 0
  {
    SlotIsLinear(nonce, chainId, 0);
  }

  lemma ParentCarries(w: AuxPow, chainId: u32)
    requires w.parentHeader == Parent() && w.parentIndex == 0 && chainId != LTC_CHAIN_ID
    requires Fold(NodeHash, NodeHash(w.coinbaseTx), w.parentMerkleBranch, 0) == Run(0, 32)
    ensures CoinbaseInParent(NodeHash, w, chainId)
  {
    hide Run, NodeHash, Fold;
    var header := Parent();
    assert header[0..4] == [0, 0, 0, 0x20];
    assert Le([0, 0, 0, 0x20]) == 0x2000_0000;
    assert header[36..68] == Run(0, 32);
  }

  /** Two accepted witnesses for the same parent header and chain, for different blocks; and the strings
      the two checks hash all have different hashes. */
  lemma SixtyFourByteCoinbase(chainId: u32)
    requires chainId != LTC_CHAIN_ID
    ensures VerifyCommitment(NodeHash, Run(0, 32), AsLeaf(), chainId)
    ensures VerifyCommitment(NodeHash, Run(1, 32), AsNode(), chainId)
    ensures AsLeaf().parentHeader == AsNode().parentHeader && Run(0, 32) != Run(1, 32)
    ensures !HasCollision(NodeHash, CheckInputs(NodeHash, Run(0, 32), AsLeaf())
                                    + CheckInputs(NodeHash, Run(1, 32), AsNode()))
  {
    hide BlockInCoinbase, CoinbaseInParent, CheckInputs;
    assert Run(0, 32)[0] != Run(1, 32)[0];
    HashValues();
    InputsOf();
    Commits(NodeHash, 0, 20, AsLeaf(), chainId);
    Commits(NodeHash, 1, 0, AsNode(), chainId);
    hide NodeHash, Outer, Inner, Run, Parent;
    ParentCarries(AsLeaf(), chainId);
    ParentCarries(AsNode(), chainId);
  }

  lemma HashValues()
    ensures NodeHash(Outer()) == Run(0, 32) && NodeHash(Inner()) == Outer()[..32] && Outer() != Inner()
    ensures NodeHash(Outer()) != NodeHash(Inner())
    ensures Node(NodeHash(Inner()), Outer()[32..], 0) == Outer()
    ensures Fold(NodeHash, NodeHash(Inner()), [Outer()[32..]], 0) == Run(0, 32)
  {
    hide Coinbase;
    assert |Inner()| == 44;
    assert Outer()[..32] + Outer()[32..] == Outer();
    FirstByte();
    var rest: seq<Digest> := [Outer()[32..]];
    assert rest[1..] == [];
  }

  lemma FirstByte()
    ensures Outer()[0] == 0xfa
  {
  }

  lemma InputsOf()
    ensures CheckInputs(NodeHash, Run(0, 32), AsLeaf()) + CheckInputs(NodeHash, Run(1, 32), AsNode())
            == {Outer(), Inner()}
  {
    HashValues();
    hide NodeHash, Outer, Inner, Run;
    var rest: seq<Digest> := [Outer()[32..]];
    assert rest[1..] == [];
    assert FoldInputs(NodeHash, NodeHash(Inner()), rest, 0) == {Outer()};
  }
}
