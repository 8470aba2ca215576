/** Assembling the witness of a deposit: the merkle path, folded a second way, and the window of headers
    that covers and buries the deposit. */
module ProofInputModel {
  import opened Arith
  import opened Bytes
  import opened U256
  import opened Commitment

  datatype MerkleStep = MerkleStep(sibling: Digest, left: bool)
  datatype MerkleProof = MerkleProof(txid: Digest, path: seq<MerkleStep>)

  // ---------------------------------------------------------------- the second fold

  function FoldPath(sha256d: HashFn, leaf: Digest, path: seq<MerkleStep>): Digest
    decreases |path|
  {
    if path == [] then leaf
    else FoldPath(sha256d, sha256d(if path[0].left then leaf + path[0].sibling else path[0].sibling + leaf), path[1..])
  }

  /** `fold_merkle`. */
  method FoldMerkle(sha256d: HashFn, proof: MerkleProof) returns (root: Digest)
    ensures root == FoldPath(sha256d, proof.txid, proof.path)
  {
    var acc := proof.txid;
    for i := 0 to |proof.path|
      invariant FoldPath(sha256d, acc, proof.path[i..]) == FoldPath(sha256d, proof.txid, proof.path)
    {
      var step := proof.path[i];
      var buf := new byte[64](_ => 0);
      if step.left {
        Fill(buf, acc, step.sibling);
      } else {
        Fill(buf, step.sibling, acc);
      }
      assert proof.path[i..][1..] == proof.path[i + 1..];
      acc := sha256d(buf[..]);
    }
    return acc;
  }

  /** Copies two words into a 64-byte buffer. */
  method Fill(buf: array<byte>, low: Digest, high: Digest)
    requires buf.Length == 64
    modifies buf
    ensures buf[..] == low + high
  {
    for i := 0 to 32
      invariant buf[..i] == low[..i]
    {
      buf[i] := low[i];
    }
    assert low[..32] == low;
    for i := 0 to 32
      invariant buf[..32] == low && buf[32..32 + i] == high[..i]
    {
      buf[32 + i] := high[i];
    }
    assert buf[32..64] == high[..32] == high;
    assert buf[..] == buf[..32] + buf[32..64];
  }

  // ---------------------------------------------------------------- the path

  const WORD: nat := 64

  /** `pos >> level` on a 64-bit word: past the width a release build shifts by `level % 64`. */
  function IsLeft(pos: u64, level: nat): bool { Bit(pos, level % WORD) == 0 }

  method BuildPath(branch: seq<Digest>, pos: u64) returns (path: seq<MerkleStep>)
    ensures |path| == |branch|
    ensures forall l :: 0 <= l < |branch| ==> path[l] == MerkleStep(branch[l], IsLeft(pos, l))
  {
    path := [];
    for level := 0 to |branch|
      invariant |path| == level
      invariant forall l :: 0 <= l < level ==> path[l] == MerkleStep(branch[l], IsLeft(pos, l))
    {
      path := path + [MerkleStep(branch[level], IsLeft(pos, level))];
    }
  }

  ghost function PathOf(branch: seq<Digest>, pos: u64): seq<MerkleStep> {
    seq(|branch|, l requires 0 <= l < |branch| => MerkleStep(branch[l], IsLeft(pos, l)))
  }

  /** The sides the first fold takes. */
  function SidesOf(branch: seq<Digest>, index: nat): seq<MerkleStep>
    decreases |branch|
  {
    if branch == [] then [] else [MerkleStep(branch[0], index % 2 == 0)] + SidesOf(branch[1..], index / 2)
  }

  lemma {:induction false} SidesMean(branch: seq<Digest>, index: nat)
    ensures |SidesOf(branch, index)| == |branch|
    ensures forall l :: 0 <= l < |branch| ==> SidesOf(branch, index)[l] == MerkleStep(branch[l], Bit(index, l) == 0)
  {
    if branch != [] {
      SidesMean(branch[1..], index / 2);
      forall l | 1 <= l < |branch|
        ensures SidesOf(branch, index)[l] == MerkleStep(branch[l], Bit(index, l) == 0)
      {
        assert SidesOf(branch, index)[l] == SidesOf(branch[1..], index / 2)[l - 1];
        assert Bit(index, l) == Bit(index / 2, l - 1);
      }
    }
  }

  lemma {:induction false} SidesFold(sha256d: HashFn, leaf: Digest, branch: seq<Digest>, index: nat)
    ensures FoldPath(sha256d, leaf, SidesOf(branch, index)) == Fold(sha256d, leaf, branch, index)
    decreases |branch|
  {
    if branch != [] {
      SidesFold(sha256d, sha256d(Node(leaf, branch[0], index)), branch[1..], index / 2);
      assert SidesOf(branch, index)[1..] == SidesOf(branch[1..], index / 2);
    }
  }

  /** The built path takes the sides of the first fold exactly when no set bit of the position is read a
      second time: always up to 64 levels. */
  lemma PathIsSides(branch: seq<Digest>, pos: u64)
    ensures PathOf(branch, pos) == SidesOf(branch, pos)
            <==> forall l :: WORD <= l < |branch| ==> Bit(pos, l % WORD) == 0
  {
    SidesMean(branch, pos);
    forall l: nat | l >= WORD
      ensures Bit(pos, l) == 0
    {
      HighBits(pos, l);
    }
    hide Bit, SidesOf;
    var path, sides := PathOf(branch, pos), SidesOf(branch, pos);
    if forall l :: WORD <= l < |branch| ==> Bit(pos, l % WORD) == 0 {
      forall l | 0 <= l < |branch|
        ensures path[l] == sides[l]
      {
        if l < WORD {
          DivModUnique(l, WORD, 0, l);
        }
      }
    } else {
      var l :| WORD <= l < |branch| && Bit(pos, l % WORD) != 0;
      assert path[l] != sides[l];
    }
  }

  /** A 64-bit word has no bit at or above 64. */
  lemma HighBits(n: nat, k: nat)
    requires n < U64_LIMIT && k >= WORD
    ensures Bit(n, k) == 0
  {
    WordIsPow2(WORD);
    SmallShift(n, k - WORD, WORD);
  }

  lemma WordIsPow2(n: nat)
    requires n == WORD
    ensures Pow2(n) == U64_LIMIT
  {
    var k := n / 8;
    Pow256IsPow2(k);
    assert Pow256(k - 6) == 0x1_0000;
    hide Pow256, Pow2;
    Pow256Add(k - 6, k - 6);
    Pow256Add(k - 4, k - 4);
  }

  lemma {:induction false} SmallShift(n: nat, extra: nat, k: nat)
    requires n < Pow2(k)
    ensures Shr(n, k + extra) == 0
  {
    if k == 0 {
      ZeroShift(extra);
    } else {
      SmallShift(n / 2, extra, k - 1);
    }
  }

  lemma {:induction false} ZeroShift(k: nat)
    ensures Shr(0, k) == 0
  {
    if k > 0 {
      ZeroShift(k - 1);
    }
  }

  /** The two folds agree on every branch of up to 64 levels, at every position. */
  lemma FoldsAgree(sha256d: HashFn, txid: Digest, branch: seq<Digest>, pos: u64)
    requires |branch| <= WORD
    ensures FoldPath(sha256d, txid, PathOf(branch, pos)) == Fold(sha256d, txid, branch, pos)
  {
    hide Bit;
    PathIsSides(branch, pos);
    SidesFold(sha256d, txid, branch, pos);
  }

  // ---------------------------------------------------------------- the window

  datatype Checkpoint = Checkpoint(height: u64, minConfirmations: u32)

  /** The node's answers: the proof of the deposit, the tip, the header with witness at a height. */
  datatype Source = Source(
    depositHeight: Option<u64>,
    merkle: seq<Digest>,
    pos: u64,
    tip: Option<u64>,
    header: nat -> Option<BlockHeader>)

  datatype ProofInput = ProofInput(headers: seq<BlockHeader>, depositHeaderIndex: u32, minConfirmations: u32,
                                   merkleProof: MerkleProof)

  /** `WindowTooLarge` is the failed allocation of a header list whose size wrapped around. */
  datatype BuildError = NoMerkleProof | NotAboveCheckpoint | NoTip | Unconfirmed | WindowTooLarge | HeaderUnavailable

  function Confirmations(cp: Checkpoint): nat { if cp.minConfirmations == 0 then 1 else cp.minConfirmations }

  /** The last height of the window, in 64-bit arithmetic. */
  function EndHeight(cp: Checkpoint, depositHeight: u64): nat {
    (depositHeight as int + Confirmations(cp) - 1) % U64_LIMIT
  }

  /** What must hold for the witness to be built, in the order it is tested. */
  function BuildFault(cp: Checkpoint, src: Source): Option<BuildError> {
    if src.depositHeight.None? then Some(NoMerkleProof)
    else if src.depositHeight.value <= cp.height then Some(NotAboveCheckpoint)
    else if src.tip.None? then Some(NoTip)
    else if src.tip.value < EndHeight(cp, src.depositHeight.value) then Some(Unconfirmed)
    else if EndHeight(cp, src.depositHeight.value) < cp.height then Some(WindowTooLarge)
    else None
  }

  /** Builds the witness: every height from right above the checkpoint to the end of the window. */
  method BuildProofInput(cp: Checkpoint, txid: Digest, src: Source) returns (r: Result<ProofInput, BuildError>)
    ensures BuildFault(cp, src).Some? ==> r == Err(BuildFault(cp, src).value)
    ensures BuildFault(cp, src).None? ==>
              var end := EndHeight(cp, src.depositHeight.value);
              && (r.Ok? <==> forall h :: cp.height < h <= end ==> src.header(h).Some?)
              && (r.Err? ==> r.error == HeaderUnavailable)
    ensures r.Ok? ==>
              && |r.value.headers| == EndHeight(cp, src.depositHeight.value) - cp.height
              && (forall i :: 0 <= i < |r.value.headers| ==> Some(r.value.headers[i]) == src.header(cp.height + 1 + i))
              && r.value.depositHeaderIndex == (src.depositHeight.value - (cp.height as int + 1)) % 0x1_0000_0000
              && r.value.minConfirmations == cp.minConfirmations
              && r.value.merkleProof == MerkleProof(txid, PathOf(src.merkle, src.pos))
  {
    hide EndHeight, IsLeft;
    var fault := BuildFault(cp, src);
    if fault.Some? {
      return Err(fault.value);
    }
    var end := EndHeight(cp, src.depositHeight.value);
    var headers: seq<BlockHeader> := [];
    for h := cp.height as int + 1 to end + 1
      invariant |headers| == h - (cp.height as int + 1)
      invariant forall g :: cp.height < g < h ==> src.header(g).Some?
      invariant forall i :: 0 <= i < |headers| ==> Some(headers[i]) == src.header(cp.height + 1 + i)
    {
      var header := src.header(h);
      if header.None? {
        return Err(HeaderUnavailable);
      }
      headers := headers + [header.value];
    }
    var path := BuildPath(src.merkle, src.pos);
    assert path == PathOf(src.merkle, src.pos);
    var index := (src.depositHeight.value - (cp.height as int + 1)) % 0x1_0000_0000;
    return Ok(ProofInput(headers, index, cp.minConfirmations, MerkleProof(txid, path)));
  }

  /** Burial is exact: from the deposit's own header to the end there are as many headers as confirmations
      are asked for, and at least one, exactly when the window does not pass the largest height; and the
      index points at the deposit's header exactly when it fits 32 bits. */
  lemma BurialExact(cp: Checkpoint, src: Source, headers: nat, index: u32)
    requires BuildFault(cp, src).None?
    requires headers == EndHeight(cp, src.depositHeight.value) - cp.height
    requires index == (src.depositHeight.value - (cp.height as int + 1)) % 0x1_0000_0000
    ensures var above := src.depositHeight.value - (cp.height as int + 1);
            var burial := if cp.minConfirmations == 0 then 1 else cp.minConfirmations;
            && (headers - above == burial <==> src.depositHeight.value as int + burial <= 0x1_0000_0000_0000_0000)
            && (index == above <==> above < 0x1_0000_0000)
  {
    var above := src.depositHeight.value - (cp.height as int + 1);
    WindowEnds(cp, src.depositHeight.value);
    if above < 0x1_0000_0000 {
      DivModUnique(above, 0x1_0000_0000, 0, above);
    }
  }

  /** The last height of the window: the last confirmation asked for, or that less 2^64. */
  lemma WindowEnds(cp: Checkpoint, depositHeight: u64)
    ensures var last := depositHeight as int + (if cp.minConfirmations == 0 then 1 else cp.minConfirmations) - 1;
            EndHeight(cp, depositHeight)
            == if last < 0x1_0000_0000_0000_0000 then last else last - 0x1_0000_0000_0000_0000
  {
    var sum := depositHeight as int + Confirmations(cp) - 1;
    if sum < U64_LIMIT {
      DivModUnique(sum, U64_LIMIT, 0, sum);
    } else {
      DivModUnique(sum, U64_LIMIT, 1, sum - U64_LIMIT);
    }
  }

  /** Which fault is reported, on every input. With a proof above the checkpoint and a tip, the deposit is
      unconfirmed exactly when the tip lies below the last height; and only a window that wraps around can
      end below the checkpoint. */
  lemma FaultsExact(cp: Checkpoint, src: Source)
    ensures BuildFault(cp, src) == Some(NoMerkleProof) <==> src.depositHeight.None?
    ensures BuildFault(cp, src) == Some(NotAboveCheckpoint)
            <==> src.depositHeight.Some? && src.depositHeight.value <= cp.height
    ensures BuildFault(cp, src) == Some(NoTip)
            <==> src.depositHeight.Some? && src.depositHeight.value > cp.height && src.tip.None?
    ensures src.depositHeight.Some? && src.depositHeight.value > cp.height && src.tip.Some? ==>
              var sum := src.depositHeight.value as int
                         + (if cp.minConfirmations == 0 then 1 else cp.minConfirmations) - 1;
              var last := if sum < 0x1_0000_0000_0000_0000 then sum else sum - 0x1_0000_0000_0000_0000;
              && (BuildFault(cp, src) == Some(Unconfirmed) <==> src.tip.value < last)
              && (BuildFault(cp, src) == Some(WindowTooLarge) <==> last < cp.height && last <= src.tip.value)
              && (last < cp.height ==> last < sum)
    ensures BuildFault(cp, src) != Some(HeaderUnavailable)
  {
    if src.depositHeight.Some? {
      WindowEnds(cp, src.depositHeight.value);
    }
    hide EndHeight;
  }
}
