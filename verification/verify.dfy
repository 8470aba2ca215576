/** The three shapes of the sibling-proof check: the step-by-step report, the fast path of the
    ingestor, and the chain check of the guest. */
module Verify {
  import opened Arith
  import opened Bytes
  import opened U256
  import opened Slots
  import opened Commitment

  /** Why a step failed; the source carries these as messages. */
  datatype Reason =
    | HeaderLength | ChainIdMismatch | BadBits | BadPowLimit | TargetTooEasy
    | NotGeneration | SelfMerge | NotLitecoin | ParentTooShort | CoinbaseFold
    | TooDeep | NoMagic | TwoMagics | TruncatedTail | RootMismatch
    | SizeMismatch | SlotMismatch | Skipped

  datatype StepResult = StepOk | StepErr(reason: Reason)

  datatype Proof2Outcome = Proof2Outcome(
    proof2: StepResult,
    antiGrind: StepResult,
    committed: Option<Digest>,
    nSize: u32,
    nonce: u32)

  datatype Report = Report(
    valid: bool,
    chainId: u32,
    blockHash: Option<Digest>,
    parentHash: Option<Digest>,
    parentChainId: Option<u32>,
    headerFormat: StepResult,
    proof1: StepResult,
    proof2: StepResult,
    antiGrind: StepResult,
    chainRoot: Option<Digest>,
    coinbaseRoot: Option<Digest>,
    depth: nat,
    chainIndex: u32,
    nSize: u32,
    nonce: u32)

  datatype LightError = FormatFailed | Proof1Failed | Proof2Failed | AntiGrindFailed

  // ---------------------------------------------------------------- the steps

  function CheckHeaderFormat(base: Bytes, chainId: u32, powLimitBits: u32): StepResult {
    if |base| != 80 then StepErr(HeaderLength)
    else if U32At(base, 0) / 0x1_0000 != chainId then StepErr(ChainIdMismatch)
    else
      var target := ExpandTarget(U32At(base, 72));
      if target.None? then StepErr(BadBits)
      else
        var powLimit := ExpandTarget(powLimitBits);
        if powLimit.None? then StepErr(BadPowLimit)
        else if !TargetLeq(target.value, powLimit.value) then StepErr(TargetTooEasy)
        else StepOk
  }

  function VerifyProof1(sha256d: HashFn, aux: AuxPow, chainId: u32): StepResult {
    if aux.parentIndex != 0 then StepErr(NotGeneration)
    else if !(aux.ParentChainId().Some? && aux.ParentChainId().value != chainId) then StepErr(SelfMerge)
    else if aux.ParentChainId() != Some(LTC_CHAIN_ID) then StepErr(NotLitecoin)
    else if aux.ParentMerkleRoot().None? then StepErr(ParentTooShort)
    else
      var folded := Fold(sha256d, sha256d(aux.coinbaseTx), aux.parentMerkleBranch, aux.parentIndex);
      if folded != aux.ParentMerkleRoot().value then StepErr(CoinbaseFold) else StepOk
  }

  function VerifyProof2(sha256d: HashFn, auxBlockHash: Digest, aux: AuxPow, chainId: u32): Proof2Outcome {
    var depth := |aux.chainMerkleBranch|;
    if depth > 30 then Proof2Outcome(StepErr(TooDeep), StepErr(Skipped), None, 0, 0)
    else
      var rootReversed := Reversed(Fold(sha256d, auxBlockHash, aux.chainMerkleBranch, aux.chainIndex));
      var cb := aux.coinbaseTx;
      var magicAt := FindSubslice(cb, AUXPOW_MAGIC);
      if magicAt.None? then Proof2Outcome(StepErr(NoMagic), StepErr(Skipped), None, 0, 0)
      else if FindSubslice(cb[magicAt.value + 1..], AUXPOW_MAGIC).Some? then
        Proof2Outcome(StepErr(TwoMagics), StepErr(Skipped), None, 0, 0)
      else
        var rootPos := magicAt.value + |AUXPOW_MAGIC|;
        if rootPos + 40 > |cb| then Proof2Outcome(StepErr(TruncatedTail), StepErr(Skipped), None, 0, 0)
        else CheckTail(cb[rootPos..rootPos + 40], rootReversed, aux.chainIndex, chainId, depth)
  }

  function CheckTail(tail: Bytes, rootReversed: Digest, chainIndex: u32, chainId: u32, depth: nat): Proof2Outcome
    requires |tail| == 40 && depth <= 30
  {
    var nSize, nonce := U32At(tail, 32), U32At(tail, 36);
    if tail[..32] != rootReversed then Proof2Outcome(StepErr(RootMismatch), StepErr(Skipped), None, nSize, nonce)
    else
      var grind :=
        if nSize != Pow2(depth) then StepErr(SizeMismatch)
        else if chainIndex != ExpectedIndex(nonce, chainId, depth) then StepErr(SlotMismatch)
        else StepOk;
      Proof2Outcome(StepOk, grind, Some(tail[..32]), nSize, nonce)
  }

  // ---------------------------------------------------------------- the fast path and the report

  function LightVerify(sha256d: HashFn, base: Bytes, aux: AuxPow, chainId: u32, powLimitBits: u32)
    : Result<Digest, LightError>
  {
    if CheckHeaderFormat(base, chainId, powLimitBits) != StepOk then Err(FormatFailed)
    else
      var blockHash := sha256d(base);
      if VerifyProof1(sha256d, aux, chainId) != StepOk then Err(Proof1Failed)
      else
        var out := VerifyProof2(sha256d, blockHash, aux, chainId);
        if out.proof2 != StepOk then Err(Proof2Failed)
        else if out.antiGrind != StepOk then Err(AntiGrindFailed)
        else Ok(blockHash)
  }

  function VerifyAuxHeader(sha256d: HashFn, base: Bytes, aux: AuxPow, chainId: u32, powLimitBits: u32): Report {
    var report := Report(
      false, chainId, None, None, None, CheckHeaderFormat(base, chainId, powLimitBits),
      StepOk, StepOk, StepOk, None, None, |aux.chainMerkleBranch|, aux.chainIndex, 0, 0);
    if report.headerFormat != StepOk then report
    else
      var blockHash := sha256d(base);
      var proof1 := VerifyProof1(sha256d, aux, chainId);
      var out := VerifyProof2(sha256d, blockHash, aux, chainId);
      var root := if out.committed.Some? then Some(Reversed(out.committed.value)) else None;
      report.(
        valid := proof1 == StepOk && out.proof2 == StepOk && out.antiGrind == StepOk,
        blockHash := Some(blockHash),
        parentHash := Some(sha256d(aux.parentHeader)),
        parentChainId := aux.ParentChainId(),
        proof1 := proof1,
        proof2 := out.proof2,
        antiGrind := out.antiGrind,
        chainRoot := root,
        coinbaseRoot := root,
        nSize := out.nSize,
        nonce := out.nonce)
  }

  /** The step-by-step copy of the commitment check accepts exactly what the guest's check accepts. */
  lemma StepsAreCommitment(sha256d: HashFn, auxBlockHash: Digest, aux: AuxPow, chainId: u32)
    ensures VerifyProof1(sha256d, aux, chainId) == StepOk <==> CoinbaseInParent(sha256d, aux, chainId)
    ensures var out := VerifyProof2(sha256d, auxBlockHash, aux, chainId);
            out.proof2 == StepOk && out.antiGrind == StepOk
            <==> BlockInCoinbase(sha256d, auxBlockHash, aux, chainId)
  {
  }

  /** All shapes of the check agree on every input, and the fast path names the first failing step. */
  lemma VerifiersAgree(sha256d: HashFn, base: Bytes, aux: AuxPow, chainId: u32, powLimitBits: u32)
    ensures var light := LightVerify(sha256d, base, aux, chainId, powLimitBits);
            var report := VerifyAuxHeader(sha256d, base, aux, chainId, powLimitBits);
            && (light.Ok? <==> report.valid)
            && (light.Ok? <==> CheckHeaderFormat(base, chainId, powLimitBits) == StepOk
                               && VerifyCommitment(sha256d, sha256d(base), aux, chainId))
            && (light.Ok? ==> light.value == sha256d(base) && report.blockHash == Some(light.value))
            && (light == Err(FormatFailed) <==> report.headerFormat != StepOk)
            && (light == Err(Proof1Failed) <==> report.headerFormat == StepOk && report.proof1 != StepOk)
            && (light == Err(Proof2Failed)
                <==> report.headerFormat == report.proof1 == StepOk && report.proof2 != StepOk)
  {
    StepsAreCommitment(sha256d, sha256d(base), aux, chainId);
  }

  /** The four bytes at offset 72. */
  function Bits(base: Bytes): u32
    requires |base| == 80
  {
    Word(base[72], base[73], base[74], base[75])
  }

  /** The header's own conditions, on its bytes, and which of them a refused header fails first. */
  lemma FormatReasons(base: Bytes, chainId: u32, powLimitBits: u32)
    ensures var r := CheckHeaderFormat(base, chainId, powLimitBits);
            if |base| != 80 then r == StepErr(HeaderLength)
            else if Word(base[2], base[3], 0, 0) != chainId then r == StepErr(ChainIdMismatch)
            else if ExpandTarget(Bits(base)).None? then r == StepErr(BadBits)
            else if ExpandTarget(powLimitBits).None? then r == StepErr(BadPowLimit)
            else if Be(ExpandTarget(Bits(base)).value) > Be(ExpandTarget(powLimitBits).value) then
              r == StepErr(TargetTooEasy)
            else r == StepOk
  {
    if |base| == 80 {
      UpperHalf(base);
      U32Bytes(base, 72);
    }
    hide ExpandTarget, U32At, Be;
  }

  /** What the first proof finds wrong with the parent. */
  lemma Proof1Reasons(sha256d: HashFn, aux: AuxPow, chainId: u32)
    ensures var r, parent := VerifyProof1(sha256d, aux, chainId), aux.parentHeader;
            if aux.parentIndex != 0 then r == StepErr(NotGeneration)
            else if |parent| < 4 || Word(parent[2], parent[3], 0, 0) == chainId then r == StepErr(SelfMerge)
            else if Word(parent[2], parent[3], 0, 0) != 0x2000 then r == StepErr(NotLitecoin)
            else if |parent| < 80 then r == StepErr(ParentTooShort)
            else if Fold(sha256d, sha256d(aux.coinbaseTx), aux.parentMerkleBranch, 0) != parent[36..68] then
              r == StepErr(CoinbaseFold)
            else r == StepOk
  {
    if |aux.parentHeader| >= 4 {
      UpperHalf(aux.parentHeader);
    }
    hide U32At, Fold;
  }

  ghost predicate OnlyAt(hay: Bytes, needle: Bytes, i: nat) {
    OccursAt(hay, needle, i) && forall j: nat :: OccursAt(hay, needle, j) ==> j == i
  }

  /** What the second proof reports when the coinbase does not hold one magic with a whole tail behind it. */
  lemma Proof2Unread(sha256d: HashFn, auxBlockHash: Digest, aux: AuxPow, chainId: u32)
    ensures var cb, magic := aux.coinbaseTx, [0xfa, 0xbe, 0x6d, 0x6d];
            var unread := (why: Reason) => Proof2Outcome(StepErr(why), StepErr(Skipped), None, 0, 0);
            var out := VerifyProof2(sha256d, auxBlockHash, aux, chainId);
            if |aux.chainMerkleBranch| > 30 then out == unread(TooDeep)
            else
              && ((forall i: nat :: !OccursAt(cb, magic, i)) ==> out == unread(NoMagic))
              && ((exists i: nat, j: nat :: i < j && OccursAt(cb, magic, i) && OccursAt(cb, magic, j)) ==>
                    out == unread(TwoMagics))
              && (forall i: nat :: OnlyAt(cb, magic, i) && i + 44 > |cb| ==> out == unread(TruncatedTail))
  {
    hide CheckTail, FindSubslice, Fold;
    if FindSubslice(aux.coinbaseTx, AUXPOW_MAGIC).Some? {
      SecondMagic(aux.coinbaseTx, FindSubslice(aux.coinbaseTx, AUXPOW_MAGIC).value);
    }
  }

  /** And what it reports when it does: root, size and nonce as they stand there, and the first that is wrong. */
  lemma Proof2Read(sha256d: HashFn, auxBlockHash: Digest, aux: AuxPow, chainId: u32, rootPos: nat)
    requires |aux.chainMerkleBranch| <= 30 && OnlyMagicBefore(aux.coinbaseTx, rootPos)
    ensures var cb, depth := aux.coinbaseTx, |aux.chainMerkleBranch|;
            var root, size, nonce := cb[rootPos..rootPos + 32], U32At(cb, rootPos + 32), U32At(cb, rootPos + 36);
            var out := VerifyProof2(sha256d, auxBlockHash, aux, chainId);
            && out.nSize == size && out.nonce == nonce
            && if Reversed(root) != Fold(sha256d, auxBlockHash, aux.chainMerkleBranch, aux.chainIndex) then
                 out.proof2 == StepErr(RootMismatch) && out.antiGrind == StepErr(Skipped) && out.committed == None
               else
                 && out.proof2 == StepOk && out.committed == Some(root)
                 && out.antiGrind == (if size != Pow2(depth) then StepErr(SizeMismatch)
                                      else if aux.chainIndex != ExpectedIndex(nonce, chainId, depth)
                                      then StepErr(SlotMismatch) else StepOk)
  {
    hide FindSubslice, Fold, U32At, Pow2, ExpectedIndex;
    OnlyMagicFound(aux.coinbaseTx, rootPos);
    TailFields(aux.coinbaseTx, rootPos);
    ReversedTwice(aux.coinbaseTx[rootPos..rootPos + 32]);
    ReversedTwice(Fold(sha256d, auxBlockHash, aux.chainMerkleBranch, aux.chainIndex));
    hide OnlyMagicBefore;
  }

  /** What any report displays: nothing but depth and slot where the header itself is refused, and else what
      the two proofs found. */
  lemma ReportFields(sha256d: HashFn, base: Bytes, aux: AuxPow, chainId: u32, powLimitBits: u32)
    ensures var report := VerifyAuxHeader(sha256d, base, aux, chainId, powLimitBits);
            var format, out := CheckHeaderFormat(base, chainId, powLimitBits),
                               VerifyProof2(sha256d, sha256d(base), aux, chainId);
            && report.chainId == chainId && report.headerFormat == format
            && report.depth == |aux.chainMerkleBranch| && report.chainIndex == aux.chainIndex
            && report.chainRoot == report.coinbaseRoot
            && if format != StepOk then
                 && !report.valid && report.proof1 == report.proof2 == report.antiGrind == StepOk
                 && report.blockHash == report.parentHash == report.chainRoot == None && report.parentChainId == None
                 && report.nSize == report.nonce == 0
               else
                 && report.blockHash == Some(sha256d(base)) && report.parentHash == Some(sha256d(aux.parentHeader))
                 && report.parentChainId == (if |aux.parentHeader| < 4 then None
                                             else Some(Word(aux.parentHeader[2], aux.parentHeader[3], 0, 0)))
                 && report.proof1 == VerifyProof1(sha256d, aux, chainId)
                 && (report.proof2, report.antiGrind) == (out.proof2, out.antiGrind)
                 && (report.nSize, report.nonce) == (out.nSize, out.nonce)
                 && (report.chainRoot.Some? <==> out.proof2 == StepOk)
                 && (report.chainRoot.Some? ==>
                       report.chainRoot.value == Fold(sha256d, sha256d(base), aux.chainMerkleBranch, aux.chainIndex))
  {
    if |aux.parentHeader| >= 4 {
      UpperHalf(aux.parentHeader);
    }
    hide ExpectedIndex, CheckHeaderFormat, VerifyProof1, FindSubslice, Fold, U32At;
    ReversedTwice(Fold(sha256d, sha256d(base), aux.chainMerkleBranch, aux.chainIndex));
  }

  /** What a valid report displays is what the witness proves. */
  lemma ValidReportFields(sha256d: HashFn, base: Bytes, aux: AuxPow, chainId: u32, powLimitBits: u32)
    requires VerifyAuxHeader(sha256d, base, aux, chainId, powLimitBits).valid
    ensures var report := VerifyAuxHeader(sha256d, base, aux, chainId, powLimitBits);
            && report.chainRoot == report.coinbaseRoot
               == Some(Fold(sha256d, sha256d(base), aux.chainMerkleBranch, aux.chainIndex))
            && report.depth == |aux.chainMerkleBranch| <= 30 && report.nSize == Pow2(report.depth)
            && report.chainIndex == aux.chainIndex == ExpectedIndex(report.nonce, chainId, report.depth)
            && report.chainId == chainId && report.parentChainId == Some(0x2000)
            && report.blockHash == Some(sha256d(base)) && report.parentHash == Some(sha256d(aux.parentHeader))
  {
    hide ExpectedIndex, CheckHeaderFormat, FindSubslice, Fold;
    ReversedTwice(Fold(sha256d, sha256d(base), aux.chainMerkleBranch, aux.chainIndex));
  }

  // ---------------------------------------------------------------- siblings

  /** Everything the fast path hashes for one block. */
  function LightInputs(sha256d: HashFn, base: Bytes, aux: AuxPow): set<Bytes> {
    {base} + CheckInputs(sha256d, sha256d(base), aux)
  }

  /** One parent block anchors at most one block of a chain, down to the header bytes, unless a coinbase
      is read as an inner merkle node. */
  lemma OneHeaderOrNode(sha256d: HashFn, b1: Bytes, w1: AuxPow, b2: Bytes, w2: AuxPow, chainId: u32, limit1: u32,
                        limit2: u32)
    requires LightVerify(sha256d, b1, w1, chainId, limit1).Ok?
    requires LightVerify(sha256d, b2, w2, chainId, limit2).Ok?
    requires w1.parentHeader == w2.parentHeader
    ensures (b1 == b2 && w1 == w2)
            || ReadAsNode(sha256d, w1.coinbaseTx, w1.parentMerkleBranch, w2.coinbaseTx, w2.parentMerkleBranch)
            || HasCollision(sha256d, LightInputs(sha256d, b1, w1) + LightInputs(sha256d, b2, w2))
  {
    hide LightVerify, VerifyCommitment, ReadAsNode, CheckInputs;
    VerifiersAgree(sha256d, b1, w1, chainId, limit1);
    VerifiersAgree(sha256d, b2, w2, chainId, limit2);
    var h1, h2 := sha256d(b1), sha256d(b2);
    var all := LightInputs(sha256d, b1, w1) + LightInputs(sha256d, b2, w2);
    OneBlockOrNode(sha256d, h1, w1, h2, w2, chainId);
    if h1 == h2 && w1 == w2 {
      assert b1 in all && b2 in all;
    } else if HasCollision(sha256d, CheckInputs(sha256d, h1, w1) + CheckInputs(sha256d, h2, w2)) {
      CollisionMonotone(sha256d, CheckInputs(sha256d, h1, w1) + CheckInputs(sha256d, h2, w2), all);
    }
  }

  /** The same, for coinbases that are not exactly 64 bytes long. */
  lemma OneHeaderPerParent(sha256d: HashFn, b1: Bytes, w1: AuxPow, b2: Bytes, w2: AuxPow, chainId: u32, limit1: u32,
                           limit2: u32)
    requires LightVerify(sha256d, b1, w1, chainId, limit1).Ok?
    requires LightVerify(sha256d, b2, w2, chainId, limit2).Ok?
    requires w1.parentHeader == w2.parentHeader
    requires |w1.coinbaseTx| != 64 && |w2.coinbaseTx| != 64
    ensures (b1 == b2 && w1 == w2)
            || HasCollision(sha256d, LightInputs(sha256d, b1, w1) + LightInputs(sha256d, b2, w2))
  {
    hide LightVerify, LightInputs, HasCollision, FoldInputs;
    OneHeaderOrNode(sha256d, b1, w1, b2, w2, chainId, limit1, limit2);
    NotNodes(sha256d, w1, w2);
  }

  lemma NotNodes(sha256d: HashFn, w1: AuxPow, w2: AuxPow)
    requires |w1.coinbaseTx| != 64 && |w2.coinbaseTx| != 64
    ensures !ReadAsNode(sha256d, w1.coinbaseTx, w1.parentMerkleBranch, w2.coinbaseTx, w2.parentMerkleBranch)
  {
    hide FoldInputs;
    NodesAre64Bytes(sha256d, sha256d(w1.coinbaseTx), w1.parentMerkleBranch, 0);
    NodesAre64Bytes(sha256d, sha256d(w2.coinbaseTx), w2.parentMerkleBranch, 0);
  }

  /** Blocks of different chains in one coinbase: one depth, one chain root, different slots, and
      chain ids that differ modulo the tree size. */
  lemma SiblingsSitApart(sha256d: HashFn, b1: Bytes, w1: AuxPow, c1: u32, limit1: u32, b2: Bytes, w2: AuxPow,
                         c2: u32, limit2: u32)
    requires LightVerify(sha256d, b1, w1, c1, limit1).Ok?
    requires LightVerify(sha256d, b2, w2, c2, limit2).Ok?
    requires w1.coinbaseTx == w2.coinbaseTx && c1 != c2
    ensures |w1.chainMerkleBranch| == |w2.chainMerkleBranch|
    ensures Fold(sha256d, sha256d(b1), w1.chainMerkleBranch, w1.chainIndex)
            == Fold(sha256d, sha256d(b2), w2.chainMerkleBranch, w2.chainIndex)
    ensures (w1.chainIndex != w2.chainIndex
             && c1 % Pow2(|w1.chainMerkleBranch|) != c2 % Pow2(|w1.chainMerkleBranch|))
            || HasCollision(sha256d, LightInputs(sha256d, b1, w1) + LightInputs(sha256d, b2, w2))
  {
    VerifiersAgree(sha256d, b1, w1, c1, limit1);
    VerifiersAgree(sha256d, b2, w2, c2, limit2);
    var h1, h2, d := sha256d(b1), sha256d(b2), |w1.chainMerkleBranch|;
    var all := LightInputs(sha256d, b1, w1) + LightInputs(sha256d, b2, w2);
    SameCoinbase(sha256d, h1, w1, c1, h2, w2, c2);
    var nonce: u32 :| w1.chainIndex == ExpectedIndex(nonce, c1, d)
                      && w2.chainIndex == ExpectedIndex(nonce, c2, d);
    SlotCollision(nonce, c1, c2, d);
    if w1.chainIndex == w2.chainIndex {
      FoldInjective(sha256d, h1, w1.chainMerkleBranch, h2, w2.chainMerkleBranch, w1.chainIndex);
      if h1 == h2 {
        assert b1 in all && b2 in all && b1 != b2;
      } else {
        CollisionMonotone(sha256d, FoldInputs(sha256d, h1, w1.chainMerkleBranch, w1.chainIndex)
                                   + FoldInputs(sha256d, h2, w2.chainMerkleBranch, w1.chainIndex), all);
      }
    }
  }

  /** All siblings under one parent header fold to one chain root at one depth, unless a coinbase is read
      as an inner merkle node. */
  lemma SharedRootOrNode(sha256d: HashFn, h1: Digest, w1: AuxPow, c1: u32, h2: Digest, w2: AuxPow, c2: u32)
    requires VerifyCommitment(sha256d, h1, w1, c1) && VerifyCommitment(sha256d, h2, w2, c2)
    requires w1.parentHeader == w2.parentHeader
    ensures SharedRoot(sha256d, h1, w1, h2, w2)
            || ReadAsNode(sha256d, w1.coinbaseTx, w1.parentMerkleBranch, w2.coinbaseTx, w2.parentMerkleBranch)
            || HasCollision(sha256d, LeafInputs(sha256d, w1.coinbaseTx, w1.parentMerkleBranch)
                                     + LeafInputs(sha256d, w2.coinbaseTx, w2.parentMerkleBranch))
  {
    hide ReadAsNode, LeafInputs;
    LeftmostLeafUnique(sha256d, w1.coinbaseTx, w1.parentMerkleBranch, w2.coinbaseTx, w2.parentMerkleBranch);
    if w1.coinbaseTx == w2.coinbaseTx {
      SameCoinbase(sha256d, h1, w1, c1, h2, w2, c2);
    }
  }

  /** One coinbase, one depth, one chain root. */
  ghost predicate SharedRoot(sha256d: HashFn, h1: Digest, w1: AuxPow, h2: Digest, w2: AuxPow) {
    && w1.coinbaseTx == w2.coinbaseTx
    && |w1.chainMerkleBranch| == |w2.chainMerkleBranch|
    && Fold(sha256d, h1, w1.chainMerkleBranch, w1.chainIndex)
       == Fold(sha256d, h2, w2.chainMerkleBranch, w2.chainIndex)
  }

  /** The same, for coinbases that are not exactly 64 bytes long. */
  lemma SiblingsShareRoot(sha256d: HashFn, h1: Digest, w1: AuxPow, c1: u32, h2: Digest, w2: AuxPow, c2: u32)
    requires VerifyCommitment(sha256d, h1, w1, c1) && VerifyCommitment(sha256d, h2, w2, c2)
    requires w1.parentHeader == w2.parentHeader
    requires |w1.coinbaseTx| != 64 && |w2.coinbaseTx| != 64
    ensures SharedRoot(sha256d, h1, w1, h2, w2)
            || HasCollision(sha256d, LeafInputs(sha256d, w1.coinbaseTx, w1.parentMerkleBranch)
                                     + LeafInputs(sha256d, w2.coinbaseTx, w2.parentMerkleBranch))
  {
    hide VerifyCommitment, SharedRoot, LeafInputs;
    SharedRootOrNode(sha256d, h1, w1, c1, h2, w2, c2);
    NotNodes(sha256d, w1, w2);
  }

  // ---------------------------------------------------------------- the guest's chain check

  datatype ChainError =
    | EmptyChain | BadPowLimitEncoding | BadHeaderLength | WrongChainId | BrokenLink | BadBitsEncoding
    | EasierThanLimit | NoWitness | CommitmentInvalid | BadParentLength

  /** The first test a header fails, in the order of the source. */
  function HeaderFault(sha256d: HashFn, header: BlockHeader, prev: Digest, chainId: u32, powLimit: Digest)
    : (fault: Option<ChainError>)
    ensures fault != Some(EmptyChain) && fault != Some(BadPowLimitEncoding)
  {
    if |header.raw| != 80 then Some(BadHeaderLength)
    else if ChainIdOf(header.raw) != chainId then Some(WrongChainId)
    else if PrevHashOf(header.raw) != prev then Some(BrokenLink)
    else
      var target := ExpandTarget(BitsOf(header.raw));
      if target.None? then Some(BadBitsEncoding)
      else if !TargetLeq(target.value, powLimit) then Some(EasierThanLimit)
      else if header.aux.None? then Some(NoWitness)
      else if !VerifyCommitment(sha256d, sha256d(header.raw), header.aux.value, chainId) then Some(CommitmentInvalid)
      else if |header.aux.value.parentHeader| != 80 then Some(BadParentLength)
      else None
  }

  /** The hash header `i` must link to. */
  function LinkTo(sha256d: HashFn, headers: seq<BlockHeader>, checkpoint: Digest, i: nat): Digest
    requires i <= |headers|
  {
    if i == 0 then checkpoint else sha256d(headers[i - 1].raw)
  }

  function FaultAt(sha256d: HashFn, headers: seq<BlockHeader>, checkpoint: Digest, chainId: u32, powLimit: Digest,
                   i: nat)
    : Option<ChainError>
    requires i < |headers|
  {
    HeaderFault(sha256d, headers[i], LinkTo(sha256d, headers, checkpoint, i), chainId, powLimit)
  }

  /** The chain starts above the checkpoint and no header has a fault. */
  ghost predicate Faultless(sha256d: HashFn, headers: seq<BlockHeader>, checkpoint: Digest, chainId: u32,
                            powLimitBits: u32) {
    && headers != [] && ExpandTarget(powLimitBits).Some?
    && forall i :: 0 <= i < |headers| ==>
         FaultAt(sha256d, headers, checkpoint, chainId, ExpandTarget(powLimitBits).value, i).None?
  }

  /** `verify_psob_chain`: accepts exactly the faultless chains and otherwise reports the first fault. */
  method VerifyPsobChain(sha256d: HashFn, headers: seq<BlockHeader>, checkpoint: Digest, chainId: u32,
                         powLimitBits: u32)
    returns (r: Result<(), ChainError>)
    ensures r == Err(EmptyChain) <==> headers == []
    ensures r == Err(BadPowLimitEncoding) <==> headers != [] && ExpandTarget(powLimitBits).None?
    ensures r.Ok? <==> Faultless(sha256d, headers, checkpoint, chainId, powLimitBits)
    ensures headers != [] && ExpandTarget(powLimitBits).Some? && r.Err? ==>
              exists i :: && 0 <= i < |headers|
                          && FaultAt(sha256d, headers, checkpoint, chainId, ExpandTarget(powLimitBits).value, i)
                              == Some(r.error)
                          && forall j :: 0 <= j < i ==>
                               FaultAt(sha256d, headers, checkpoint, chainId, ExpandTarget(powLimitBits).value, j).None?
  {
    hide HeaderFault;
    if headers == [] {
      return Err(EmptyChain);
    }
    var limit := ExpandTarget(powLimitBits);
    if limit.None? {
      return Err(BadPowLimitEncoding);
    }
    var prevExpected := checkpoint;
    for i := 0 to |headers|
      invariant prevExpected == LinkTo(sha256d, headers, checkpoint, i)
      invariant forall j :: 0 <= j < i ==>
                  FaultAt(sha256d, headers, checkpoint, chainId, limit.value, j).None?
    {
      var fault := HeaderFault(sha256d, headers[i], prevExpected, chainId, limit.value);
      if fault.Some? {
        assert FaultAt(sha256d, headers, checkpoint, chainId, limit.value, i) == fault;
        return Err(fault.value);
      }
      prevExpected := sha256d(headers[i].raw);
    }
    return Ok(());
  }

  /** Which fault of a header is reported, the first in this order. */
  lemma FaultReasons(sha256d: HashFn, header: BlockHeader, prev: Digest, chainId: u32, powLimit: Digest)
    ensures var r, raw := HeaderFault(sha256d, header, prev, chainId, powLimit), header.raw;
            if |raw| != 80 then r == Some(BadHeaderLength)
            else if Word(raw[2], raw[3], 0, 0) != chainId then r == Some(WrongChainId)
            else if raw[4..36] != prev then r == Some(BrokenLink)
            else if ExpandTarget(Bits(raw)).None? then r == Some(BadBitsEncoding)
            else if Be(ExpandTarget(Bits(raw)).value) > Be(powLimit) then r == Some(EasierThanLimit)
            else if header.aux.None? then r == Some(NoWitness)
            else if !VerifyCommitment(sha256d, sha256d(raw), header.aux.value, chainId) then
              r == Some(CommitmentInvalid)
            else if |header.aux.value.parentHeader| != 80 then r == Some(BadParentLength)
            else r == None
  {
    if |header.raw| == 80 {
      UpperHalf(header.raw);
      U32Bytes(header.raw, 72);
      assert ChainIdOf(header.raw) == Word(header.raw[2], header.raw[3], 0, 0);
      assert BitsOf(header.raw) == Bits(header.raw);
    }
    hide ExpandTarget, U32At, Be, VerifyCommitment, Word, Bits, ChainIdOf, BitsOf;
  }

  /** A header is faultless exactly when the fast path accepts it, it links, and its parent header
      has the mandatory length. */
  lemma FaultlessIsLightVerified(sha256d: HashFn, raw: Bytes, aux: AuxPow, prev: Digest, chainId: u32,
                                 powLimitBits: u32)
    requires ExpandTarget(powLimitBits).Some?
    ensures HeaderFault(sha256d, BlockHeader(raw, Some(aux)), prev, chainId, ExpandTarget(powLimitBits).value).None?
            <==> && LightVerify(sha256d, raw, aux, chainId, powLimitBits).Ok?
                 && raw[4..36] == prev && |aux.parentHeader| == 80
  {
    VerifiersAgree(sha256d, raw, aux, chainId, powLimitBits);
  }
}
