/** The CAuxPow payload: an 80-byte aux header followed by the witness. */
module Payload {
  import opened Bytes
  import opened Commitment
  import opened Wire

  const HEADER_LEN: nat := 80
  const MAX_BRANCH: nat := 0x10_0000

  /** The parts after the header, with the widths of the two branch counts. */
  datatype WireAux = WireAux(
    tx: Tx,
    hashBlock: Digest,
    parentWidth: Width,
    parentBranch: seq<Digest>,
    parentIndex: u32,
    chainWidth: Width,
    chainBranch: seq<Digest>,
    chainIndex: u32,
    parentHeader: Bytes)

  predicate ValidBranch(w: Width, branch: seq<Digest>) {
    |branch| <= MAX_BRANCH && ValidVarInt(VarInt(w, |branch|))
  }

  predicate ValidAux(w: WireAux) {
    && ValidTx(w.tx) && |w.parentHeader| == HEADER_LEN
    && ValidBranch(w.parentWidth, w.parentBranch)
    && ValidBranch(w.chainWidth, w.chainBranch)
  }

  function SerHash(h: Digest): Bytes { h }

  function SerBranch(w: Width, branch: seq<Digest>): Bytes
    requires ValidBranch(w, branch)
  {
    VarIntBytes(VarInt(w, |branch|)) + Concat(SerHash, branch)
  }

  function SerAux(w: WireAux): Bytes
    requires ValidAux(w)
  {
    SerTx(w.tx) + w.hashBlock
    + SerBranch(w.parentWidth, w.parentBranch) + LeBytes(w.parentIndex, 4)
    + SerBranch(w.chainWidth, w.chainBranch) + LeBytes(w.chainIndex, 4)
    + w.parentHeader
  }

  function TakeHash(s: Bytes): Parsed<Digest> {
    var (h, rest) :- Take(s, 32);
    Ok((h, rest))
  }

  function TakeU32(s: Bytes): Parsed<u32> {
    var (b, rest) :- Take(s, 4);
    PowersAtWidths();
    Ok((Le(b), rest))
  }

  function TakeBranch(s: Bytes): Parsed<(Width, seq<Digest>)> {
    var (v, rest) :- TakeVarint(s);
    if v.n > MAX_BRANCH then Err(BadBranch(v.n))
    else
      var (branch, rest) :- TakeMany(TakeHash, rest, v.n);
      Ok(((v.width, branch), rest))
  }

  /** A branch is refused for its length exactly when it claims more than 2^20 hashes. */
  lemma BranchLimit(s: Bytes)
    requires TakeVarint(s).Ok?
    ensures var n := TakeVarint(s).value.0.n; TakeBranch(s) == Err(BadBranch(n)) <==> n > 1_048_576
  {
    hide TakeVarint;
    var (v, rest) := TakeVarint(s).value;
    HashesAreLong(rest, v.n);
  }

  /** Reading hashes never refuses a branch. */
  lemma {:induction false} HashesAreLong(s: Bytes, n: nat)
    ensures TakeMany(TakeHash, s, n).Err? ==> !TakeMany(TakeHash, s, n).error.BadBranch?
  {
    if n > 0 && TakeHash(s).Ok? {
      HashesAreLong(TakeHash(s).value.1, n - 1);
    }
  }

  function TakeAux(s: Bytes): Parsed<WireAux> {
    var (tx, rest) :- TakeTx(s);
    var (hashBlock, rest) :- TakeHash(rest);
    var (parent, rest) :- TakeBranch(rest);
    var (parentIndex, rest) :- TakeU32(rest);
    var (chain, rest) :- TakeBranch(rest);
    var (chainIndex, rest) :- TakeU32(rest);
    var (parentHeader, rest) :- MapError(Take(rest, HEADER_LEN), MissingParentHeader);
    Ok((WireAux(tx, hashBlock, parent.0, parent.1, parentIndex, chain.0, chain.1, chainIndex, parentHeader), rest))
  }

  /** The witness handed to verification: the coinbase is stripped of its own witness. */
  function AuxOf(w: WireAux): AuxPow
    requires ValidTx(w.tx)
  {
    AuxPow(LegacyBytes(w.tx), w.parentBranch, w.parentIndex, w.chainBranch, w.chainIndex, w.parentHeader)
  }

  /** `parse_auxpow` with everything it reads: header, parts, and the bytes it never looks at. */
  function ParseFull(full: Bytes): Result<(Bytes, WireAux, Bytes), ParseError> {
    if |full| < HEADER_LEN then Err(TruncatedHeader(|full|))
    else if |full| == HEADER_LEN then Err(NoAuxPow)
    else
      var (w, rest) :- TakeAux(full[HEADER_LEN..]);
      Ok((full[..HEADER_LEN], w, rest))
  }

  function ParseAuxpow(full: Bytes): (r: Result<(Bytes, AuxPow), ParseError>)
    ensures r.Ok? ==> |r.value.0| == 80 && |r.value.1.parentHeader| == 80
  {
    var (base, w, _) :- ParseFull(full);
    AuxSound(full[HEADER_LEN..]);
    Ok((base, AuxOf(w)))
  }

  // ---------------------------------------------------------------- parsing inverts serialization

  predicate AnyHash(h: Digest) { true }

  lemma HashInverse()
    ensures Inverse(TakeHash, SerHash, AnyHash)
  {
    forall h: Digest, rest
      ensures TakeHash(SerHash(h) + rest) == Ok((h, rest))
    {
      TakeConcat(h, rest);
    }
  }

  lemma BranchSound(s: Bytes)
    requires TakeBranch(s).Ok?
    ensures var ((w, branch), rest) := TakeBranch(s).value;
            ValidBranch(w, branch) && s == SerBranch(w, branch) + rest
  {
    VarintSound(s);
    HashInverse();
    var (v, s1) := TakeVarint(s).value;
    ManySound(TakeHash, SerHash, AnyHash, s1, v.n);
    hide TakeVarint, VarIntBytes, Concat, TakeMany;
    var (branch, s2) := TakeMany(TakeHash, s1, v.n).value;
    Join(VarIntBytes(v), Concat(SerHash, branch), s2);
  }

  lemma BranchComplete(w: Width, branch: seq<Digest>, rest: Bytes)
    requires ValidBranch(w, branch)
    ensures TakeBranch(SerBranch(w, branch) + rest) == Ok(((w, branch), rest))
  {
    hide TakeVarint, VarIntBytes, Concat, TakeMany;
    var v, hashes := VarInt(w, |branch|), Concat(SerHash, branch);
    VarintComplete(v, hashes + rest);
    HashInverse();
    ManyComplete(TakeHash, SerHash, AnyHash, branch, rest);
    Join(VarIntBytes(v), hashes, rest);
  }

  lemma U32Sound(s: Bytes)
    requires TakeU32(s).Ok?
    ensures var (n, rest) := TakeU32(s).value; s == LeBytes(n, 4) + rest
  {
    LeBytesOfLe(s[..4]);
  }

  lemma U32Complete(n: u32, rest: Bytes)
    ensures TakeU32(LeBytes(n, 4) + rest) == Ok((n, rest))
  {
    PowersAtWidths();
    LeOfLeBytes(n, 4);
    TakeConcat(LeBytes(n, 4), rest);
  }

  lemma AuxSound(s: Bytes)
    requires TakeAux(s).Ok?
    ensures var (w, rest) := TakeAux(s).value; ValidAux(w) && s == SerAux(w) + rest
  {
    hide TakeTx, TakeHash, TakeBranch, TakeU32, SerTx, ValidTx, SerBranch, LeBytes, ValidBranch;
    var (tx, s1) := TakeTx(s).value;
    var (hashBlock, s2) := TakeHash(s1).value;
    var (parent, s3) := TakeBranch(s2).value;
    var (parentIndex, s4) := TakeU32(s3).value;
    var (chain, s5) := TakeBranch(s4).value;
    var (chainIndex, s6) := TakeU32(s5).value;
    var (parentHeader, s7) := Take(s6, HEADER_LEN).value;
    TxSound(s);
    HashSplits(s1);
    BranchSound(s2);
    U32Sound(s3);
    BranchSound(s4);
    U32Sound(s5);
    TakeSplits(s6, HEADER_LEN);
    hide Take;
    Join(SerTx(tx), hashBlock, s2);
    var r2 := SerTx(tx) + hashBlock;
    Join(r2, SerBranch(parent.0, parent.1), s3);
    var r3 := r2 + SerBranch(parent.0, parent.1);
    Join(r3, LeBytes(parentIndex, 4), s4);
    var r4 := r3 + LeBytes(parentIndex, 4);
    Join(r4, SerBranch(chain.0, chain.1), s5);
    var r5 := r4 + SerBranch(chain.0, chain.1);
    Join(r5, LeBytes(chainIndex, 4), s6);
    Join(r5 + LeBytes(chainIndex, 4), parentHeader, s7);
  }

  lemma HashSplits(s: Bytes)
    requires TakeHash(s).Ok?
    ensures var (h, rest) := TakeHash(s).value; s == h + rest
  {
  }

  lemma AuxComplete(w: WireAux, rest: Bytes)
    requires ValidAux(w)
    ensures TakeAux(SerAux(w) + rest) == Ok((w, rest))
  {
    hide TakeTx, TakeHash, TakeBranch, TakeU32, SerTx, ValidTx, SerBranch, LeBytes, ValidBranch, Take;
    var parent, chain := SerBranch(w.parentWidth, w.parentBranch), SerBranch(w.chainWidth, w.chainBranch);
    var pi, ci := LeBytes(w.parentIndex, 4), LeBytes(w.chainIndex, 4);
    var s6 := w.parentHeader + rest;
    var s5 := ci + s6;
    var s4 := chain + s5;
    var s3 := pi + s4;
    var s2 := parent + s3;
    var s1 := w.hashBlock + s2;
    Join(SerTx(w.tx), w.hashBlock, s2);
    var r2 := SerTx(w.tx) + w.hashBlock;
    Join(r2, parent, s3);
    var r3 := r2 + parent;
    Join(r3, pi, s4);
    var r4 := r3 + pi;
    Join(r4, chain, s5);
    var r5 := r4 + chain;
    Join(r5, ci, s6);
    Join(r5 + ci, w.parentHeader, rest);
    assert SerAux(w) + rest == SerTx(w.tx) + s1;
    TxComplete(w.tx, s1);
    HashComplete(w.hashBlock, s2);
    BranchComplete(w.parentWidth, w.parentBranch, s3);
    U32Complete(w.parentIndex, s4);
    BranchComplete(w.chainWidth, w.chainBranch, s5);
    U32Complete(w.chainIndex, s6);
    TakeConcat(w.parentHeader, rest);
  }

  lemma HashComplete(h: Digest, rest: Bytes)
    ensures TakeHash(h + rest) == Ok((h, rest))
  {
    TakeConcat(h, rest);
  }

  // ---------------------------------------------------------------- what the payload parser promises

  /** Any valid parts behind any header parse back to exactly those parts, with whatever follows. */
  lemma WireRoundTrip(base: Bytes, w: WireAux, trailing: Bytes)
    requires |base| == HEADER_LEN && ValidAux(w)
    ensures ParseFull(base + SerAux(w) + trailing) == Ok((base, w, trailing))
    ensures ParseAuxpow(base + SerAux(w) + trailing) == Ok((base, AuxOf(w)))
  {
    hide SerAux, TakeAux, ValidAux, AuxOf;
    var full := base + SerAux(w) + trailing;
    AuxComplete(w, trailing);
    AuxNonEmpty(w);
    assert full[..HEADER_LEN] == base && full[HEADER_LEN..] == SerAux(w) + trailing;
  }

  lemma AuxNonEmpty(w: WireAux)
    requires ValidAux(w)
    ensures |SerAux(w)| >= HEADER_LEN
  {
    hide SerTx, ValidTx, SerBranch, LeBytes;
  }

  /** Everything accepted is some valid parts behind a header: nothing else is ever read. */
  lemma WireSound(full: Bytes)
    requires ParseFull(full).Ok?
    ensures var (base, w, trailing) := ParseFull(full).value;
            |base| == HEADER_LEN && ValidAux(w) && full == base + SerAux(w) + trailing
  {
    hide SerAux, TakeAux, ValidAux;
    AuxSound(full[HEADER_LEN..]);
    var (base, w, trailing) := ParseFull(full).value;
    Join(base, SerAux(w), trailing);
  }

  /** Bytes after an accepted payload never change what it means. */
  lemma TrailingIgnored(full: Bytes, more: Bytes)
    requires ParseAuxpow(full).Ok?
    ensures ParseAuxpow(full + more) == ParseAuxpow(full)
  {
    hide SerAux, TakeAux, ValidAux, AuxOf;
    WireSound(full);
    var (base, w, trailing) := ParseFull(full).value;
    assert full + more == base + SerAux(w) + (trailing + more);
    WireRoundTrip(base, w, trailing);
    WireRoundTrip(base, w, trailing + more);
  }

  /** Writing the verified witness back: header, coinbase, hash, branches, indexes, parent header. */
  function Reserialize(base: Bytes, aux: AuxPow, hashBlock: Digest): Bytes
    requires |aux.parentMerkleBranch| <= MAX_BRANCH && |aux.chainMerkleBranch| <= MAX_BRANCH
  {
    base + (aux.coinbaseTx + hashBlock
            + CanonicalBranch(aux.parentMerkleBranch) + LeBytes(aux.parentIndex, 4)
            + CanonicalBranch(aux.chainMerkleBranch) + LeBytes(aux.chainIndex, 4)
            + aux.parentHeader)
  }

  function CanonicalBranch(branch: seq<Digest>): Bytes
    requires |branch| <= MAX_BRANCH
  {
    SerBranch(CanonicalWidth(|branch|), branch)
  }

  /** A payload that already uses the shortest forms and no SegWit is reproduced byte for byte. */
  lemma ReserializeInverts(full: Bytes)
    requires ParseFull(full).Ok?
    requires var w := ParseFull(full).value.1;
             && w.tx == Canonical(w.tx)
             && w.parentWidth == CanonicalWidth(|w.parentBranch|)
             && w.chainWidth == CanonicalWidth(|w.chainBranch|)
    ensures var (base, w, trailing) := ParseFull(full).value;
            && ValidAux(w)
            && full == Reserialize(base, AuxOf(w), w.hashBlock) + trailing
  {
    WireSound(full);
    var (base, w, trailing) := ParseFull(full).value;
    hide ValidTx, SerTx, LegacyBytes, Canonical, SerBranch, LeBytes, ParseFull;
    LegacyIsCanonical(w.tx);
  }
}
