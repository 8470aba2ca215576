/** The sibling law on stored rows: what two rows under one parent have in common. */
module StoredSiblings {
  import opened Arith
  import opened Bytes
  import opened Commitment
  import opened Verify
  import opened Store
  import opened Ingest
  import opened Views
  import opened Machine
  import opened Safety

  /** A row that passes the light verification of its own chain, at the limit of that chain. */
  ghost predicate Proven(sha256d: HashFn, powLimitBits: u32, b: StoredBlock) {
    && b.header.aux.Some?
    && LightVerify(sha256d, b.header.raw, b.header.aux.value, b.chainId, powLimitBits).Ok?
  }

  /** Everything hashed to store one row. */
  function RowInputs(sha256d: HashFn, b: StoredBlock): set<Bytes>
    requires b.header.aux.Some?
  {
    LightInputs(sha256d, b.header.raw, b.header.aux.value) + {b.header.aux.value.parentHeader}
  }

  /** One chain, one block. */
  predicate SameBlock(b1: StoredBlock, b2: StoredBlock) {
    b1.chainId == b2.chainId && b1.header == b2.header
  }

  /** Two chains in one commitment: one coinbase, one depth, one root, at different slots, and ids that
      differ modulo the tree size. */
  ghost predicate ApartInOneTree(sha256d: HashFn, b1: StoredBlock, b2: StoredBlock)
    requires b1.header.aux.Some? && b2.header.aux.Some?
  {
    var w1, w2 := b1.header.aux.value, b2.header.aux.value;
    && b1.chainId != b2.chainId
    && SharedRoot(sha256d, sha256d(b1.header.raw), w1, sha256d(b2.header.raw), w2)
    && w1.chainIndex != w2.chainIndex
    && b1.chainId % Pow2(|w1.chainMerkleBranch|) != b2.chainId % Pow2(|w1.chainMerkleBranch|)
  }

  /** A coinbase of one row is read as an inner node above the other's. */
  ghost predicate RowsReadAsNode(sha256d: HashFn, b1: StoredBlock, b2: StoredBlock)
    requires b1.header.aux.Some? && b2.header.aux.Some?
  {
    var w1, w2 := b1.header.aux.value, b2.header.aux.value;
    ReadAsNode(sha256d, w1.coinbaseTx, w1.parentMerkleBranch, w2.coinbaseTx, w2.parentMerkleBranch)
  }

  ghost predicate Siblings(sha256d: HashFn, b1: StoredBlock, b2: StoredBlock) {
    && b1.header.aux.Some? && b2.header.aux.Some?
    && (|| SameBlock(b1, b2)
        || ApartInOneTree(sha256d, b1, b2)
        || RowsReadAsNode(sha256d, b1, b2)
        || HasCollision(sha256d, RowInputs(sha256d, b1) + RowInputs(sha256d, b2)))
  }

  /** Two proven rows with one parent hash are one block, or two chains apart in one tree, unless a
      coinbase is read as a node or the hash collides. */
  lemma SiblingLaw(sha256d: HashFn, limit1: u32, b1: StoredBlock, limit2: u32, b2: StoredBlock)
    requires Proven(sha256d, limit1, b1) && Proven(sha256d, limit2, b2)
    requires ParentOf(sha256d, b1) == ParentOf(sha256d, b2)
    ensures Siblings(sha256d, b1, b2)
  {
    hide LightVerify, LightInputs, ReadAsNode, SharedRoot;
    var w1, w2 := b1.header.aux.value, b2.header.aux.value;
    var light := LightInputs(sha256d, b1.header.raw, w1) + LightInputs(sha256d, b2.header.raw, w2);
    var all := RowInputs(sha256d, b1) + RowInputs(sha256d, b2);
    if w1.parentHeader != w2.parentHeader {
      assert w1.parentHeader in all && w2.parentHeader in all;
    } else {
      if HasCollision(sha256d, light) {
        CollisionMonotone(sha256d, light, all);
      }
      hide HasCollision;
      if b1.chainId == b2.chainId {
        OneHeaderOrNode(sha256d, b1.header.raw, w1, b2.header.raw, w2, b1.chainId, limit1, limit2);
      } else {
        ChainsApart(sha256d, limit1, b1, limit2, b2);
      }
    }
  }

  lemma ChainsApart(sha256d: HashFn, limit1: u32, b1: StoredBlock, limit2: u32, b2: StoredBlock)
    requires Proven(sha256d, limit1, b1) && Proven(sha256d, limit2, b2) && b1.chainId != b2.chainId
    requires b1.header.aux.value.parentHeader == b2.header.aux.value.parentHeader
    ensures ApartInOneTree(sha256d, b1, b2) || RowsReadAsNode(sha256d, b1, b2)
            || HasCollision(sha256d, LightInputs(sha256d, b1.header.raw, b1.header.aux.value)
                                     + LightInputs(sha256d, b2.header.raw, b2.header.aux.value))
  {
    var r1, w1, r2, w2 := b1.header.raw, b1.header.aux.value, b2.header.raw, b2.header.aux.value;
    var leaves := LeafInputs(sha256d, w1.coinbaseTx, w1.parentMerkleBranch)
                  + LeafInputs(sha256d, w2.coinbaseTx, w2.parentMerkleBranch);
    var light := LightInputs(sha256d, r1, w1) + LightInputs(sha256d, r2, w2);
    VerifiersAgree(sha256d, r1, w1, b1.chainId, limit1);
    VerifiersAgree(sha256d, r2, w2, b2.chainId, limit2);
    hide LightVerify, VerifyAuxHeader, VerifyCommitment, ReadAsNode, LeafInputs, FoldInputs, HasCollision;
    SharedRootOrNode(sha256d, sha256d(r1), w1, b1.chainId, sha256d(r2), w2, b2.chainId);
    if SharedRoot(sha256d, sha256d(r1), w1, sha256d(r2), w2) {
      SiblingsSitApart(sha256d, r1, w1, b1.chainId, limit1, r2, w2, b2.chainId, limit2);
    } else if HasCollision(sha256d, leaves) {
      assert leaves <= light;
      CollisionMonotone(sha256d, leaves, light);
    }
  }

  // ---------------------------------------------------------------- in every run

  /** At every point of its tick a chain holds only rows that fit it. */
  lemma PhaseRowsFit(sha256d: HashFn, config: Config, chain: Chain, v: View, phase: Phase, h: nat)
    requires PhaseOk(sha256d, config, chain, v, phase) && h in v.rows
    ensures RowFits(sha256d, chain, v.rows[h], h)
  {
    hide RowFits, LinksTo, PlanOk, Settled, StartCursor;
  }

  /** Only configured chains have rows. */
  ghost predicate OnlyConfigured(chains: map<u32, Chain>, st: Store) {
    forall k :: k in st.blocks ==> k.0 in chains
  }

  lemma {:induction false} RunLeavesUnconfigured(sha256d: HashFn, config: Config, chains: map<u32, Chain>, sys: System,
                                                 schedule: Schedule, d: u32)
    requires ConfigOk(config) && ChainsOk(chains) && chains.Keys == sys.tasks.Keys && d !in chains
    requires forall i :: 0 <= i < |schedule| ==> schedule[i].0 in chains
    requires SystemOk(sha256d, config, chains, sys)
    ensures ViewOf(Run(sha256d, config, chains, sys, schedule).store, d) == ViewOf(sys.store, d)
  {
    hide ConfigOk, Agrees, PhaseOk, TaskStep, ViewOf;
    if schedule != [] {
      var n := |schedule| - 1;
      var before := Run(sha256d, config, chains, sys, schedule[..n]);
      var c := schedule[n].0;
      RunLeavesUnconfigured(sha256d, config, chains, sys, schedule[..n], d);
      RunKeeps(sha256d, config, chains, sys, schedule[..n]);
      OthersUntouched(sha256d, config, chains[c], before.store, before.tasks[c], schedule[n].1, d);
    }
  }

  lemma RunOnlyConfigured(sha256d: HashFn, config: Config, chains: map<u32, Chain>, schedule: Schedule)
    requires ConfigOk(config) && ChainsOk(chains)
    requires forall i :: 0 <= i < |schedule| ==> schedule[i].0 in chains
    ensures OnlyConfigured(chains, Run(sha256d, config, chains, Initial(chains), schedule).store)
  {
    hide ConfigOk, ChainsOk, SystemOk, Run, ViewOf;
    var st := Run(sha256d, config, chains, Initial(chains), schedule).store;
    InitialOk(sha256d, config, chains);
    forall k | k in st.blocks
      ensures k.0 in chains
    {
      if k.0 !in chains {
        RunLeavesUnconfigured(sha256d, config, chains, Initial(chains), schedule, k.0);
        SameRowsStored(st, EMPTY, k);
      }
    }
  }

  lemma SameRowsStored(st: Store, st': Store, k: Key)
    requires ViewOf(st, k.0) == ViewOf(st', k.0)
    ensures k in st.blocks <==> k in st'.blocks
  {
    InView(st, k.0);
    InView(st', k.0);
    hide ViewOf;
  }

  lemma StoredIsProven(sha256d: HashFn, config: Config, chains: map<u32, Chain>, sys: System, k: Key)
    requires ChainsOk(chains) && SystemOk(sha256d, config, chains, sys)
    requires k in sys.store.blocks && k.0 in chains
    ensures Proven(sha256d, chains[k.0].powLimitBits, sys.store.blocks[k])
  {
    hide Agrees, PhaseOk, ViewOf, LightVerify, RowFits;
    var v := ViewOf(sys.store, k.0);
    InView(sys.store, k.0);
    PhaseRowsFit(sha256d, config, chains[k.0], v, sys.tasks[k.0], k.1);
    FitMeans(sha256d, chains[k.0], v.rows[k.1], k.1);
  }

  /** In every run, at every moment, any two members of a cached sibling group obey the sibling law. */
  lemma {:induction false} RunSiblings(sha256d: HashFn, config: Config, chains: map<u32, Chain>, schedule: Schedule,
                                       p: Digest, b1: StoredBlock, b2: StoredBlock)
    requires ConfigOk(config) && ChainsOk(chains)
    requires forall i :: 0 <= i < |schedule| ==> schedule[i].0 in chains
    requires var groups := Run(sha256d, config, chains, Initial(chains), schedule).store.memGroups;
             p in groups && b1 in groups[p] && b2 in groups[p]
    ensures Siblings(sha256d, b1, b2)
  {
    hide ConfigOk, ChainsOk, Run, Agrees, PhaseOk, Siblings, Proven;
    var sys := Run(sha256d, config, chains, Initial(chains), schedule);
    InitialOk(sha256d, config, chains);
    RunKeeps(sha256d, config, chains, Initial(chains), schedule);
    RunOnlyConfigured(sha256d, config, chains, schedule);
    Members(sha256d, sys.store, p, b1);
    Members(sha256d, sys.store, p, b2);
    hide ParentOf;
    StoredIsProven(sha256d, config, chains, sys, KeyOf(b1));
    StoredIsProven(sha256d, config, chains, sys, KeyOf(b2));
    SiblingLaw(sha256d, chains[b1.chainId].powLimitBits, b1, chains[b2.chainId].powLimitBits, b2);
  }

  lemma Members(sha256d: HashFn, st: Store, p: Digest, b: StoredBlock)
    requires Agrees(sha256d, st) && p in st.memGroups && b in st.memGroups[p]
    ensures KeyOf(b) in st.blocks && st.blocks[KeyOf(b)] == b && ParentOf(sha256d, b) == Some(p)
  {
    hide NoDuplicates, ParentOf;
  }
}
