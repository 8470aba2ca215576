/** One ingest tick of one chain: what it reads, what it verifies, and how it changes the store. The
    node and the resolver may answer anything. */
module Ingest {
  import opened Arith
  import opened Bytes
  import opened Commitment
  import opened Verify
  import opened Payload
  import opened Store

  datatype Config = Config(maxBatch: nat, startHeight: Option<nat>, maxKept: Option<nat>)
  datatype Chain = Chain(id: u32, startHeight: Option<nat>, powLimitBits: u32)

  /** The node's answers during one tick; `None` is a failed request. */
  datatype Node = Node(tip: Option<u64>, locator: nat -> Option<Digest>, wire: nat -> Option<Bytes>)

  type Resolver = Digest -> Option<nat>

  datatype TickError = TipUnavailable | NoStartHeight | FetchFailed

  /** What the verified part of a window leaves to do. */
  datatype Plan =
    | UpToDate
    | Work(pending: seq<StoredBlock>, stale: Option<nat>)

  const U64_MAX: nat := 0xffff_ffff_ffff_ffff

  function SaturatingSucc(n: nat): nat { if n >= U64_MAX then U64_MAX else n + 1 }
  function SaturatingSub(n: nat, m: nat): nat { if n < m then 0 else n - m }
  function WrappingSum(n: nat, m: nat): nat { (n + m) % U64_LIMIT }

  /** The block the walk builds at one height, or `None` where the walk halts. */
  function BlockAt(sha256d: HashFn, chain: Chain, node: Node, height: nat): Option<StoredBlock> {
    var wire, locator := node.wire(height), node.locator(height);
    if wire.None? || locator.None? || |wire.value| < 80 then None
    else if sha256d(wire.value[..80]) != locator.value then None
    else
      var parsed := ParseAuxpow(wire.value);
      if parsed.Err? then None
      else
        var (base, aux) := parsed.value;
        var id := LightVerify(sha256d, base, aux, chain.id, chain.powLimitBits);
        if id.Err? then None
        else Some(StoredBlock(id.value, chain.id, height, BlockHeader(base, Some(aux)), wire.value))
  }

  function PrevOf(b: StoredBlock): Bytes
    requires |b.header.raw| == 80
  {
    PrevHashOf(b.header.raw)
  }

  predicate LinksTo(b: StoredBlock, prev: Option<Digest>) {
    prev.Some? ==> |b.header.raw| == 80 && PrevOf(b) == prev.value
  }

  /** The height-ordered walk over `[height, end]`: it stops at the first block that fails, and at a
      broken link it also names the stale height one below. */
  function Walk(sha256d: HashFn, chain: Chain, node: Node, height: nat, end: nat, prev: Option<Digest>)
    : (seq<StoredBlock>, Option<nat>)
    decreases end + 1 - height
  {
    if height > end then ([], None)
    else
      var b := BlockAt(sha256d, chain, node, height);
      if b.None? then ([], None)
      else if !LinksTo(b.value, prev) then ([], Some(SaturatingPred(height)))
      else
        var (rest, stale) := Walk(sha256d, chain, node, height + 1, end, Some(b.value.hashLe));
        ([b.value] + rest, stale)
  }

  /** Every request of the window succeeded. */
  ghost predicate Fetched(node: Node, start: nat, end: nat) {
    forall h :: start <= h <= end ==> node.locator(h).Some? && node.wire(h).Some?
  }

  /** Where the walk starts: the stored cursor, else the chain's start height, else the global one. */
  function StartCursor(config: Config, chain: Chain, cursor: Option<nat>): Option<nat> {
    if cursor.Some? then cursor
    else if chain.startHeight.Some? then chain.startHeight
    else config.startHeight
  }

  function WindowEnd(config: Config, cursor: nat, tip: nat): nat {
    Min(WrappingSum(cursor, config.maxBatch), tip)
  }

  /** The hash the first block of the window must link to, if the block below it is stored. */
  function PrevHash(st: Store, chain: u32, cursor: nat): Option<Digest> {
    if cursor == 0 then None
    else if (chain, cursor) in st.memBlocks then Some(st.memBlocks[(chain, cursor)].hashLe)
    else if (chain, cursor) in st.blocks then Some(st.blocks[(chain, cursor)].hashLe)
    else None
  }

  /** Everything before the first write. */
  ghost function MakePlan(sha256d: HashFn, config: Config, chain: Chain, st: Store, node: Node): Result<Plan,
      TickError> {
    if node.tip.None? then Err(TipUnavailable)
    else
      var tip := node.tip.value;
      var cursor := StartCursor(config, chain, CursorOf(st, chain.id));
      if cursor.None? then Err(NoStartHeight)
      else if cursor.value > tip then Ok(UpToDate)
      else
        var start, end := SaturatingSucc(cursor.value), WindowEnd(config, cursor.value, tip);
        if start > end then Ok(UpToDate)
        else if !Fetched(node, start, end) then Err(FetchFailed)
        else
          var (pending, stale) := Walk(sha256d, chain, node, start, end, PrevHash(st, chain.id, cursor.value));
          Ok(Work(pending, stale))
  }

  // ---------------------------------------------------------------- the writes

  function Heights(m: map<Key, StoredBlock>, chain: u32): set<nat> {
    set k | k in m && k.0 == chain :: k.1
  }

  ghost predicate IsMin(s: set<nat>, m: nat) {
    m in s && forall x :: x in s ==> m <= x
  }

  /** The prune bound, when the window is exceeded. */
  ghost predicate PruneDue(st: Store, chain: u32, last: nat, maxKept: nat) {
    var below := PruneBound(last, maxKept);
    below > 1 && exists m: nat :: IsMin(Heights(st.memBlocks, chain), m) && m < below
  }

  function PruneBound(last: nat, maxKept: nat): nat { SaturatingSucc(SaturatingSub(last, maxKept)) }

  ghost function Prune(sha256d: HashFn, config: Config, chain: u32, st: Store, last: nat): Store {
    if config.maxKept.Some? && PruneDue(st, chain, last, config.maxKept.value)
    then PruneBefore(sha256d, st, chain, PruneBound(last, config.maxKept.value))
    else st
  }

  /** Classifies the given parents; the order does not matter. */
  function ClassifyAll(st: Store, todo: set<Digest>, resolve: Resolver): Store {
    st.(memParents := map p | p in st.memParents ::
                        if p in todo then Classified(st.memParents[p], resolve(p)) else st.memParents[p],
        parents := st.parents
                   + map p | p in st.memParents && p in todo :: Classified(st.memParents[p], resolve(p)))
  }

  /** One more parent. */
  lemma ClassifyStep(st: Store, done: set<Digest>, p: Digest, resolve: Resolver)
    requires p !in done
    ensures ClassifyParent(ClassifyAll(st, done, resolve), p, resolve(p)) == ClassifyAll(st, done + {p}, resolve)
  {
    hide Classified;
    var before := ClassifyAll(st, done, resolve);
    assert p in st.memParents ==> before.memParents[p] == st.memParents[p];
    CachedNext(st, done, p, resolve);
    TabledNext(st, done, p, resolve);
  }

  lemma CachedNext(st: Store, done: set<Digest>, p: Digest, resolve: Resolver)
    requires p !in done
    ensures var before, after := ClassifyAll(st, done, resolve).memParents, ClassifyAll(st, done + {p},
        resolve).memParents;
            && (p in before <==> p in st.memParents)
            && after == if p in before then before[p := Classified(before[p], resolve(p))] else before
  {
    hide Classified;
    var before, after := ClassifyAll(st, done, resolve).memParents, ClassifyAll(st, done + {p}, resolve).memParents;
    MapsEqual(after, if p in before then before[p := Classified(before[p], resolve(p))] else before);
  }

  lemma TabledNext(st: Store, done: set<Digest>, p: Digest, resolve: Resolver)
    requires p !in done
    ensures var before, after := ClassifyAll(st, done, resolve).parents, ClassifyAll(st, done + {p}, resolve).parents;
            after == if p in st.memParents then before[p := Classified(st.memParents[p], resolve(p))] else before
  {
    hide Classified;
    var before, after := ClassifyAll(st, done, resolve).parents, ClassifyAll(st, done + {p}, resolve).parents;
    MapsEqual(after, if p in st.memParents then before[p := Classified(st.memParents[p], resolve(p))] else before);
  }

  lemma ClassifyNone(st: Store, resolve: Resolver)
    ensures ClassifyAll(st, {}, resolve) == st
  {
    MapsEqual(ClassifyAll(st, {}, resolve).memParents, st.memParents);
    MapsEqual(ClassifyAll(st, {}, resolve).parents, st.parents);
  }

  /** Insert, move the cursor, prune. */
  ghost function StorePending(sha256d: HashFn, config: Config, chain: u32, st: Store, pending: seq<StoredBlock>): Store
    requires pending != [] && forall i :: 0 <= i < |pending| ==> Insertable(pending[i])
  {
    var last := pending[|pending| - 1].height;
    Prune(sha256d, config, chain, SetCursor(InsertRows(sha256d, st, pending), chain, last), last)
  }

  /** The writes of a planned tick up to the classification: rollback first, then the pending prefix. */
  ghost function Applied(sha256d: HashFn, config: Config, chain: u32, st: Store, plan: Plan): Store
    requires plan.Work? ==> forall i :: 0 <= i < |plan.pending| ==> Insertable(plan.pending[i])
  {
    match plan
    case UpToDate => st
    case Work(pending, stale) =>
      var st1 := if stale.Some? then RollbackFrom(sha256d, st, chain, stale.value) else st;
      if pending != [] then StorePending(sha256d, config, chain, st1, pending) else st1
  }

  /** A row that verifies itself: its wire parses to its header and witness, they pass the light
      verification of its chain, and its hash is the one that verification returns. */
  ghost predicate SelfVerifying(sha256d: HashFn, powLimitBits: u32, b: StoredBlock) {
    && ParseAuxpow(b.wire).Ok?
    && var (base, aux) := ParseAuxpow(b.wire).value;
       && b.header == BlockHeader(base, Some(aux))
       && LightVerify(sha256d, base, aux, b.chainId, powLimitBits) == Ok(b.hashLe)
  }

  lemma SelfVerifyingShape(sha256d: HashFn, powLimitBits: u32, b: StoredBlock)
    requires SelfVerifying(sha256d, powLimitBits, b)
    ensures Insertable(b) && |b.header.raw| == 80 && b.hashLe == sha256d(b.header.raw)
    ensures |b.header.aux.value.parentHeader| == 80
  {
    hide ParseAuxpow, CheckHeaderFormat, VerifyProof1, VerifyProof2;
    ParsedShape(b.wire);
  }

  lemma ParsedShape(wire: Bytes)
    requires ParseAuxpow(wire).Ok?
    ensures |ParseAuxpow(wire).value.0| == 80 && |ParseAuxpow(wire).value.1.parentHeader| == 80
  {
  }

  lemma BlockAtVerifies(sha256d: HashFn, chain: Chain, node: Node, height: nat)
    requires BlockAt(sha256d, chain, node, height).Some?
    ensures var b := BlockAt(sha256d, chain, node, height).value;
            && SelfVerifying(sha256d, chain.powLimitBits, b)
            && b.chainId == chain.id && b.height == height
  {
    hide ParseAuxpow, LightVerify;
  }

  lemma ParsedHeader(wire: Bytes)
    requires ParseAuxpow(wire).Ok?
    ensures |wire| >= 80 && ParseAuxpow(wire).value.0 == wire[..80]
  {
  }

  /** The block the walk takes at a height is the one row that verifies itself, sits at that chain and height,
      has the node's bytes, and hashes to the node's locator there. */
  lemma BlockAtExact(sha256d: HashFn, chain: Chain, node: Node, height: nat, b: StoredBlock)
    ensures BlockAt(sha256d, chain, node, height) == Some(b)
            <==> && SelfVerifying(sha256d, chain.powLimitBits, b)
                 && b.chainId == chain.id && b.height == height
                 && node.wire(height) == Some(b.wire) && node.locator(height) == Some(b.hashLe)
  {
    if node.wire(height).Some? && ParseAuxpow(node.wire(height).value).Ok? {
      ParsedHeader(node.wire(height).value);
      LightHash(sha256d, ParseAuxpow(node.wire(height).value).value.0, ParseAuxpow(node.wire(height).value).value.1,
                chain.id, chain.powLimitBits);
    }
    hide ParseAuxpow, LightVerify;
  }

  lemma LightHash(sha256d: HashFn, base: Bytes, aux: AuxPow, chainId: u32, powLimitBits: u32)
    ensures var id := LightVerify(sha256d, base, aux, chainId, powLimitBits); id.Ok? ==> id.value == sha256d(base)
  {
    hide CheckHeaderFormat, VerifyProof1, VerifyProof2;
  }

  /** How far the walk gets. It takes the node's block at every height up to where it stops, and it stops at the
      end, at a height without such a block, or at one that does not link; then the height below is stale. */
  lemma {:induction false} WalkExact(sha256d: HashFn, chain: Chain, node: Node, height: nat, end: nat,
                                     prev: Option<Digest>)
    requires height <= end + 1
    ensures var (batch, stale) := Walk(sha256d, chain, node, height, end, prev);
            var stop := height + |batch|;
            && stop <= end + 1
            && (forall i :: 0 <= i < |batch| ==> BlockAt(sha256d, chain, node, height + i) == Some(batch[i]))
            && (stop == end + 1 || BlockAt(sha256d, chain, node, stop).None? ==> stale == None)
            && (stop <= end && BlockAt(sha256d, chain, node, stop).Some? ==>
                  && stale == Some(if stop == 0 then 0 else stop - 1)
                  && !LinksTo(BlockAt(sha256d, chain, node, stop).value,
                              if batch == [] then prev else Some(batch[|batch| - 1].hashLe)))
    decreases end + 1 - height
  {
    hide BlockAt, LinksTo;
    if height <= end {
      var b := BlockAt(sha256d, chain, node, height);
      if b.Some? && LinksTo(b.value, prev) {
        WalkExact(sha256d, chain, node, height + 1, end, Some(b.value.hashLe));
      }
    }
  }

  lemma {:induction false} WalkInsertable(sha256d: HashFn, chain: Chain, node: Node, height: nat, end: nat,
                                          prev: Option<Digest>)
    ensures forall i :: 0 <= i < |Walk(sha256d, chain, node, height, end, prev).0| ==>
              Insertable(Walk(sha256d, chain, node, height, end, prev).0[i])
    decreases end + 1 - height
  {
    hide BlockAt, LinksTo, Insertable, SelfVerifying;
    if height <= end {
      var b := BlockAt(sha256d, chain, node, height);
      if b.Some? && LinksTo(b.value, prev) {
        BlockAtVerifies(sha256d, chain, node, height);
        SelfVerifyingShape(sha256d, chain.powLimitBits, b.value);
        WalkInsertable(sha256d, chain, node, height + 1, end, Some(b.value.hashLe));
      }
    }
  }

  /** A whole tick. A tick that has nothing to fetch returns before the classification. */
  ghost function Tick(sha256d: HashFn, config: Config, chain: Chain, st: Store, node: Node, resolve: Resolver)
    : (Store, Result<seq<StoredBlock>, TickError>)
  {
    match MakePlan(sha256d, config, chain, st, node)
    case Err(e) => (st, Err(e))
    case Ok(UpToDate) => (st, Ok([]))
    case Ok(Work(pending, stale)) =>
      PlanInsertable(sha256d, config, chain, st, node);
      var st' := Applied(sha256d, config, chain.id, st, Work(pending, stale));
      (ClassifyAll(st', Unclassified(st'), resolve), Ok(pending))
  }

  lemma PlanInsertable(sha256d: HashFn, config: Config, chain: Chain, st: Store, node: Node)
    ensures var plan := MakePlan(sha256d, config, chain, st, node);
            plan.Ok? && plan.value.Work? ==>
              forall i :: 0 <= i < |plan.value.pending| ==> Insertable(plan.value.pending[i])
  {
    hide Walk, Insertable, Fetched;
    if node.tip.Some? {
      var cursor := StartCursor(config, chain, CursorOf(st, chain.id));
      if cursor.Some? {
        WalkInsertable(sha256d, chain, node, SaturatingSucc(cursor.value),
                       WindowEnd(config, cursor.value, node.tip.value), PrevHash(st, chain.id, cursor.value));
      }
    }
  }

  /** Where a tick starts: above the stored cursor; without one, above the chain's start height; without that,
      above the global one. A tick that knows none of them fails. */
  lemma TickStarts(sha256d: HashFn, config: Config, chain: Chain, st: Store, node: Node, resolve: Resolver)
    requires 1 <= config.maxBatch <= U64_MAX
    ensures var (cursor, r) := (CursorOf(st, chain.id), Tick(sha256d, config, chain, st, node, resolve).1);
            && (r == Err(NoStartHeight) <==> && node.tip.Some? && cursor.None? && chain.startHeight.None?
                                             && config.startHeight.None?)
            && (r.Ok? && r.value != [] ==>
                  || (cursor.Some? && r.value[0].height == cursor.value + 1)
                  || (cursor.None? && chain.startHeight.Some? && r.value[0].height == chain.startHeight.value + 1)
                  || (cursor.None? && chain.startHeight.None? && config.startHeight.Some?
                      && r.value[0].height == config.startHeight.value + 1))
  {
    hide Applied, ClassifyAll, Unclassified, Walk, Fetched, WindowEnd, PrevHash, Insertable, BlockAt;
    PlanInsertable(sha256d, config, chain, st, node);
    var start := StartCursor(config, chain, CursorOf(st, chain.id));
    if node.tip.Some? && start.Some? && start.value <= node.tip.value {
      var end := WindowEnd(config, start.value, node.tip.value);
      WindowIs(config, start.value, node.tip.value);
      if SaturatingSucc(start.value) <= end {
        var prev := PrevHash(st, chain.id, start.value);
        WalkExact(sha256d, chain, node, start.value + 1, end, prev);
        if Walk(sha256d, chain, node, start.value + 1, end, prev).0 != [] {
          BlockAtExact(sha256d, chain, node, start.value + 1,
                       Walk(sha256d, chain, node, start.value + 1, end, prev).0[0]);
        }
      }
    }
  }

  /** The last height a tick from the cursor asks for, when it asks at all. */
  function LastAsked(config: Config, cursor: nat, tip: nat): nat {
    if cursor + config.maxBatch < tip then cursor + config.maxBatch else tip
  }

  /** Why a tick fails, and when it has nothing to do; either way the store stays as it is. A window that would
      pass the largest height counts as nothing to do. */
  lemma TickFails(sha256d: HashFn, config: Config, chain: Chain, st: Store, node: Node, resolve: Resolver, cursor: nat)
    requires 1 <= config.maxBatch <= U64_MAX && StartCursor(config, chain, CursorOf(st, chain.id)) == Some(cursor)
    ensures var (st', r) := Tick(sha256d, config, chain, st, node, resolve);
            && (r == Err(TipUnavailable) <==> node.tip.None?)
            && (node.tip.Some? && (node.tip.value <= cursor || cursor + config.maxBatch >= 0x1_0000_0000_0000_0000) ==>
                  r == Ok([]) && st' == st)
            && (node.tip.Some? && cursor < node.tip.value && cursor + config.maxBatch < 0x1_0000_0000_0000_0000 ==>
                  (r == Err(FetchFailed) <==> exists h :: cursor < h <= LastAsked(config, cursor, node.tip.value)
                                                          && (node.locator(h).None? || node.wire(h).None?)))
            && (r.Err? ==> st' == st)
  {
    hide Applied, ClassifyAll, Unclassified, Walk, WindowEnd, PrevHash, Insertable, BlockAt, StartCursor;
    PlanInsertable(sha256d, config, chain, st, node);
    if node.tip.Some? && cursor <= node.tip.value {
      WindowIs(config, cursor, node.tip.value);
    }
  }

  lemma WindowIs(config: Config, cursor: nat, tip: u64)
    requires 1 <= config.maxBatch <= U64_MAX && cursor <= tip
    ensures cursor < tip && cursor + config.maxBatch < U64_LIMIT ==>
              && SaturatingSucc(cursor) == cursor + 1
              && WindowEnd(config, cursor, tip) == LastAsked(config, cursor, tip)
    ensures cursor == tip || cursor + config.maxBatch >= U64_LIMIT ==>
              SaturatingSucc(cursor) > WindowEnd(config, cursor, tip)
  {
    var sum := cursor + config.maxBatch;
    if sum >= U64_LIMIT {
      DivModUnique(sum, U64_LIMIT, 1, sum - U64_LIMIT);
    } else {
      DivModUnique(sum, U64_LIMIT, 0, sum);
    }
  }
}
