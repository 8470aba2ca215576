/** Safety of every run: whatever the nodes and the resolver answer, and however the tasks interleave,
    each chain's rows stay one verified, linked stretch that ends at its cursor, and tables and caches
    agree. */
module Safety {
  import opened Bytes
  import opened Commitment
  import opened U256
  import opened Verify
  import opened Payload
  import opened Store
  import opened Agreement
  import opened Ingest
  import opened Views
  import opened Machine

  /** The configuration loader never lets the batch size be zero, and it is a 64-bit number. */
  ghost predicate ConfigOk(config: Config) {
    1 <= config.maxBatch <= U64_MAX
  }

  /** With a bounded window of `k` blocks, the newest `k` below and at `last` are kept. At the largest height
      the bound saturates, and a window of zero keeps that one block. */
  predicate Kept(config: Config, last: nat, h: nat) {
    || config.maxKept.None?
    || h + config.maxKept.value > last
    || (config.maxKept.value == 0 && h == last == 0xffff_ffff_ffff_ffff)
  }

  /** Nothing but those remains. */
  ghost predicate InWindow(config: Config, rows: map<nat, StoredBlock>, last: nat) {
    forall h :: h in rows ==> Kept(config, last, h)
  }

  /** The tick stored up to `stored`, and that is where the chain now ends. */
  ghost predicate Settled(config: Config, v: View, stored: Option<nat>) {
    stored.Some? ==> v.cursor == stored && InWindow(config, v.rows, stored.value)
  }

  /** The rows end at `last`, whatever the cursor says. */
  ghost predicate Reaches(sha256d: HashFn, chain: Chain, v: View, last: nat) {
    last <= U64_MAX && EndsAt(sha256d, chain, v.rows, last)
  }

  /** What holds of a chain at each point of its tick. */
  ghost predicate PhaseOk(sha256d: HashFn, config: Config, chain: Chain, v: View, phase: Phase) {
    match phase
    case Resting(stored) => ViewOk(sha256d, chain, v) && Settled(config, v, stored)
    case Started(cursor, end) =>
      && ViewOk(sha256d, chain, v)
      && StartCursor(config, chain, v.cursor) == Some(cursor) && cursor < end <= U64_MAX
    case Planned(pending, stale) => ViewOk(sha256d, chain, v) && PlanOk(sha256d, config, chain, v, pending, stale)
    case Inserting(pending) =>
      && ViewOk(sha256d, chain, v)
      && (pending != [] ==> PlanOk(sha256d, config, chain, v, pending, None))
    case Inserted(last) => Reaches(sha256d, chain, v, last)
    case Advanced(last) => v.cursor == Some(last) && Reaches(sha256d, chain, v, last)
    case Pruning(last) =>
      && v.cursor == Some(last) && Reaches(sha256d, chain, v, last)
      && config.maxKept.Some? && PruneBound(last, config.maxKept.value) > 1
    case Listing(stored) => ViewOk(sha256d, chain, v) && Settled(config, v, stored)
    case Classifying(stored, _) => ViewOk(sha256d, chain, v) && Settled(config, v, stored)
  }

  /** The verified prefix continues the chain; a stale height is the one just below where it stopped. */
  ghost predicate PlanOk(sha256d: HashFn, config: Config, chain: Chain, v: View, pending: seq<StoredBlock>,
                         stale: Option<nat>) {
    var cursor := StartCursor(config, chain, v.cursor);
    && cursor.Some?
    && cursor.value + |pending| <= U64_MAX
    && Continues(sha256d, chain, v.rows, cursor.value, pending)
    && (stale.Some? ==> stale.value == cursor.value + |pending|)
    && (stale.Some? && pending == [] ==> cursor.value in v.rows)
  }

  ghost predicate SystemOk(sha256d: HashFn, config: Config, chains: map<u32, Chain>, sys: System) {
    && sys.tasks.Keys == chains.Keys
    && Agrees(sha256d, sys.store)
    && forall c :: c in chains ==> PhaseOk(sha256d, config, chains[c], ViewOf(sys.store, c), sys.tasks[c])
  }

  // ---------------------------------------------------------------- the walk

  /** The walk's prefix has consecutive heights, verifies, and is linked, the first block to `prev`. */
  lemma {:induction false} WalkShape(sha256d: HashFn, chain: Chain, node: Node, height: nat, end: nat,
                                     prev: Option<Digest>)
    requires height <= end + 1
    ensures var (batch, stale) := Walk(sha256d, chain, node, height, end, prev);
            && |batch| <= end + 1 - height
            && (forall i :: 0 <= i < |batch| ==> RowFits(sha256d, chain, batch[i], height + i))
            && (forall i :: 1 <= i < |batch| ==> LinksTo(batch[i], Some(batch[i - 1].hashLe)))
            && (batch != [] ==> LinksTo(batch[0], prev))
            && (stale.Some? ==> stale.value == SaturatingPred(height + |batch|))
            && (stale.Some? && batch == [] ==> prev.Some?)
    decreases end + 1 - height
  {
    hide BlockAt, SelfVerifying;
    if height <= end {
      var b := BlockAt(sha256d, chain, node, height);
      if b.Some? {
        BlockAtVerifies(sha256d, chain, node, height);
        assert RowFits(sha256d, chain, b.value, height);
        hide RowFits, LinksTo;
        if LinksTo(b.value, prev) {
          WalkShape(sha256d, chain, node, height + 1, end, Some(b.value.hashLe));
        }
      }
    }
  }

  lemma PositiveHeight(sha256d: HashFn, chain: Chain, v: View, h: nat)
    requires ViewOk(sha256d, chain, v) && h in v.rows
    ensures h >= 1 && v.cursor.Some?
  {
    hide RowFits, LinksTo;
  }

  /** The hash to link to is that of the stored row at the cursor, if there is one. */
  lemma PrevIsRow(sha256d: HashFn, chain: Chain, st: Store, cursor: nat)
    requires Agrees(sha256d, st) && ViewOk(sha256d, chain, ViewOf(st, chain.id))
    ensures var rows := ViewOf(st, chain.id).rows;
            PrevHash(st, chain.id, cursor) == if cursor in rows then Some(rows[cursor].hashLe) else None
  {
    hide ViewOk;
    InView(st, chain.id);
    MemIsTable(sha256d, st);
    hide Agrees, ViewOf;
    if cursor in ViewOf(st, chain.id).rows {
      PositiveHeight(sha256d, chain, ViewOf(st, chain.id), cursor);
    }
  }

  /** Planning: what the walk leaves to do continues the chain. */
  lemma VerifiedKeeps(sha256d: HashFn, config: Config, chain: Chain, st: Store, node: Node, cursor: nat, end: nat)
    requires Agrees(sha256d, st)
    requires PhaseOk(sha256d, config, chain, ViewOf(st, chain.id), Started(cursor, end))
    ensures PhaseOk(sha256d, config, chain, ViewOf(st, chain.id), Verified(sha256d, chain, st, node, cursor, end))
  {
    hide Fetched, ViewOk, Walk, PrevHash, ViewOf, Agrees, RowFits, LinksTo, StartCursor;
    PrevIsRow(sha256d, chain, st, cursor);
    WalkShape(sha256d, chain, node, cursor + 1, end, PrevHash(st, chain.id, cursor));
  }

  // ---------------------------------------------------------------- one step on the chain's own view

  /** A window that is opened starts right above the cursor, below the largest height. */
  lemma StartKeeps(sha256d: HashFn, config: Config, chain: Chain, st: Store, node: Node)
    requires ConfigOk(config) && ViewOk(sha256d, chain, ViewOf(st, chain.id))
    ensures PhaseOk(sha256d, config, chain, ViewOf(st, chain.id), Start(config, chain, st, node))
  {
    hide ViewOk;
    ViewCursor(st, chain.id);
    hide ViewOf;
  }

  /** A stale top row is dropped with the cursor; a break above the verified prefix drops nothing. */
  lemma RolledBackKeeps(sha256d: HashFn, config: Config, chain: Chain, v: View, pending: seq<StoredBlock>, stale: nat)
    requires ViewOk(sha256d, chain, v) && PlanOk(sha256d, config, chain, v, pending, Some(stale))
    ensures PhaseOk(sha256d, config, chain, RolledBack(v, stale), Inserting(pending))
    ensures pending != [] ==> RolledBack(v, stale) == v
    ensures pending == [] ==> v.cursor == Some(stale) && stale in v.rows
                              && RolledBack(v, stale) == View(v.rows - {stale}, Some(stale - 1))
  {
    hide RowFits, LinksTo, Continues;
    var v' := RolledBack(v, stale);
    if v.cursor.None? {
      assert v'.rows == v.rows;
    } else {
      var m := v.cursor.value;
      var lo: nat :| Stretch(sha256d, chain, v.rows, lo, m);
      if pending != [] {
        assert v'.rows == v.rows;
      } else {
        assert v'.rows == v.rows - {stale};
        assert Stretch(sha256d, chain, v'.rows, lo, m - 1);
      }
    }
  }

  lemma StartsStretch(sha256d: HashFn, config: Config, chain: Chain, v: View) returns (lo: nat)
    requires ViewOk(sha256d, chain, v) && StartCursor(config, chain, v.cursor).Some?
    ensures Stretch(sha256d, chain, v.rows, lo, StartCursor(config, chain, v.cursor).value)
  {
    hide RowFits, LinksTo;
    var m := StartCursor(config, chain, v.cursor).value;
    if v.cursor.None? {
      lo := m + 1;
    } else {
      lo :| Stretch(sha256d, chain, v.rows, lo, m);
    }
  }

  lemma BatchRows(sha256d: HashFn, chain: Chain, rows: map<nat, StoredBlock>, m: nat, batch: seq<StoredBlock>)
    requires Continues(sha256d, chain, rows, m, batch)
    ensures forall i :: 0 <= i < |batch| ==> Insertable(batch[i]) && KeyOf(batch[i]) == (chain.id, m + 1 + i)
  {
    hide RowFits, LinksTo, Insertable;
    forall i | 0 <= i < |batch|
      ensures Insertable(batch[i]) && KeyOf(batch[i]) == (chain.id, m + 1 + i)
    {
      FitsHeight(sha256d, chain, batch[i], m + 1 + i);
    }
  }

  /** The batch may be inserted: every row is insertable and no key is occupied. */
  lemma BatchIsFresh(sha256d: HashFn, config: Config, chain: Chain, st: Store, pending: seq<StoredBlock>)
    requires ViewOk(sha256d, chain, ViewOf(st, chain.id))
    requires PlanOk(sha256d, config, chain, ViewOf(st, chain.id), pending, None)
    ensures FreshRows(st, pending)
    ensures forall i :: 0 <= i < |pending| ==> Insertable(pending[i]) && pending[i].chainId == chain.id
  {
    var v := ViewOf(st, chain.id);
    InView(st, chain.id);
    hide ViewOf, LinksTo, RowFits, Insertable, Continues;
    var lo := StartsStretch(sha256d, config, chain, v);
    hide ViewOk;
    var m := StartCursor(config, chain, v.cursor).value;
    hide StartCursor;
    BatchRows(sha256d, chain, v.rows, m, pending);
    forall i | 0 <= i < |pending|
      ensures pending[i].chainId == chain.id && KeyOf(pending[i]) !in st.blocks
    {
      assert KeyOf(pending[i]) == (chain.id, m + 1 + i);
      assert m + 1 + i !in v.rows;
    }
  }

  lemma ExtendedKeeps(sha256d: HashFn, config: Config, chain: Chain, v: View, pending: seq<StoredBlock>)
    requires ViewOk(sha256d, chain, v) && PlanOk(sha256d, config, chain, v, pending, None) && pending != []
    ensures var last := pending[|pending| - 1].height;
            && last == StartCursor(config, chain, v.cursor).value + |pending|
            && Reaches(sha256d, chain, View(Extended(v.rows, pending), v.cursor), last)
  {
    hide ViewOk, StartCursor, Stretch, LinksTo, RowFits, Extended, Continues;
    var m := StartCursor(config, chain, v.cursor).value;
    var lo := StartsStretch(sha256d, config, chain, v);
    ExtendStretch(sha256d, chain, v.rows, lo, m, pending);
    BatchRows(sha256d, chain, v.rows, m, pending);
    assert KeyOf(pending[|pending| - 1]) == (chain.id, m + |pending|);
  }

  /** Dropping the rows below the bound leaves the window. */
  lemma PrunedKeeps(sha256d: HashFn, config: Config, chain: Chain, v: View, last: nat)
    requires PhaseOk(sha256d, config, chain, v, Pruning(last))
    ensures var below := PruneBound(last, config.maxKept.value);
            PhaseOk(sha256d, config, chain,
                    View(v.rows - (set h | h in v.rows && h < below), v.cursor), Listing(Some(last)))
  {
    hide RowFits, LinksTo;
    var below := PruneBound(last, config.maxKept.value);
    var rows := v.rows - (set h | h in v.rows && h < below);
    var lo: nat :| Stretch(sha256d, chain, v.rows, lo, last);
    assert Stretch(sha256d, chain, rows, if lo < below then below else lo, last);
    assert ViewOk(sha256d, chain, View(rows, v.cursor));
    hide ViewOk, EndsAt;
    assert InWindow(config, rows, last);
  }

  /** A window that is not exceeded needs no pruning. */
  lemma UnprunedKeeps(sha256d: HashFn, config: Config, chain: Chain, st: Store, last: nat)
    requires Agrees(sha256d, st)
    requires PhaseOk(sha256d, config, chain, ViewOf(st, chain.id), Advanced(last))
    requires config.maxKept.Some? ==> !PruneDue(st, chain.id, last, config.maxKept.value)
    ensures PhaseOk(sha256d, config, chain, ViewOf(st, chain.id), Listing(Some(last)))
  {
    hide RowFits, LinksTo, Agrees;
    var v := ViewOf(st, chain.id);
    MemIsTable(sha256d, st);
    assert v.rows.Keys == Heights(st.memBlocks, chain.id);
    hide ViewOf, Heights;
    var lo: nat :| Stretch(sha256d, chain, v.rows, lo, last);
    if config.maxKept.Some? && lo <= last {
      var below := PruneBound(last, config.maxKept.value);
      assert IsMin(Heights(st.memBlocks, chain.id), lo);
      assert below <= 1 || lo >= below;
    }
  }

  // ---------------------------------------------------------------- one step of a task

  /** A step keeps tables and caches in agreement. */
  lemma TaskAgrees(sha256d: HashFn, config: Config, chain: Chain, st: Store, phase: Phase, a: Answer)
    requires Agrees(sha256d, st) && PhaseOk(sha256d, config, chain, ViewOf(st, chain.id), phase)
    ensures Agrees(sha256d, TaskStep(sha256d, config, chain, st, phase, a).0)
  {
    hide Agrees, ViewOf, ViewOk, PlanOk, Reaches, Settled, RollbackFrom, PruneBefore, InsertRows, Start, Verified,
         SetCursor, ClassifyParent, PruneDue, PruneBound, Unclassified;
    match phase
    case Planned(_, stale) =>
      if stale.Some? {
        RollbackAgrees(sha256d, st, chain.id, stale.value);
      }
    case Inserting(pending) =>
      if pending != [] {
        BatchIsFresh(sha256d, config, chain, st, pending);
        InsertRowsAgrees(sha256d, st, pending);
      }
    case Inserted(last) => SetCursorAgrees(sha256d, st, chain.id, last);
    case Pruning(last) => PruneAgrees(sha256d, st, chain.id, PruneBound(last, config.maxKept.value));
    case Classifying(_, todo) => ClassifyAgrees(sha256d, st, a.pick, a.resolve(a.pick));
    case _ =>
  }

  /** A step leaves every other chain's rows and cursor alone. */
  lemma OthersUntouched(sha256d: HashFn, config: Config, chain: Chain, st: Store, phase: Phase, a: Answer, other: u32)
    requires PhaseOk(sha256d, config, chain, ViewOf(st, chain.id), phase) && other != chain.id
    ensures ViewOf(TaskStep(sha256d, config, chain, st, phase, a).0, other) == ViewOf(st, other)
  {
    hide ViewOf, ViewOk, PlanOk, Reaches, Settled, RollbackFrom, PruneBefore, InsertRows, Start, Verified,
         SetCursor, PruneDue, PruneBound, Unclassified, FreshRows, Insertable;
    match phase
    case Planned(_, stale) =>
      if stale.Some? {
        RollbackView(sha256d, st, chain.id, stale.value, other);
      }
    case Inserting(pending) =>
      if pending != [] {
        BatchIsFresh(sha256d, config, chain, st, pending);
        InsertViewOther(sha256d, st, pending, other);
      }
    case Inserted(last) => CursorView(st, chain.id, last, other);
    case Pruning(last) => PruneView(sha256d, st, chain.id, PruneBound(last, config.maxKept.value), other);
    case Classifying(_, todo) => ViewFrame(st, ClassifyParent(st, a.pick, a.resolve(a.pick)), other);
    case _ =>
  }

  /** A step keeps its own chain in order. */
  lemma TaskKeeps(sha256d: HashFn, config: Config, chain: Chain, st: Store, phase: Phase, a: Answer)
    requires ConfigOk(config) && Agrees(sha256d, st)
    requires PhaseOk(sha256d, config, chain, ViewOf(st, chain.id), phase)
    ensures var (st', phase') := TaskStep(sha256d, config, chain, st, phase, a);
            PhaseOk(sha256d, config, chain, ViewOf(st', chain.id), phase')
  {
    hide ConfigOk, Agrees, ViewOf, ViewOk, PlanOk, Reaches, InWindow, RollbackFrom, PruneBefore, InsertRows, Start,
         Verified, SetCursor, PruneDue, PruneBound, Unclassified, FreshRows, Insertable, StartCursor;
    var v := ViewOf(st, chain.id);
    ViewCursor(st, chain.id);
    match phase
    case Resting(_) => StartKeeps(sha256d, config, chain, st, a.node);
    case Started(cursor, end) => VerifiedKeeps(sha256d, config, chain, st, a.node, cursor, end);
    case Planned(pending, stale) => PlannedKeeps(sha256d, config, chain, st, pending, stale);
    case Inserting(pending) =>
      if pending != [] {
        BatchIsFresh(sha256d, config, chain, st, pending);
        InsertView(sha256d, st, pending, chain.id);
        ExtendedKeeps(sha256d, config, chain, v, pending);
      }
    case Inserted(last) =>
      CursorView(st, chain.id, last, chain.id);
      ReachesRows(sha256d, chain, v, View(v.rows, Some(last)), last);
    case Advanced(last) =>
      if config.maxKept.Some? && PruneDue(st, chain.id, last, config.maxKept.value) {
        DueBound(st, chain.id, last, config.maxKept.value);
      } else {
        UnprunedKeeps(sha256d, config, chain, st, last);
      }
    case Pruning(last) =>
      PruneView(sha256d, st, chain.id, PruneBound(last, config.maxKept.value), chain.id);
      PrunedKeeps(sha256d, config, chain, v, last);
    case Classifying(_, todo) => ViewFrame(st, ClassifyParent(st, a.pick, a.resolve(a.pick)), chain.id);
    case _ =>
  }

  lemma PlannedKeeps(sha256d: HashFn, config: Config, chain: Chain, st: Store, pending: seq<StoredBlock>,
                     stale: Option<nat>)
    requires PhaseOk(sha256d, config, chain, ViewOf(st, chain.id), Planned(pending, stale))
    ensures var st' := if stale.Some? then RollbackFrom(sha256d, st, chain.id, stale.value) else st;
            PhaseOk(sha256d, config, chain, ViewOf(st', chain.id), Inserting(pending))
  {
    hide ViewOf, ViewOk, RollbackFrom, Continues, RolledBack;
    if stale.Some? {
      RollbackView(sha256d, st, chain.id, stale.value, chain.id);
      RolledBackKeeps(sha256d, config, chain, ViewOf(st, chain.id), pending, stale.value);
    }
  }

  lemma ReachesRows(sha256d: HashFn, chain: Chain, v: View, w: View, last: nat)
    requires v.rows == w.rows && Reaches(sha256d, chain, v, last)
    ensures Reaches(sha256d, chain, w, last)
  {
  }

  lemma DueBound(st: Store, chain: u32, last: nat, maxKept: nat)
    requires PruneDue(st, chain, last, maxKept)
    ensures PruneBound(last, maxKept) > 1
  {
  }

  // ---------------------------------------------------------------- every run

  lemma StepKeeps(sha256d: HashFn, config: Config, chains: map<u32, Chain>, sys: System, c: u32, a: Answer)
    requires ConfigOk(config) && ChainsOk(chains) && SystemOk(sha256d, config, chains, sys) && c in chains
    ensures SystemOk(sha256d, config, chains, Step(sha256d, config, chains, sys, c, a))
    ensures forall d :: d in chains && d != c ==>
              ViewOf(Step(sha256d, config, chains, sys, c, a).store, d) == ViewOf(sys.store, d)
  {
    hide ConfigOk, Agrees, PhaseOk, TaskStep, ViewOf;
    var phase := sys.tasks[c];
    TaskAgrees(sha256d, config, chains[c], sys.store, phase, a);
    TaskKeeps(sha256d, config, chains[c], sys.store, phase, a);
    forall d | d in chains && d != c
      ensures ViewOf(TaskStep(sha256d, config, chains[c], sys.store, phase, a).0, d) == ViewOf(sys.store, d)
    {
      OthersUntouched(sha256d, config, chains[c], sys.store, phase, a, d);
    }
  }

  lemma {:induction false} RunKeeps(sha256d: HashFn, config: Config, chains: map<u32, Chain>, sys: System,
                                    schedule: Schedule)
    requires ConfigOk(config) && ChainsOk(chains) && chains.Keys == sys.tasks.Keys
    requires forall i :: 0 <= i < |schedule| ==> schedule[i].0 in chains
    requires SystemOk(sha256d, config, chains, sys)
    ensures SystemOk(sha256d, config, chains, Run(sha256d, config, chains, sys, schedule))
  {
    hide ConfigOk, ChainsOk, Step, SystemOk;
    if schedule != [] {
      var n := |schedule| - 1;
      RunKeeps(sha256d, config, chains, sys, schedule[..n]);
      assert schedule[n].0 in chains;
      StepKeeps(sha256d, config, chains, Run(sha256d, config, chains, sys, schedule[..n]), schedule[n].0,
                schedule[n].1);
    }
  }

  lemma InitialOk(sha256d: HashFn, config: Config, chains: map<u32, Chain>)
    ensures SystemOk(sha256d, config, chains, Initial(chains))
  {
    hide Agrees, PhaseOk;
    EmptyAgrees(sha256d);
    var sys := Initial(chains);
    forall c | c in chains
      ensures PhaseOk(sha256d, config, chains[c], ViewOf(sys.store, c), sys.tasks[c])
    {
      EmptyRests(sha256d, config, chains[c], c);
    }
  }

  lemma EmptyRests(sha256d: HashFn, config: Config, chain: Chain, c: u32)
    ensures PhaseOk(sha256d, config, chain, ViewOf(EMPTY, c), Resting(None))
  {
    InView(EMPTY, c);
    assert ViewOf(EMPTY, c).rows == map[];
  }

  /** The stored heights of a chain are the interval `lo..hi`. */
  ghost predicate HeightsAre(st: Store, chain: u32, lo: nat, hi: nat) {
    1 <= lo <= hi + 1 && forall h: nat :: (chain, h) in st.blocks <==> lo <= h <= hi
  }

  /** A stored row verifies itself, and the row above it links to it. */
  ghost predicate RowSafe(sha256d: HashFn, chain: Chain, st: Store, h: nat)
    requires (chain.id, h) in st.blocks
  {
    var b := st.blocks[(chain.id, h)];
    && b.height == h && b.chainId == chain.id
    && |b.header.raw| == 80 && b.hashLe == sha256d(b.header.raw) && b.header.aux.Some?
    && ParseAuxpow(b.wire) == Ok((b.header.raw, b.header.aux.value))
    && LightVerify(sha256d, b.header.raw, b.header.aux.value, chain.id, chain.powLimitBits) == Ok(b.hashLe)
    && ((chain.id, h + 1) in st.blocks ==>
          var above := st.blocks[(chain.id, h + 1)];
          |above.header.raw| == 80 && PrevHashOf(above.header.raw) == b.hashLe)
  }

  /** What every run keeps, spelled out on the stored rows. Whenever a chain's task rests: its stored
      heights are one interval ending at the cursor; every row's header hashes to `hashLe`, passes the
      light verification of its chain and is what its wire parses to; each row's prev-hash is the hash
      one below; and after a tick that stored something, nothing but the newest `maxKept` remains. */
  ghost predicate RestingSafe(sha256d: HashFn, config: Config, chain: Chain, st: Store, stored: Option<nat>) {
    var c, cursor := chain.id, CursorOf(st, chain.id);
    && (cursor.None? ==> forall h: nat :: (c, h) !in st.blocks)
    && (cursor.Some? ==> exists lo: nat :: HeightsAre(st, c, lo, cursor.value))
    && (forall h: nat :: (c, h) in st.blocks ==> RowSafe(sha256d, chain, st, h))
    && (stored.Some? ==> cursor == stored)
    && (stored.Some? && config.maxKept.Some? ==>
          forall h: nat :: (c, h) in st.blocks ==>
            h + config.maxKept.value > stored.value || (config.maxKept.value == 0 && h == 0xffff_ffff_ffff_ffff))
  }

  /** The view of a chain at rest says all of that. */
  lemma RestingMeans(sha256d: HashFn, config: Config, chain: Chain, st: Store, stored: Option<nat>)
    requires PhaseOk(sha256d, config, chain, ViewOf(st, chain.id), Resting(stored))
    ensures RestingSafe(sha256d, config, chain, st, stored)
  {
    var v, c := ViewOf(st, chain.id), chain.id;
    ViewCursor(st, c);
    InView(st, c);
    hide ViewOf, EndsAt, LightVerify, ParseAuxpow, HeightsAre;
    forall h: nat | (c, h) in st.blocks
      ensures RowSafe(sha256d, chain, st, h)
    {
      RowMeans(sha256d, chain, v, h);
    }
    if v.cursor.Some? {
      HeightsMean(sha256d, chain, st, v.cursor.value);
    }
  }

  lemma HeightsMean(sha256d: HashFn, chain: Chain, st: Store, m: nat)
    requires EndsAt(sha256d, chain, ViewOf(st, chain.id).rows, m)
    ensures exists lo: nat :: HeightsAre(st, chain.id, lo, m)
  {
    InView(st, chain.id);
    hide LinksTo, RowFits, ViewOf;
    var lo: nat :| Stretch(sha256d, chain, ViewOf(st, chain.id).rows, lo, m);
    assert HeightsAre(st, chain.id, lo, m);
  }

  lemma RowMeans(sha256d: HashFn, chain: Chain, v: View, h: nat)
    requires ViewOk(sha256d, chain, v) && h in v.rows
    ensures var b := v.rows[h];
            && b.height == h && b.chainId == chain.id
            && |b.header.raw| == 80 && b.hashLe == sha256d(b.header.raw) && b.header.aux.Some?
            && |b.header.aux.value.parentHeader| == 80
            && ParseAuxpow(b.wire) == Ok((b.header.raw, b.header.aux.value))
            && LightVerify(sha256d, b.header.raw, b.header.aux.value, chain.id, chain.powLimitBits) == Ok(b.hashLe)
            && (h + 1 in v.rows ==>
                  |v.rows[h + 1].header.raw| == 80 && PrevHashOf(v.rows[h + 1].header.raw) == b.hashLe)
  {
    hide LightVerify, ParseAuxpow, RowFits, LinksTo;
    var lo: nat :| Stretch(sha256d, chain, v.rows, lo, v.cursor.value);
    FitMeans(sha256d, chain, v.rows[h], h);
    if h + 1 in v.rows {
      assert LinksTo(v.rows[h + 1], Some(v.rows[h].hashLe));
      LinkMeans(v.rows[h + 1], v.rows[h].hashLe);
    }
  }

  lemma FitMeans(sha256d: HashFn, chain: Chain, b: StoredBlock, h: nat)
    requires RowFits(sha256d, chain, b, h)
    ensures && b.height == h && b.chainId == chain.id
            && |b.header.raw| == 80 && b.hashLe == sha256d(b.header.raw) && b.header.aux.Some?
            && |b.header.aux.value.parentHeader| == 80
            && ParseAuxpow(b.wire) == Ok((b.header.raw, b.header.aux.value))
            && LightVerify(sha256d, b.header.raw, b.header.aux.value, chain.id, chain.powLimitBits) == Ok(b.hashLe)
  {
    hide LightVerify, ParseAuxpow;
    SelfVerifyingShape(sha256d, chain.powLimitBits, b);
  }

  lemma LinkMeans(b: StoredBlock, prev: Digest)
    requires LinksTo(b, Some(prev))
    ensures |b.header.raw| == 80 && PrevHashOf(b.header.raw) == prev
  {
  }

  /** Run safety. */
  lemma RunSafe(sha256d: HashFn, config: Config, chains: map<u32, Chain>, schedule: Schedule)
    requires ConfigOk(config) && ChainsOk(chains)
    requires forall i :: 0 <= i < |schedule| ==> schedule[i].0 in chains
    ensures var sys := Run(sha256d, config, chains, Initial(chains), schedule);
            && Agrees(sha256d, sys.store)
            && forall c :: c in chains && sys.tasks[c].Resting? ==>
                 RestingSafe(sha256d, config, chains[c], sys.store, sys.tasks[c].stored)
  {
    hide Agrees, RestingSafe, PhaseOk;
    var sys := Run(sha256d, config, chains, Initial(chains), schedule);
    InitialOk(sha256d, config, chains);
    RunKeeps(sha256d, config, chains, Initial(chains), schedule);
    forall c | c in chains && sys.tasks[c].Resting?
      ensures RestingSafe(sha256d, config, chains[c], sys.store, sys.tasks[c].stored)
    {
      RestingMeans(sha256d, config, chains[c], sys.store, sys.tasks[c].stored);
    }
  }

  // ---------------------------------------------------------------- serving stored runs

  /** `n` stored headers of a chain from height `from`. */
  ghost function HeadersFrom(st: Store, chain: u32, from: nat, n: nat): seq<BlockHeader>
    requires forall h: nat :: from <= h < from + n ==> (chain, h) in st.blocks
  {
    seq(n, i requires 0 <= i < n => st.blocks[(chain, from + i)].header)
  }

  lemma RowAboveFaultless(sha256d: HashFn, chain: Chain, st: Store, h: nat)
    requires (chain.id, h) in st.blocks && (chain.id, h + 1) in st.blocks
    requires RowSafe(sha256d, chain, st, h) && RowSafe(sha256d, chain, st, h + 1)
    ensures ExpandTarget(chain.powLimitBits).Some?
    ensures HeaderFault(sha256d, st.blocks[(chain.id, h + 1)].header, st.blocks[(chain.id, h)].hashLe, chain.id,
                        ExpandTarget(chain.powLimitBits).value).None?
  {
    hide LightVerify, ParseAuxpow, HeaderFault, ExpandTarget;
    var b, below := st.blocks[(chain.id, h + 1)], st.blocks[(chain.id, h)];
    RunLimit(sha256d, chain, st, h);
    ParsedShape(b.wire);
    FaultlessIsLightVerified(sha256d, b.header.raw, b.header.aux.value, below.hashLe, chain.id, chain.powLimitBits);
    assert b.header == BlockHeader(b.header.raw, Some(b.header.aux.value));
  }

  /** The guest accepts every stored run with the hash of the block below it as checkpoint. */
  lemma StoredRunIsAccepted(sha256d: HashFn, config: Config, chain: Chain, st: Store, stored: Option<nat>, from: nat,
                            n: nat)
    requires RestingSafe(sha256d, config, chain, st, stored)
    requires 1 <= from && 1 <= n
    requires forall h: nat :: from - 1 <= h < from + n ==> (chain.id, h) in st.blocks
    ensures Faultless(sha256d, HeadersFrom(st, chain.id, from, n), st.blocks[(chain.id, from - 1)].hashLe,
                      chain.id, chain.powLimitBits)
  {
    hide HeightsAre, HeaderFault, RowSafe, ExpandTarget;
    var headers, checkpoint := HeadersFrom(st, chain.id, from, n), st.blocks[(chain.id, from - 1)].hashLe;
    RunLimit(sha256d, chain, st, from);
    forall i | 0 <= i < n
      ensures FaultAt(sha256d, headers, checkpoint, chain.id, ExpandTarget(chain.powLimitBits).value, i).None?
    {
      var h := from + i - 1;
      assert RowSafe(sha256d, chain, st, h) && RowSafe(sha256d, chain, st, h + 1);
      RowHash(sha256d, chain, st, h);
      RowAboveFaultless(sha256d, chain, st, h);
      assert LinkTo(sha256d, headers, checkpoint, i) == st.blocks[(chain.id, h)].hashLe;
    }
    assert |headers| == n;
  }

  lemma RowHash(sha256d: HashFn, chain: Chain, st: Store, h: nat)
    requires (chain.id, h) in st.blocks && RowSafe(sha256d, chain, st, h)
    ensures st.blocks[(chain.id, h)].hashLe == sha256d(st.blocks[(chain.id, h)].header.raw)
  {
  }

  lemma RunLimit(sha256d: HashFn, chain: Chain, st: Store, h: nat)
    requires (chain.id, h) in st.blocks && RowSafe(sha256d, chain, st, h)
    ensures ExpandTarget(chain.powLimitBits).Some?
  {
    hide ParseAuxpow, VerifyProof1, VerifyProof2, ExpandTarget, TargetLeq;
  }
}
