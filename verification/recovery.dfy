/** Recovery from a reorganisation: against a node that serves one valid, linked chain, the indexer
    drops its wrong top blocks one tick at a time, then follows the node to its tip and stays there. */
module Recovery {
  import opened Arith
  import opened Bytes
  import opened Store
  import opened Ingest
  import opened Views
  import opened Safety
  import opened Retention
  import opened Machine
  import opened Ticks

  /** The node serves valid blocks at every height of `from..tip`, each linked to the one below. */
  ghost predicate NodeChain(sha256d: HashFn, chain: Chain, node: Node, from: nat, tip: nat) {
    && node.tip == Some(tip)
    && (forall h :: from <= h <= tip ==> BlockAt(sha256d, chain, node, h).Some?)
    && (forall g, h :: from <= g < h <= tip && h == g + 1 ==>
          LinksTo(BlockAt(sha256d, chain, node, h).value, Some(BlockAt(sha256d, chain, node, g).value.hashLe)))
  }

  /** The node's blocks at heights `from..to`. */
  ghost function NodeBlocks(sha256d: HashFn, chain: Chain, node: Node, from: nat, to: nat): (s: seq<StoredBlock>)
    requires from <= to + 1
    requires forall h :: from <= h <= to ==> BlockAt(sha256d, chain, node, h).Some?
    ensures |s| == to + 1 - from
  {
    seq(to + 1 - from, i requires 0 <= i < to + 1 - from => BlockAt(sha256d, chain, node, from + i).value)
  }

  function NodeHash(sha256d: HashFn, chain: Chain, node: Node, h: nat): Option<Digest> {
    var b := BlockAt(sha256d, chain, node, h);
    if b.Some? then Some(b.value.hashLe) else None
  }

  // ---------------------------------------------------------------- one window

  /** On a valid linked window the walk takes every block and reports nothing stale. */
  lemma {:induction false} WalkTakesAll(sha256d: HashFn, chain: Chain, node: Node, from: nat, end: nat, tip: nat,
                                        prev: Option<Digest>)
    requires NodeChain(sha256d, chain, node, from, tip) && from <= end + 1 && end <= tip
    requires from <= end ==> LinksTo(BlockAt(sha256d, chain, node, from).value, prev)
    ensures Walk(sha256d, chain, node, from, end, prev) == (NodeBlocks(sha256d, chain, node, from, end), None)
    decreases end + 1 - from
  {
    hide BlockAt, LinksTo;
    var blocks := NodeBlocks(sha256d, chain, node, from, end);
    if from <= end {
      var b := BlockAt(sha256d, chain, node, from).value;
      WalkTakesAll(sha256d, chain, node, from + 1, end, tip, Some(b.hashLe));
      assert blocks == [b] + NodeBlocks(sha256d, chain, node, from + 1, end);
    } else {
      assert blocks == [];
    }
  }

  /** Every request of a window inside the chain succeeds. */
  lemma ServedIsFetched(sha256d: HashFn, chain: Chain, node: Node, from: nat, end: nat, tip: nat)
    requires NodeChain(sha256d, chain, node, from, tip) && end <= tip
    ensures Fetched(node, from, end)
  {
    forall h | from <= h <= end
      ensures node.locator(h).Some? && node.wire(h).Some?
    {
      assert BlockAt(sha256d, chain, node, h).Some?;
    }
  }

  /** Below the tip a window opens exactly when the batch does not wrap around; a wrapping one stalls. */
  lemma WindowOpens(config: Config, cursor: nat, tip: u64)
    requires ConfigOk(config) && cursor < tip
    ensures SaturatingSucc(cursor) <= WindowEnd(config, cursor, tip) <==> cursor + config.maxBatch < U64_LIMIT
    ensures cursor + config.maxBatch < U64_LIMIT ==>
              && WindowEnd(config, cursor, tip) == cursor + Min(config.maxBatch, tip - cursor)
              && SaturatingSucc(cursor) == cursor + 1
  {
    var sum := cursor + config.maxBatch;
    if sum >= U64_LIMIT {
      DivModUnique(sum, U64_LIMIT, 1, sum - U64_LIMIT);
    } else {
      DivModUnique(sum, U64_LIMIT, 0, sum);
    }
  }

  /** The next window continues the stored row at the cursor, if there is one. */
  ghost predicate Meets(sha256d: HashFn, chain: Chain, node: Node, v: View, m: nat, tip: nat) {
    NodeChain(sha256d, chain, node, if m in v.rows then m else m + 1, tip)
    && (m in v.rows ==> NodeHash(sha256d, chain, node, m) == Some(v.rows[m].hashLe))
  }

  /** Below the tip a tick opens its window. */
  lemma StartOpens(config: Config, chain: Chain, st: Store, node: Node, m: nat, tip: u64)
    requires ConfigOk(config) && m < tip && m + config.maxBatch < U64_LIMIT && node.tip == Some(tip)
    requires StartCursor(config, chain, CursorOf(st, chain.id)) == Some(m)
    ensures Start(config, chain, st, node) == Started(m, m + Min(config.maxBatch, tip - m))
  {
    hide StartCursor, WindowEnd;
    WindowOpens(config, m, tip);
  }

  /** Planning is starting, then verifying. */
  lemma PlanIsVerified(sha256d: HashFn, config: Config, chain: Chain, st: Store, node: Node, m: nat, e: nat)
    requires Start(config, chain, st, node) == Started(m, e)
    requires Verified(sha256d, chain, st, node, m, e).Planned?
    ensures var next := Verified(sha256d, chain, st, node, m, e);
            MakePlan(sha256d, config, chain, st, node) == Ok(Work(next.pending, next.stale))
  {
    hide StartCursor, WindowEnd, Walk, PrevHash, Fetched;
  }

  /** A window that continues the chain is verified whole. */
  lemma VerifiedAhead(sha256d: HashFn, chain: Chain, st: Store, node: Node, m: nat, e: nat, tip: u64)
    requires Agrees(sha256d, st) && ViewOk(sha256d, chain, ViewOf(st, chain.id)) && m < e <= tip
    requires Meets(sha256d, chain, node, ViewOf(st, chain.id), m, tip)
    ensures Verified(sha256d, chain, st, node, m, e) == Planned(NodeBlocks(sha256d, chain, node, m + 1, e), None)
  {
    hide BlockAt, LinksTo, Agrees, ViewOk, ViewOf, Walk, PrevHash, Fetched;
    PrevIsRow(sha256d, chain, st, m);
    assert NodeChain(sha256d, chain, node, m + 1, tip);
    ServedIsFetched(sha256d, chain, node, m + 1, e, tip);
    var prev := PrevHash(st, chain.id, m);
    assert LinksTo(BlockAt(sha256d, chain, node, m + 1).value, prev) by {
      AnythingLinksToNone(BlockAt(sha256d, chain, node, m + 1).value);
    }
    WalkTakesAll(sha256d, chain, node, m + 1, e, tip, prev);
  }

  lemma AnythingLinksToNone(b: StoredBlock)
    ensures LinksTo(b, None)
  {
  }

  /** The stored row at the cursor is not the node's. */
  ghost predicate Disagrees(sha256d: HashFn, chain: Chain, node: Node, v: View, m: nat, tip: nat) {
    NodeChain(sha256d, chain, node, m, tip)
    && m in v.rows && NodeHash(sha256d, chain, node, m) != Some(v.rows[m].hashLe)
  }

  /** A window above a wrong row stops at its first block. */
  lemma VerifiedBack(sha256d: HashFn, chain: Chain, st: Store, node: Node, m: nat, e: nat, tip: u64)
    requires Agrees(sha256d, st) && ViewOk(sha256d, chain, ViewOf(st, chain.id)) && m < e <= tip
    requires Disagrees(sha256d, chain, node, ViewOf(st, chain.id), m, tip)
    ensures Verified(sha256d, chain, st, node, m, e) == Planned([], Some(m))
  {
    hide BlockAt, LinksTo, Agrees, ViewOk, ViewOf, PrevHash, Fetched;
    PrevIsRow(sha256d, chain, st, m);
    assert NodeChain(sha256d, chain, node, m + 1, tip);
    ServedIsFetched(sha256d, chain, node, m + 1, e, tip);
    var b := BlockAt(sha256d, chain, node, m + 1).value;
    OneLink(b, ViewOf(st, chain.id).rows[m].hashLe, BlockAt(sha256d, chain, node, m).value.hashLe);
    assert Walk(sha256d, chain, node, m + 1, e, PrevHash(st, chain.id, m)) == ([], Some(m));
  }

  /** A block links to one hash only. */
  lemma OneLink(b: StoredBlock, p: Digest, q: Digest)
    requires LinksTo(b, Some(q)) && p != q
    ensures !LinksTo(b, Some(p))
  {
  }

  // ---------------------------------------------------------------- one tick

  lemma ClassifyView(st: Store, todo: set<Digest>, resolve: Resolver, chain: u32)
    ensures ViewOf(ClassifyAll(st, todo, resolve), chain) == ViewOf(st, chain)
  {
    ViewFrame(ClassifyAll(st, todo, resolve), st, chain);
  }

  /** A tick whose stored top disagrees with the node removes exactly that row. */
  lemma Retreats(sha256d: HashFn, config: Config, chain: Chain, st: Store, node: Node, resolve: Resolver, m: nat,
                 tip: u64)
    requires ConfigOk(config) && Agrees(sha256d, st) && ViewOk(sha256d, chain, ViewOf(st, chain.id))
    requires StartCursor(config, chain, CursorOf(st, chain.id)) == Some(m) && m < tip && m + config.maxBatch < U64_LIMIT
    requires Disagrees(sha256d, chain, node, ViewOf(st, chain.id), m, tip)
    ensures var (st', r) := Tick(sha256d, config, chain, st, node, resolve);
            && r == Ok([]) && m >= 1
            && ViewOf(st', chain.id) == View(ViewOf(st, chain.id).rows - {m}, Some(m - 1))
  {
    hide MakePlan, Agrees, ViewOk, ViewOf, RollbackFrom, ClassifyAll, RolledBack, Unclassified, Start, Verified,
         StartCursor, BlockAt, SetCursor;
    var e := m + Min(config.maxBatch, tip - m);
    StartOpens(config, chain, st, node, m, tip);
    VerifiedBack(sha256d, chain, st, node, m, e, tip);
    PlanIsVerified(sha256d, config, chain, st, node, m, e);
    hide NodeChain, ConfigOk;
    var v := ViewOf(st, chain.id);
    ViewCursor(st, chain.id);
    RolledBackKeeps(sha256d, config, chain, v, [], m);
    RollbackView(sha256d, st, chain.id, m, chain.id);
    PositiveHeight(sha256d, chain, v, m);
    var st1 := RollbackFrom(sha256d, st, chain.id, m);
    ClassifyView(st1, Unclassified(st1), resolve, chain.id);
  }

  /** A tick that meets the node's chain extends it by `min(maxBatch, tip - cursor)` of the node's blocks.
      Of the old and the new rows exactly the kept ones are left, and no old one has changed. */
  lemma Advances(sha256d: HashFn, config: Config, chain: Chain, st: Store, node: Node, resolve: Resolver, m: nat,
                 tip: u64)
    requires ConfigOk(config) && Agrees(sha256d, st) && ViewOk(sha256d, chain, ViewOf(st, chain.id))
    requires StartCursor(config, chain, CursorOf(st, chain.id)) == Some(m) && m < tip && m + config.maxBatch < U64_LIMIT
    requires Meets(sha256d, chain, node, ViewOf(st, chain.id), m, tip)
    ensures var (st', r) := Tick(sha256d, config, chain, st, node, resolve);
            var e, v, v' := m + Min(config.maxBatch, tip - m), ViewOf(st, chain.id), ViewOf(st', chain.id);
            && r == Ok(NodeBlocks(sha256d, chain, node, m + 1, e))
            && v'.cursor == Some(e)
            && (forall h: nat :: h in v'.rows <==> Kept(config, e, h) && (h in v.rows || m < h <= e))
            && (forall h :: h in v'.rows ==>
                  if h <= m then v'.rows[h] == v.rows[h] else Some(v'.rows[h]) == BlockAt(sha256d, chain, node, h))
  {
    hide MakePlan, Agrees, ViewOk, ViewOf, Applied, ClassifyAll, Unclassified, StartCursor, BlockAt, Insertable, Start,
         Verified, Kept;
    var e := m + Min(config.maxBatch, tip - m);
    StartOpens(config, chain, st, node, m, tip);
    VerifiedAhead(sha256d, chain, st, node, m, e, tip);
    PlanIsVerified(sha256d, config, chain, st, node, m, e);
    var v, blocks := ViewOf(st, chain.id), NodeBlocks(sha256d, chain, node, m + 1, e);
    hide NodeChain;
    ViewCursor(st, chain.id);
    RowsBelow(sha256d, config, chain, v, m);
    TickRows(sha256d, config, chain, st, node, resolve);
    var v' := ViewOf(Tick(sha256d, config, chain, st, node, resolve).0, chain.id);
    assert Tick(sha256d, config, chain, st, node, resolve).1 == Ok(blocks);
    hide Tick;
    forall h | h in v'.rows && h > m
      ensures Some(v'.rows[h]) == BlockAt(sha256d, chain, node, h)
    {
      assert blocks[h - m - 1] == BlockAt(sha256d, chain, node, h).value;
    }
  }

  // ---------------------------------------------------------------- the whole recovery

  /** The batches of size `b` that cover `n` blocks: `n / b` rounded up. */
  function Batches(n: nat, b: nat): nat
    requires b >= 1
  {
    if n == 0 then 0 else 1 + Batches(n - Min(n, b), b)
  }

  lemma {:induction false} BatchesIsCeiling(n: nat, b: nat)
    requires b >= 1
    ensures Batches(n, b) == (n + b - 1) / b
  {
    if n == 0 {
      DivModUnique(b - 1, b, 0, b - 1);
    } else if n <= b {
      DivModUnique(n + b - 1, b, 1, n - 1);
    } else {
      BatchesIsCeiling(n - b, b);
      DivAddMultiple(n - 1, 1, b);
    }
  }

  /** One chain, the node it follows, the height where the two fork, and the node's tip. */
  datatype Race = Race(chain: Chain, node: Node, fork: nat, tip: nat)

  /** Every stored block above the fork disagrees with the node; the block at the fork does not. */
  ghost predicate Behind(sha256d: HashFn, race: Race, v: View, m: nat) {
    && race.fork < m
    && (forall h :: race.fork < h <= m ==>
          h in v.rows && NodeHash(sha256d, race.chain, race.node, h) != Some(v.rows[h].hashLe))
    && (race.fork in v.rows ==>
          NodeHash(sha256d, race.chain, race.node, race.fork) == Some(v.rows[race.fork].hashLe))
  }

  /** Every stored block above the fork is the node's, and none that is to be kept is missing. */
  ghost predicate Following(sha256d: HashFn, config: Config, race: Race, v: View, m: nat) {
    && race.fork <= m
    && NoneMissing(config, race.fork, v, m)
    && (forall h :: h in v.rows && h > race.fork ==> Some(v.rows[h]) == BlockAt(sha256d, race.chain, race.node, h))
    && (m in v.rows ==> NodeHash(sha256d, race.chain, race.node, m) == Some(v.rows[m].hashLe))
  }

  ghost predicate NoneMissing(config: Config, fork: nat, v: View, m: nat) {
    forall h: nat :: fork < h <= m && Kept(config, m, h) ==> h in v.rows
  }

  /** What is to be kept at a greater height was to be kept before. */
  lemma KeptBefore(config: Config, m: nat, e: nat, h: nat)
    requires h <= m <= e && Kept(config, e, h)
    ensures Kept(config, m, h)
  {
  }

  /** The node's chain is valid from the fork block, or from right above it where that is not stored. */
  ghost predicate ServedAbove(sha256d: HashFn, race: Race, v: View) {
    NodeChain(sha256d, race.chain, race.node, if race.fork in v.rows then race.fork else race.fork + 1, race.tip)
  }

  /** The chain's walk lies between the fork and the tip, and no window below the tip wraps around. */
  ghost predicate InRace(sha256d: HashFn, config: Config, race: Race, v: View) {
    var cursor := StartCursor(config, race.chain, v.cursor);
    && ConfigOk(config) && race.tip + config.maxBatch <= U64_LIMIT
    && ServedAbove(sha256d, race, v)
    && cursor.Some? && race.fork <= cursor.value <= race.tip
    && (v.cursor.None? ==> cursor.value < race.tip)
  }

  /** Still dropping wrong blocks: `left` ticks are needed, one per wrong block and then one per batch. */
  ghost predicate Lags(sha256d: HashFn, config: Config, race: Race, v: View, left: int) {
    && InRace(sha256d, config, race, v)
    && var m := StartCursor(config, race.chain, v.cursor).value;
       m < race.tip && Behind(sha256d, race, v, m)
       && left == m - race.fork + Batches(race.tip - race.fork, config.maxBatch)
  }

  /** Following the node: one tick per batch up to the tip; a negative `left` means none. */
  ghost predicate Tracks(sha256d: HashFn, config: Config, race: Race, v: View, left: int) {
    && InRace(sha256d, config, race, v)
    && var m := StartCursor(config, race.chain, v.cursor).value;
       Following(sha256d, config, race, v, m)
       && (if left < 0 then 0 else left) == Batches(race.tip - m, config.maxBatch)
  }

  ghost predicate OnCourse(sha256d: HashFn, config: Config, race: Race, v: View, left: int) {
    Lags(sha256d, config, race, v, left) || Tracks(sha256d, config, race, v, left)
  }

  lemma CursorIs(config: Config, chain: Chain, v: View, m: nat)
    requires v.cursor == Some(m)
    ensures StartCursor(config, chain, v.cursor) == Some(m)
  {
  }

  lemma NodesHash(sha256d: HashFn, race: Race, v: View, h: nat)
    requires h in v.rows && Some(v.rows[h]) == BlockAt(sha256d, race.chain, race.node, h)
    ensures NodeHash(sha256d, race.chain, race.node, h) == Some(v.rows[h].hashLe)
  {
  }

  lemma StillServed(sha256d: HashFn, race: Race, v: View, v': View)
    requires ServedAbove(sha256d, race, v) && (race.fork in v'.rows ==> race.fork in v.rows)
    ensures ServedAbove(sha256d, race, v')
  {
    hide BlockAt, LinksTo;
  }

  /** Dropping the wrong top block. */
  lemma LagStep(sha256d: HashFn, config: Config, race: Race, v: View, left: int)
    requires Lags(sha256d, config, race, v, left)
    requires forall h :: h in v.rows ==> h <= StartCursor(config, race.chain, v.cursor).value
    ensures var m := StartCursor(config, race.chain, v.cursor).value;
            && m >= 1 && left >= 1 && Disagrees(sha256d, race.chain, race.node, v, m, race.tip)
            && OnCourse(sha256d, config, race, View(v.rows - {m}, Some(m - 1)), left - 1)
  {
    hide BlockAt, LinksTo, NodeHash;
    var m := StartCursor(config, race.chain, v.cursor).value;
    var v' := View(v.rows - {m}, Some(m - 1));
    StillServed(sha256d, race, v, v');
    CursorIs(config, race.chain, v', m - 1);
    hide StartCursor;
  }

  /** Taking the node's next blocks. */
  lemma TrackStep(sha256d: HashFn, config: Config, race: Race, v: View, v': View, left: int)
    requires Tracks(sha256d, config, race, v, left)
    requires var m := StartCursor(config, race.chain, v.cursor).value;
             var e := m + Min(config.maxBatch, race.tip - m);
             && m < race.tip && v'.cursor == Some(e)
             && (forall h :: h in v'.rows ==>
                   if h <= m then h in v.rows && v'.rows[h] == v.rows[h]
                   else h <= e && Some(v'.rows[h]) == BlockAt(sha256d, race.chain, race.node, h))
             && (forall h: nat :: Kept(config, e, h) && (h in v.rows || m < h <= e) ==> h in v'.rows)
    ensures left >= 1 && Tracks(sha256d, config, race, v', left - 1)
  {
    hide BlockAt, LinksTo, NodeHash, Kept;
    var m := StartCursor(config, race.chain, v.cursor).value;
    var e := m + Min(config.maxBatch, race.tip - m);
    StillServed(sha256d, race, v, v');
    CursorIs(config, race.chain, v', e);
    hide StartCursor, ServedAbove;
    forall h: nat | race.fork < h <= e && Kept(config, e, h)
      ensures h in v'.rows
    {
      if h <= m {
        KeptBefore(config, m, e, h);
      }
    }
    if e in v'.rows {
      NodesHash(sha256d, race, v', e);
    }
  }

  lemma TrackMeets(sha256d: HashFn, config: Config, race: Race, v: View, left: int)
    requires Tracks(sha256d, config, race, v, left)
    ensures Meets(sha256d, race.chain, race.node, v, StartCursor(config, race.chain, v.cursor).value, race.tip)
  {
    hide BlockAt, LinksTo, NodeHash, StartCursor;
  }

  /** Forgetting old rows does not leave the course. */
  lemma TrackPruned(sha256d: HashFn, config: Config, race: Race, v: View, v': View, left: int)
    requires Tracks(sha256d, config, race, v, left) && v'.cursor == v.cursor
    requires KeptOf(config, StartCursor(config, race.chain, v.cursor).value, v.rows, v'.rows)
    ensures Tracks(sha256d, config, race, v', left)
  {
    hide BlockAt, LinksTo, NodeHash, StartCursor;
    StillServed(sha256d, race, v, v');
  }

  /** At the tip nothing is left, and the chain has caught up. */
  lemma TrackDone(sha256d: HashFn, config: Config, race: Race, v: View, left: int)
    requires OnCourse(sha256d, config, race, v, left)
    ensures StartCursor(config, race.chain, v.cursor) == Some(race.tip) <==> left <= 0
    ensures left <= 0 ==> Tracks(sha256d, config, race, v, left - 1) && CaughtUp(sha256d, config, race, v)
  {
    hide BlockAt, LinksTo, NodeHash;
  }

  /** The cursor is the node's tip, every stored block above the fork is the node's, and no block above the
      fork that is to be kept is missing. */
  ghost predicate CaughtUp(sha256d: HashFn, config: Config, race: Race, v: View) {
    && v.cursor == Some(race.tip)
    && (forall h :: h in v.rows && h > race.fork ==> Some(v.rows[h]) == BlockAt(sha256d, race.chain, race.node, h))
    && (forall h: nat :: race.fork < h <= race.tip && Kept(config, race.tip, h) ==> h in v.rows)
  }

  /** While ticks are left, each tick of the chain uses up exactly one; and once the chain follows the
      node, it keeps following. */
  lemma OneTickLess(sha256d: HashFn, config: Config, race: Race, st: Store, resolve: Resolver, left: int)
    requires Agrees(sha256d, st) && ViewOk(sha256d, race.chain, ViewOf(st, race.chain.id))
    requires OnCourse(sha256d, config, race, ViewOf(st, race.chain.id), left)
    ensures var v, v' := ViewOf(st, race.chain.id),
                         ViewOf(Tick(sha256d, config, race.chain, st, race.node, resolve).0, race.chain.id);
            && OnCourse(sha256d, config, race, v', left - 1)
            && (Tracks(sha256d, config, race, v, left) ==> Tracks(sha256d, config, race, v', left - 1))
  {
    hide Tick, Agrees, ViewOk, ViewOf, BlockAt, LinksTo, Behind, Following, ServedAbove, NodeHash;
    var c, v := race.chain.id, ViewOf(st, race.chain.id);
    var v' := ViewOf(Tick(sha256d, config, race.chain, st, race.node, resolve).0, c);
    ViewCursor(st, c);
    var m := StartCursor(config, race.chain, v.cursor).value;
    hide StartCursor;
    RowsBelow(sha256d, config, race.chain, v, m);
    TrackDone(sha256d, config, race, v, left);
    TipServed(sha256d, config, race, v);
    if m == race.tip {
      TipIsQuiet(sha256d, config, race.chain, st, race.node, resolve, race.tip);
    } else if Tracks(sha256d, config, race, v, left) {
      TrackMeets(sha256d, config, race, v, left);
      Advances(sha256d, config, race.chain, st, race.node, resolve, m, race.tip);
      TrackStep(sha256d, config, race, v, v', left);
    } else {
      LagStep(sha256d, config, race, v, left);
      Retreats(sha256d, config, race.chain, st, race.node, resolve, m, race.tip);
    }
  }

  lemma TipServed(sha256d: HashFn, config: Config, race: Race, v: View)
    requires InRace(sha256d, config, race, v)
    ensures race.node.tip == Some(race.tip)
  {
    hide BlockAt, LinksTo, StartCursor;
  }

  /** At the tip a tick changes nothing. */
  lemma TipIsQuiet(sha256d: HashFn, config: Config, chain: Chain, st: Store, node: Node, resolve: Resolver, tip: u64)
    requires ConfigOk(config) && node.tip == Some(tip)
    requires StartCursor(config, chain, CursorOf(st, chain.id)) == Some(tip)
    ensures Tick(sha256d, config, chain, st, node, resolve) == (st, Ok([]))
  {
    hide Walk, Fetched, WindowEnd;
    NothingAboveTip(config, tip);
  }

  /** At the tip the window is empty, also at the largest height, where it wraps around. */
  lemma NothingAboveTip(config: Config, tip: u64)
    requires ConfigOk(config)
    ensures SaturatingSucc(tip) > WindowEnd(config, tip, tip)
  {
    if tip == U64_MAX {
      DivModUnique(tip + config.maxBatch, U64_LIMIT, 1, config.maxBatch - 1);
    }
  }

  // ---------------------------------------------------------------- recovery by whole ticks

  /** The ticks of one chain among the ticks of all. */
  function OwnTicks(ticks: seq<TickInput>, c: u32): nat {
    if ticks == [] then 0
    else OwnTicks(ticks[..|ticks| - 1], c) + (if ticks[|ticks| - 1].chain == c then 1 else 0)
  }

  /** The race's chain is one of the configured ones. */
  ghost predicate Entered(chains: map<u32, Chain>, race: Race) {
    ChainsOk(chains) && race.chain.id in chains && chains[race.chain.id] == race.chain
  }

  /** The race's chain always asks the race's node. */
  ghost predicate FairTicks(chains: map<u32, Chain>, race: Race, ticks: seq<TickInput>) {
    forall i :: 0 <= i < |ticks| ==>
      ticks[i].chain in chains && (ticks[i].chain == race.chain.id ==> ticks[i].node == race.node)
  }

  /** A tick of any chain. */
  lemma CourseStep(sha256d: HashFn, config: Config, chains: map<u32, Chain>, race: Race, st: Store, t: TickInput,
                   left: int)
    requires t.chain in chains && (t.chain == race.chain.id ==> t.node == race.node)
    requires Entered(chains, race) && AtRest(sha256d, chains, st)
    requires OnCourse(sha256d, config, race, ViewOf(st, race.chain.id), left)
    ensures OnCourse(sha256d, config, race,
                     ViewOf(Tick(sha256d, config, chains[t.chain], st, t.node, t.resolve).0, race.chain.id),
                     left - (if t.chain == race.chain.id then 1 else 0))
  {
    hide Tick, ViewOf, AtRest, OnCourse, RestingSafe;
    if t.chain == race.chain.id {
      AtRestView(sha256d, chains, st, t.chain);
      OneTickLess(sha256d, config, race, st, t.resolve, left);
    } else {
      CourseConfig(sha256d, config, race, ViewOf(st, race.chain.id), left);
      TickKeeps(sha256d, config, chains, st, t.chain, t.node, t.resolve);
    }
  }

  lemma CourseConfig(sha256d: HashFn, config: Config, race: Race, v: View, left: int)
    requires OnCourse(sha256d, config, race, v, left)
    ensures ConfigOk(config)
  {
  }

  lemma AtRestView(sha256d: HashFn, chains: map<u32, Chain>, st: Store, c: u32)
    requires AtRest(sha256d, chains, st) && c in chains
    ensures Agrees(sha256d, st) && ViewOk(sha256d, chains[c], ViewOf(st, c))
  {
    hide Agrees, ViewOf, ViewOk;
  }

  lemma {:induction false} TicksOnCourse(sha256d: HashFn, config: Config, chains: map<u32, Chain>, race: Race,
                                         st: Store, ticks: seq<TickInput>, left: int)
    requires Entered(chains, race) && FairTicks(chains, race, ticks) && AtRest(sha256d, chains, st)
    requires OnCourse(sha256d, config, race, ViewOf(st, race.chain.id), left)
    ensures OnCourse(sha256d, config, race, ViewOf(TickSeq(sha256d, config, chains, st, ticks), race.chain.id),
                     left - OwnTicks(ticks, race.chain.id))
  {
    hide ConfigOk, ChainsOk, Tick, ViewOf, AtRest, OnCourse;
    if ticks != [] {
      var n := |ticks| - 1;
      var t := ticks[n];
      TicksOnCourse(sha256d, config, chains, race, st, ticks[..n], left);
      CourseConfig(sha256d, config, race, ViewOf(st, race.chain.id), left);
      TickSeqKeeps(sha256d, config, chains, st, ticks[..n]);
      var before := TickSeq(sha256d, config, chains, st, ticks[..n]);
      CourseStep(sha256d, config, chains, race, before, t, left - OwnTicks(ticks[..n], race.chain.id));
    }
  }

  /** The fork of a chain's rows against a node: the block there agrees, or is not stored, and every
      stored block above it disagrees. */
  ghost predicate ForkAt(sha256d: HashFn, config: Config, race: Race, v: View, cursor: nat) {
    && StartCursor(config, race.chain, v.cursor) == Some(cursor)
    && (forall h :: race.fork < h <= cursor ==>
          h in v.rows && NodeHash(sha256d, race.chain, race.node, h) != Some(v.rows[h].hashLe))
    && (race.fork in v.rows ==>
          NodeHash(sha256d, race.chain, race.node, race.fork) == Some(v.rows[race.fork].hashLe))
    && ServedAbove(sha256d, race, v)
  }

  /** The node's tip lies above the cursor, and no window below it wraps around. */
  ghost predicate Reachable(config: Config, race: Race, cursor: nat) {
    ConfigOk(config) && race.fork <= cursor < race.tip && race.tip + config.maxBatch <= U64_LIMIT
  }

  /** One tick per wrong block, then one per batch. */
  function TicksNeeded(config: Config, race: Race, cursor: nat): int
    requires config.maxBatch >= 1
  {
    (cursor - race.fork) + (race.tip - race.fork + config.maxBatch - 1) / config.maxBatch
  }

  lemma CourseAtFork(sha256d: HashFn, config: Config, race: Race, v: View, cursor: nat)
    requires Reachable(config, race, cursor) && ForkAt(sha256d, config, race, v, cursor)
    requires ViewOk(sha256d, race.chain, v)
    ensures OnCourse(sha256d, config, race, v, TicksNeeded(config, race, cursor))
  {
    RowsBelow(sha256d, config, race.chain, v, cursor);
    BatchesIsCeiling(race.tip - race.fork, config.maxBatch);
    hide ViewOk, NodeHash, BlockAt, StartCursor, ServedAbove;
    var left := (cursor - race.fork) + Batches(race.tip - race.fork, config.maxBatch);
    assert left == TicksNeeded(config, race, cursor);
    hide TicksNeeded;
    if cursor == race.fork {
      assert Tracks(sha256d, config, race, v, left);
    } else {
      assert Lags(sha256d, config, race, v, left);
    }
  }

  /** Recovery terminates: with `cursor - fork` wrong blocks on top and the node's tip above the cursor,
      after `(cursor - fork) + ceil((tip - fork) / maxBatch)` ticks of the chain, however other chains'
      ticks fall between them, the chain has caught up. */
  lemma RecoversByTicks(sha256d: HashFn, config: Config, chains: map<u32, Chain>, race: Race, st: Store, cursor: nat,
                        ticks: seq<TickInput>)
    requires Reachable(config, race, cursor)
    requires OwnTicks(ticks, race.chain.id) >= TicksNeeded(config, race, cursor)
    requires Entered(chains, race) && FairTicks(chains, race, ticks) && AtRest(sha256d, chains, st)
    requires ForkAt(sha256d, config, race, ViewOf(st, race.chain.id), cursor)
    ensures CaughtUp(sha256d, config, race, ViewOf(TickSeq(sha256d, config, chains, st, ticks), race.chain.id))
  {
    hide AtRest, TickSeq, OwnTicks, ForkAt, OnCourse, CaughtUp, ViewOf, TicksNeeded, StartCursor;
    var left := TicksNeeded(config, race, cursor);
    AtRestView(sha256d, chains, st, race.chain.id);
    CourseAtFork(sha256d, config, race, ViewOf(st, race.chain.id), cursor);
    TicksOnCourse(sha256d, config, chains, race, st, ticks, left);
    TrackDone(sha256d, config, race, ViewOf(TickSeq(sha256d, config, chains, st, ticks), race.chain.id),
              left - OwnTicks(ticks, race.chain.id));
  }
}
