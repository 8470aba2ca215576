/** `ingest_chain` and `classify_pending_parents` as they run on the database, proved against the tick
    that specifies them. */
module Indexer {
  import opened Bytes
  import opened Store
  import opened Queries
  import opened Ingest
  import opened DatabaseModel

  /** Fetches the locator hashes of a window, then its wires; one failed request fails the window. */
  method FetchWindow(node: Node, start: nat, end: nat) returns (ok: bool)
    requires start <= end
    ensures ok <==> Fetched(node, start, end)
  {
    for h := start to end + 1
      invariant forall g :: start <= g < h ==> node.locator(g).Some?
    {
      if node.locator(h).None? {
        return false;
      }
    }
    for h := start to end + 1
      invariant forall g :: start <= g < h ==> node.wire(g).Some?
    {
      if node.wire(h).None? {
        return false;
      }
    }
    return true;
  }

  /** The sequential walk: verifies in height order and stops at the first block that fails or does not
      link, naming the stale height in the latter case. */
  method VerifyWindow(sha256d: HashFn, chain: Chain, node: Node, start: nat, end: nat, prev: Option<Digest>)
    returns (pending: seq<StoredBlock>, stale: Option<nat>)
    requires start <= end
    ensures (pending, stale) == Walk(sha256d, chain, node, start, end, prev)
  {
    hide BlockAt, LinksTo;
    var prevHash := prev;
    pending, stale := [], None;
    var height := start;
    assert [] + Walk(sha256d, chain, node, start, end, prev).0 == Walk(sha256d, chain, node, start, end, prev).0;
    while height <= end
      invariant start <= height <= end + 1 && stale.None?
      invariant var rest := Walk(sha256d, chain, node, height, end, prevHash);
                Walk(sha256d, chain, node, start, end, prev) == (pending + rest.0, rest.1)
    {
      var b := BlockAt(sha256d, chain, node, height);
      if b.None? {
        assert pending + [] == pending;
        return;
      }
      if !LinksTo(b.value, prevHash) {
        stale := Some(SaturatingPred(height));
        assert pending + [] == pending;
        return;
      }
      var rest := Walk(sha256d, chain, node, height + 1, end, Some(b.value.hashLe));
      assert pending + ([b.value] + rest.0) == (pending + [b.value]) + rest.0;
      prevHash := Some(b.value.hashLe);
      pending := pending + [b.value];
      height := height + 1;
    }
    assert pending + [] == pending;
  }

  /** Inserts the verified prefix, moves the cursor, and prunes when the window is exceeded. */
  method StoreBlocks(db: Database, config: Config, chain: u32, pending: seq<StoredBlock>)
    requires db.Valid() && pending != [] && forall i :: 0 <= i < |pending| ==> Insertable(pending[i])
    modifies db
    ensures db.Valid() && db.View() == StorePending(db.sha256d, config, chain, old(db.View()), pending)
  {
    hide InsertRows, SetCursor, PruneBound, PruneDue;
    var r := db.InsertBlocks(pending);
    var last := pending[|pending| - 1].height;
    db.SetCursorHeight(chain, last);
    if config.maxKept.Some? {
      var below := PruneBound(last, config.maxKept.value);
      var due := NeedsPrune(db, chain, last, config.maxKept.value);
      if due {
        var _ := db.PruneBefore(chain, below);
      }
    }
  }

  /** The window is exceeded when the lowest stored height lies below the bound. */
  method NeedsPrune(db: Database, chain: u32, last: nat, maxKept: nat) returns (due: bool)
    ensures due <==> PruneDue(db.View(), chain, last, maxKept)
  {
    hide PruneBound;
    var below := PruneBound(last, maxKept);
    due := false;
    if below > 1 {
      var _, _, _, chains := db.Stats();
      assert Heights(db.cacheBlocks, chain) == HeightsIn(db.cacheBlocks.Keys, chain);
      if chain in chains {
        due := chains[chain].minHeight < below;
        assert IsMin(Heights(db.cacheBlocks, chain), chains[chain].minHeight);
      } else {
        assert Heights(db.cacheBlocks, chain) == {};
      }
    }
  }

  /** Resolves and classifies every unclassified parent; a failed answer counts as a trial block. */
  method ClassifyPendingParents(db: Database, resolve: Resolver)
    requires db.Valid()
    modifies db
    ensures db.Valid()
    ensures db.View() == ClassifyAll(old(db.View()), Unclassified(old(db.View())), resolve)
  {
    hide ClassifyAll, ClassifyParent, Unclassified;
    ghost var st := db.View();
    var todo := db.UnclassifiedParents();
    ghost var done: set<Digest> := {};
    ClassifyNone(st, resolve);
    while todo != {}
      invariant db.Valid() && done !! todo && done + todo == Unclassified(st)
      invariant db.View() == ClassifyAll(st, done, resolve)
      decreases |todo|
    {
      var p :| p in todo;
      ClassifyStep(st, done, p, resolve);
      db.ClassifyParent(p, resolve(p));
      done := done + {p};
      todo := todo - {p};
    }
  }

  /** One tick. The reads come first; a tick with nothing to fetch, or with a failed request, writes
      nothing. */
  method IngestChain(db: Database, config: Config, chain: Chain, node: Node, resolve: Resolver)
    returns (r: Result<seq<StoredBlock>, TickError>)
    requires db.Valid() && db.cacheBlocks == db.tableBlocks
    modifies db
    ensures db.Valid() && (db.View(), r) == Tick(db.sha256d, config, chain, old(db.View()), node, resolve)
  {
    hide Walk, Applied, ClassifyAll, Unclassified, Fetched, PrevHash, RollbackFrom, StorePending, StartCursor;
    ghost var st := db.View();
    if node.tip.None? {
      return Err(TipUnavailable);
    }
    var tip := node.tip.value;
    var stored := db.CursorHeight(chain.id);
    var from := StartCursor(config, chain, stored);
    if from.None? {
      return Err(NoStartHeight);
    }
    var cursor := from.value;
    if cursor > tip {
      return Ok([]);
    }
    var start, end := SaturatingSucc(cursor), WindowEnd(config, cursor, tip);
    if start > end {
      return Ok([]);
    }
    var fetched := FetchWindow(node, start, end);
    if !fetched {
      return Err(FetchFailed);
    }
    var prev := ReadPrev(db, chain.id, cursor);
    var pending, stale := VerifyWindow(db.sha256d, chain, node, start, end, prev);
    PlanInsertable(db.sha256d, config, chain, st, node);
    ApplyPlan(db, config, chain.id, pending, stale);
    ClassifyPendingParents(db, resolve);
    return Ok(pending);
  }

  /** The hash of the stored block at the cursor. */
  method ReadPrev(db: Database, chain: u32, cursor: nat) returns (prev: Option<Digest>)
    requires db.Valid() && db.cacheBlocks == db.tableBlocks
    modifies db
    ensures db.Valid() && db.View() == old(db.View()) && prev == PrevHash(db.View(), chain, cursor)
  {
    if cursor == 0 {
      return None;
    }
    var b := db.BlockAt(chain, cursor);
    assert db.cacheBlocks == old(db.cacheBlocks);
    return if b.Some? then Some(b.value.hashLe) else None;
  }

  /** The writes: the rollback of a stale row, then the verified prefix. */
  method ApplyPlan(db: Database, config: Config, chain: u32, pending: seq<StoredBlock>, stale: Option<nat>)
    requires db.Valid() && forall i :: 0 <= i < |pending| ==> Insertable(pending[i])
    modifies db
    ensures db.Valid() && db.View() == Applied(db.sha256d, config, chain, old(db.View()), Work(pending, stale))
  {
    hide RollbackFrom, StorePending, Insertable;
    if stale.Some? {
      var _ := db.RollbackFrom(chain, stale.value);
    }
    if pending != [] {
      StoreBlocks(db, config, chain, pending);
    }
  }
}
