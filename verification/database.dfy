/** The database: durable tables and the memory caches beside them, updated in place. Every method is
    proved against the store function that specifies it. */
module DatabaseModel {
  import opened Bytes
  import opened U256
  import opened Commitment
  import opened Order
  import opened Store
  import opened Agreement
  import opened Reopen
  import opened Queries
  import S = Store

  datatype InsertError = NoWitness(chain: u32, height: nat)

  class Database {
    const sha256d: HashFn
    // Tables.
    var tableBlocks: map<Key, StoredBlock>
    var tableSiblings: set<(Digest, Key)>
    var tableParents: map<Digest, StoredParent>
    var tableCursors: map<u32, nat>
    // Caches.
    var cacheBlocks: map<Key, StoredBlock>
    var cacheParents: map<Digest, StoredParent>
    var cacheSiblings: map<Digest, seq<StoredBlock>>
    var cacheCursors: map<u32, nat>

    /** The whole state as one value. */
    ghost function View(): Store
      reads this
    {
      Store(tableBlocks, tableSiblings, tableParents, tableCursors, cacheBlocks, cacheParents, cacheSiblings,
            cacheCursors)
    }

    /** Cursors are written to both places at once, so their cache never falls behind. */
    ghost predicate Valid()
      reads this
    {
      cacheCursors == tableCursors
    }

    /** Opens a database over existing tables. */
    constructor (sha256d: HashFn, blocks: map<Key, StoredBlock>, siblings: set<(Digest, Key)>,
                 parents: map<Digest, StoredParent>, cursors: map<u32, nat>)
      ensures this.sha256d == sha256d && Valid()
      ensures View() == Reopened(sha256d, Store(blocks, siblings, parents, cursors, map[], map[], map[], map[]))
    {
      this.sha256d := sha256d;
      tableBlocks, tableSiblings, tableParents, tableCursors := blocks, siblings, parents, cursors;
      cacheBlocks, cacheParents, cacheSiblings, cacheCursors := map[], map[], map[], map[];
      new;
      WarmUpCache();
    }

    /** Pushes a row onto its parent's cached list, unless its key is there already. */
    method PushSibling(b: StoredBlock)
      requires b.header.aux.Some?
      modifies `cacheSiblings
      ensures cacheSiblings == AddSibling(sha256d, old(cacheSiblings), b)
    {
      var parentHash := sha256d(b.header.aux.value.parentHeader);
      var list := if parentHash in cacheSiblings then cacheSiblings[parentHash] else [];
      if !(exists i :: 0 <= i < |list| && KeyOf(list[i]) == KeyOf(b)) {
        list := list + [b];
      }
      cacheSiblings := cacheSiblings[parentHash := list];
    }

    /** Loads the tables into empty caches, block rows in table order. */
    method WarmUpCache()
      requires cacheBlocks == map[] && cacheParents == map[] && cacheSiblings == map[] && cacheCursors == map[]
      modifies `cacheBlocks, `cacheParents, `cacheSiblings, `cacheCursors
      ensures Valid() && View() == Reopened(sha256d, old(View()))
    {
      hide AddSibling, WarmGroups, InOrder, TableOrder, Warming;
      cacheCursors := tableCursors;
      cacheParents := tableParents;
      var todo := tableBlocks.Keys;
      ghost var done: seq<Key> := [];
      WarmingStart(sha256d, tableBlocks);
      while todo != {}
        invariant Warming(sha256d, tableBlocks, todo, done, cacheBlocks, cacheSiblings)
        invariant cacheCursors == tableCursors && cacheParents == tableParents
        decreases |todo|
      {
        var k := LeastOf(todo, KeyRank);
        WarmingStep(sha256d, tableBlocks, todo, done, cacheBlocks, cacheSiblings, k);
        var b := tableBlocks[k];
        cacheBlocks := cacheBlocks[k := b];
        if b.header.aux.Some? {
          PushSibling(b);
        }
        done := done + [k];
        todo := todo - {k};
      }
      WarmingEnd(sha256d, tableBlocks, done, cacheBlocks, cacheSiblings);
    }

    /** Inserts a batch. A row without a witness aborts the table transaction, but the block cache has
        taken the batch already. */
    method InsertBlocks(rows: seq<StoredBlock>) returns (r: Result<(), InsertError>)
      requires Valid()
      requires forall i :: 0 <= i < |rows| ==>
                 rows[i].header.aux.Some? ==> |rows[i].header.aux.value.parentHeader| >= 76
      modifies this
      ensures Valid()
      ensures r.Ok? <==> forall i :: 0 <= i < |rows| ==> Insertable(rows[i])
      ensures r.Ok? ==> View() == InsertRows(sha256d, old(View()), rows)
      ensures r.Err? ==> View() == old(View()).(memBlocks := Overlay(old(cacheBlocks), rows))
    {
      hide InsertRows, Overlay, SiblingRows;
      ghost var st0 := View();
      if rows == [] {
        PrefixInserted(sha256d, st0, rows, 0);
        return Ok(());
      }
      CacheRows(rows);
      r := StoreRows(rows);
      if r.Ok? {
        InsertedBlocks(sha256d, st0, rows);
        InsertedSiblings(sha256d, st0, rows);
        CacheSiblings(st0, rows);
      }
    }

    /** The block cache takes the batch before the transaction starts. */
    method CacheRows(rows: seq<StoredBlock>)
      modifies `cacheBlocks
      ensures cacheBlocks == Overlay(old(cacheBlocks), rows)
    {
      for i := 0 to |rows|
        invariant cacheBlocks == Overlay(old(cacheBlocks), rows[..i])
      {
        cacheBlocks := cacheBlocks[KeyOf(rows[i]) := rows[i]];
        assert rows[..i + 1][..i] == rows[..i];
      }
      assert rows[..|rows|] == rows;
    }

    /** The write transaction of an insert. */
    method StoreRows(rows: seq<StoredBlock>) returns (r: Result<(), InsertError>)
      requires forall i :: 0 <= i < |rows| ==>
                 rows[i].header.aux.Some? ==> |rows[i].header.aux.value.parentHeader| >= 76
      modifies `tableBlocks, `tableSiblings
      ensures r.Ok? <==> forall i :: 0 <= i < |rows| ==> Insertable(rows[i])
      ensures r.Ok? ==> && tableBlocks == Overlay(old(tableBlocks), rows)
                        && tableSiblings == old(tableSiblings) + SiblingRows(sha256d, rows)
      ensures r.Err? ==> tableBlocks == old(tableBlocks) && tableSiblings == old(tableSiblings)
    {
      var blocks, siblings := tableBlocks, tableSiblings;
      for i := 0 to |rows|
        invariant tableBlocks == old(tableBlocks) && tableSiblings == old(tableSiblings)
        invariant forall j :: 0 <= j < i ==> Insertable(rows[j])
        invariant blocks == Overlay(tableBlocks, rows[..i])
        invariant siblings == tableSiblings + SiblingRows(sha256d, rows[..i])
      {
        var b := rows[i];
        blocks := blocks[KeyOf(b) := b];
        if b.header.aux.None? {
          return Err(NoWitness(b.chainId, b.height));
        }
        siblings := siblings + {(sha256d(b.header.aux.value.parentHeader), KeyOf(b))};
        assert rows[..i + 1][..i] == rows[..i];
      }
      assert rows[..|rows|] == rows;
      tableBlocks, tableSiblings := blocks, siblings;
      return Ok(());
    }

    /** After the commit: the sibling and parent caches. */
    method CacheSiblings(ghost st0: Store, rows: seq<StoredBlock>)
      requires forall i :: 0 <= i < |rows| ==> Insertable(rows[i])
      requires cacheSiblings == st0.memGroups && cacheParents == st0.memParents
      modifies `cacheSiblings, `cacheParents
      ensures cacheSiblings == InsertRows(sha256d, st0, rows).memGroups
      ensures cacheParents == InsertRows(sha256d, st0, rows).memParents
    {
      hide InsertRows, AddSibling, NewParent;
      PrefixInserted(sha256d, st0, rows, 0);
      for i := 0 to |rows|
        invariant cacheSiblings == InsertRows(sha256d, st0, rows[..i]).memGroups
        invariant cacheParents == InsertRows(sha256d, st0, rows[..i]).memParents
      {
        PrefixInserted(sha256d, st0, rows, i);
        PushSibling(rows[i]);
        RememberParent(rows[i].header.aux.value.parentHeader);
      }
      assert rows[..|rows|] == rows;
    }

    /** Caches a parent on first sight, with the work of its target. */
    method RememberParent(header: Bytes)
      requires |header| >= 76
      modifies `cacheParents
      ensures var p := sha256d(header);
              cacheParents == if p in old(cacheParents) then old(cacheParents)
                              else old(cacheParents)[p := NewParent(sha256d, header)]
    {
      var p := sha256d(header);
      if p !in cacheParents {
        var target := ExpandTarget(U32At(header, 72));
        var work := BlockWork(if target.Some? then target.value else seq(32, _ => 0xff));
        RecordedWork(header, work);
        cacheParents := cacheParents[p := StoredParent(p, header, None, 0, work)];
      }
    }

    // ---------------------------------------------------------------- rollback and prune

    /** Removes the rows of a range from the block table. */
    method RemoveRows(keys: set<Key>) returns (count: nat)
      requires keys <= tableBlocks.Keys
      modifies `tableBlocks
      ensures tableBlocks == old(tableBlocks) - keys && count == |keys|
    {
      count := 0;
      var todo := keys;
      while todo != {}
        invariant todo <= keys
        invariant tableBlocks == old(tableBlocks) - (keys - todo) && count + |todo| == |keys|
        decreases |todo|
      {
        var k :| k in todo;
        tableBlocks := tableBlocks - {k};
        count := count + 1;
        todo := todo - {k};
      }
    }

    /** Removes the index rows of a range, one cached parent after the other. */
    method RemoveSiblings(cut: Cut)
      modifies `tableSiblings
      ensures tableSiblings == set s | s in old(tableSiblings) && !(s.0 in cacheParents && Hits(cut, s.1))
    {
      hide Hits;
      var todo := cacheParents.Keys;
      while todo != {}
        invariant todo <= cacheParents.Keys
        invariant tableSiblings
                  == set s | s in old(tableSiblings) && !(s.0 in cacheParents && s.0 !in todo && Hits(cut, s.1))
        decreases |todo|
      {
        var p :| p in todo;
        tableSiblings := tableSiblings - (set s | s in tableSiblings && s.0 == p && Hits(cut, s.1));
        todo := todo - {p};
      }
    }

    /** `retain` on one list. */
    method RetainList(list: seq<StoredBlock>, cut: Cut) returns (kept: seq<StoredBlock>)
      ensures kept == Retain(list, cut)
    {
      kept := [];
      for i := 0 to |list|
        invariant kept == Retain(list[..i], cut)
      {
        assert list[..i + 1][..i] == list[..i];
        if !Hits(cut, KeyOf(list[i])) {
          kept := kept + [list[i]];
        }
      }
      assert list[..|list|] == list;
    }

    method RetainGroup(p: Digest, cut: Cut) returns (empty: bool)
      modifies `cacheSiblings
      ensures cacheSiblings
              == if p in old(cacheSiblings) then old(cacheSiblings)[p := Retain(old(cacheSiblings)[p], cut)]
                 else old(cacheSiblings)
      ensures empty == (p in old(cacheSiblings) && Retain(old(cacheSiblings)[p], cut) == [])
    {
      empty := false;
      if p in cacheSiblings {
        var list := RetainList(cacheSiblings[p], cut);
        cacheSiblings := cacheSiblings[p := list];
        empty := list == [];
      }
    }

    /** Filters the cached lists of the touched parents, and names those that became empty. */
    method RetainGroups(touched: set<Digest>, cut: Cut) returns (emptied: set<Digest>)
      modifies `cacheSiblings
      ensures cacheSiblings == RetainAll(old(cacheSiblings), touched, cut)
      ensures emptied == Emptied(old(cacheSiblings), touched, cut)
    {
      hide Retain, RetainAll, Emptied;
      ghost var groups := cacheSiblings;
      ghost var done: set<Digest> := {};
      emptied := {};
      var todo := touched;
      RetainNone(groups, cut);
      while todo != {}
        invariant done !! todo && done + todo == touched
        invariant cacheSiblings == RetainAll(groups, done, cut) && emptied == Emptied(groups, done, cut)
        decreases |todo|
      {
        var p :| p in todo;
        RetainStep(groups, done, p, cut);
        var empty := RetainGroup(p, cut);
        if empty {
          emptied := emptied + {p};
        }
        done := done + {p};
        todo := todo - {p};
      }
    }

    /** Forgets parents without rows, in the caches and in the table. */
    method DropParents(emptied: set<Digest>)
      modifies `cacheSiblings, `cacheParents, `tableParents
      ensures cacheSiblings == old(cacheSiblings) - emptied
      ensures cacheParents == old(cacheParents) - emptied
      ensures tableParents == old(tableParents) - emptied
    {
      var todo := emptied;
      ghost var gone: set<Digest> := {};
      while todo != {}
        invariant gone !! todo && gone + todo == emptied
        invariant cacheSiblings == old(cacheSiblings) - gone
        invariant cacheParents == old(cacheParents) - gone
        invariant tableParents == old(tableParents) - gone
        decreases |todo|
      {
        var p :| p in todo;
        MinusOne(cacheSiblings, old(cacheSiblings), gone, p);
        MinusOne(cacheParents, old(cacheParents), gone, p);
        MinusOne(tableParents, old(tableParents), gone, p);
        cacheSiblings := cacheSiblings - {p};
        cacheParents := cacheParents - {p};
        tableParents := tableParents - {p};
        gone := gone + {p};
        todo := todo - {p};
      }
    }

    /** Removes a range from the block cache, and names the parents of the removed rows. */
    method CutCache(cut: Cut) returns (touched: set<Digest>)
      modifies `cacheBlocks
      ensures cacheBlocks == old(cacheBlocks) - CutKeys(old(cacheBlocks), cut)
      ensures touched == Touched(sha256d, old(cacheBlocks), cut)
    {
      hide Hits;
      var keys := set k | k in cacheBlocks && Hits(cut, k);
      touched := set k | k in keys && cacheBlocks[k].header.aux.Some?
                   :: sha256d(cacheBlocks[k].header.aux.value.parentHeader);
      cacheBlocks := cacheBlocks - keys;
    }

    /** The rollback of rows, index and caches. */
    method RollbackEntries(cut: Cut) returns (count: nat)
      requires Valid()
      modifies `tableBlocks, `tableSiblings, `tableParents, `cacheBlocks, `cacheParents, `cacheSiblings
      ensures Valid() && View() == RollbackRows(sha256d, old(View()), cut)
      ensures count == |CutKeys(old(tableBlocks), cut)|
    {
      hide Hits, RetainAll, Emptied, Touched;
      count := RemoveRows(set k | k in tableBlocks && Hits(cut, k));
      RemoveSiblings(cut);
      var touched := CutCache(cut);
      var emptied := RetainGroups(touched, cut);
      DropParents(emptied);
    }

    /** Rolls a chain back: table, index, caches, parents left without rows, and the cursor. */
    method RollbackFrom(chain: u32, from: nat) returns (count: nat)
      requires Valid()
      modifies this
      ensures Valid()
      ensures View() == S.RollbackFrom(sha256d, old(View()), chain, from)
      ensures count == |CutKeys(old(tableBlocks), From(chain, from))|
    {
      hide RollbackRows, CutKeys;
      ghost var before := View();
      count := RollbackEntries(From(chain, from));
      RollbackKeepsCursors(sha256d, before, From(chain, from));
      var cursor := CursorHeight(chain);
      if cursor.Some? && cursor.value >= from {
        SetCursorHeight(chain, SaturatingPred(from));
      }
    }

    /** Removes the table rows below a height, each with its own index row. */
    method PruneTables(cut: Cut) returns (count: nat)
      modifies `tableBlocks, `tableSiblings
      ensures tableBlocks == old(tableBlocks) - CutKeys(old(tableBlocks), cut)
      ensures tableSiblings
              == old(tableSiblings)
                 - (set k | k in CutKeys(old(tableBlocks), cut) && ParentOf(sha256d, old(tableBlocks)[k]).Some?
                      :: (ParentOf(sha256d, old(tableBlocks)[k]).value, k))
      ensures count == |CutKeys(old(tableBlocks), cut)|
    {
      hide Hits;
      var keys := set k | k in tableBlocks && Hits(cut, k);
      tableSiblings := tableSiblings - (set k | k in keys && tableBlocks[k].header.aux.Some?
                                          :: (sha256d(tableBlocks[k].header.aux.value.parentHeader), k));
      count := RemoveRows(keys);
    }

    /** Prunes a chain's rows below a height. Groups left empty stay cached, and so do their parents. */
    method PruneBefore(chain: u32, below: nat) returns (count: nat)
      requires Valid()
      modifies this
      ensures Valid()
      ensures View() == S.PruneBefore(sha256d, old(View()), chain, below)
      ensures count == |CutKeys(old(tableBlocks), Below(chain, SaturatingPred(below) + 1))|
    {
      hide Hits, RetainAll, Emptied, Touched, CutKeys;
      var cut := Below(chain, below);
      count := PruneTables(Below(chain, SaturatingPred(below) + 1));
      var touched := CutCache(cut);
      var _ := RetainGroups(touched, cut);
    }

    // ---------------------------------------------------------------- parents and cursors

    /** Classifies a cached parent and writes it to the table; a parent no longer cached is skipped. */
    method ClassifyParent(p: Digest, ltcHeight: Option<nat>)
      requires Valid()
      modifies this
      ensures Valid() && View() == S.ClassifyParent(old(View()), p, ltcHeight)
    {
      var state := if ltcHeight.Some? then 1 else 2;
      if p in cacheParents {
        cacheParents := cacheParents[p := cacheParents[p].(ltcHeight := ltcHeight, state := state)];
      }
      if p in cacheParents {
        tableParents := tableParents[p := cacheParents[p]];
      }
    }

    method UnclassifiedParents() returns (todo: set<Digest>)
      ensures todo == Unclassified(View())
    {
      todo := set p | p in cacheParents && cacheParents[p].state == 0;
    }

    method CursorHeight(chain: u32) returns (cursor: Option<nat>)
      requires Valid()
      ensures cursor == CursorOf(View(), chain)
    {
      cursor := if chain in cacheCursors then Some(cacheCursors[chain]) else None;
    }

    method SetCursorHeight(chain: u32, height: nat)
      requires Valid()
      modifies `cacheCursors, `tableCursors
      ensures Valid() && View() == SetCursor(old(View()), chain, height)
    {
      cacheCursors := cacheCursors[chain := height];
      tableCursors := tableCursors[chain := height];
    }

    /** Reads a row through the cache: a row found only in the table is cached. */
    method BlockAt(chain: u32, height: nat) returns (b: Option<StoredBlock>)
      modifies `cacheBlocks
      ensures var k := (chain, height);
              && b == (if k in old(cacheBlocks) then Some(old(cacheBlocks)[k])
                       else if k in tableBlocks then Some(tableBlocks[k]) else None)
              && cacheBlocks == (if b.Some? then old(cacheBlocks)[k := b.value] else old(cacheBlocks))
    {
      var k := (chain, height);
      if k in cacheBlocks {
        b := Some(cacheBlocks[k]);
        assert cacheBlocks == cacheBlocks[k := cacheBlocks[k]];
      } else if k in tableBlocks {
        cacheBlocks := cacheBlocks[k := tableBlocks[k]];
        b := Some(tableBlocks[k]);
      } else {
        b := None;
      }
    }

    // ---------------------------------------------------------------- queries

    /** Pages through the index range of one parent, in index order; counts the whole range. */
    method SiblingBlocksRange(p: Digest, page: Page) returns (blocks: seq<StoredBlock>, total: nat)
      ensures var keys := SiblingList(View(), p);
              && total == |keys| && KeysAscend(keys)
              && (forall i :: 0 <= i < |keys| ==> keys[i] in tableBlocks)
              && blocks == PageOf(RowsAt(tableBlocks, keys), page)
    {
      hide InOrder, PageOf;
      var todo := set s | s in tableSiblings && s.0 == p && s.1 in tableBlocks :: s.1;
      ghost var done: seq<Key> := [];
      assert [] + InOrder(todo, KeyRank) == SiblingList(View(), p);
      blocks, total := [], 0;
      EmptyPage(page);
      assert RowsAt(tableBlocks, done) == [];
      while todo != {}
        invariant done + InOrder(todo, KeyRank) == SiblingList(View(), p)
        invariant forall i :: 0 <= i < |done| ==> done[i] in tableBlocks
        invariant forall k :: k in todo ==> k in tableBlocks
        invariant total == |done| && blocks == PageOf(RowsAt(tableBlocks, done), page)
        decreases |todo|
      {
        var k := LeastOf(todo, KeyRank);
        ListingStep(todo, done, k, KeyRank);
        assert RowsAt(tableBlocks, done + [k]) == RowsAt(tableBlocks, done) + [tableBlocks[k]];
        PageSnoc(RowsAt(tableBlocks, done), tableBlocks[k], page);
        total := total + 1;
        if total > page.offset && |blocks| < page.limit {
          blocks := blocks + [tableBlocks[k]];
        }
        done := done + [k];
        todo := todo - {k};
      }
      ListingEnd(done, KeyRank);
      SiblingOrder(View(), p);
    }

    /** Scans the cached groups of the mainnet parents in a window, sorts, and pages. */
    method EpochBlocks(start: nat, end: nat, filter: Option<u32>, page: Page) returns (items: seq<EpochRow>, total: nat)
      requires Consistent(sha256d, View())
      ensures var all := EpochList(sha256d, View(), start, end, filter);
              total == |all| && EpochOrdered(all) && items == PageOf(all, page)
    {
      hide Consistent, EpochSet, EpochList, PageOf, Scanned;
      var out := ScanEpoch(start, end, filter);
      ScanDone(sha256d, View(), start, end, filter, out);
      EpochListIs(sha256d, View(), start, end, filter);
      EpochOrder(sha256d, View(), start, end, filter);
      var sorted := Sorted((set r | r in out), EpochRank);
      items, total := PageOf(sorted, page), |out|;
    }

    method ScanEpoch(start: nat, end: nat, filter: Option<u32>) returns (out: seq<EpochRow>)
      requires Consistent(sha256d, View())
      ensures Scanned(sha256d, View(), start, end, filter, cacheParents.Keys, out)
    {
      hide Consistent, RowsUnder, Scanned;
      out := [];
      var todo := cacheParents.Keys;
      ghost var done: set<Digest> := {};
      NothingScanned(sha256d, View(), start, end, filter);
      while todo != {}
        invariant done !! todo && done + todo == cacheParents.Keys
        invariant Scanned(sha256d, View(), start, end, filter, done, out)
        decreases |todo|
      {
        var p :| p in todo;
        ScanStep(sha256d, View(), start, end, filter, done, out, p);
        var rows := ReadParent(start, end, filter, p);
        out := out + rows;
        done := done + {p};
        todo := todo - {p};
      }
    }

    method ReadParent(start: nat, end: nat, filter: Option<u32>, p: Digest) returns (rows: seq<EpochRow>)
      requires p in cacheParents
      ensures rows == RowsUnder(View(), start, end, filter, p)
    {
      rows := [];
      var parent := cacheParents[p];
      if parent.ltcHeight.Some? && start <= parent.ltcHeight.value <= end && p in cacheSiblings {
        rows := ReadGroup(cacheSiblings[p], parent.ltcHeight.value, filter);
      }
    }

    method ReadGroup(list: seq<StoredBlock>, ltc: nat, filter: Option<u32>) returns (rows: seq<EpochRow>)
      ensures rows == ScanGroup(list, ltc, filter)
    {
      rows := [];
      for i := 0 to |list|
        invariant rows == ScanGroup(list[..i], ltc, filter)
      {
        assert list[..i + 1][..i] == list[..i];
        if Wanted(filter, list[i].chainId) {
          rows := rows + [RowOf(list[i], ltc)];
        }
      }
      assert list[..|list|] == list;
    }

    /** Lists the mainnet parents that span enough chains, most legs first, then highest block. */
    method SharedMainnetParents(minLegs: nat, page: Page, filter: Option<u32>) returns (items: seq<SharedParent>,
        total: nat)
      requires Consistent(sha256d, View())
      ensures exists all ::
                SharedListing(sha256d, View(), minLegs, filter, all) && total == |all| && items == PageOf(all, page)
    {
      hide Consistent, PageOf, IsShared, Collected;
      var out := CollectShared(minLegs, filter);
      CollectDone(sha256d, View(), minLegs, filter, out);
      var all := SortShared(out);
      assert SharedListing(sha256d, View(), minLegs, filter, all);
      items, total := PageOf(all, page), |all|;
    }

    method CollectShared(minLegs: nat, filter: Option<u32>) returns (out: seq<SharedParent>)
      requires Consistent(sha256d, View())
      ensures Collected(sha256d, View(), minLegs, filter, cacheParents.Keys, out)
    {
      hide Consistent, SharedUnder, Collected;
      out := [];
      var todo := cacheParents.Keys;
      ghost var done: set<Digest> := {};
      NothingCollected(sha256d, View(), minLegs, filter);
      while todo != {}
        invariant done !! todo && done + todo == cacheParents.Keys
        invariant Collected(sha256d, View(), minLegs, filter, done, out)
        decreases |todo|
      {
        var p :| p in todo;
        CollectStep(sha256d, View(), minLegs, filter, done, out, p);
        var found := ReadShared(minLegs, filter, p);
        if found.Some? {
          out := out + [found.value];
        }
        done := done + {p};
        todo := todo - {p};
      }
    }

    method ReadShared(minLegs: nat, filter: Option<u32>, p: Digest) returns (found: Option<SharedParent>)
      requires p in cacheParents
      ensures found == SharedUnder(View(), minLegs, filter, p)
    {
      found := None;
      var parent := cacheParents[p];
      if parent.ltcHeight.Some? && p in cacheSiblings {
        var byChain := GroupByChain(cacheSiblings[p], filter);
        var legs := IntoLegs(byChain);
        if |legs| >= minLegs {
          found := Some(SharedParent(p, parent.ltcHeight.value, legs));
        }
      }
    }

    /** The lowest height per chain. */
    method GroupByChain(list: seq<StoredBlock>, filter: Option<u32>) returns (legs: map<u32, nat>)
      ensures legs == FoldLegs(list, filter)
    {
      legs := map[];
      for i := 0 to |list|
        invariant legs == FoldLegs(list[..i], filter)
      {
        assert list[..i + 1][..i] == list[..i];
        legs := AddLeg(legs, list[i], filter);
      }
      assert list[..|list|] == list;
    }

    /** The map's entries, by chain. */
    method IntoLegs(m: map<u32, nat>) returns (legs: seq<(u32, nat)>)
      ensures legs == LegList(m)
    {
      hide InOrder;
      var entries := set c | c in m :: (c, m[c]);
      assert entries == Entries(m);
      legs := Sorted(entries, LegRank);
    }

    method SortShared(out: seq<SharedParent>) returns (all: seq<SharedParent>)
      requires forall i, j :: 0 <= i < j < |out| ==> out[i].hash != out[j].hash
      ensures SortedShared(all) && |all| == |out|
      ensures forall i, j :: 0 <= i < j < |all| ==> all[i].hash != all[j].hash
      ensures forall s :: s in all <==> s in out
    {
      hide InsertShared, Better;
      all := [];
      for i := 0 to |out|
        invariant SortedShared(all) && |all| == i
        invariant forall j, k :: 0 <= j < k < |all| ==> all[j].hash != all[k].hash
        invariant forall s :: s in all <==> s in out[..i]
      {
        forall y | y in all
          ensures y.hash != out[i].hash
        {
          assert y in out[..i];
        }
        InsertSharedMembers(all, out[i]);
        InsertSharedKeeps(all, out[i]);
        all := InsertShared(all, out[i]);
        assert out[..i + 1] == out[..i] + [out[i]];
      }
      assert out[..|out|] == out;
    }

    /** The first entry of the listing: no shared parent has more legs, or as many at a higher block. */
    method LatestSiblingGroup(minLegs: nat) returns (latest: Option<SharedParent>)
      requires Consistent(sha256d, View())
      ensures latest.None? <==> forall s :: !IsShared(sha256d, View(), minLegs, None, s)
      ensures latest.Some? ==> IsLatest(sha256d, View(), minLegs, latest.value)
    {
      hide Consistent, IsShared, Better;
      var items, total := SharedMainnetParents(minLegs, Page(1, 0), None);
      ghost var all :| SharedListing(sha256d, View(), minLegs, None, all) && total == |all| && items == PageOf(all,
          Page(1, 0));
      latest := if items == [] then None else Some(items[0]);
      FirstIsBest(sha256d, View(), minLegs, all);
      if items != [] {
        assert items[0] == all[0];
      }
    }

    /** The counters of `stats`. */
    method Stats() returns (totalBlocks: nat, totalParents: nat, siblingGroups: nat, chains: map<u32, ChainStats>)
      ensures totalBlocks == |tableBlocks| && totalParents == |cacheParents|
      ensures siblingGroups == |SiblingGroups(View())|
      ensures StatsMean(cacheBlocks.Keys, chains)
    {
      hide Counted, StatsMean;
      chains := map[];
      var todo := cacheBlocks.Keys;
      ghost var done: set<Key> := {};
      NoStats();
      while todo != {}
        invariant done !! todo && done + todo == cacheBlocks.Keys
        invariant StatsMean(done, chains)
        decreases |todo|
      {
        var k :| k in todo;
        CountStep(done, chains, k);
        chains := Counted(chains, k);
        done := done + {k};
        todo := todo - {k};
      }
      var groups := CountGroups();
      return |tableBlocks|, |cacheParents|, groups, chains;
    }

    method CountGroups() returns (n: nat)
      ensures n == |SiblingGroups(View())|
    {
      hide ChainsIn;
      n := 0;
      var todo := cacheParents.Keys;
      ghost var found: set<Digest> := {};
      while todo != {}
        invariant todo <= cacheParents.Keys && n == |found|
        invariant found == set p | p in SiblingGroups(View()) && p !in todo
        decreases |todo|
      {
        var p :| p in todo;
        if cacheParents[p].state == 1 && p in cacheSiblings && |ChainsIn(cacheSiblings[p])| >= 2 {
          n := n + 1;
          found := found + {p};
        }
        todo := todo - {p};
      }
      assert found == SiblingGroups(View());
    }
  }

  lemma EmptyPage(page: Page)
    ensures PageOf<StoredBlock>([], page) == []
  {
  }

  lemma NothingScanned(sha256d: HashFn, st: Store, start: nat, end: nat, filter: Option<u32>)
    ensures Scanned(sha256d, st, start, end, filter, {}, [])
  {
  }

  lemma EpochListIs(sha256d: HashFn, st: Store, start: nat, end: nat, filter: Option<u32>)
    ensures Ranked(EpochSet(sha256d, st, start, end, filter), EpochRank)
    ensures EpochList(sha256d, st, start, end, filter) == InOrder(EpochSet(sha256d, st, start, end, filter), EpochRank)
  {
    EpochRanked(sha256d, st, start, end, filter);
  }

  lemma NothingCollected(sha256d: HashFn, st: Store, minLegs: nat, filter: Option<u32>)
    ensures Collected(sha256d, st, minLegs, filter, {}, [])
  {
  }

  lemma CollectDone(sha256d: HashFn, st: Store, minLegs: nat, filter: Option<u32>, out: seq<SharedParent>)
    requires Consistent(sha256d, st) && Collected(sha256d, st, minLegs, filter, st.memParents.Keys, out)
    ensures forall i, j :: 0 <= i < j < |out| ==> out[i].hash != out[j].hash
    ensures forall s :: s in out <==> IsShared(sha256d, st, minLegs, filter, s)
  {
    hide Consistent, IsLegs;
    forall s: SharedParent | IsShared(sha256d, st, minLegs, filter, s)
      ensures s.hash in st.memParents
    {
      ParentAgrees(sha256d, st, s.hash);
    }
  }

  lemma FirstIsBest(sha256d: HashFn, st: Store, minLegs: nat, all: seq<SharedParent>)
    requires SharedListing(sha256d, st, minLegs, None, all)
    ensures all == [] <==> forall s :: !IsShared(sha256d, st, minLegs, None, s)
    ensures all != [] ==> IsLatest(sha256d, st, minLegs, all[0])
  {
    hide IsShared;
    if all != [] {
      assert all[0] in all;
    }
  }

  lemma NoStats()
    ensures StatsMean({}, map[])
  {
  }

  /** The rows of `done` are loaded, and `todo` follows in table order. */
  ghost predicate Warming(sha256d: HashFn, m: map<Key, StoredBlock>, todo: set<Key>, done: seq<Key>,
                          blocks: map<Key, StoredBlock>, groups: map<Digest, seq<StoredBlock>>) {
    && todo <= m.Keys && (forall i :: 0 <= i < |done| ==> done[i] in m)
    && done + InOrder(todo, KeyRank) == TableOrder(m)
    && (forall k :: k in blocks <==> k in m && k !in todo)
    && (forall k :: k in blocks ==> blocks[k] == m[k])
    && groups == WarmGroups(sha256d, m, done)
  }

  lemma WarmingStart(sha256d: HashFn, m: map<Key, StoredBlock>)
    ensures Warming(sha256d, m, m.Keys, [], map[], map[])
  {
    hide InOrder;
    assert [] + TableOrder(m) == TableOrder(m);
  }

  lemma WarmingStep(sha256d: HashFn, m: map<Key, StoredBlock>, todo: set<Key>, done: seq<Key>,
                    blocks: map<Key, StoredBlock>, groups: map<Digest, seq<StoredBlock>>, k: Key)
    requires Warming(sha256d, m, todo, done, blocks, groups) && IsLeast(todo, KeyRank, k)
    ensures k in m && Warming(sha256d, m, todo - {k}, done + [k], blocks[k := m[k]], WarmRow(sha256d, groups, m[k]))
  {
    hide WarmRow, TableOrder, InOrder;
    LeastIn(todo, KeyRank, k);
    ListingStep(todo, done, k, KeyRank);
    assert (done + [k])[..|done|] == done;
  }

  lemma WarmingEnd(sha256d: HashFn, m: map<Key, StoredBlock>, done: seq<Key>, blocks: map<Key, StoredBlock>,
                   groups: map<Digest, seq<StoredBlock>>)
    requires Warming(sha256d, m, {}, done, blocks, groups)
    ensures blocks == m && groups == WarmGroups(sha256d, m, TableOrder(m))
  {
    hide WarmGroups, TableOrder;
    assert InOrder({}, KeyRank) == [];
    assert done + [] == done;
  }

  lemma RetainNone(groups: map<Digest, seq<StoredBlock>>, cut: Cut)
    ensures RetainAll(groups, {}, cut) == groups && Emptied(groups, {}, cut) == {}
  {
    hide Retain;
    MapsEqual(RetainAll(groups, {}, cut), groups);
  }

  /** One more group. */
  lemma RetainStep(groups: map<Digest, seq<StoredBlock>>, done: set<Digest>, p: Digest, cut: Cut)
    requires p !in done
    ensures var now, next := RetainAll(groups, done, cut), RetainAll(groups, done + {p}, cut);
            && (p in now <==> p in groups) && (p in now ==> now[p] == groups[p])
            && next == (if p in now then now[p := Retain(now[p], cut)] else now)
            && Emptied(groups, done + {p}, cut)
               == Emptied(groups, done, cut) + (if p in now && Retain(now[p], cut) == [] then {p} else {})
  {
    hide Retain;
    var now, next := RetainAll(groups, done, cut), RetainAll(groups, done + {p}, cut);
    MapsEqual(next, if p in now then now[p := Retain(now[p], cut)] else now);
  }

  lemma MinusOne<K, V>(m: map<K, V>, was: map<K, V>, gone: set<K>, k: K)
    requires m == was - gone
    ensures m - {k} == was - (gone + {k})
  {
    MapsEqual(m - {k}, was - (gone + {k}));
  }

  lemma RollbackKeepsCursors(sha256d: HashFn, st: Store, cut: Cut)
    ensures RollbackRows(sha256d, st, cut).cursors == st.cursors
    ensures RollbackRows(sha256d, st, cut).memCursors == st.memCursors
  {
  }

  /** The recorded work is `block_work` of the target, or of the easiest target. */
  lemma RecordedWork(header: Bytes, work: Digest)
    requires |header| >= 76
    requires var target := ExpandTarget(U32At(header, 72));
             Be(work) == Work(Be(if target.Some? then target.value else seq(32, _ => 0xff)))
    ensures work == ParentWork(header)
  {
    hide ExpandTarget, Work, Be, BeBytes;
    AllOnes(seq(32, _ => 0xff));
    WordLimit(|work|);
    WordBound(work);
    BeOfBeBytes(Be(work), 32);
    BeInjective(work, BeBytes(Be(work), 32));
  }

  /** The sibling rows a batch adds. */
  ghost function SiblingRows(sha256d: HashFn, rows: seq<StoredBlock>): set<(Digest, Key)>
    requires forall i :: 0 <= i < |rows| ==> Insertable(rows[i])
  {
    if rows == [] then {}
    else
      var b := rows[|rows| - 1];
      assert Insertable(b);
      SiblingRows(sha256d, rows[..|rows| - 1]) + {(ParentOf(sha256d, b).value, KeyOf(b))}
  }

  lemma {:induction false} InsertedSiblings(sha256d: HashFn, st: Store, rows: seq<StoredBlock>)
    requires forall i :: 0 <= i < |rows| ==> Insertable(rows[i])
    ensures InsertRows(sha256d, st, rows).siblings == st.siblings + SiblingRows(sha256d, rows)
  {
    hide AddSibling, NewParent;
    if rows != [] {
      InsertedSiblings(sha256d, st, rows[..|rows| - 1]);
    }
  }

  /** One more row of a batch. */
  lemma PrefixInserted(sha256d: HashFn, st: Store, rows: seq<StoredBlock>, i: nat)
    requires i <= |rows| && forall j :: 0 <= j < i ==> Insertable(rows[j])
    ensures i == 0 ==> InsertRows(sha256d, st, rows[..i]) == st
    ensures i < |rows| && Insertable(rows[i]) ==>
              InsertRows(sha256d, st, rows[..i + 1]) == InsertRow(sha256d, InsertRows(sha256d, st, rows[..i]), rows[i])
  {
    if i < |rows| {
      assert rows[..i + 1][..i] == rows[..i];
    }
  }
}
