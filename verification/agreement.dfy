/** Every change to the store keeps tables and caches in agreement. */
module Agreement {
  import opened Arith
  import opened Bytes
  import opened U256
  import opened Commitment
  import opened Store

  // ---------------------------------------------------------------- insert

  lemma InsertKeepsIndex(sha256d: HashFn, st: Store, b: StoredBlock)
    requires RowsOk(st) && IndexOk(sha256d, st)
    requires Insertable(b) && KeyOf(b) !in st.blocks
    ensures RowsOk(InsertRow(sha256d, st, b)) && IndexOk(sha256d, InsertRow(sha256d, st, b))
  {
  }

  lemma GroupOfOther(sha256d: HashFn, st: Store, b: StoredBlock, q: Digest, list: seq<StoredBlock>)
    requires RowsOk(st) && GroupOk(sha256d, st, q, list)
    requires Insertable(b) && KeyOf(b) !in st.blocks && ParentOf(sha256d, b) != Some(q)
    ensures GroupOk(sha256d, InsertRow(sha256d, st, b), q, list)
  {
    hide NewParent, NoDuplicates, HasKey;
  }

  lemma GroupOfNew(sha256d: HashFn, st: Store, b: StoredBlock, list: seq<StoredBlock>)
    requires RowsOk(st) && Insertable(b) && KeyOf(b) !in st.blocks
    requires GroupOk(sha256d, st, ParentOf(sha256d, b).value, list)
    ensures !HasKey(list, KeyOf(b))
    ensures GroupOk(sha256d, InsertRow(sha256d, st, b), ParentOf(sha256d, b).value, list + [b])
  {
    var p, st' := ParentOf(sha256d, b).value, InsertRow(sha256d, st, b);
    assert st'.blocks == st.blocks[KeyOf(b) := b];
    hide InsertRow, NoDuplicates, HasKey, GroupOk;
    NewKey(sha256d, st, b, p, list);
    GroupWith(sha256d, st, st', b, p, list);
  }

  lemma GroupWith(sha256d: HashFn, st: Store, st': Store, b: StoredBlock, p: Digest, list: seq<StoredBlock>)
    requires RowsOk(st) && KeyOf(b) !in st.blocks && st'.blocks == st.blocks[KeyOf(b) := b]
    requires GroupOk(sha256d, st, p, list) && !HasKey(list, KeyOf(b)) && ParentOf(sha256d, b) == Some(p)
    ensures GroupOk(sha256d, st', p, list + [b])
  {
    NewIsApart(list, b);
    hide NoDuplicates, HasKey, ParentOf;
  }

  lemma NewKey(sha256d: HashFn, st: Store, b: StoredBlock, p: Digest, list: seq<StoredBlock>)
    requires KeyOf(b) !in st.blocks && GroupOk(sha256d, st, p, list)
    ensures !HasKey(list, KeyOf(b))
  {
    hide NoDuplicates;
    assert forall i :: 0 <= i < |list| ==> list[i] in list;
  }

  lemma NewIsApart(list: seq<StoredBlock>, b: StoredBlock)
    requires NoDuplicates(list) && !HasKey(list, KeyOf(b))
    ensures NoDuplicates(list + [b])
  {
  }

  lemma GroupGrows(sha256d: HashFn, st: Store, b: StoredBlock, q: Digest)
    requires Agrees(sha256d, st) && Insertable(b) && KeyOf(b) !in st.blocks
    requires q in InsertRow(sha256d, st, b).memGroups
    ensures var st' := InsertRow(sha256d, st, b); GroupOk(sha256d, st', q, st'.memGroups[q])
  {
    hide NewParent;
    var p, list := ParentOf(sha256d, b).value, GroupOf(st.memGroups, q);
    assert GroupOk(sha256d, st, q, list);
    hide GroupOk;
    if q == p {
      GroupOfNew(sha256d, st, b, list);
    } else {
      GroupOfOther(sha256d, st, b, q, list);
    }
  }

  /** What is recorded of a parent that is not cached yet: its hash, its header, no classification, and the work
      of the target at offset 72 of the header, or one where that does not decode. */
  lemma NewParentIs(sha256d: HashFn, header: Bytes)
    requires |header| >= 76
    ensures var p := NewParent(sha256d, header);
            var target := ExpandTarget(Word(header[72], header[73], header[74], header[75]));
            && p.hash == sha256d(header) && p.header == header && p.ltcHeight == None && p.state == 0
            && Be(p.work) == if target.None? then 1
                             else if Be(target.value) == 0 then 0
                             else FloorDiv(TWO_256, Be(target.value) + 1)
  {
    U32Bytes(header, 72);
    hide ExpandTarget, Be, U32At;
    var target := ExpandTarget(U32At(header, 72));
    var t := if target.Some? then Be(target.value) else TWO_256 - 1;
    WorkFits(t);
    WordLimit(32);
    BeOfBeBytes(Work(t), 32);
    DivModUnique(TWO_256, TWO_256, 1, 0);
  }

  /** The work fits a word for every target, because a target of zero has none. */
  lemma WorkFits(t: nat)
    ensures Work(t) < TWO_256
  {
    if t > 0 {
      var q := FloorDiv(TWO_256, t + 1);
      assert TWO_256 == q * (t + 1) + TWO_256 % (t + 1);
      MulMonotone(2, t + 1, q);
    }
  }

  lemma InsertKeepsParents(sha256d: HashFn, st: Store, b: StoredBlock)
    requires ParentsOk(sha256d, st) && Insertable(b)
    ensures ParentsOk(sha256d, InsertRow(sha256d, st, b))
  {
    hide AddSibling, ParentWork;
  }

  /** Inserting a row at a fresh key. */
  lemma InsertRowAgrees(sha256d: HashFn, st: Store, b: StoredBlock)
    requires Agrees(sha256d, st) && Insertable(b) && KeyOf(b) !in st.blocks
    ensures Agrees(sha256d, InsertRow(sha256d, st, b))
  {
    InsertKeepsIndex(sha256d, st, b);
    InsertKeepsParents(sha256d, st, b);
    var st' := InsertRow(sha256d, st, b);
    forall q | q in st'.memGroups
      ensures GroupOk(sha256d, st', q, st'.memGroups[q])
    {
      GroupGrows(sha256d, st, b, q);
    }
  }

  /** An insert keeps agreement exactly when the key is fresh or already holds this very row: an
      occupied key keeps its stale sibling row, or its stale cached sibling, for good. */
  lemma InsertAgreesIff(sha256d: HashFn, st: Store, b: StoredBlock)
    requires Agrees(sha256d, st) && Insertable(b)
    ensures Agrees(sha256d, InsertRow(sha256d, st, b))
            <==> KeyOf(b) !in st.blocks || st.blocks[KeyOf(b)] == b
  {
    var k := KeyOf(b);
    if k !in st.blocks {
      InsertRowAgrees(sha256d, st, b);
    } else if st.blocks[k] == b {
      InsertSameRow(sha256d, st, b);
    } else {
      InsertOtherRow(sha256d, st, b);
    }
  }

  lemma InsertSameRow(sha256d: HashFn, st: Store, b: StoredBlock)
    requires Agrees(sha256d, st) && Insertable(b) && KeyOf(b) in st.blocks && st.blocks[KeyOf(b)] == b
    ensures InsertRow(sha256d, st, b) == st
  {
    var k, p := KeyOf(b), ParentOf(sha256d, b).value;
    assert (p, k) in st.siblings && p in st.memParents && st.memBlocks == st.blocks by {
      hide GroupOk, InsertRow, HasKey;
    }
    NothingToAdd(sha256d, st, b);
    hide Agrees, NewParent, AddSibling;
    assert st.siblings + {(p, k)} == st.siblings;
    assert st.blocks[k := b] == st.blocks;
  }

  lemma NothingToAdd(sha256d: HashFn, st: Store, b: StoredBlock)
    requires GroupsOk(sha256d, st) && b.header.aux.Some?
    requires KeyOf(b) in st.blocks && st.blocks[KeyOf(b)] == b
    ensures AddSibling(sha256d, st.memGroups, b) == st.memGroups
  {
    KeyInGroup(sha256d, st, b);
    hide HasKey, GroupOk;
    var p := ParentOf(sha256d, b).value;
    assert p in st.memGroups;
    assert st.memGroups[p := st.memGroups[p]] == st.memGroups;
  }

  lemma KeyInGroup(sha256d: HashFn, st: Store, b: StoredBlock)
    requires GroupsOk(sha256d, st) && ParentOf(sha256d, b).Some?
    requires KeyOf(b) in st.blocks && st.blocks[KeyOf(b)] == b
    ensures HasKey(GroupOf(st.memGroups, ParentOf(sha256d, b).value), KeyOf(b))
  {
    var p := ParentOf(sha256d, b).value;
    assert GroupOk(sha256d, st, p, st.memGroups[p]);
    assert b in st.memGroups[p];
  }

  lemma InsertOtherRow(sha256d: HashFn, st: Store, b: StoredBlock)
    requires Agrees(sha256d, st) && Insertable(b) && KeyOf(b) in st.blocks && st.blocks[KeyOf(b)] != b
    ensures !Agrees(sha256d, InsertRow(sha256d, st, b))
  {
    hide NewParent;
    var k, st' := KeyOf(b), InsertRow(sha256d, st, b);
    var p, q := ParentOf(sha256d, b).value, ParentOf(sha256d, st.blocks[k]).value;
    if q != p {
      assert (q, k) in st.siblings && (q, k) in st'.siblings;
      assert !IndexOk(sha256d, st');
    } else {
      assert GroupOk(sha256d, st, p, st.memGroups[p]);
      var was := st.blocks[k];
      assert was in st.memGroups[p] && HasKey(st.memGroups[p], k);
      assert was in st'.memGroups[p];
      assert !GroupOk(sha256d, st', p, st'.memGroups[p]);
    }
  }

  /** A batch at fresh, pairwise different keys. */
  ghost predicate FreshRows(st: Store, rows: seq<StoredBlock>) {
    && (forall i :: 0 <= i < |rows| ==> Insertable(rows[i]) && KeyOf(rows[i]) !in st.blocks)
    && NoDuplicates(rows)
  }

  /** The block table after a batch. */
  ghost function Overlay(m: map<Key, StoredBlock>, rows: seq<StoredBlock>): map<Key, StoredBlock> {
    if rows == [] then m
    else Overlay(m, rows[..|rows| - 1])[KeyOf(rows[|rows| - 1]) := rows[|rows| - 1]]
  }

  lemma {:induction false} OverlayMeaning(m: map<Key, StoredBlock>, rows: seq<StoredBlock>)
    requires NoDuplicates(rows)
    ensures var m' := Overlay(m, rows);
            && (forall k :: k in m' <==> k in m || HasKey(rows, k))
            && (forall i :: 0 <= i < |rows| ==> KeyOf(rows[i]) in m' && m'[KeyOf(rows[i])] == rows[i])
            && (forall k :: k in m && !HasKey(rows, k) ==> m'[k] == m[k])
  {
    if rows != [] {
      var n := |rows| - 1;
      OverlayMeaning(m, rows[..n]);
      KeysSnoc(rows);
      hide HasKey;
      assert forall i :: 0 <= i < n ==> rows[..n][i] == rows[i];
    }
  }

  lemma {:induction false} InsertedBlocks(sha256d: HashFn, st: Store, rows: seq<StoredBlock>)
    requires forall i :: 0 <= i < |rows| ==> Insertable(rows[i])
    ensures var st' := InsertRows(sha256d, st, rows);
            && st'.blocks == Overlay(st.blocks, rows)
            && st'.memBlocks == Overlay(st.memBlocks, rows)
            && st'.cursors == st.cursors && st'.memCursors == st.memCursors && st'.parents == st.parents
  {
    hide NewParent, HasKey;
    if rows != [] {
      InsertedBlocks(sha256d, st, rows[..|rows| - 1]);
    }
  }

  lemma KeysSnoc(rows: seq<StoredBlock>)
    requires rows != []
    ensures var n := |rows| - 1; forall k :: HasKey(rows, k) <==> HasKey(rows[..n], k) || KeyOf(rows[n]) == k
  {
    var n := |rows| - 1;
    forall k
      ensures HasKey(rows, k) <==> HasKey(rows[..n], k) || KeyOf(rows[n]) == k
    {
      if HasKey(rows[..n], k) {
        var i :| 0 <= i < n && KeyOf(rows[..n][i]) == k;
        assert KeyOf(rows[i]) == k;
      }
      if HasKey(rows, k) && KeyOf(rows[n]) != k {
        var i :| 0 <= i < |rows| && KeyOf(rows[i]) == k;
        assert KeyOf(rows[..n][i]) == k;
      }
    }
  }

  lemma {:induction false} InsertRowsAgrees(sha256d: HashFn, st: Store, rows: seq<StoredBlock>)
    requires Agrees(sha256d, st) && FreshRows(st, rows)
    ensures Agrees(sha256d, InsertRows(sha256d, st, rows))
  {
    hide Agrees, InsertRow, NewParent;
    if rows != [] {
      var n := |rows| - 1;
      InsertRowsAgrees(sha256d, st, rows[..n]);
      NewKeyIsFresh(sha256d, st, rows);
      InsertRowAgrees(sha256d, InsertRows(sha256d, st, rows[..n]), rows[n]);
    }
  }

  lemma NewKeyIsFresh(sha256d: HashFn, st: Store, rows: seq<StoredBlock>)
    requires FreshRows(st, rows) && rows != []
    ensures var n := |rows| - 1; KeyOf(rows[n]) !in InsertRows(sha256d, st, rows[..n]).blocks
  {
    var n := |rows| - 1;
    InsertedBlocks(sha256d, st, rows[..n]);
    OverlayMeaning(st.blocks, rows[..n]);
    hide InsertRows, Overlay;
    assert !HasKey(rows[..n], KeyOf(rows[n]));
  }

  // ---------------------------------------------------------------- rollback and prune

  lemma {:induction false} RetainMembers(list: seq<StoredBlock>, cut: Cut)
    ensures forall b :: b in Retain(list, cut) <==> b in list && !Hits(cut, KeyOf(b))
  {
    hide Hits;
    if list != [] {
      var n := |list| - 1;
      RetainMembers(list[..n], cut);
      assert list == list[..n] + [list[n]];
    }
  }

  lemma {:induction false} RetainDistinct(list: seq<StoredBlock>, cut: Cut)
    requires NoDuplicates(list)
    ensures NoDuplicates(Retain(list, cut))
  {
    hide Hits;
    if list != [] {
      var n := |list| - 1;
      var rest := Retain(list[..n], cut);
      RetainDistinct(list[..n], cut);
      RetainMembers(list[..n], cut);
      forall i | 0 <= i < |rest|
        ensures KeyOf(rest[i]) != KeyOf(list[n])
      {
        assert rest[i] in list[..n];
        var j :| 0 <= j < n && list[..n][j] == rest[i];
        assert KeyOf(list[j]) != KeyOf(list[n]);
      }
    }
  }

  /** The store without the rows a cut hits, with its groups rebuilt. */
  ghost predicate RowsCut(st: Store, st': Store, cut: Cut) {
    && st'.blocks == st.blocks - CutKeys(st.blocks, cut)
    && st'.memBlocks == st'.blocks
    && forall s :: s in st'.siblings <==> s in st.siblings && !Hits(cut, s.1)
  }

  lemma RetainedGroup(sha256d: HashFn, st: Store, st': Store, cut: Cut, p: Digest, list: seq<StoredBlock>)
    requires RowsOk(st) && RowsCut(st, st', cut) && GroupOk(sha256d, st, p, list)
    ensures GroupOk(sha256d, st', p, Retain(list, cut))
  {
    RetainMembers(list, cut);
    RetainDistinct(list, cut);
    hide Retain, NoDuplicates;
    forall k | k in st'.blocks && ParentOf(sha256d, st'.blocks[k]) == Some(p)
      ensures st'.blocks[k] in Retain(list, cut)
    {
      assert st.blocks[k] in list && KeyOf(st.blocks[k]) == k;
    }
  }

  lemma UntouchedGroup(sha256d: HashFn, st: Store, st': Store, cut: Cut, p: Digest, list: seq<StoredBlock>)
    requires RowsOk(st) && RowsCut(st, st', cut) && GroupOk(sha256d, st, p, list)
    requires p !in Touched(sha256d, st.blocks, cut)
    ensures GroupOk(sha256d, st', p, list)
  {
    hide NoDuplicates;
    forall b | b in list
      ensures !Hits(cut, KeyOf(b))
    {
      assert st.blocks[KeyOf(b)] == b && ParentOf(sha256d, b) == Some(p);
      assert Hits(cut, KeyOf(b)) ==> p in Touched(sha256d, st.blocks, cut);
    }
  }

  /** A touched group keeps exactly its surviving rows; an untouched group loses none. */
  lemma GroupCut(sha256d: HashFn, st: Store, st': Store, cut: Cut, p: Digest)
    requires Agrees(sha256d, st) && RowsCut(st, st', cut) && p in st.memGroups
    ensures GroupOk(sha256d, st', p,
                    if p in Touched(sha256d, st.memBlocks, cut) then Retain(st.memGroups[p], cut) else st.memGroups[p])
  {
    var list := st.memGroups[p];
    assert GroupOk(sha256d, st, p, list);
    hide GroupOk;
    if p in Touched(sha256d, st.memBlocks, cut) {
      RetainedGroup(sha256d, st, st', cut, p, list);
    } else {
      UntouchedGroup(sha256d, st, st', cut, p, list);
    }
  }

  lemma RowsCutKeeps(sha256d: HashFn, st: Store, st': Store, cut: Cut)
    requires RowsOk(st) && IndexOk(sha256d, st) && RowsCut(st, st', cut)
    ensures RowsOk(st') && IndexOk(sha256d, st')
  {
    hide Hits;
  }

  lemma RollbackRowsAgrees(sha256d: HashFn, st: Store, cut: Cut)
    requires Agrees(sha256d, st)
    ensures Agrees(sha256d, RollbackRows(sha256d, st, cut))
  {
    RollbackFindsSiblings(sha256d, st, cut);
    RowsCutKeeps(sha256d, st, RollbackRows(sha256d, st, cut), cut);
    RollbackGroups(sha256d, st, cut);
    RollbackParents(sha256d, st, cut);
    hide RowsOk, IndexOk, GroupsOk, ParentsOk, CutKeys, Touched, Emptied, RetainAll;
  }

  lemma RollbackGroups(sha256d: HashFn, st: Store, cut: Cut)
    requires Agrees(sha256d, st) && RowsCut(st, RollbackRows(sha256d, st, cut), cut)
    ensures GroupsOk(sha256d, RollbackRows(sha256d, st, cut))
  {
    hide Agrees, RowsCut, GroupOk, Touched, Retain, CutKeys, Hits;
    var st' := RollbackRows(sha256d, st, cut);
    CachedParents(sha256d, st);
    RollbackLeavesRows(sha256d, st, cut);
    forall p | p in st'.memGroups
      ensures GroupOk(sha256d, st', p, st'.memGroups[p]) && p in st'.memParents
    {
      GroupCut(sha256d, st, st', cut, p);
    }
  }

  lemma CachedParents(sha256d: HashFn, st: Store)
    requires Agrees(sha256d, st)
    ensures forall p :: p in st.memGroups ==> p in st.memParents
  {
    hide GroupOk;
  }

  /** A row that survives keeps its group. */
  lemma RollbackLeavesRows(sha256d: HashFn, st: Store, cut: Cut)
    requires Agrees(sha256d, st) && RowsCut(st, RollbackRows(sha256d, st, cut), cut)
    ensures var st' := RollbackRows(sha256d, st, cut);
            forall k :: k in st'.blocks && ParentOf(sha256d, st'.blocks[k]).Some? ==>
              ParentOf(sha256d, st'.blocks[k]).value in st'.memGroups
  {
    hide NoDuplicates, Retain;
    var st' := RollbackRows(sha256d, st, cut);
    forall k | k in st'.blocks && ParentOf(sha256d, st'.blocks[k]).Some?
      ensures ParentOf(sha256d, st'.blocks[k]).value in st'.memGroups
    {
      var p := ParentOf(sha256d, st.blocks[k]).value;
      assert p in st.memGroups && st.blocks[k] in st.memGroups[p];
      RetainMembers(st.memGroups[p], cut);
      assert KeyOf(st.blocks[k]) == k;
      assert st.blocks[k] in Retain(st.memGroups[p], cut);
    }
  }

  lemma RollbackParents(sha256d: HashFn, st: Store, cut: Cut)
    requires ParentsOk(sha256d, st)
    ensures ParentsOk(sha256d, RollbackRows(sha256d, st, cut))
  {
    hide CutKeys, Touched, Emptied, RetainAll;
  }

  /** Walking only the cached parents finds every sibling row of the cut. */
  lemma RollbackFindsSiblings(sha256d: HashFn, st: Store, cut: Cut)
    requires Agrees(sha256d, st)
    ensures RowsCut(st, RollbackRows(sha256d, st, cut), cut)
  {
    forall s | s in st.siblings
      ensures s.0 in st.memParents
    {
      assert ParentOf(sha256d, st.blocks[s.1]) == Some(s.0);
    }
  }

  /** Rolling a chain back from any height. */
  lemma RollbackAgrees(sha256d: HashFn, st: Store, chain: u32, from: nat)
    requires Agrees(sha256d, st)
    ensures Agrees(sha256d, RollbackFrom(sha256d, st, chain, from))
  {
    hide Agrees, RollbackRows, SetCursor;
    var st' := RollbackRows(sha256d, st, From(chain, from));
    RollbackRowsAgrees(sha256d, st, From(chain, from));
    SetCursorAgrees(sha256d, st', chain, SaturatingPred(from));
  }

  /** Pruning a chain below any positive height. */
  lemma PruneAgrees(sha256d: HashFn, st: Store, chain: u32, below: nat)
    requires Agrees(sha256d, st) && below >= 1
    ensures Agrees(sha256d, PruneBefore(sha256d, st, chain, below))
  {
    var st' := PruneBefore(sha256d, st, chain, below);
    PruneFindsSiblings(sha256d, st, chain, below);
    RowsCutKeeps(sha256d, st, st', Below(chain, below));
    PruneGroups(sha256d, st, chain, below);
    assert ParentsOk(sha256d, st') && st'.memCursors == st'.cursors by {
      hide RowsOk, IndexOk, GroupsOk, CutKeys, Touched, RetainAll;
    }
    hide RowsOk, IndexOk, GroupsOk, ParentsOk, PruneBefore;
  }

  lemma PruneGroups(sha256d: HashFn, st: Store, chain: u32, below: nat)
    requires Agrees(sha256d, st) && below >= 1
    requires RowsCut(st, PruneBefore(sha256d, st, chain, below), Below(chain, below))
    ensures GroupsOk(sha256d, PruneBefore(sha256d, st, chain, below))
  {
    var st' := PruneBefore(sha256d, st, chain, below);
    forall p | p in st'.memGroups
      ensures GroupOk(sha256d, st', p, st'.memGroups[p])
    {
      GroupCut(sha256d, st, st', Below(chain, below), p);
    }
    hide GroupOk, IndexOk, ParentsOk, Touched;
  }

  lemma PruneFindsSiblings(sha256d: HashFn, st: Store, chain: u32, below: nat)
    requires Agrees(sha256d, st) && below >= 1
    ensures RowsCut(st, PruneBefore(sha256d, st, chain, below), Below(chain, below))
  {
    hide GroupsOk, ParentsOk, RetainAll, Touched;
    var st' := PruneBefore(sha256d, st, chain, below);
    var cut := Below(chain, below);
    var removed := CutKeys(st.blocks, cut);
    forall s
      ensures s in st'.siblings <==> s in st.siblings && !Hits(cut, s.1)
    {
      if s in st.siblings && Hits(cut, s.1) {
        assert s.1 in removed && ParentOf(sha256d, st.blocks[s.1]) == Some(s.0);
      }
    }
  }

  /** A prune bound of zero agrees exactly when the chain stores nothing at height zero: the table
      loses that row and the cache does not. */
  lemma PruneBelowZero(sha256d: HashFn, st: Store, chain: u32)
    requires Agrees(sha256d, st)
    ensures Agrees(sha256d, PruneBefore(sha256d, st, chain, 0)) <==> (chain, 0) !in st.blocks
  {
    hide Agrees, PruneBefore;
    MemIsTable(sha256d, st);
    if (chain, 0) in st.blocks {
      PruneZeroSplits(sha256d, st, chain);
    } else {
      assert CutKeys(st.blocks, Below(chain, 1)) == {};
      PruneNothing(sha256d, st, chain);
    }
  }

  lemma CachedGroupOk(sha256d: HashFn, st: Store, p: Digest)
    requires Consistent(sha256d, st)
    ensures GroupOk(sha256d, st, p, GroupOf(st.memGroups, p)) && NoDuplicates(GroupOf(st.memGroups, p))
  {
  }

  lemma MemIsTable(sha256d: HashFn, st: Store)
    requires Agrees(sha256d, st)
    ensures st.memBlocks == st.blocks && st.memCursors == st.cursors
  {
  }

  lemma PruneZeroSplits(sha256d: HashFn, st: Store, chain: u32)
    requires st.memBlocks == st.blocks && (chain, 0) in st.blocks
    ensures !Agrees(sha256d, PruneBefore(sha256d, st, chain, 0))
  {
    hide RowsOk, IndexOk, GroupsOk, ParentsOk, RetainAll, Touched;
    var st' := PruneBefore(sha256d, st, chain, 0);
    assert (chain, 0) in st'.memBlocks && (chain, 0) !in st'.blocks;
  }

  lemma PruneNothing(sha256d: HashFn, st: Store, chain: u32)
    requires CutKeys(st.blocks, Below(chain, 1)) == {} && st.memBlocks == st.blocks
    ensures PruneBefore(sha256d, st, chain, 0) == st
  {
    var st' := PruneBefore(sha256d, st, chain, 0);
    assert Touched(sha256d, st.memBlocks, Below(chain, 0)) == {};
    assert CutKeys(st.memBlocks, Below(chain, 0)) == {};
    assert st'.memGroups == st.memGroups;
  }

  // ---------------------------------------------------------------- the other changes

  lemma ClassifyAgrees(sha256d: HashFn, st: Store, p: Digest, ltcHeight: Option<nat>)
    requires Agrees(sha256d, st)
    ensures Agrees(sha256d, ClassifyParent(st, p, ltcHeight))
  {
    var st' := ClassifyParent(st, p, ltcHeight);
    SameRows(sha256d, st, st');
    SameGroups(sha256d, st, st');
    ClassifyKeepsParents(sha256d, st, p, ltcHeight);
    hide RowsOk, IndexOk, GroupsOk, ParentsOk;
  }

  lemma SameRows(sha256d: HashFn, st: Store, st': Store)
    requires RowsOk(st) && IndexOk(sha256d, st) && st'.blocks == st.blocks && st'.siblings == st.siblings
    ensures RowsOk(st') && IndexOk(sha256d, st')
  {
  }

  lemma ClassifyKeepsParents(sha256d: HashFn, st: Store, p: Digest, ltcHeight: Option<nat>)
    requires ParentsOk(sha256d, st)
    ensures ParentsOk(sha256d, ClassifyParent(st, p, ltcHeight))
  {
  }

  /** Rows and groups untouched: the groups are still right. */
  lemma SameGroups(sha256d: HashFn, st: Store, st': Store)
    requires GroupsOk(sha256d, st)
    requires st'.blocks == st.blocks && st'.memGroups == st.memGroups
    ensures GroupsOk(sha256d, st')
  {
    forall q | q in st'.memGroups
      ensures GroupOk(sha256d, st', q, st'.memGroups[q])
    {
      assert GroupOk(sha256d, st, q, st.memGroups[q]);
      hide NoDuplicates;
    }
  }

  lemma SetCursorAgrees(sha256d: HashFn, st: Store, chain: u32, height: nat)
    requires Agrees(sha256d, st)
    ensures Agrees(sha256d, SetCursor(st, chain, height))
  {
    SameRows(sha256d, st, SetCursor(st, chain, height));
    SameGroups(sha256d, st, SetCursor(st, chain, height));
    hide RowsOk, IndexOk, GroupsOk;
  }
}
