/** What the store holds for one chain, and how every change to the store changes it. */
module Views {
  import opened Bytes
  import opened Store
  import opened Ingest

  /** The stored rows of one chain by height, and its cursor. */
  datatype View = View(rows: map<nat, StoredBlock>, cursor: Option<nat>)

  ghost function ViewOf(st: Store, chain: u32): View {
    View(map h | h in Heights(st.blocks, chain) :: st.blocks[(chain, h)], CursorOf(st, chain))
  }

  lemma InHeights(m: map<Key, StoredBlock>, chain: u32, h: nat)
    ensures h in Heights(m, chain) <==> (chain, h) in m
  {
    if (chain, h) in m {
      var k: Key := (chain, h);
      assert k in m && k.0 == chain && k.1 == h;
    }
  }

  lemma InView(st: Store, chain: u32)
    ensures forall h :: h in ViewOf(st, chain).rows <==> (chain, h) in st.blocks
    ensures forall h :: h in ViewOf(st, chain).rows ==> ViewOf(st, chain).rows[h] == st.blocks[(chain, h)]
  {
    forall h: nat
      ensures h in Heights(st.blocks, chain) <==> (chain, h) in st.blocks
    {
      InHeights(st.blocks, chain, h);
    }
  }

  /** Two stores show the same view of a chain when its rows and its cursor are the same. */
  lemma SameView(st: Store, st': Store, chain: u32, rows: map<nat, StoredBlock>)
    requires forall h: nat :: h in rows <==> (chain, h) in st'.blocks
    requires forall h: nat :: h in rows ==> rows[h] == st'.blocks[(chain, h)]
    ensures ViewOf(st', chain).rows == rows
  {
    InView(st', chain);
    hide ViewOf;
  }

  // ---------------------------------------------------------------- insert

  /** The rows of a chain after a batch. */
  function Extended(rows: map<nat, StoredBlock>, batch: seq<StoredBlock>): map<nat, StoredBlock> {
    if batch == [] then rows
    else Extended(rows, batch[..|batch| - 1])[batch[|batch| - 1].height := batch[|batch| - 1]]
  }

  lemma InsertRowView(sha256d: HashFn, st: Store, b: StoredBlock, chain: u32)
    requires Insertable(b)
    ensures ViewOf(InsertRow(sha256d, st, b), chain)
            == if b.chainId == chain
               then View(ViewOf(st, chain).rows[b.height := b], CursorOf(st, chain))
               else ViewOf(st, chain)
  {
    var st' := InsertRow(sha256d, st, b);
    assert st'.blocks == st.blocks[KeyOf(b) := b] && CursorOf(st', chain) == CursorOf(st, chain);
    hide InsertRow;
    InView(st, chain);
    var rows := ViewOf(st, chain).rows;
    SameView(st, st', chain, if b.chainId == chain then rows[b.height := b] else rows);
  }

  lemma {:induction false} InsertView(sha256d: HashFn, st: Store, batch: seq<StoredBlock>, chain: u32)
    requires forall i :: 0 <= i < |batch| ==> Insertable(batch[i]) && batch[i].chainId == chain
    ensures ViewOf(InsertRows(sha256d, st, batch), chain)
            == View(Extended(ViewOf(st, chain).rows, batch), CursorOf(st, chain))
  {
    hide InsertRow, Insertable, ViewOf;
    if batch == [] {
      ViewCursor(st, chain);
    } else {
      var n := |batch| - 1;
      InsertView(sha256d, st, batch[..n], chain);
      InsertRowView(sha256d, InsertRows(sha256d, st, batch[..n]), batch[n], chain);
      ViewCursor(InsertRows(sha256d, st, batch[..n]), chain);
    }
  }

  lemma ViewCursor(st: Store, chain: u32)
    ensures ViewOf(st, chain).cursor == CursorOf(st, chain)
  {
  }

  lemma {:induction false} InsertViewOther(sha256d: HashFn, st: Store, batch: seq<StoredBlock>, chain: u32)
    requires forall i :: 0 <= i < |batch| ==> Insertable(batch[i]) && batch[i].chainId != chain
    ensures ViewOf(InsertRows(sha256d, st, batch), chain) == ViewOf(st, chain)
  {
    hide InsertRow, Insertable, ViewOf;
    if batch != [] {
      var n := |batch| - 1;
      InsertViewOther(sha256d, st, batch[..n], chain);
      InsertRowView(sha256d, InsertRows(sha256d, st, batch[..n]), batch[n], chain);
    }
  }

  // ---------------------------------------------------------------- rollback, prune, cursor

  function RolledBack(v: View, from: nat): View {
    View(v.rows - (set h | h in v.rows && h >= from),
         if v.cursor.Some? && v.cursor.value >= from then Some(SaturatingPred(from)) else v.cursor)
  }

  lemma RollbackView(sha256d: HashFn, st: Store, target: u32, from: nat, chain: u32)
    ensures ViewOf(RollbackFrom(sha256d, st, target, from), chain)
            == if chain == target then RolledBack(ViewOf(st, chain), from) else ViewOf(st, chain)
  {
    var st' := RollbackFrom(sha256d, st, target, from);
    RollbackTable(sha256d, st, target, from, chain);
    hide RollbackFrom;
    InView(st, chain);
    ViewCursor(st, chain);
    ViewCursor(st', chain);
    hide ViewOf;
    var rows := ViewOf(st, chain).rows;
    SameView(st, st', chain, if chain == target then RolledBack(ViewOf(st, chain), from).rows else rows);
  }

  lemma RollbackTable(sha256d: HashFn, st: Store, target: u32, from: nat, chain: u32)
    ensures var st', cursor := RollbackFrom(sha256d, st, target, from), CursorOf(st, chain);
            && st'.blocks == st.blocks - CutKeys(st.blocks, From(target, from))
            && CursorOf(st', chain) == if chain == target && cursor.Some? && cursor.value >= from
                                       then Some(SaturatingPred(from)) else cursor
  {
    hide Touched, Emptied, RetainAll, CutKeys;
  }

  lemma PruneView(sha256d: HashFn, st: Store, target: u32, below: nat, chain: u32)
    requires below >= 1
    ensures ViewOf(PruneBefore(sha256d, st, target, below), chain)
            == if chain == target
               then View(ViewOf(st, chain).rows - (set h | h in ViewOf(st, chain).rows && h < below),
                         CursorOf(st, chain))
               else ViewOf(st, chain)
  {
    var st' := PruneBefore(sha256d, st, target, below);
    assert st'.blocks == st.blocks - CutKeys(st.blocks, Below(target, below))
           && CursorOf(st', chain) == CursorOf(st, chain) by {
      hide Touched, RetainAll, CutKeys;
    }
    hide PruneBefore;
    InView(st, chain);
    var rows := ViewOf(st, chain).rows;
    SameView(st, st', chain, if chain == target then rows - (set h | h in rows && h < below) else rows);
  }

  lemma CursorView(st: Store, target: u32, height: nat, chain: u32)
    ensures ViewOf(SetCursor(st, target, height), chain)
            == if chain == target then View(ViewOf(st, chain).rows, Some(height)) else ViewOf(st, chain)
  {
  }

  /** A view depends on the block table and the cursors alone. */
  lemma ViewFrame(st: Store, st': Store, chain: u32)
    requires st.blocks == st'.blocks && st.cursors == st'.cursors && st.memCursors == st'.memCursors
    ensures ViewOf(st, chain) == ViewOf(st', chain)
  {
  }

  // ---------------------------------------------------------------- what a chain's rows satisfy

  /** The rows are exactly the heights `lo..hi`, each verifies itself, and each links to the one below. */
  ghost predicate Stretch(sha256d: HashFn, chain: Chain, rows: map<nat, StoredBlock>, lo: nat, hi: nat) {
    && 1 <= lo <= hi + 1
    && (forall h: nat :: h in rows <==> lo <= h <= hi)
    && (forall h :: h in rows ==> RowFits(sha256d, chain, rows[h], h))
    && (forall g, h :: g in rows && h in rows && h == g + 1 ==> LinksTo(rows[h], Some(rows[g].hashLe)))
  }

  ghost predicate RowFits(sha256d: HashFn, chain: Chain, b: StoredBlock, h: nat) {
    SelfVerifying(sha256d, chain.powLimitBits, b) && b.chainId == chain.id && b.height == h
  }

  /** One contiguous linked stretch ending at `hi`, possibly empty. */
  ghost predicate EndsAt(sha256d: HashFn, chain: Chain, rows: map<nat, StoredBlock>, hi: nat) {
    exists lo :: Stretch(sha256d, chain, rows, lo, hi)
  }

  /** What holds of a chain between two ticks: nothing is stored, or one stretch ends at the cursor. */
  ghost predicate ViewOk(sha256d: HashFn, chain: Chain, v: View) {
    match v.cursor
    case None => v.rows == map[]
    case Some(m) => m <= U64_MAX && EndsAt(sha256d, chain, v.rows, m)
  }

  /** A batch that continues the rows above height `m`. */
  ghost predicate Continues(sha256d: HashFn, chain: Chain, rows: map<nat, StoredBlock>, m: nat,
                            batch: seq<StoredBlock>) {
    && (forall i :: 0 <= i < |batch| ==> RowFits(sha256d, chain, batch[i], m + 1 + i))
    && (forall i :: 1 <= i < |batch| ==> LinksTo(batch[i], Some(batch[i - 1].hashLe)))
    && (batch != [] && m in rows ==> LinksTo(batch[0], Some(rows[m].hashLe)))
  }

  lemma AppendRow(sha256d: HashFn, chain: Chain, rows: map<nat, StoredBlock>, lo: nat, m: nat, b: StoredBlock)
    requires Stretch(sha256d, chain, rows, lo, m) && RowFits(sha256d, chain, b, m + 1)
    requires m in rows ==> LinksTo(b, Some(rows[m].hashLe))
    ensures Stretch(sha256d, chain, rows[m + 1 := b], lo, m + 1)
  {
    hide RowFits, LinksTo;
  }

  lemma FitsHeight(sha256d: HashFn, chain: Chain, b: StoredBlock, h: nat)
    requires RowFits(sha256d, chain, b, h)
    ensures b.height == h && b.chainId == chain.id && Insertable(b)
  {
    SelfVerifyingShape(sha256d, chain.powLimitBits, b);
  }

  lemma {:induction false} ExtendStretch(sha256d: HashFn, chain: Chain, rows: map<nat, StoredBlock>, lo: nat, m: nat,
                                         batch: seq<StoredBlock>)
    requires Stretch(sha256d, chain, rows, lo, m) && Continues(sha256d, chain, rows, m, batch)
    ensures Stretch(sha256d, chain, Extended(rows, batch), lo, m + |batch|)
    ensures batch != [] ==> m + |batch| in Extended(rows, batch)
                            && Extended(rows, batch)[m + |batch|] == batch[|batch| - 1]
  {
    hide RowFits, LinksTo, Stretch;
    if batch != [] {
      var n := |batch| - 1;
      var b, before := batch[n], Extended(rows, batch[..n]);
      ExtendStretch(sha256d, chain, rows, lo, m, batch[..n]);
      FitsHeight(sha256d, chain, b, m + 1 + n);
      AppendRow(sha256d, chain, before, lo, m + n, b);
    }
  }
}
