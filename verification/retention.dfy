/** Which rows stay: what each step removes and adds, exactly, and what a whole tick leaves of a chain. */
module Retention {
  import opened Bytes
  import opened Store
  import opened Agreement
  import opened Ingest
  import opened Views
  import opened Machine
  import opened Safety

  lemma RowsBelow(sha256d: HashFn, config: Config, chain: Chain, v: View, m: nat)
    requires ViewOk(sha256d, chain, v) && StartCursor(config, chain, v.cursor) == Some(m)
    ensures forall h :: h in v.rows ==> h <= m
  {
    hide RowFits, LinksTo;
    var lo := StartsStretch(sha256d, config, chain, v);
  }

  /** What an extended row map holds. */
  lemma {:induction false} ExtendedMeans(rows: map<nat, StoredBlock>, m: nat, batch: seq<StoredBlock>)
    requires forall i :: 0 <= i < |batch| ==> batch[i].height == m + 1 + i
    requires forall h :: h in rows ==> h <= m
    ensures var rows' := Extended(rows, batch);
            && (forall h :: h in rows' <==> h in rows || m < h <= m + |batch|)
            && (forall h :: h in rows ==> rows'[h] == rows[h])
            && (forall i :: 0 <= i < |batch| ==> rows'[m + 1 + i] == batch[i])
  {
    if batch != [] {
      ExtendedMeans(rows, m, batch[..|batch| - 1]);
    }
  }

  /** The plan of a tick continues the chain. */
  lemma PlanContinues(sha256d: HashFn, config: Config, chain: Chain, st: Store, node: Node)
    requires ConfigOk(config) && Agrees(sha256d, st) && ViewOk(sha256d, chain, ViewOf(st, chain.id))
    ensures var plan := MakePlan(sha256d, config, chain, st, node);
            plan.Ok? && plan.value.Work? ==>
              PlanOk(sha256d, config, chain, ViewOf(st, chain.id), plan.value.pending, plan.value.stale)
  {
    hide Agrees, ViewOk, ViewOf, PlanOk, Walk, Fetched, PrevHash, StartCursor, WindowEnd;
    StartKeeps(sha256d, config, chain, st, node);
    var phase := Start(config, chain, st, node);
    if phase.Started? {
      VerifiedKeeps(sha256d, config, chain, st, node, phase.cursor, phase.end);
    }
  }

  // ---------------------------------------------------------------- the prune

  /** On the heights a chain can have, the prune bound separates what is kept from what is not. */
  lemma BoundKeeps(config: Config, last: nat, h: nat)
    requires config.maxKept.Some? && 1 <= h <= last <= U64_MAX
    ensures h >= PruneBound(last, config.maxKept.value) <==> Kept(config, last, h)
  {
  }

  /** Pruning is due exactly when some row is not kept. */
  lemma PruneDueIff(sha256d: HashFn, config: Config, chain: Chain, st: Store, last: nat)
    requires Agrees(sha256d, st) && Reaches(sha256d, chain, ViewOf(st, chain.id), last) && config.maxKept.Some?
    ensures PruneDue(st, chain.id, last, config.maxKept.value)
            <==> !InWindow(config, ViewOf(st, chain.id).rows, last)
  {
    hide RowFits, LinksTo, Agrees;
    var v, k := ViewOf(st, chain.id), config.maxKept.value;
    MemIsTable(sha256d, st);
    assert v.rows.Keys == Heights(st.memBlocks, chain.id);
    hide ViewOf, Heights;
    var lo: nat :| Stretch(sha256d, chain, v.rows, lo, last);
    forall h | h in v.rows
      ensures h >= PruneBound(last, k) <==> Kept(config, last, h)
    {
      BoundKeeps(config, last, h);
    }
    hide PruneBound, Kept;
    if lo <= last {
      assert IsMin(Heights(st.memBlocks, chain.id), lo);
    }
    if PruneDue(st, chain.id, last, k) {
      var m: nat :| IsMin(Heights(st.memBlocks, chain.id), m) && m < PruneBound(last, k);
      assert m in v.rows;
    }
    if h :| h in v.rows && !Kept(config, last, h) {
      assert lo <= h < PruneBound(last, k) && lo >= 1;
    }
  }

  /** What is left of some rows. */
  ghost predicate KeptOf(config: Config, last: nat, rows: map<nat, StoredBlock>, left: map<nat, StoredBlock>) {
    && (forall h :: h in left <==> h in rows && Kept(config, last, h))
    && (forall h :: h in left ==> left[h] == rows[h])
  }

  /** Pruning or not, exactly the kept rows are left. */
  lemma PruneKeeps(sha256d: HashFn, config: Config, chain: Chain, st: Store, last: nat)
    requires Agrees(sha256d, st) && Reaches(sha256d, chain, ViewOf(st, chain.id), last)
    ensures var v' := ViewOf(Prune(sha256d, config, chain.id, st, last), chain.id);
            KeptOf(config, last, ViewOf(st, chain.id).rows, v'.rows) && v'.cursor == CursorOf(st, chain.id)
  {
    hide Agrees, Reaches, ViewOf, PruneBefore, PruneBound, PruneDue, InWindow, KeptOf;
    var v := ViewOf(st, chain.id);
    ViewCursor(st, chain.id);
    AllKept(config, last, v.rows);
    if config.maxKept.Some? {
      PruneDueIff(sha256d, config, chain, st, last);
      if PruneDue(st, chain.id, last, config.maxKept.value) {
        DueBound(st, chain.id, last, config.maxKept.value);
        PruneView(sha256d, st, chain.id, PruneBound(last, config.maxKept.value), chain.id);
        PrunedRows(sha256d, config, chain, v, last);
      }
    }
  }

  lemma AllKept(config: Config, last: nat, rows: map<nat, StoredBlock>)
    ensures config.maxKept.None? || InWindow(config, rows, last) ==> KeptOf(config, last, rows, rows)
  {
  }

  lemma NoWindow(config: Config, last: nat)
    requires config.maxKept.None?
    ensures forall h :: Kept(config, last, h)
  {
  }

  lemma PrunedRows(sha256d: HashFn, config: Config, chain: Chain, v: View, last: nat)
    requires Reaches(sha256d, chain, v, last) && config.maxKept.Some?
    ensures var bound := PruneBound(last, config.maxKept.value);
            KeptOf(config, last, v.rows, v.rows - (set h | h in v.rows && h < bound))
  {
    hide RowFits, LinksTo;
    var lo: nat :| Stretch(sha256d, chain, v.rows, lo, last);
    forall h | h in v.rows
      ensures h >= PruneBound(last, config.maxKept.value) <==> Kept(config, last, h)
    {
      BoundKeeps(config, last, h);
    }
    hide PruneBound, Kept;
  }

  // ---------------------------------------------------------------- whole ticks

  /** The rows above height `m` are the batch, those below are as before; and of all these, the kept ones. */
  ghost predicate Appended(config: Config, rows: map<nat, StoredBlock>, m: nat, batch: seq<StoredBlock>,
                           left: map<nat, StoredBlock>) {
    && (forall h: nat :: h in left <==> Kept(config, m + |batch|, h) && (h in rows || m < h <= m + |batch|))
    && (forall h :: h in left ==> left[h] == if m < h <= m + |batch| then batch[h - m - 1] else rows[h])
  }

  /** The insert and the cursor write of a planned batch. */
  function Advance(sha256d: HashFn, chain: u32, st: Store, pending: seq<StoredBlock>, last: nat): Store
    requires forall i :: 0 <= i < |pending| ==> Insertable(pending[i])
  {
    SetCursor(InsertRows(sha256d, st, pending), chain, last)
  }

  lemma BatchHeights(sha256d: HashFn, chain: Chain, rows: map<nat, StoredBlock>, m: nat, batch: seq<StoredBlock>)
    requires Continues(sha256d, chain, rows, m, batch)
    ensures forall i :: 0 <= i < |batch| ==> batch[i].height == m + 1 + i
  {
    hide Continues, Insertable;
    BatchRows(sha256d, chain, rows, m, batch);
    forall i | 0 <= i < |batch|
      ensures batch[i].height == m + 1 + i
    {
      assert KeyOf(batch[i]) == (chain.id, m + 1 + i);
    }
  }

  lemma AdvancedRows(sha256d: HashFn, config: Config, chain: Chain, st: Store, pending: seq<StoredBlock>)
    requires Agrees(sha256d, st) && ViewOk(sha256d, chain, ViewOf(st, chain.id)) && pending != []
    requires PlanOk(sha256d, config, chain, ViewOf(st, chain.id), pending, None)
    requires forall i :: 0 <= i < |pending| ==> Insertable(pending[i])
    ensures var last := pending[|pending| - 1].height;
            var st2 := Advance(sha256d, chain.id, st, pending, last);
            && Agrees(sha256d, st2) && Reaches(sha256d, chain, ViewOf(st2, chain.id), last)
            && ViewOf(st2, chain.id) == View(Extended(ViewOf(st, chain.id).rows, pending), Some(last))
  {
    hide Agrees, ViewOk, ViewOf, PlanOk, InsertRows, SetCursor, Insertable, Extended, FreshRows, Reaches;
    var v, last := ViewOf(st, chain.id), pending[|pending| - 1].height;
    BatchIsFresh(sha256d, config, chain, st, pending);
    ExtendedKeeps(sha256d, config, chain, v, pending);
    InsertView(sha256d, st, pending, chain.id);
    InsertRowsAgrees(sha256d, st, pending);
    var st1 := InsertRows(sha256d, st, pending);
    CursorView(st1, chain.id, last, chain.id);
    SetCursorAgrees(sha256d, st1, chain.id, last);
    ReachesRows(sha256d, chain, View(Extended(v.rows, pending), v.cursor),
                View(Extended(v.rows, pending), Some(last)), last);
  }

  /** A storing tick leaves exactly the kept ones of the old and the new rows, and the cursor at the last. */
  lemma StoredRows(sha256d: HashFn, config: Config, chain: Chain, st: Store, pending: seq<StoredBlock>)
    requires Agrees(sha256d, st) && ViewOk(sha256d, chain, ViewOf(st, chain.id)) && pending != []
    requires PlanOk(sha256d, config, chain, ViewOf(st, chain.id), pending, None)
    requires forall i :: 0 <= i < |pending| ==> Insertable(pending[i])
    ensures var m := StartCursor(config, chain, CursorOf(st, chain.id));
            var v' := ViewOf(StorePending(sha256d, config, chain.id, st, pending), chain.id);
            && m.Some? && v'.cursor == Some(m.value + |pending|)
            && Appended(config, ViewOf(st, chain.id).rows, m.value, pending, v'.rows)
  {
    var v := ViewOf(st, chain.id);
    ViewCursor(st, chain.id);
    hide Agrees, ViewOk, ViewOf, InsertRows, SetCursor, Prune, Insertable, Extended, Kept, StartCursor, CursorOf,
         Reaches, Continues;
    var m := StartCursor(config, chain, v.cursor).value;
    AdvancedRows(sha256d, config, chain, st, pending);
    RowsBelow(sha256d, config, chain, v, m);
    BatchHeights(sha256d, chain, v.rows, m, pending);
    hide PlanOk;
    var st2 := Advance(sha256d, chain.id, st, pending, m + |pending|);
    ViewCursor(st2, chain.id);
    PruneKeeps(sha256d, config, chain, st2, m + |pending|);
    ExtendedMeans(v.rows, m, pending);
  }

  /** A tick from cursor `m` that reports blocks has appended them and pruned; any other leaves the rows alone
      or removes the top one, and moves the cursor down with it. */
  ghost predicate TickLeaves(config: Config, v: View, m: Option<nat>, stored: seq<StoredBlock>, v': View) {
    if stored != [] then
      && m.Some? && v'.cursor == Some(m.value + |stored|)
      && Appended(config, v.rows, m.value, stored, v'.rows)
    else
      v' == v || (m.Some? && 1 <= m.value && m.value in v.rows && v' == View(v.rows - {m.value}, Some(m.value - 1)))
  }

  /** What a whole tick does to its chain's rows. */
  lemma TickRows(sha256d: HashFn, config: Config, chain: Chain, st: Store, node: Node, resolve: Resolver)
    requires ConfigOk(config) && Agrees(sha256d, st) && ViewOk(sha256d, chain, ViewOf(st, chain.id))
    ensures var (st', r) := Tick(sha256d, config, chain, st, node, resolve);
            TickLeaves(config, ViewOf(st, chain.id), StartCursor(config, chain, CursorOf(st, chain.id)),
                       if r.Ok? then r.value else [], ViewOf(st', chain.id))
  {
    hide ConfigOk, Agrees, ViewOk, ViewOf, PlanOk, MakePlan, Applied, ClassifyAll, Unclassified, Insertable, Appended,
         CursorOf, StartCursor;
    PlanInsertable(sha256d, config, chain, st, node);
    PlanContinues(sha256d, config, chain, st, node);
    var plan := MakePlan(sha256d, config, chain, st, node);
    if plan.Ok? && plan.value.Work? {
      AppliedRows(sha256d, config, chain, st, plan.value.pending, plan.value.stale);
      var st' := Applied(sha256d, config, chain.id, st, plan.value);
      ViewFrame(ClassifyAll(st', Unclassified(st'), resolve), st', chain.id) by {
        ClassifyAllFrame(st', Unclassified(st'), resolve);
      }
    }
  }

  lemma ClassifyAllFrame(st: Store, todo: set<Digest>, resolve: Resolver)
    ensures var st' := ClassifyAll(st, todo, resolve);
            st'.blocks == st.blocks && st'.cursors == st.cursors && st'.memCursors == st.memCursors
  {
  }

  lemma AppliedRows(sha256d: HashFn, config: Config, chain: Chain, st: Store, pending: seq<StoredBlock>,
                    stale: Option<nat>)
    requires Agrees(sha256d, st) && ViewOk(sha256d, chain, ViewOf(st, chain.id))
    requires PlanOk(sha256d, config, chain, ViewOf(st, chain.id), pending, stale)
    requires forall i :: 0 <= i < |pending| ==> Insertable(pending[i])
    ensures var v' := ViewOf(Applied(sha256d, config, chain.id, st, Work(pending, stale)), chain.id);
            TickLeaves(config, ViewOf(st, chain.id), StartCursor(config, chain, CursorOf(st, chain.id)), pending, v')
  {
    hide Agrees, ViewOk, ViewOf, StorePending, RollbackFrom, RolledBack, Insertable, Continues, Appended, CursorOf;
    var v := ViewOf(st, chain.id);
    ViewCursor(st, chain.id);
    var st1 := if stale.Some? then RollbackFrom(sha256d, st, chain.id, stale.value) else st;
    if stale.Some? {
      RolledBackKeeps(sha256d, config, chain, v, pending, stale.value);
      RollbackView(sha256d, st, chain.id, stale.value, chain.id);
      RollbackAgrees(sha256d, st, chain.id, stale.value);
      ViewCursor(st1, chain.id);
    }
    if pending != [] {
      StoredRows(sha256d, config, chain, st1, pending);
    }
  }

  // ---------------------------------------------------------------- single steps

  /** The steps that remove a row: a rollback with nothing verified above it, and a prune that does not keep it. */
  predicate Removes(config: Config, phase: Phase, h: nat) {
    match phase
    case Planned(pending, stale) => pending == [] && stale == Some(h)
    case Pruning(last) => !Kept(config, last, h)
    case _ => false
  }

  /** The step that adds a row. */
  predicate Adds(phase: Phase, b: StoredBlock) {
    phase.Inserting? && b in phase.pending
  }

  /** What one step of its task does to one row of a chain: it removes it, or adds it where none was, exactly
      in those steps, and never changes it. */
  lemma StepRow(sha256d: HashFn, config: Config, chain: Chain, st: Store, phase: Phase, a: Answer, h: nat)
    requires Agrees(sha256d, st) && PhaseOk(sha256d, config, chain, ViewOf(st, chain.id), phase)
    ensures var rows := ViewOf(st, chain.id).rows;
            var rows' := ViewOf(TaskStep(sha256d, config, chain, st, phase, a).0, chain.id).rows;
            && (h in rows ==> (h !in rows' <==> Removes(config, phase, h)))
            && (h in rows && h in rows' ==> rows'[h] == rows[h])
            && (h !in rows ==> forall b: StoredBlock :: b.height == h ==>
                  (h in rows' && rows'[h] == b <==> Adds(phase, b)))
            && (h !in rows && h in rows' ==> rows'[h].height == h)
  {
    hide Agrees, ViewOf, ViewOk, PlanOk, Reaches, InWindow, RollbackFrom, PruneBefore, InsertRows, Start, Verified,
         SetCursor, PruneDue, PruneBound, Unclassified, FreshRows, Insertable, Kept, Settled;
    var v := ViewOf(st, chain.id);
    match phase
    case Planned(pending, stale) =>
      if stale.Some? {
        RollbackView(sha256d, st, chain.id, stale.value, chain.id);
        RolledBackKeeps(sha256d, config, chain, v, pending, stale.value);
        hide RolledBack;
      }
    case Inserting(pending) =>
      if pending != [] {
        InsertedRow(sha256d, config, chain, st, pending, h);
      }
    case Inserted(last) => CursorView(st, chain.id, last, chain.id);
    case Pruning(last) =>
      PruneView(sha256d, st, chain.id, PruneBound(last, config.maxKept.value), chain.id);
      PrunedRows(sha256d, config, chain, v, last);
    case Classifying(_, todo) => ViewFrame(st, ClassifyParent(st, a.pick, a.resolve(a.pick)), chain.id);
    case _ =>
  }

  lemma InsertedRow(sha256d: HashFn, config: Config, chain: Chain, st: Store, pending: seq<StoredBlock>, h: nat)
    requires ViewOk(sha256d, chain, ViewOf(st, chain.id)) && pending != []
    requires PlanOk(sha256d, config, chain, ViewOf(st, chain.id), pending, None)
    ensures forall i :: 0 <= i < |pending| ==> Insertable(pending[i])
    ensures var rows := ViewOf(st, chain.id).rows;
            var rows' := ViewOf(InsertRows(sha256d, st, pending), chain.id).rows;
            && (h in rows ==> h in rows' && rows'[h] == rows[h])
            && (h !in rows ==> forall b: StoredBlock :: b.height == h ==>
                  (h in rows' && rows'[h] == b <==> b in pending))
            && (h !in rows && h in rows' ==> rows'[h].height == h)
  {
    var v := ViewOf(st, chain.id);
    hide ViewOk, ViewOf, InsertRows, Insertable, Extended, StartCursor, Continues, FreshRows;
    var m := StartCursor(config, chain, v.cursor).value;
    BatchIsFresh(sha256d, config, chain, st, pending);
    InsertView(sha256d, st, pending, chain.id);
    RowsBelow(sha256d, config, chain, v, m);
    BatchHeights(sha256d, chain, v.rows, m, pending);
    hide PlanOk;
    ExtendedMeans(v.rows, m, pending);
    if h !in v.rows && m < h <= m + |pending| {
      assert pending[h - m - 1] in pending;
    }
  }

  /** A task prunes exactly when some row of its chain is not kept. */
  lemma PrunesIff(sha256d: HashFn, config: Config, chain: Chain, st: Store, last: nat, a: Answer)
    requires Agrees(sha256d, st) && PhaseOk(sha256d, config, chain, ViewOf(st, chain.id), Advanced(last))
    ensures TaskStep(sha256d, config, chain, st, Advanced(last), a).1
            == if exists h :: h in ViewOf(st, chain.id).rows && !Kept(config, last, h)
               then Pruning(last) else Listing(Some(last))
  {
    hide Agrees, ViewOf, Reaches, PruneDue, Kept;
    if config.maxKept.Some? {
      PruneDueIff(sha256d, config, chain, st, last);
    } else {
      NoWindow(config, last);
    }
  }

  // ---------------------------------------------------------------- runs

  /** Somewhere in the schedule the chain's own task takes a step that removes its row at height `h`. */
  ghost predicate RemovedIn(sha256d: HashFn, config: Config, chains: map<u32, Chain>, sys: System, schedule: Schedule,
                            c: u32, h: nat)
    requires chains.Keys == sys.tasks.Keys && c in chains
    requires forall i :: 0 <= i < |schedule| ==> schedule[i].0 in chains
  {
    schedule != [] &&
    var n := |schedule| - 1;
    || RemovedIn(sha256d, config, chains, sys, schedule[..n], c, h)
    || (schedule[n].0 == c
        && Removes(config, Run(sha256d, config, chains, sys, schedule[..n]).tasks[c], h))
  }

  /** In every run a stored row stays as it is until its own chain's task removes it. */
  lemma {:induction false} RunKeepsRow(sha256d: HashFn, config: Config, chains: map<u32, Chain>, sys: System,
                                       schedule: Schedule, c: u32, h: nat)
    requires ConfigOk(config) && ChainsOk(chains) && chains.Keys == sys.tasks.Keys && c in chains
    requires forall i :: 0 <= i < |schedule| ==> schedule[i].0 in chains
    requires SystemOk(sha256d, config, chains, sys) && h in ViewOf(sys.store, c).rows
    requires !RemovedIn(sha256d, config, chains, sys, schedule, c, h)
    ensures var rows := ViewOf(Run(sha256d, config, chains, sys, schedule).store, c).rows;
            h in rows && rows[h] == ViewOf(sys.store, c).rows[h]
  {
    hide ConfigOk, Agrees, PhaseOk, TaskStep, ViewOf, Removes, Adds;
    if schedule != [] {
      var n := |schedule| - 1;
      var before := Run(sha256d, config, chains, sys, schedule[..n]);
      RunKeepsRow(sha256d, config, chains, sys, schedule[..n], c, h);
      RunKeeps(sha256d, config, chains, sys, schedule[..n]);
      var d := schedule[n].0;
      if d == c {
        StepRow(sha256d, config, chains[c], before.store, before.tasks[c], schedule[n].1, h);
      } else {
        StepKeeps(sha256d, config, chains, before, d, schedule[n].1);
      }
    }
  }
}
