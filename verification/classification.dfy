/** When a parent is listed for classification, and when a classification is final. */
module Classification {
  import opened Bytes
  import opened Commitment
  import opened Store
  import opened Agreement
  import opened Ingest
  import opened Views
  import opened Machine
  import opened Safety
  import opened Ticks
  import opened Retention
  import opened Queries

  // ---------------------------------------------------------------- when a parent is listed

  /** Some row of the batch has this parent. */
  ghost predicate Brings(sha256d: HashFn, rows: seq<StoredBlock>, p: Digest) {
    exists i :: 0 <= i < |rows| && ParentOf(sha256d, rows[i]) == Some(p)
  }

  /** A batch keeps the cached parents as they are and caches its own other parents unclassified. */
  lemma {:induction false} InsertedParents(sha256d: HashFn, st: Store, rows: seq<StoredBlock>, p: Digest)
    requires forall i :: 0 <= i < |rows| ==> Insertable(rows[i])
    ensures var st' := InsertRows(sha256d, st, rows);
            && (p in st'.memParents <==> p in st.memParents || Brings(sha256d, rows, p))
            && (p in st.memParents ==> st'.memParents[p] == st.memParents[p])
            && (p !in st.memParents && p in st'.memParents ==> st'.memParents[p].state == 0)
  {
    hide AddSibling, ParentWork, Insertable, ParentOf, Brings;
    if rows == [] {
      BringsNothing(sha256d, p);
    } else {
      var n := |rows| - 1;
      InsertedParents(sha256d, st, rows[..n], p);
      BringsSnoc(sha256d, rows, p);
      InsertedParent(sha256d, InsertRows(sha256d, st, rows[..n]), rows[n], p);
    }
  }

  lemma BringsNothing(sha256d: HashFn, p: Digest)
    ensures !Brings(sha256d, [], p)
  {
  }

  lemma BringsSnoc(sha256d: HashFn, rows: seq<StoredBlock>, p: Digest)
    requires rows != []
    ensures var n := |rows| - 1;
            Brings(sha256d, rows, p) <==> Brings(sha256d, rows[..n], p) || ParentOf(sha256d, rows[n]) == Some(p)
  {
    hide ParentOf;
    var n := |rows| - 1;
    assert forall i :: 0 <= i < n ==> rows[..n][i] == rows[i];
  }

  lemma InsertedParent(sha256d: HashFn, st: Store, b: StoredBlock, p: Digest)
    requires Insertable(b)
    ensures var st' := InsertRow(sha256d, st, b);
            && (p in st'.memParents <==> p in st.memParents || ParentOf(sha256d, b) == Some(p))
            && (p in st.memParents ==> st'.memParents[p] == st.memParents[p])
            && (p !in st.memParents && p in st'.memParents ==> st'.memParents[p].state == 0)
  {
    hide AddSibling, ParentWork;
  }

  /** A step makes a parent unclassified that was not, exactly when it inserts a row of a parent that is
      not cached. Nothing else lists a parent again, a failed answer least of all. */
  lemma ListedAgainIff(sha256d: HashFn, config: Config, chain: Chain, st: Store, phase: Phase, a: Answer, p: Digest)
    requires p !in Unclassified(st)
    ensures p in Unclassified(TaskStep(sha256d, config, chain, st, phase, a).0)
            <==> && p !in st.memParents
                 && phase.Inserting? && (forall i :: 0 <= i < |phase.pending| ==> Insertable(phase.pending[i]))
                 && Brings(sha256d, phase.pending, p)
  {
    hide InsertRows, Start, Verified, PruneDue, PruneBound, Insertable, RetainAll, Touched, Emptied, CutKeys, Brings;
    if phase.Inserting? && forall i :: 0 <= i < |phase.pending| ==> Insertable(phase.pending[i]) {
      InsertedParents(sha256d, st, phase.pending, p);
      BringsNothing(sha256d, p);
    }
  }

  /** That a trial parent can be listed again: its only block is rolled back, which forgets the parent,
      and is inserted anew. */
  lemma TrialListedAgain(sha256d: HashFn, b: StoredBlock)
    requires Insertable(b)
    ensures var p := ParentOf(sha256d, b).value;
            var trial := ClassifyParent(InsertRow(sha256d, EMPTY, b), p, None);
            var again := InsertRow(sha256d, RollbackFrom(sha256d, trial, b.chainId, b.height), b);
            && p in trial.memParents && trial.memParents[p].state == 2 && p !in Unclassified(trial)
            && p in Unclassified(again)
  {
    var p := ParentOf(sha256d, b).value;
    var trial := ClassifyParent(InsertRow(sha256d, EMPTY, b), p, None);
    var cut := From(b.chainId, b.height);
    hide ParentWork;
    assert GroupOf(EMPTY.memGroups, p) == [] && !HasKey([], KeyOf(b)) && [] + [b] == [b];
    assert trial.memBlocks == map[KeyOf(b) := b] && trial.memGroups == map[p := [b]];
    assert KeyOf(b) in trial.memBlocks && Hits(cut, KeyOf(b));
    assert p in Touched(sha256d, trial.memBlocks, cut);
    assert [b][..0] == [];
    assert Retain([b], cut) == [];
    assert p in Emptied(trial.memGroups, Touched(sha256d, trial.memBlocks, cut), cut);
    var dropped := RollbackFrom(sha256d, trial, b.chainId, b.height);
    assert p !in dropped.memParents;
    InsertedParent(sha256d, dropped, b, p);
  }

  // ---------------------------------------------------------------- when a classification is overwritten

  /** A parent that both stores cache has one entry. */
  ghost predicate SameEntry(st: Store, st': Store, p: Digest) {
    p in st.memParents && p in st'.memParents ==> st'.memParents[p] == st.memParents[p]
  }

  /** A step changes a cached, classified parent exactly when it is the classification of that very parent
      with another answer than the one recorded. */
  lemma OverwrittenIff(sha256d: HashFn, config: Config, chain: Chain, st: Store, phase: Phase, a: Answer, p: Digest)
    requires ParentsOk(sha256d, st) && p in st.memParents && st.memParents[p].state != 0
    requires p in TaskStep(sha256d, config, chain, st, phase, a).0.memParents
    ensures TaskStep(sha256d, config, chain, st, phase, a).0.memParents[p] != st.memParents[p]
            <==> && phase.Classifying? && a.pick == p && p in phase.todo
                 && a.resolve(p) != st.memParents[p].ltcHeight
  {
    if phase.Classifying? {
      hide Unclassified;
      ReclassifiedEntry(sha256d, st, a.pick, a.resolve(a.pick), p);
      hide ParentsOk, ClassifyParent;
    } else {
      hide TaskStep, ParentsOk;
      OtherStepKeeps(sha256d, config, chain, st, phase, a, p);
    }
  }

  lemma ReclassifiedEntry(sha256d: HashFn, st: Store, q: Digest, answer: Option<nat>, p: Digest)
    requires ParentsOk(sha256d, st) && p in st.memParents && st.memParents[p].state != 0
    ensures var st' := ClassifyParent(st, q, answer);
            && p in st'.memParents
            && (st'.memParents[p] != st.memParents[p] <==> q == p && answer != st.memParents[p].ltcHeight)
  {
  }

  lemma OtherStepKeeps(sha256d: HashFn, config: Config, chain: Chain, st: Store, phase: Phase, a: Answer, p: Digest)
    requires !phase.Classifying?
    ensures SameEntry(st, TaskStep(sha256d, config, chain, st, phase, a).0, p)
  {
    hide InsertRows, Start, Verified, PruneDue, PruneBound, PruneBefore, Insertable, Brings, RollbackFrom, Unclassified;
    match phase
    case Planned(_, stale) =>
      if stale.Some? {
        RollbackEntry(sha256d, st, chain.id, stale.value, p);
      }
    case Inserting(pending) =>
      if forall i :: 0 <= i < |pending| ==> Insertable(pending[i]) {
        InsertedParents(sha256d, st, pending, p);
      }
    case Pruning(last) =>
      if config.maxKept.Some? {
        PruneEntries(sha256d, st, chain.id, PruneBound(last, config.maxKept.value));
      }
    case _ =>
  }

  lemma RollbackEntry(sha256d: HashFn, st: Store, chain: u32, from: nat, p: Digest)
    ensures SameEntry(st, RollbackFrom(sha256d, st, chain, from), p)
  {
    hide Touched, Emptied, CutKeys, RetainAll;
  }

  lemma PruneEntries(sha256d: HashFn, st: Store, chain: u32, below: nat)
    ensures PruneBefore(sha256d, st, chain, below).memParents == st.memParents
  {
    hide Touched, CutKeys, RetainAll;
  }

  /** Two tasks that list one parent before either has classified it: the later, failed answer overwrites
      the earlier one, and the parent's rows leave every epoch. */
  lemma LaterAnswerWins(sha256d: HashFn, config: Config, chains: map<u32, Chain>, sys: System, c: u32, d: u32,
                        p: Digest, node: Node, height: nat)
    requires chains.Keys == sys.tasks.Keys && c in chains && d in chains && c != d
    requires sys.tasks[c].Listing? && sys.tasks[d].Listing? && p in Unclassified(sys.store)
    ensures var found, failed := Answer(node, _ => Some(height), p), Answer(node, _ => None, p);
            var schedule := [(c, found), (d, failed), (c, found), (d, failed)];
            var before := Run(sha256d, config, chains, sys, schedule[..3]).store;
            var after := Run(sha256d, config, chains, sys, schedule).store;
            && p in before.parents && before.parents[p].ltcHeight == Some(height)
            && p in after.parents && after.parents[p].ltcHeight == None
            && forall b :: ParentOf(sha256d, b) == Some(p) ==> AnchorOf(sha256d, after, b).None?
  {
    var found, failed := Answer(node, _ => Some(height), p), Answer(node, _ => None, p);
    var schedule: Schedule := [(c, found), (d, failed), (c, found), (d, failed)];
    hide AnchorOf, ClassifyParent, Unclassified, Run, InsertRows, Insertable, Start, Verified, RollbackFrom,
         PruneBefore, PruneDue, PruneBound, SetCursor;
    var s1 := Step(sha256d, config, chains, sys, c, found);
    var s2 := Step(sha256d, config, chains, s1, d, failed);
    var s3 := Step(sha256d, config, chains, s2, c, found);
    assert s3.store == ClassifyParent(sys.store, p, Some(height));
    assert s3.tasks[d] == Classifying(sys.tasks[d].stored, Unclassified(sys.store));
    assert Step(sha256d, config, chains, s3, d, failed).store == ClassifyParent(s3.store, p, None);
    hide Step;
    RunsOneMore(sha256d, config, chains, sys, schedule, 0);
    RunsOneMore(sha256d, config, chains, sys, schedule, 1);
    RunsOneMore(sha256d, config, chains, sys, schedule, 2);
    RunsOneMore(sha256d, config, chains, sys, schedule, 3);
    assert schedule[..4] == schedule;
    LastAnswerStays(sha256d, sys.store, p, height);
  }

  lemma RunsOneMore(sha256d: HashFn, config: Config, chains: map<u32, Chain>, sys: System, schedule: Schedule, n: nat)
    requires chains.Keys == sys.tasks.Keys && n < |schedule|
    requires forall i :: 0 <= i < |schedule| ==> schedule[i].0 in chains
    ensures Run(sha256d, config, chains, sys, schedule[..n + 1])
            == Step(sha256d, config, chains, Run(sha256d, config, chains, sys, schedule[..n]), schedule[n].0,
                    schedule[n].1)
    ensures Run(sha256d, config, chains, sys, schedule[..0]) == sys
  {
    hide Step;
    assert schedule[..n + 1][..n] == schedule[..n];
  }

  lemma LastAnswerStays(sha256d: HashFn, st: Store, p: Digest, height: nat)
    requires p in Unclassified(st)
    ensures var before := ClassifyParent(st, p, Some(height));
            var after := ClassifyParent(before, p, None);
            && p in before.parents && before.parents[p].ltcHeight == Some(height)
            && p in after.parents && after.parents[p].ltcHeight == None
            && forall b :: ParentOf(sha256d, b) == Some(p) ==> AnchorOf(sha256d, after, b).None?
  {
    hide ParentOf;
  }

  // ---------------------------------------------------------------- final under whole ticks

  /** A break above a verified prefix forgets no parent. */
  lemma RollbackForgetsNothing(sha256d: HashFn, config: Config, chain: Chain, st: Store, pending: seq<StoredBlock>,
                               stale: nat)
    requires Agrees(sha256d, st) && ViewOk(sha256d, chain, ViewOf(st, chain.id)) && pending != []
    requires PlanOk(sha256d, config, chain, ViewOf(st, chain.id), pending, Some(stale))
    ensures RollbackFrom(sha256d, st, chain.id, stale).memParents == st.memParents
  {
    var cut := From(chain.id, stale);
    hide Agrees, ViewOk, Continues, StartCursor, Touched, ViewOf, RollbackRows, CursorOf;
    var v := ViewOf(st, chain.id);
    RowsBelow(sha256d, config, chain, v, StartCursor(config, chain, v.cursor).value);
    hide PlanOk;
    assert forall h :: h in v.rows ==> h < stale;
    InView(st, chain.id);
    MemIsTable(sha256d, st);
    forall k | k in st.memBlocks
      ensures !Hits(cut, k)
    {
      assert k == (k.0, k.1);
    }
    NothingHit(sha256d, st, cut);
  }

  lemma NothingHit(sha256d: HashFn, st: Store, cut: Cut)
    requires forall k :: k in st.memBlocks ==> !Hits(cut, k)
    ensures RollbackRows(sha256d, st, cut).memParents == st.memParents
  {
    assert Touched(sha256d, st.memBlocks, cut) == {};
    hide Touched, CutKeys, RetainAll;
  }

  lemma StoreKeepsParents(sha256d: HashFn, config: Config, chain: u32, st: Store, pending: seq<StoredBlock>, p: Digest)
    requires pending != [] && forall i :: 0 <= i < |pending| ==> Insertable(pending[i])
    ensures SameEntry(st, StorePending(sha256d, config, chain, st, pending), p)
    ensures p in st.memParents ==> p in StorePending(sha256d, config, chain, st, pending).memParents
  {
    hide InsertRows, Insertable, PruneDue, PruneBound, CutKeys, Touched, RetainAll, Brings;
    InsertedParents(sha256d, st, pending, p);
  }

  /** Up to the classification. */
  lemma AppliedKeepsParents(sha256d: HashFn, config: Config, chain: Chain, st: Store, pending: seq<StoredBlock>,
                            stale: Option<nat>, p: Digest)
    requires Agrees(sha256d, st) && ViewOk(sha256d, chain, ViewOf(st, chain.id))
    requires PlanOk(sha256d, config, chain, ViewOf(st, chain.id), pending, stale)
    requires forall i :: 0 <= i < |pending| ==> Insertable(pending[i])
    ensures SameEntry(st, Applied(sha256d, config, chain.id, st, Work(pending, stale)), p)
  {
    hide Agrees, ViewOk, ViewOf, PlanOk, StorePending, Insertable;
    var st1 := if stale.Some? then RollbackFrom(sha256d, st, chain.id, stale.value) else st;
    if pending == [] {
      hide RollbackFrom;
      if stale.Some? {
        RollbackEntry(sha256d, st, chain.id, stale.value, p);
      }
    } else {
      if stale.Some? {
        RollbackForgetsNothing(sha256d, config, chain, st, pending, stale.value);
      }
      hide RollbackFrom;
      assert st1.memParents == st.memParents;
      StoreKeepsParents(sha256d, config, chain.id, st1, pending, p);
    }
  }

  lemma ClassifyAllKeeps(st: Store, resolve: Resolver, p: Digest)
    requires p in st.memParents && st.memParents[p].state != 0
    ensures SameEntry(st, ClassifyAll(st, Unclassified(st), resolve), p)
  {
  }

  /** A classification is final under whole ticks: no tick changes a classified parent that stays cached. */
  lemma TickIsFinal(sha256d: HashFn, config: Config, chain: Chain, st: Store, node: Node, resolve: Resolver, p: Digest)
    requires ConfigOk(config) && Agrees(sha256d, st) && ViewOk(sha256d, chain, ViewOf(st, chain.id))
    requires p in st.memParents && st.memParents[p].state != 0
    ensures SameEntry(st, Tick(sha256d, config, chain, st, node, resolve).0, p)
  {
    hide ConfigOk, Agrees, ViewOk, ViewOf, PlanOk, MakePlan, Applied, Insertable, Unclassified;
    PlanInsertable(sha256d, config, chain, st, node);
    PlanContinues(sha256d, config, chain, st, node);
    var plan := MakePlan(sha256d, config, chain, st, node);
    if plan.Ok? && plan.value.Work? {
      var st' := Applied(sha256d, config, chain.id, st, plan.value);
      AppliedKeepsParents(sha256d, config, chain, st, plan.value.pending, plan.value.stale, p);
      if p in st'.memParents {
        ClassifyAllKeeps(st', resolve, p);
      }
    }
  }

  ghost predicate AllConfigured(chains: map<u32, Chain>, ticks: seq<TickInput>) {
    forall i :: 0 <= i < |ticks| ==> ticks[i].chain in chains
  }

  /** The parent is cached before the first tick and after each one. */
  ghost predicate StaysCached(sha256d: HashFn, config: Config, chains: map<u32, Chain>, st: Store,
                              ticks: seq<TickInput>, p: Digest)
    requires AllConfigured(chains, ticks)
  {
    && p in TickSeq(sha256d, config, chains, st, ticks).memParents
    && (ticks != [] ==> StaysCached(sha256d, config, chains, st, ticks[..|ticks| - 1], p))
  }

  /** After any ticks during which the parent stays cached, cache and table hold its first classification. */
  lemma {:induction false} FinalUnderTicks(sha256d: HashFn, config: Config, chains: map<u32, Chain>, st: Store,
                                           ticks: seq<TickInput>, p: Digest)
    requires ConfigOk(config) && ChainsOk(chains) && AtRest(sha256d, chains, st)
    requires AllConfigured(chains, ticks) && StaysCached(sha256d, config, chains, st, ticks, p)
    requires p in st.memParents && st.memParents[p].state != 0
    ensures var st' := TickSeq(sha256d, config, chains, st, ticks);
            && p in st'.memParents && st'.memParents[p] == st.memParents[p]
            && p in st'.parents && st'.parents[p] == st.memParents[p]
  {
    hide ConfigOk, ChainsOk, AtRest, Tick, RestingSafe;
    if ticks != [] {
      var n := |ticks| - 1;
      var before := TickSeq(sha256d, config, chains, st, ticks[..n]);
      FinalUnderTicks(sha256d, config, chains, st, ticks[..n], p);
      TickSeqKeeps(sha256d, config, chains, st, ticks[..n]);
      RestingView(sha256d, chains, before, ticks[n].chain);
      TickIsFinal(sha256d, config, chains[ticks[n].chain], before, ticks[n].node, ticks[n].resolve, p);
    }
    TickSeqKeeps(sha256d, config, chains, st, ticks);
    TabledEntry(sha256d, chains, TickSeq(sha256d, config, chains, st, ticks), p);
  }

  lemma RestingView(sha256d: HashFn, chains: map<u32, Chain>, st: Store, c: u32)
    requires ChainsOk(chains) && AtRest(sha256d, chains, st) && c in chains
    ensures Agrees(sha256d, st) && chains[c].id == c && ViewOk(sha256d, chains[c], ViewOf(st, c))
  {
    hide Agrees, ViewOk, ViewOf;
  }

  lemma TabledEntry(sha256d: HashFn, chains: map<u32, Chain>, st: Store, p: Digest)
    requires AtRest(sha256d, chains, st) && p in st.memParents && st.memParents[p].state != 0
    ensures p in st.parents && st.parents[p] == st.memParents[p]
  {
    hide ViewOk, ViewOf, GroupsOk, RowsOk, IndexOk;
  }
}
