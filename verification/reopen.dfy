/** Closing and reopening the database: the caches are rebuilt from the tables. */
module Reopen {
  import opened Bytes
  import opened Store
  import opened Agreement
  import opened Order
  import opened Ingest
  import opened Machine
  import opened Safety
  import opened Ticks

  /** The keys of the block table, in table order. */
  ghost function TableOrder(m: map<Key, StoredBlock>): seq<Key> {
    InOrder(m.Keys, KeyRank)
  }

  /** One table row read into the sibling groups. */
  function WarmRow(sha256d: HashFn, groups: map<Digest, seq<StoredBlock>>, b: StoredBlock): map<Digest,
      seq<StoredBlock>> {
    if b.header.aux.None? then groups else AddSibling(sha256d, groups, b)
  }

  function WarmGroups(sha256d: HashFn, m: map<Key, StoredBlock>, keys: seq<Key>): map<Digest, seq<StoredBlock>>
    requires forall i :: 0 <= i < |keys| ==> keys[i] in m
  {
    if keys == [] then map[]
    else WarmRow(sha256d, WarmGroups(sha256d, m, keys[..|keys| - 1]), m[keys[|keys| - 1]])
  }

  /** What `open` loads: the tables stay, and every cache comes from them. */
  ghost function Reopened(sha256d: HashFn, st: Store): Store {
    st.(memBlocks := st.blocks,
        memParents := st.parents,
        memGroups := WarmGroups(sha256d, st.blocks, TableOrder(st.blocks)),
        memCursors := st.cursors)
  }

  // ---------------------------------------------------------------- what the loaded groups hold

  /** The list holds exactly the rows among `keys` whose parent is `p`, each once. */
  ghost predicate Warmed(sha256d: HashFn, m: map<Key, StoredBlock>, keys: seq<Key>, p: Digest, list: seq<StoredBlock>)
    requires forall i :: 0 <= i < |keys| ==> keys[i] in m
  {
    && NoDuplicates(list)
    && (forall b :: b in list ==> KeyOf(b) in keys && m[KeyOf(b)] == b && ParentOf(sha256d, b) == Some(p))
    && (forall k :: k in keys && ParentOf(sha256d, m[k]) == Some(p) ==> m[k] in list)
  }

  ghost predicate WarmedAt(sha256d: HashFn, m: map<Key, StoredBlock>, keys: seq<Key>, groups: map<Digest,
                           seq<StoredBlock>>, p: Digest)
    requires forall i :: 0 <= i < |keys| ==> keys[i] in m
  {
    Warmed(sha256d, m, keys, p, GroupOf(groups, p)) && (p in groups ==> groups[p] != [])
  }

  lemma WarmSnoc(sha256d: HashFn, m: map<Key, StoredBlock>, keys: seq<Key>, k: Key, p: Digest, list: seq<StoredBlock>)
    requires forall i :: 0 <= i < |keys| ==> keys[i] in m
    requires k in m && KeyOf(m[k]) == k && k !in keys
    requires Warmed(sha256d, m, keys, p, list)
    ensures ParentOf(sha256d, m[k]) != Some(p) ==> Warmed(sha256d, m, keys + [k], p, list)
    ensures ParentOf(sha256d, m[k]) == Some(p) ==>
              !HasKey(list, k) && Warmed(sha256d, m, keys + [k], p, list + [m[k]])
  {
    assert forall i :: 0 <= i < |list| ==> list[i] in list;
  }

  lemma {:induction false} GroupsWarmed(sha256d: HashFn, m: map<Key, StoredBlock>, keys: seq<Key>, p: Digest)
    requires forall i :: 0 <= i < |keys| ==> keys[i] in m && KeyOf(m[keys[i]]) == keys[i] && m[keys[i]].header.aux.Some?
    requires forall i, j :: 0 <= i < j < |keys| ==> keys[i] != keys[j]
    ensures WarmedAt(sha256d, m, keys, WarmGroups(sha256d, m, keys), p)
  {
    if keys != [] {
      hide Warmed, HasKey;
      var n := |keys| - 1;
      var before, k := WarmGroups(sha256d, m, keys[..n]), keys[n];
      GroupsWarmed(sha256d, m, keys[..n], p);
      assert keys == keys[..n] + [k] && k !in keys[..n];
      WarmSnoc(sha256d, m, keys[..n], k, p, GroupOf(before, p));
    }
  }

  lemma TableOrderShape(m: map<Key, StoredBlock>)
    ensures var keys := TableOrder(m);
            && (forall k :: k in keys <==> k in m)
            && (forall i :: 0 <= i < |keys| ==> keys[i] in m)
            && (forall i, j :: 0 <= i < j < |keys| ==> keys[i] != keys[j])
  {
    var keys := TableOrder(m);
    InOrderAscends(m.Keys, KeyRank);
    assert forall i :: 0 <= i < |keys| ==> keys[i] in keys;
    assert forall i, j :: 0 <= i < j < |keys| ==> Lt(KeyRank(keys[i]), KeyRank(keys[j]));
  }

  lemma WarmedIsGroup(sha256d: HashFn, st: Store, keys: seq<Key>, groups: map<Digest, seq<StoredBlock>>, p: Digest)
    requires RowsOk(st) && forall k :: k in keys <==> k in st.blocks
    requires forall i :: 0 <= i < |keys| ==> keys[i] in st.blocks
    requires WarmedAt(sha256d, st.blocks, keys, groups, p)
    ensures GroupOk(sha256d, st, p, GroupOf(groups, p)) && (p in groups ==> groups[p] != [])
  {
    hide NoDuplicates;
  }

  /** The reloaded group of every parent holds exactly its stored rows, and no empty group is loaded. */
  lemma ReopenedGroup(sha256d: HashFn, st: Store, p: Digest)
    requires RowsOk(st)
    ensures var groups := Reopened(sha256d, st).memGroups;
            GroupOk(sha256d, st, p, GroupOf(groups, p)) && (p in groups ==> groups[p] != [])
  {
    hide TableOrder, WarmedAt, GroupOk;
    var keys := TableOrder(st.blocks);
    TableOrderShape(st.blocks);
    GroupsWarmed(sha256d, st.blocks, keys, p);
    WarmedIsGroup(sha256d, st, keys, Reopened(sha256d, st).memGroups, p);
  }

  // ---------------------------------------------------------------- what survives

  ghost function Members(list: seq<StoredBlock>): set<StoredBlock> { set b | b in list }

  lemma SameMembers(sha256d: HashFn, st: Store, p: Digest, l1: seq<StoredBlock>, l2: seq<StoredBlock>)
    requires GroupOk(sha256d, st, p, l1) && GroupOk(sha256d, st, p, l2)
    ensures Members(l1) == Members(l2)
  {
    hide NoDuplicates;
    forall b
      ensures b in l1 <==> b in l2
    {
      if b in l1 || b in l2 {
        assert st.blocks[KeyOf(b)] == b;
      }
    }
  }

  /** Reopening keeps the tables, the cached rows and cursors, and every sibling group as a set; a parent
      survives exactly when it was classified. */
  lemma ReopenKeeps(sha256d: HashFn, st: Store)
    requires Consistent(sha256d, st)
    ensures var st' := Reopened(sha256d, st);
            && st'.memBlocks == st.memBlocks && st'.memCursors == st.memCursors
            && (forall p :: Members(GroupOf(st'.memGroups, p)) == Members(GroupOf(st.memGroups, p)))
            && (forall p :: p in st'.memParents <==> p in st.memParents && st.memParents[p].state != 0)
            && (st'.memParents == st.memParents <==> Unclassified(st) == {})
  {
    var st' := Reopened(sha256d, st);
    forall p: Digest
      ensures Members(GroupOf(st'.memGroups, p)) == Members(GroupOf(st.memGroups, p))
    {
      ReopenedGroup(sha256d, st, p);
      CachedGroupOk(sha256d, st, p);
      SameMembers(sha256d, st, p, GroupOf(st'.memGroups, p), GroupOf(st.memGroups, p));
    }
    SurvivingParents(sha256d, st);
  }

  lemma SurvivingParents(sha256d: HashFn, st: Store)
    requires ParentsOk(sha256d, st)
    ensures st.parents == st.memParents <==> Unclassified(st) == {}
  {
    if Unclassified(st) == {} {
      assert forall p :: p in st.memParents ==> p !in Unclassified(st);
    } else {
      var p :| p in Unclassified(st);
      assert p !in st.parents;
    }
  }

  /** Whatever was lost, the reopened store is consistent: every query still answers from its tables. */
  lemma ReopenedConsistent(sha256d: HashFn, st: Store)
    requires Consistent(sha256d, st)
    ensures Consistent(sha256d, Reopened(sha256d, st))
  {
    ReopenedGroups(sha256d, st);
    ReopenedTables(sha256d, st);
    hide RowsOk, IndexOk, GroupsOk, ParentsOk, TableOrder, WarmGroups;
  }

  lemma ReopenedTables(sha256d: HashFn, st: Store)
    requires RowsOk(st) && IndexOk(sha256d, st) && ParentsOk(sha256d, st)
    ensures var st' := Reopened(sha256d, st); RowsOk(st') && IndexOk(sha256d, st') && ParentsOk(sha256d, st')
  {
    hide TableOrder, WarmGroups;
  }

  lemma ReopenedGroups(sha256d: HashFn, st: Store)
    requires RowsOk(st)
    ensures GroupsOk(sha256d, Reopened(sha256d, st))
  {
    var st' := Reopened(sha256d, st);
    hide TableOrder, WarmGroups, NoDuplicates;
    forall p | p in st'.memGroups
      ensures GroupOk(sha256d, st', p, st'.memGroups[p])
    {
      ReopenedGroup(sha256d, st, p);
    }
    forall k | k in st'.blocks && ParentOf(sha256d, st'.blocks[k]).Some?
      ensures ParentOf(sha256d, st'.blocks[k]).value in st'.memGroups
    {
      ReopenedGroup(sha256d, st, ParentOf(sha256d, st.blocks[k]).value);
    }
  }

  /** The reopened store agrees exactly when no stored row's parent was left unclassified. */
  lemma ReopenAgreesIff(sha256d: HashFn, st: Store)
    requires Agrees(sha256d, st)
    ensures Agrees(sha256d, Reopened(sha256d, st))
            <==> forall k :: k in st.blocks ==> ParentOf(sha256d, st.blocks[k]).value !in Unclassified(st)
  {
    var st' := Reopened(sha256d, st);
    assert RowsOk(st) && GroupsOk(sha256d, st) && ParentsOk(sha256d, st) && GroupsHaveParents(st);
    ReopenedConsistent(sha256d, st);
    ReopenedGroups(sha256d, st);
    hide Consistent, TableOrder, WarmGroups, RowsOk, GroupsOk, ParentsOk;
    if k :| k in st.blocks && ParentOf(sha256d, st.blocks[k]).value in Unclassified(st) {
      LostParent(sha256d, st, k);
    } else {
      KeptParents(sha256d, st);
    }
  }

  lemma LostParent(sha256d: HashFn, st: Store, k: Key)
    requires RowsOk(st) && ParentsOk(sha256d, st) && GroupsOk(sha256d, Reopened(sha256d, st))
    requires k in st.blocks && ParentOf(sha256d, st.blocks[k]).value in Unclassified(st)
    ensures !GroupsHaveParents(Reopened(sha256d, st))
  {
    hide TableOrder, WarmGroups, GroupOk;
    var st' := Reopened(sha256d, st);
    var p := ParentOf(sha256d, st'.blocks[k]).value;
    assert p in st'.memGroups && p !in st'.memParents;
  }

  lemma KeptParents(sha256d: HashFn, st: Store)
    requires RowsOk(st) && GroupsOk(sha256d, st) && ParentsOk(sha256d, st) && GroupsHaveParents(st)
    requires forall k :: k in st.blocks ==> ParentOf(sha256d, st.blocks[k]).value !in Unclassified(st)
    ensures GroupsHaveParents(Reopened(sha256d, st))
  {
    var st' := Reopened(sha256d, st);
    hide TableOrder, WarmGroups;
    forall p | p in st'.memGroups
      ensures p in st'.memParents
    {
      ReopenedGroup(sha256d, st, p);
      var b := st'.memGroups[p][0];
      assert b in st'.memGroups[p];
      assert KeyOf(b) in st.blocks && ParentOf(sha256d, st.blocks[KeyOf(b)]) == Some(p);
    }
  }

  // ---------------------------------------------------------------- at tick boundaries

  lemma ClassifiedAll(st: Store, resolve: Resolver)
    ensures Unclassified(ClassifyAll(st, Unclassified(st), resolve)) == {}
  {
  }

  /** A tick leaves no parent unclassified if the tick before it did not; early returns change nothing. */
  lemma TickClassifies(sha256d: HashFn, config: Config, chain: Chain, st: Store, node: Node, resolve: Resolver)
    requires Unclassified(st) == {}
    ensures Unclassified(Tick(sha256d, config, chain, st, node, resolve).0) == {}
  {
    hide MakePlan, Applied, ClassifyAll, Unclassified;
    PlanInsertable(sha256d, config, chain, st, node);
    var plan := MakePlan(sha256d, config, chain, st, node);
    if plan.Ok? && plan.value.Work? {
      ClassifiedAll(Applied(sha256d, config, chain.id, st, plan.value), resolve);
    }
  }

  lemma {:induction false} TicksClassify(sha256d: HashFn, config: Config, chains: map<u32, Chain>,
                                         ticks: seq<TickInput>)
    requires forall i :: 0 <= i < |ticks| ==> ticks[i].chain in chains
    ensures Unclassified(TickSeq(sha256d, config, chains, EMPTY, ticks)) == {}
  {
    hide Tick;
    if ticks != [] {
      var n := |ticks| - 1;
      TicksClassify(sha256d, config, chains, ticks[..n]);
      hide Unclassified;
      TickClassifies(sha256d, config, chains[ticks[n].chain], TickSeq(sha256d, config, chains, EMPTY, ticks[..n]),
                     ticks[n].node, ticks[n].resolve);
    }
  }

  // ---------------------------------------------------------------- in every run

  /** A task that will still classify the parent before it rests. */
  ghost predicate WillClassify(phase: Phase, p: Digest) {
    phase.Inserted? || phase.Advanced? || phase.Pruning? || phase.Listing? || (phase.Classifying? && p in phase.todo)
  }

  ghost predicate AwaitedBy(sys: System, p: Digest, c: u32) {
    c in sys.tasks && WillClassify(sys.tasks[c], p)
  }

  /** Every unclassified parent has such a task. */
  ghost predicate Awaited(sys: System) {
    forall p :: p in Unclassified(sys.store) ==> exists c :: AwaitedBy(sys, p, c)
  }

  /** A parent left unclassified by a step is one its task will still classify, or one that was unclassified
      before and not awaited from that task. */
  lemma TaskAwaits(sha256d: HashFn, config: Config, chain: Chain, st: Store, phase: Phase, a: Answer, p: Digest)
    requires p in Unclassified(TaskStep(sha256d, config, chain, st, phase, a).0)
    ensures var (_, phase') := TaskStep(sha256d, config, chain, st, phase, a);
            WillClassify(phase', p) || (p in Unclassified(st) && !WillClassify(phase, p))
  {
    hide InsertRows, Start, Verified, PruneDue, PruneBound, Insertable, RetainAll, Touched, Emptied, CutKeys;
  }

  lemma AwaitedStep(sha256d: HashFn, config: Config, chains: map<u32, Chain>, sys: System, c: u32, a: Answer)
    requires c in chains && c in sys.tasks && Awaited(sys)
    ensures Awaited(Step(sha256d, config, chains, sys, c, a))
  {
    hide TaskStep, WillClassify, Unclassified;
    var sys' := Step(sha256d, config, chains, sys, c, a);
    forall p | p in Unclassified(sys'.store)
      ensures exists d :: AwaitedBy(sys', p, d)
    {
      TaskAwaits(sha256d, config, chains[c], sys.store, sys.tasks[c], a, p);
      if WillClassify(sys'.tasks[c], p) {
        assert AwaitedBy(sys', p, c);
      } else {
        var d :| AwaitedBy(sys, p, d);
        assert AwaitedBy(sys', p, d);
      }
    }
  }

  lemma {:induction false} AwaitedRun(sha256d: HashFn, config: Config, chains: map<u32, Chain>, sys: System,
                                      schedule: Schedule)
    requires chains.Keys == sys.tasks.Keys && Awaited(sys)
    requires forall i :: 0 <= i < |schedule| ==> schedule[i].0 in chains
    ensures Awaited(Run(sha256d, config, chains, sys, schedule))
  {
    hide Step, Awaited;
    if schedule != [] {
      var n := |schedule| - 1;
      AwaitedRun(sha256d, config, chains, sys, schedule[..n]);
      AwaitedStep(sha256d, config, chains, Run(sha256d, config, chains, sys, schedule[..n]),
                  schedule[n].0, schedule[n].1);
    }
  }

  /** At rest nothing is awaited, so nothing is unclassified. */
  lemma RestIsClassified(sys: System)
    requires Awaited(sys) && forall c :: c in sys.tasks ==> sys.tasks[c].Resting?
    ensures Unclassified(sys.store) == {}
  {
    hide Unclassified;
    assert forall p, c :: !AwaitedBy(sys, p, c);
    assert forall p :: p !in Unclassified(sys.store);
  }

  /** The reopened store is the same, up to the order within sibling groups, and it agrees. */
  ghost predicate NothingLost(sha256d: HashFn, st: Store) {
    var st' := Reopened(sha256d, st);
    && Agrees(sha256d, st')
    && st'.blocks == st.blocks && st'.memBlocks == st.memBlocks
    && st'.memCursors == st.memCursors && st'.memParents == st.memParents
    && forall p :: Members(GroupOf(st'.memGroups, p)) == Members(GroupOf(st.memGroups, p))
  }

  lemma ClassifiedLosesNothing(sha256d: HashFn, st: Store)
    requires Agrees(sha256d, st) && Unclassified(st) == {}
    ensures NothingLost(sha256d, st)
  {
    hide Consistent, Unclassified, Members, GroupOf;
    ReopenKeeps(sha256d, st);
    ReopenAgreesIff(sha256d, st);
  }

  /** In every run, whatever the interleaving: when all tasks rest, reopening loses nothing. */
  lemma ReopenLosesNothing(sha256d: HashFn, config: Config, chains: map<u32, Chain>, schedule: Schedule)
    requires ConfigOk(config) && ChainsOk(chains)
    requires forall i :: 0 <= i < |schedule| ==> schedule[i].0 in chains
    ensures var sys := Run(sha256d, config, chains, Initial(chains), schedule);
            (forall c :: c in chains ==> sys.tasks[c].Resting?) ==>
              Unclassified(sys.store) == {} && NothingLost(sha256d, sys.store)
  {
    hide Run, Agrees, RestingSafe, NothingLost;
    var sys := Run(sha256d, config, chains, Initial(chains), schedule);
    RunSafe(sha256d, config, chains, schedule);
    AwaitedRun(sha256d, config, chains, Initial(chains), schedule);
    if forall c :: c in chains ==> sys.tasks[c].Resting? {
      RestIsClassified(sys);
      ClassifiedLosesNothing(sha256d, sys.store);
    }
  }

  /** So after any sequence of ticks that do not overlap. */
  lemma ReopenAfterTicks(sha256d: HashFn, config: Config, chains: map<u32, Chain>, ticks: seq<TickInput>)
    requires ConfigOk(config) && ChainsOk(chains)
    requires forall i :: 0 <= i < |ticks| ==> ticks[i].chain in chains
    ensures NothingLost(sha256d, TickSeq(sha256d, config, chains, EMPTY, ticks))
  {
    hide TickSeq, Agrees, Unclassified, NothingLost;
    EmptyAtRest(sha256d, chains);
    TickSeqKeeps(sha256d, config, chains, EMPTY, ticks);
    TicksClassify(sha256d, config, chains, ticks);
    ClassifiedLosesNothing(sha256d, TickSeq(sha256d, config, chains, EMPTY, ticks));
  }
}
