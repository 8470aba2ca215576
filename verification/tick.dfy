/** A whole tick is a run of the machine in which only its own task moves; so a tick keeps everything
    that every run keeps. */
module Ticks {
  import opened Bytes
  import opened Store
  import opened Ingest
  import opened Views
  import opened Machine
  import opened Safety

  lemma {:induction false} RunConcat(sha256d: HashFn, config: Config, chains: map<u32, Chain>, sys: System,
                                     s: Schedule, t: Schedule)
    requires chains.Keys == sys.tasks.Keys
    requires forall i :: 0 <= i < |s| ==> s[i].0 in chains
    requires forall i :: 0 <= i < |t| ==> t[i].0 in chains
    ensures Run(sha256d, config, chains, sys, s + t)
            == Run(sha256d, config, chains, Run(sha256d, config, chains, sys, s), t)
  {
    hide Step;
    if t == [] {
      assert s + t == s;
    } else {
      var n := |t| - 1;
      RunConcat(sha256d, config, chains, sys, s, t[..n]);
      assert (s + t)[..|s| + n] == s + t[..n];
    }
  }

  lemma RunOne(sha256d: HashFn, config: Config, chains: map<u32, Chain>, sys: System, c: u32, a: Answer)
    requires chains.Keys == sys.tasks.Keys && c in chains
    ensures Run(sha256d, config, chains, sys, [(c, a)]) == Step(sha256d, config, chains, sys, c, a)
  {
    hide Step;
    assert [(c, a)][..0] == [];
  }

  /** A schedule in which only one task moves. */
  ghost predicate Solo(s: Schedule, c: u32) {
    forall i :: 0 <= i < |s| ==> s[i].0 == c
  }

  /** The machine can go from one state to another by moving one task alone. */
  ghost predicate SoloReaches(sha256d: HashFn, config: Config, chains: map<u32, Chain>, sys: System, c: u32,
                              sys': System)
    requires chains.Keys == sys.tasks.Keys && c in chains
  {
    exists s :: Solo(s, c) && Run(sha256d, config, chains, sys, s) == sys'
  }

  lemma SoloNow(sha256d: HashFn, config: Config, chains: map<u32, Chain>, sys: System, c: u32)
    requires chains.Keys == sys.tasks.Keys && c in chains
    ensures SoloReaches(sha256d, config, chains, sys, c, sys)
  {
    assert Solo([], c) && Run(sha256d, config, chains, sys, []) == sys;
  }

  /** One more step in front. */
  lemma SoloStep(sha256d: HashFn, config: Config, chains: map<u32, Chain>, sys: System, c: u32, a: Answer, sys': System)
    requires chains.Keys == sys.tasks.Keys && c in chains
    requires SoloReaches(sha256d, config, chains, Step(sha256d, config, chains, sys, c, a), c, sys')
    ensures SoloReaches(sha256d, config, chains, sys, c, sys')
  {
    assert chains.Keys == Step(sha256d, config, chains, sys, c, a).tasks.Keys by {
      hide TaskStep, Run, Solo;
    }
    hide Step, Run;
    var s :| Solo(s, c) && Run(sha256d, config, chains, Step(sha256d, config, chains, sys, c, a), s) == sys';
    RunOne(sha256d, config, chains, sys, c, a);
    RunConcat(sha256d, config, chains, sys, [(c, a)], s);
    assert Solo([(c, a)] + s, c);
  }

  /** What a task does next, without the rest of the system. */
  lemma SoloTask(sha256d: HashFn, config: Config, chains: map<u32, Chain>, st: Store, tasks: map<u32, Phase>, c: u32,
                 phase: Phase, a: Answer,
                 st1: Store, phase1: Phase, sys': System)
    requires chains.Keys == tasks.Keys && c in chains
    requires TaskStep(sha256d, config, chains[c], st, phase, a) == (st1, phase1)
    requires SoloReaches(sha256d, config, chains, System(st1, tasks[c := phase1]), c, sys')
    ensures SoloReaches(sha256d, config, chains, System(st, tasks[c := phase]), c, sys')
  {
    hide TaskStep, Run, Solo;
    var sys := System(st, tasks[c := phase]);
    assert tasks[c := phase][c := phase1] == tasks[c := phase1];
    assert Step(sha256d, config, chains, sys, c, a) == System(st1, tasks[c := phase1]);
    hide Step, SoloReaches;
    SoloStep(sha256d, config, chains, sys, c, a, sys');
  }

  // ---------------------------------------------------------------- classification, parent by parent

  /** Classifying the parents one at a time, in any order, ends where the closed form ends. */
  lemma {:induction false} ClassifyRun(sha256d: HashFn, config: Config, chains: map<u32, Chain>, st: Store,
                                       tasks: map<u32, Phase>, c: u32,
                    stored: Option<nat>, done: set<Digest>, todo: set<Digest>, node: Node, resolve: Resolver)
    requires chains.Keys == tasks.Keys && c in chains && done !! todo && todo != {}
    ensures SoloReaches(sha256d, config, chains,
                        System(ClassifyAll(st, done, resolve), tasks[c := Classifying(stored, todo)]), c,
                        System(ClassifyAll(st, done + todo, resolve), tasks[c := Resting(stored)]))
    decreases |todo|
  {
    hide ClassifyAll, ClassifyParent, SoloReaches, TaskStep, Run;
    var p :| p in todo;
    var a, rest := Answer(node, resolve, p), todo - {p};
    var st0, st1 := ClassifyAll(st, done, resolve), ClassifyAll(st, done + {p}, resolve);
    var sys' := System(ClassifyAll(st, done + todo, resolve), tasks[c := Resting(stored)]);
    var phase1 := if todo == {p} then Resting(stored) else Classifying(stored, rest);
    ClassifyStep(st, done, p, resolve);
    ClassifyOne(sha256d, config, chains[c], st0, stored, todo, a);
    if todo == {p} {
      assert done + {p} == done + todo;
      SoloNow(sha256d, config, chains, System(st1, tasks[c := phase1]), c);
    } else {
      assert todo == {p} + rest;
      assert done + {p} + rest == done + todo;
      ClassifyRun(sha256d, config, chains, st, tasks, c, stored, done + {p}, rest, node, resolve);
    }
    SoloTask(sha256d, config, chains, st0, tasks, c, Classifying(stored, todo), a, st1, phase1, sys');
  }

  lemma ClassifyOne(sha256d: HashFn, config: Config, chain: Chain, st: Store, stored: Option<nat>, todo: set<Digest>,
                    a: Answer)
    requires a.pick in todo
    ensures TaskStep(sha256d, config, chain, st, Classifying(stored, todo), a)
            == (ClassifyParent(st, a.pick, a.resolve(a.pick)),
                if todo == {a.pick} then Resting(stored) else Classifying(stored, todo - {a.pick}))
  {
    hide ClassifyParent;
  }

  /** From the point where a task lists the unclassified parents to the end of its tick. */
  lemma ListingRun(sha256d: HashFn, config: Config, chains: map<u32, Chain>, st: Store, tasks: map<u32, Phase>, c: u32,
                   stored: Option<nat>, node: Node, resolve: Resolver)
    requires chains.Keys == tasks.Keys && c in chains
    ensures SoloReaches(sha256d, config, chains, System(st, tasks[c := Listing(stored)]), c,
                        System(ClassifyAll(st, Unclassified(st), resolve), tasks[c := Resting(stored)]))
  {
    hide ClassifyAll, SoloReaches, Unclassified;
    var a, todo := Answer(node, resolve, seq(32, _ => 0)), Unclassified(st);
    var sys' := System(ClassifyAll(st, todo, resolve), tasks[c := Resting(stored)]);
    ClassifyNone(st, resolve);
    if todo == {} {
      SoloNow(sha256d, config, chains, sys', c);
      SoloTask(sha256d, config, chains, st, tasks, c, Listing(stored), a, st, Resting(stored), sys');
    } else {
      ClassifyRun(sha256d, config, chains, st, tasks, c, stored, {}, todo, node, resolve);
      assert {} + todo == todo;
      SoloTask(sha256d, config, chains, st, tasks, c, Listing(stored), a, st, Classifying(stored, todo), sys');
    }
  }

  // ---------------------------------------------------------------- the writes

  /** From the insert of a verified prefix to the end of the tick. */
  lemma StoreRun(sha256d: HashFn, config: Config, chains: map<u32, Chain>, st: Store, tasks: map<u32, Phase>, c: u32,
                 pending: seq<StoredBlock>, node: Node, resolve: Resolver)
    requires chains.Keys == tasks.Keys && ChainsOk(chains) && c in chains && pending != []
    requires forall i :: 0 <= i < |pending| ==> Insertable(pending[i])
    ensures var st' := StorePending(sha256d, config, c, st, pending);
            SoloReaches(sha256d, config, chains, System(st, tasks[c := Inserting(pending)]), c,
                        System(ClassifyAll(st', Unclassified(st'), resolve),
                               tasks[c := Resting(Some(pending[|pending| - 1].height))]))
  {
    hide ClassifyAll, SoloReaches, Unclassified, InsertRows, SetCursor, PruneDue, PruneBound, PruneBefore, Insertable;
    var a, last := Answer(node, resolve, seq(32, _ => 0)), pending[|pending| - 1].height;
    var st1 := InsertRows(sha256d, st, pending);
    var st2 := SetCursor(st1, c, last);
    var st3 := Prune(sha256d, config, c, st2, last);
    var sys' := System(ClassifyAll(st3, Unclassified(st3), resolve), tasks[c := Resting(Some(last))]);
    ListingRun(sha256d, config, chains, st3, tasks, c, Some(last), node, resolve);
    var due := config.maxKept.Some? && PruneDue(st2, c, last, config.maxKept.value);
    if due {
      SoloTask(sha256d, config, chains, st2, tasks, c, Pruning(last), a, st3, Listing(Some(last)), sys');
    }
    SoloTask(sha256d, config, chains, st2, tasks, c, Advanced(last), a, st2,
             if due then Pruning(last) else Listing(Some(last)), sys');
    SoloTask(sha256d, config, chains, st1, tasks, c, Inserted(last), a, st2, Advanced(last), sys');
    SoloTask(sha256d, config, chains, st, tasks, c, Inserting(pending), a, st1, Inserted(last), sys');
  }

  /** From a plan to the end of the tick. */
  lemma PlannedRun(sha256d: HashFn, config: Config, chains: map<u32, Chain>, st: Store, tasks: map<u32, Phase>, c: u32,
                   pending: seq<StoredBlock>, stale: Option<nat>, node: Node, resolve: Resolver)
    requires chains.Keys == tasks.Keys && ChainsOk(chains) && c in chains
    requires forall i :: 0 <= i < |pending| ==> Insertable(pending[i])
    ensures var st' := Applied(sha256d, config, c, st, Work(pending, stale));
            SoloReaches(sha256d, config, chains, System(st, tasks[c := Planned(pending, stale)]), c,
                        System(ClassifyAll(st', Unclassified(st'), resolve), tasks[c := Resting(StoredUpTo(pending))]))
  {
    hide ClassifyAll, SoloReaches, Unclassified, RollbackFrom, StorePending, Insertable;
    var a := Answer(node, resolve, seq(32, _ => 0));
    var st1 := if stale.Some? then RollbackFrom(sha256d, st, c, stale.value) else st;
    var st' := Applied(sha256d, config, c, st, Work(pending, stale));
    var sys' := System(ClassifyAll(st', Unclassified(st'), resolve), tasks[c := Resting(StoredUpTo(pending))]);
    if pending != [] {
      StoreRun(sha256d, config, chains, st1, tasks, c, pending, node, resolve);
    } else {
      ListingRun(sha256d, config, chains, st1, tasks, c, None, node, resolve);
      SoloTask(sha256d, config, chains, st1, tasks, c, Inserting(pending), a, st1, Listing(None), sys');
    }
    SoloTask(sha256d, config, chains, st, tasks, c, Planned(pending, stale), a, st1, Inserting(pending), sys');
  }

  function StoredUpTo(pending: seq<StoredBlock>): Option<nat> {
    if pending == [] then None else Some(pending[|pending| - 1].height)
  }

  /** What a finished tick stored up to. */
  function TickStored(r: Result<seq<StoredBlock>, TickError>): Option<nat> {
    if r.Ok? then StoredUpTo(r.value) else None
  }

  /** Every tick is a run of its own task: from rest to rest, ending in the store the tick leaves. */
  lemma TickIsRun(sha256d: HashFn, config: Config, chains: map<u32, Chain>, st: Store, tasks: map<u32, Phase>, c: u32,
                  node: Node, resolve: Resolver)
    requires chains.Keys == tasks.Keys && ChainsOk(chains) && c in chains && tasks[c].Resting?
    ensures var (st', r) := Tick(sha256d, config, chains[c], st, node, resolve);
            SoloReaches(sha256d, config, chains, System(st, tasks), c,
                        System(st', tasks[c := Resting(TickStored(r))]))
  {
    hide ClassifyAll, SoloReaches, Unclassified, Applied, Walk, Insertable, StartCursor, WindowEnd, PrevHash, Fetched;
    var (st', r) := Tick(sha256d, config, chains[c], st, node, resolve);
    var sys' := System(st', tasks[c := Resting(TickStored(r))]);
    var a := Answer(node, resolve, seq(32, _ => 0));
    var phase := Start(config, chains[c], st, node);
    assert tasks[c := tasks[c]] == tasks;
    if phase.Resting? {
      SoloNow(sha256d, config, chains, sys', c);
    } else {
      var next := Verified(sha256d, chains[c], st, node, phase.cursor, phase.end);
      if next.Resting? {
        SoloNow(sha256d, config, chains, sys', c);
      } else {
        PlanInsertable(sha256d, config, chains[c], st, node);
        PlannedRun(sha256d, config, chains, st, tasks, c, next.pending, next.stale, node, resolve);
      }
      SoloTask(sha256d, config, chains, st, tasks, c, phase, a, st, next, sys');
    }
    SoloTask(sha256d, config, chains, st, tasks, c, tasks[c], a, st, phase, sys');
  }

  lemma {:induction false} SoloLeavesOthers(sha256d: HashFn, config: Config, chains: map<u32, Chain>, sys: System,
                                            s: Schedule, c: u32, d: u32)
    requires ConfigOk(config) && ChainsOk(chains) && chains.Keys == sys.tasks.Keys
             && SystemOk(sha256d, config, chains, sys)
    requires c in chains && d in chains && c != d && Solo(s, c)
    ensures ViewOf(Run(sha256d, config, chains, sys, s).store, d) == ViewOf(sys.store, d)
  {
    hide ConfigOk, ChainsOk, SystemOk, Step, ViewOf;
    if s != [] {
      var n := |s| - 1;
      assert s[n].0 == c;
      SoloLeavesOthers(sha256d, config, chains, sys, s[..n], c, d);
      RunKeeps(sha256d, config, chains, sys, s[..n]);
      StepKeeps(sha256d, config, chains, Run(sha256d, config, chains, sys, s[..n]), c, s[n].1);
    }
  }

  /** Every chain is in order and no task is inside a tick. */
  ghost predicate AtRest(sha256d: HashFn, chains: map<u32, Chain>, st: Store) {
    Agrees(sha256d, st) && forall c :: c in chains ==> ViewOk(sha256d, chains[c], ViewOf(st, c))
  }

  /** A tick keeps every chain in order, is safe on its own chain, and leaves the others alone. */
  lemma TickKeeps(sha256d: HashFn, config: Config, chains: map<u32, Chain>, st: Store, c: u32, node: Node,
                  resolve: Resolver)
    requires ConfigOk(config) && ChainsOk(chains) && c in chains && AtRest(sha256d, chains, st)
    ensures var (st', r) := Tick(sha256d, config, chains[c], st, node, resolve);
            && AtRest(sha256d, chains, st')
            && RestingSafe(sha256d, config, chains[c], st', TickStored(r))
            && forall d :: d in chains && d != c ==> ViewOf(st', d) == ViewOf(st, d)
  {
    hide Tick, Run, Agrees, RestingSafe, ViewOf, ViewOk, Solo;
    var (st', r) := Tick(sha256d, config, chains[c], st, node, resolve);
    var tasks := map d | d in chains :: Resting(None);
    var sys := System(st, tasks);
    var sys' := System(st', tasks[c := Resting(TickStored(r))]);
    assert SystemOk(sha256d, config, chains, sys);
    TickIsRun(sha256d, config, chains, st, tasks, c, node, resolve);
    hide SystemOk;
    SoloSafe(sha256d, config, chains, sys, c, sys');
    SystemAtRest(sha256d, config, chains, sys');
    RestingMeans(sha256d, config, chains[c], st', TickStored(r));
  }

  lemma SoloSafe(sha256d: HashFn, config: Config, chains: map<u32, Chain>, sys: System, c: u32, sys': System)
    requires ConfigOk(config) && ChainsOk(chains) && chains.Keys == sys.tasks.Keys && c in chains
    requires SystemOk(sha256d, config, chains, sys) && SoloReaches(sha256d, config, chains, sys, c, sys')
    ensures SystemOk(sha256d, config, chains, sys')
    ensures forall d :: d in chains && d != c ==> ViewOf(sys'.store, d) == ViewOf(sys.store, d)
  {
    hide SystemOk, ConfigOk, ChainsOk, Run, ViewOf;
    var s :| Solo(s, c) && Run(sha256d, config, chains, sys, s) == sys';
    RunKeeps(sha256d, config, chains, sys, s);
    forall d | d in chains && d != c
      ensures ViewOf(sys'.store, d) == ViewOf(sys.store, d)
    {
      SoloLeavesOthers(sha256d, config, chains, sys, s, c, d);
    }
  }

  lemma SystemAtRest(sha256d: HashFn, config: Config, chains: map<u32, Chain>, sys: System)
    requires SystemOk(sha256d, config, chains, sys)
    requires forall d :: d in chains ==> sys.tasks[d].Resting?
    ensures AtRest(sha256d, chains, sys.store)
    ensures forall d :: d in chains ==> PhaseOk(sha256d, config, chains[d], ViewOf(sys.store, d), sys.tasks[d])
  {
    hide Agrees, ViewOf, ViewOk, Settled;
  }

  // ---------------------------------------------------------------- ticks one after another

  datatype TickInput = TickInput(chain: u32, node: Node, resolve: Resolver)

  /** A sequence of ticks that do not overlap. */
  ghost function TickSeq(sha256d: HashFn, config: Config, chains: map<u32, Chain>, st: Store,
                         ticks: seq<TickInput>): Store
    requires forall i :: 0 <= i < |ticks| ==> ticks[i].chain in chains
  {
    if ticks == [] then st
    else
      var n := |ticks| - 1;
      var before := TickSeq(sha256d, config, chains, st, ticks[..n]);
      Tick(sha256d, config, chains[ticks[n].chain], before, ticks[n].node, ticks[n].resolve).0
  }

  lemma {:induction false} TickSeqKeeps(sha256d: HashFn, config: Config, chains: map<u32, Chain>, st: Store,
                                        ticks: seq<TickInput>)
    requires ConfigOk(config) && ChainsOk(chains) && AtRest(sha256d, chains, st)
    requires forall i :: 0 <= i < |ticks| ==> ticks[i].chain in chains
    ensures AtRest(sha256d, chains, TickSeq(sha256d, config, chains, st, ticks))
  {
    hide ConfigOk, ChainsOk, AtRest, Tick, RestingSafe;
    if ticks != [] {
      var n := |ticks| - 1;
      TickSeqKeeps(sha256d, config, chains, st, ticks[..n]);
      var before := TickSeq(sha256d, config, chains, st, ticks[..n]);
      TickKeeps(sha256d, config, chains, before, ticks[n].chain, ticks[n].node, ticks[n].resolve);
    }
  }

  /** A chain that does not tick keeps its rows and its cursor. */
  lemma {:induction false} TickSeqLeaves(sha256d: HashFn, config: Config, chains: map<u32, Chain>, st: Store,
                                         ticks: seq<TickInput>, d: u32)
    requires ConfigOk(config) && ChainsOk(chains) && d in chains
    requires forall i :: 0 <= i < |ticks| ==> ticks[i].chain in chains && ticks[i].chain != d
    requires AtRest(sha256d, chains, st)
    ensures ViewOf(TickSeq(sha256d, config, chains, st, ticks), d) == ViewOf(st, d)
  {
    hide ConfigOk, ChainsOk, AtRest, Tick, RestingSafe, ViewOf;
    if ticks != [] {
      var n := |ticks| - 1;
      TickSeqLeaves(sha256d, config, chains, st, ticks[..n], d);
      TickSeqKeeps(sha256d, config, chains, st, ticks[..n]);
      var before := TickSeq(sha256d, config, chains, st, ticks[..n]);
      TickKeeps(sha256d, config, chains, before, ticks[n].chain, ticks[n].node, ticks[n].resolve);
    }
  }

  lemma EmptyAtRest(sha256d: HashFn, chains: map<u32, Chain>)
    ensures AtRest(sha256d, chains, EMPTY)
  {
    hide Agrees, ViewOf, ViewOk;
    EmptyAgrees(sha256d);
    forall c | c in chains
      ensures ViewOk(sha256d, chains[c], ViewOf(EMPTY, c))
    {
      EmptyViewOk(sha256d, chains[c], c);
    }
  }

  lemma EmptyViewOk(sha256d: HashFn, chain: Chain, c: u32)
    ensures ViewOk(sha256d, chain, ViewOf(EMPTY, c))
  {
    InView(EMPTY, c);
    assert ViewOf(EMPTY, c).rows == map[];
  }
}
