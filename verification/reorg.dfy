/** Recovery inside arbitrary runs: the tasks of other chains may move between any two steps. */
module Reorg {
  import opened Arith
  import opened Bytes
  import opened Store
  import opened Agreement
  import opened Ingest
  import opened Views
  import opened Machine
  import opened Safety
  import opened Retention
  import opened Recovery

  /** The node's next blocks above the cursor, as many as one batch takes. */
  ghost predicate IsNext(sha256d: HashFn, config: Config, race: Race, v: View, pending: seq<StoredBlock>) {
    var cursor := StartCursor(config, race.chain, v.cursor);
    && cursor.Some? && cursor.value < race.tip
    && |pending| == Min(config.maxBatch, race.tip - cursor.value)
    && forall i :: 0 <= i < |pending| ==>
         Some(pending[i]) == BlockAt(sha256d, race.chain, race.node, cursor.value + 1 + i)
  }

  /** Where the race's task is, when `left` ticks were needed at the start of the present tick. Inside a tick at
      least one is. */
  ghost predicate Progress(sha256d: HashFn, config: Config, race: Race, v: View, phase: Phase, left: int) {
    (phase.Resting? || left >= 1) &&
    match phase
    case Resting(_) => OnCourse(sha256d, config, race, v, left)
    case Started(cursor, end) =>
      && OnCourse(sha256d, config, race, v, left)
      && StartCursor(config, race.chain, v.cursor) == Some(cursor) && cursor < race.tip
      && end == cursor + Min(config.maxBatch, race.tip - cursor)
    case Planned(pending, stale) =>
      if stale.Some? then
        && Lags(sha256d, config, race, v, left) && pending == []
        && StartCursor(config, race.chain, v.cursor) == stale
      else Tracks(sha256d, config, race, v, left) && IsNext(sha256d, config, race, v, pending)
    case Inserting(pending) =>
      if pending == [] then OnCourse(sha256d, config, race, v, left - 1)
      else Tracks(sha256d, config, race, v, left) && IsNext(sha256d, config, race, v, pending)
    case Inserted(last) => Tracks(sha256d, config, race, View(v.rows, Some(last)), left - 1)
    case Advanced(last) => Tracks(sha256d, config, race, v, left - 1)
    case Pruning(last) => Tracks(sha256d, config, race, v, left - 1)
    case Listing(_) => OnCourse(sha256d, config, race, v, left - 1)
    case Classifying(_, _) => OnCourse(sha256d, config, race, v, left - 1)
  }

  // ---------------------------------------------------------------- the steps of the chain's own task

  lemma StartProgress(sha256d: HashFn, config: Config, race: Race, st: Store, left: int)
    requires OnCourse(sha256d, config, race, ViewOf(st, race.chain.id), left)
    ensures var phase := Start(config, race.chain, st, race.node);
            Progress(sha256d, config, race, ViewOf(st, race.chain.id), phase, if phase.Resting? then left - 1 else left)
  {
    hide ViewOf, BlockAt, LinksTo, Behind, Following, ServedAbove, NodeHash, StartCursor, CaughtUp;
    var v := ViewOf(st, race.chain.id);
    ViewCursor(st, race.chain.id);
    TrackDone(sha256d, config, race, v, left);
    TipServed(sha256d, config, race, v);
    var m := StartCursor(config, race.chain, v.cursor).value;
    if m < race.tip {
      StartOpens(config, race.chain, st, race.node, m, race.tip);
    } else {
      StartAtTip(config, race.chain, st, race.node, race.tip);
    }
  }

  lemma StartAtTip(config: Config, chain: Chain, st: Store, node: Node, tip: u64)
    requires ConfigOk(config) && node.tip == Some(tip)
    requires StartCursor(config, chain, CursorOf(st, chain.id)) == Some(tip)
    ensures Start(config, chain, st, node) == Resting(None)
  {
    hide WindowEnd;
    NothingAboveTip(config, tip);
  }

  lemma VerifyProgress(sha256d: HashFn, config: Config, race: Race, st: Store, cursor: nat, end: nat, left: int)
    requires Agrees(sha256d, st) && ViewOk(sha256d, race.chain, ViewOf(st, race.chain.id))
    requires Progress(sha256d, config, race, ViewOf(st, race.chain.id), Started(cursor, end), left)
    ensures Verified(sha256d, race.chain, st, race.node, cursor, end).Planned?
    ensures Progress(sha256d, config, race, ViewOf(st, race.chain.id),
                     Verified(sha256d, race.chain, st, race.node, cursor, end), left)
  {
    hide Agrees, ViewOk, ViewOf, BlockAt, LinksTo, Behind, Following, ServedAbove, NodeHash, StartCursor, Verified;
    var v := ViewOf(st, race.chain.id);
    TipServed(sha256d, config, race, v);
    if Tracks(sha256d, config, race, v, left) {
      TrackMeets(sha256d, config, race, v, left);
      VerifiedAhead(sha256d, race.chain, st, race.node, cursor, end, race.tip);
    } else {
      assert Lags(sha256d, config, race, v, left);
      LagBelow(sha256d, config, race, v, left);
      LagStep(sha256d, config, race, v, left);
      VerifiedBack(sha256d, race.chain, st, race.node, cursor, end, race.tip);
    }
  }

  lemma LagBelow(sha256d: HashFn, config: Config, race: Race, v: View, left: int)
    requires InRace(sha256d, config, race, v) && ViewOk(sha256d, race.chain, v)
    ensures forall h :: h in v.rows ==> h <= StartCursor(config, race.chain, v.cursor).value
  {
    hide ViewOk, ServedAbove, StartCursor;
    RowsBelow(sha256d, config, race.chain, v, StartCursor(config, race.chain, v.cursor).value);
  }

  lemma PlannedProgress(sha256d: HashFn, config: Config, race: Race, st: Store, pending: seq<StoredBlock>,
                        stale: Option<nat>, left: int)
    requires PhaseOk(sha256d, config, race.chain, ViewOf(st, race.chain.id), Planned(pending, stale))
    requires Progress(sha256d, config, race, ViewOf(st, race.chain.id), Planned(pending, stale), left)
    ensures var st' := if stale.Some? then RollbackFrom(sha256d, st, race.chain.id, stale.value) else st;
            Progress(sha256d, config, race, ViewOf(st', race.chain.id), Inserting(pending), left)
  {
    hide ViewOk, ViewOf, RollbackFrom, RolledBack, BlockAt, LinksTo, Behind, Following, ServedAbove, NodeHash,
         StartCursor, Continues, Tracks;
    var v := ViewOf(st, race.chain.id);
    if stale.Some? {
      LagBelow(sha256d, config, race, v, left);
      LagStep(sha256d, config, race, v, left);
      RollbackView(sha256d, st, race.chain.id, stale.value, race.chain.id);
      RolledBackKeeps(sha256d, config, race.chain, v, pending, stale.value);
    } else {
      NextIsSome(sha256d, config, race, v, pending, left);
    }
  }

  lemma NextIsSome(sha256d: HashFn, config: Config, race: Race, v: View, pending: seq<StoredBlock>, left: int)
    requires Tracks(sha256d, config, race, v, left) && IsNext(sha256d, config, race, v, pending)
    ensures pending != []
  {
    hide StartCursor, ServedAbove, Following, BlockAt;
  }

  lemma InsertProgress(sha256d: HashFn, config: Config, race: Race, st: Store, pending: seq<StoredBlock>, left: int)
    requires PhaseOk(sha256d, config, race.chain, ViewOf(st, race.chain.id), Inserting(pending)) && pending != []
    requires forall i :: 0 <= i < |pending| ==> Insertable(pending[i]) && pending[i].chainId == race.chain.id
    requires Progress(sha256d, config, race, ViewOf(st, race.chain.id), Inserting(pending), left)
    ensures Progress(sha256d, config, race, ViewOf(InsertRows(sha256d, st, pending), race.chain.id),
                     Inserted(pending[|pending| - 1].height), left)
  {
    hide ViewOk, ViewOf, InsertRows, BlockAt, LinksTo, Behind, Following, ServedAbove, NodeHash, StartCursor, Extended,
         Insertable, RowFits;
    var v := ViewOf(st, race.chain.id);
    var m := StartCursor(config, race.chain, v.cursor).value;
    InsertView(sha256d, st, pending, race.chain.id);
    BatchRows(sha256d, race.chain, v.rows, m, pending);
    assert forall i :: 0 <= i < |pending| ==> KeyOf(pending[i]) == (race.chain.id, m + 1 + i);
    LagBelow(sha256d, config, race, v, left);
    ExtendedMeans(v.rows, m, pending);
    var v' := View(Extended(v.rows, pending), Some(m + |pending|));
    forall h | h in v'.rows && h > m
      ensures h <= m + |pending| && Some(v'.rows[h]) == BlockAt(sha256d, race.chain, race.node, h)
    {
      assert v'.rows[m + 1 + (h - m - 1)] == pending[h - m - 1];
    }
    TrackStep(sha256d, config, race, v, v', left);
  }

  /** One step of the chain's own task, told by the race's node: a tick that ends used up one tick. */
  lemma OwnProgress(sha256d: HashFn, config: Config, race: Race, st: Store, phase: Phase, a: Answer, left: int)
    requires Agrees(sha256d, st) && PhaseOk(sha256d, config, race.chain, ViewOf(st, race.chain.id), phase)
    requires Progress(sha256d, config, race, ViewOf(st, race.chain.id), phase, left) && a.node == race.node
    ensures var (st', phase') := TaskStep(sha256d, config, race.chain, st, phase, a);
            Progress(sha256d, config, race, ViewOf(st', race.chain.id), phase',
                     if phase'.Resting? then left - 1 else left)
  {
    hide Agrees, ViewOf, ViewOk, PlanOk, Reaches, InWindow, RollbackFrom, PruneBefore, InsertRows, Start, Verified,
         SetCursor, PruneDue, PruneBound, Unclassified, FreshRows, Insertable, StartCursor, OnCourse, Tracks, Lags,
         IsNext;
    var c := race.chain.id;
    var v := ViewOf(st, c);
    match phase
    case Resting(_) => StartProgress(sha256d, config, race, st, left);
    case Started(cursor, end) => VerifyProgress(sha256d, config, race, st, cursor, end, left);
    case Planned(pending, stale) => PlannedProgress(sha256d, config, race, st, pending, stale, left);
    case Inserting(pending) =>
      if pending != [] {
        BatchIsFresh(sha256d, config, race.chain, st, pending);
        InsertProgress(sha256d, config, race, st, pending, left);
      }
    case Inserted(last) => CursorView(st, c, last, c);
    case Advanced(last) => TrackIsCourse(sha256d, config, race, v, left - 1);
    case Pruning(last) =>
      var below := PruneBound(last, config.maxKept.value);
      PruneView(sha256d, st, c, below, c);
      var v' := ViewOf(PruneBefore(sha256d, st, c, below), c);
      ViewCursor(st, c);
      PrunedRows(sha256d, config, race.chain, v, last);
      CursorIs(config, race.chain, v, last);
      TrackPruned(sha256d, config, race, v, v', left - 1);
      TrackIsCourse(sha256d, config, race, v', left - 1);
    case Classifying(_, todo) => ViewFrame(st, ClassifyParent(st, a.pick, a.resolve(a.pick)), c);
    case _ =>
  }

  lemma TrackIsCourse(sha256d: HashFn, config: Config, race: Race, v: View, left: int)
    requires Tracks(sha256d, config, race, v, left)
    ensures OnCourse(sha256d, config, race, v, left)
  {
  }

  // ---------------------------------------------------------------- whole runs

  /** The race's task is always told by the race's node. */
  ghost predicate FairRun(chains: map<u32, Chain>, race: Race, schedule: Schedule) {
    forall i :: 0 <= i < |schedule| ==>
      schedule[i].0 in chains && (schedule[i].0 == race.chain.id ==> schedule[i].1.node == race.node)
  }

  /** The ticks of one chain that a run completes: the steps after which its task rests. */
  ghost function Completed(sha256d: HashFn, config: Config, chains: map<u32, Chain>, sys: System, schedule: Schedule,
                           c: u32): nat
    requires chains.Keys == sys.tasks.Keys && c in chains
    requires forall i :: 0 <= i < |schedule| ==> schedule[i].0 in chains
  {
    if schedule == [] then 0
    else
      var n := |schedule| - 1;
      Completed(sha256d, config, chains, sys, schedule[..n], c)
      + (if schedule[n].0 == c && Run(sha256d, config, chains, sys, schedule).tasks[c].Resting? then 1 else 0)
  }

  ghost predicate RaceOn(sha256d: HashFn, config: Config, race: Race, sys: System, left: int) {
    race.chain.id in sys.tasks
    && Progress(sha256d, config, race, ViewOf(sys.store, race.chain.id), sys.tasks[race.chain.id], left)
  }

  /** One step of any task. */
  lemma RaceStep(sha256d: HashFn, config: Config, chains: map<u32, Chain>, race: Race, sys: System, c: u32, a: Answer,
                 left: int)
    requires ConfigOk(config) && Entered(chains, race) && SystemOk(sha256d, config, chains, sys) && c in chains
    requires c == race.chain.id ==> a.node == race.node
    requires RaceOn(sha256d, config, race, sys, left)
    ensures var sys' := Step(sha256d, config, chains, sys, c, a);
            RaceOn(sha256d, config, race, sys',
                   if c == race.chain.id && sys'.tasks[c].Resting? then left - 1 else left)
  {
    hide ConfigOk, Agrees, PhaseOk, Progress, TaskStep, ViewOf;
    if c == race.chain.id {
      OwnProgress(sha256d, config, race, sys.store, sys.tasks[c], a, left);
    } else {
      StepKeeps(sha256d, config, chains, sys, c, a);
    }
  }

  lemma {:induction false} RunOnCourse(sha256d: HashFn, config: Config, chains: map<u32, Chain>, race: Race,
                                       sys: System, schedule: Schedule, left: int)
    requires ConfigOk(config) && Entered(chains, race) && chains.Keys == sys.tasks.Keys
    requires FairRun(chains, race, schedule)
    requires SystemOk(sha256d, config, chains, sys) && RaceOn(sha256d, config, race, sys, left)
    ensures RaceOn(sha256d, config, race, Run(sha256d, config, chains, sys, schedule),
                   left - Completed(sha256d, config, chains, sys, schedule, race.chain.id))
  {
    hide ConfigOk, SystemOk, RaceOn, Step;
    if schedule != [] {
      var n := |schedule| - 1;
      var c, a := schedule[n].0, schedule[n].1;
      RunOnCourse(sha256d, config, chains, race, sys, schedule[..n], left);
      RunKeeps(sha256d, config, chains, sys, schedule[..n]);
      var before := Run(sha256d, config, chains, sys, schedule[..n]);
      RaceStep(sha256d, config, chains, race, before, c, a,
               left - Completed(sha256d, config, chains, sys, schedule[..n], race.chain.id));
    }
  }

  /** Recovery terminates in every run. Start with `cursor - fork` wrong blocks on top and the node's tip
      above the cursor, the chain's own task at rest. Once the chain has completed
      `(cursor - fork) + ceil((tip - fork) / maxBatch)` ticks, whatever the other tasks did between any two
      of its steps, it has caught up, and it stays so. */
  lemma Recovers(sha256d: HashFn, config: Config, chains: map<u32, Chain>, race: Race, sys: System, cursor: nat,
                 schedule: Schedule)
    requires Reachable(config, race, cursor) && Entered(chains, race) && chains.Keys == sys.tasks.Keys
    requires FairRun(chains, race, schedule)
    requires SystemOk(sha256d, config, chains, sys) && sys.tasks[race.chain.id].Resting?
    requires ForkAt(sha256d, config, race, ViewOf(sys.store, race.chain.id), cursor)
    requires Completed(sha256d, config, chains, sys, schedule, race.chain.id) >= TicksNeeded(config, race, cursor)
    ensures CaughtUp(sha256d, config, race, ViewOf(Run(sha256d, config, chains, sys, schedule).store, race.chain.id))
  {
    hide ForkAt, ViewOf, TicksNeeded, Run, Completed, OnCourse, CaughtUp;
    var c, left := race.chain.id, TicksNeeded(config, race, cursor);
    RestingView(sha256d, config, chains, sys, c);
    hide SystemOk;
    CourseAtFork(sha256d, config, race, ViewOf(sys.store, c), cursor);
    RunOnCourse(sha256d, config, chains, race, sys, schedule, left);
    var end := Run(sha256d, config, chains, sys, schedule);
    TrackDone(sha256d, config, race, ViewOf(end.store, c),
              left - Completed(sha256d, config, chains, sys, schedule, c));
  }

  lemma RestingView(sha256d: HashFn, config: Config, chains: map<u32, Chain>, sys: System, c: u32)
    requires SystemOk(sha256d, config, chains, sys) && c in chains && sys.tasks[c].Resting?
    ensures ViewOk(sha256d, chains[c], ViewOf(sys.store, c))
  {
    hide Agrees, ViewOf, ViewOk, Settled;
  }
}
