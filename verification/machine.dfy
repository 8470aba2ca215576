/** The indexer as a state machine: one task per chain, each at some point of its tick, all sharing one
    store. Tasks interleave between any two calls of a store method; the node and the resolver may
    answer anything at every step. */
module Machine {
  import opened Bytes
  import opened Store
  import opened Ingest

  /** Where a task is. `stored` is the height the tick last inserted up to, if it inserted. */
  datatype Phase =
    | Resting(stored: Option<nat>)
    | Started(cursor: nat, end: nat)
    | Planned(pending: seq<StoredBlock>, stale: Option<nat>)
    | Inserting(pending: seq<StoredBlock>)
    | Inserted(last: nat)
    | Advanced(last: nat)
    | Pruning(last: nat)
    | Listing(stored: Option<nat>)
    | Classifying(stored: Option<nat>, todo: set<Digest>)

  /** `pick` is the parent whose answer arrives next. */
  datatype Answer = Answer(node: Node, resolve: Resolver, pick: Digest)

  datatype System = System(store: Store, tasks: map<u32, Phase>)

  /** Reads the tip and the cursor. */
  function Start(config: Config, chain: Chain, st: Store, node: Node): Phase {
    var cursor := StartCursor(config, chain, CursorOf(st, chain.id));
    if node.tip.None? || cursor.None? || cursor.value > node.tip.value then Resting(None)
    else
      var end := WindowEnd(config, cursor.value, node.tip.value);
      if SaturatingSucc(cursor.value) > end then Resting(None) else Started(cursor.value, end)
  }

  /** Fetches the window, reads the stored block below it, and verifies. */
  ghost function Verified(sha256d: HashFn, chain: Chain, st: Store, node: Node, cursor: nat, end: nat): Phase {
    var start := SaturatingSucc(cursor);
    if !Fetched(node, start, end) then Resting(None)
    else
      var (pending, stale) := Walk(sha256d, chain, node, start, end, PrevHash(st, chain.id, cursor));
      Planned(pending, stale)
  }

  /** One step of a chain's task. */
  ghost function TaskStep(sha256d: HashFn, config: Config, chain: Chain, st: Store, phase: Phase, a: Answer): (Store,
      Phase) {
    match phase
    case Resting(_) => (st, Start(config, chain, st, a.node))
    case Started(cursor, end) => (st, Verified(sha256d, chain, st, a.node, cursor, end))
    case Planned(pending, stale) =>
      (if stale.Some? then RollbackFrom(sha256d, st, chain.id, stale.value) else st, Inserting(pending))
    case Inserting(pending) =>
      if pending == [] then (st, Listing(None))
      else if forall i :: 0 <= i < |pending| ==> Insertable(pending[i]) then
        (InsertRows(sha256d, st, pending), Inserted(pending[|pending| - 1].height))
      else (st, Resting(None))
    case Inserted(last) => (SetCursor(st, chain.id, last), Advanced(last))
    case Advanced(last) =>
      (st, if config.maxKept.Some? && PruneDue(st, chain.id, last, config.maxKept.value)
           then Pruning(last) else Listing(Some(last)))
    case Pruning(last) =>
      (if config.maxKept.Some? then PruneBefore(sha256d, st, chain.id, PruneBound(last, config.maxKept.value)) else st,
       Listing(Some(last)))
    case Listing(stored) =>
      (st, if Unclassified(st) == {} then Resting(stored) else Classifying(stored, Unclassified(st)))
    case Classifying(stored, todo) =>
      if a.pick in todo then
        (ClassifyParent(st, a.pick, a.resolve(a.pick)),
         if todo == {a.pick} then Resting(stored) else Classifying(stored, todo - {a.pick}))
      else (st, phase)
  }

  /** The configured chains: ids are unique, so an id names its task. */
  ghost predicate ChainsOk(chains: map<u32, Chain>) {
    forall c :: c in chains ==> chains[c].id == c
  }

  ghost function Step(sha256d: HashFn, config: Config, chains: map<u32, Chain>, sys: System, c: u32, a: Answer): System
    requires c in chains && c in sys.tasks
  {
    var (st, phase) := TaskStep(sha256d, config, chains[c], sys.store, sys.tasks[c], a);
    System(st, sys.tasks[c := phase])
  }

  /** A schedule: which task moves next, and what it is told. */
  type Schedule = seq<(u32, Answer)>

  ghost function Run(sha256d: HashFn, config: Config, chains: map<u32, Chain>, sys: System,
                     schedule: Schedule): (r: System)
    requires chains.Keys == sys.tasks.Keys
    requires forall i :: 0 <= i < |schedule| ==> schedule[i].0 in chains
    ensures chains.Keys == r.tasks.Keys
  {
    if schedule == [] then sys
    else
      var n := |schedule| - 1;
      Step(sha256d, config, chains, Run(sha256d, config, chains, sys, schedule[..n]), schedule[n].0, schedule[n].1)
  }

  /** A fresh database and resting tasks. */
  function Initial(chains: map<u32, Chain>): System {
    System(EMPTY, map c | c in chains :: Resting(None))
  }
}
