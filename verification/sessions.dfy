/** Runs that are stopped at rest and continued on the reopened database, any number of times. */
module Sessions {
  import opened Bytes
  import opened Store
  import opened Ingest
  import opened Views
  import opened Machine
  import opened Safety
  import opened Reopen

  ghost predicate AllRest(sys: System) {
    forall c :: c in sys.tasks ==> sys.tasks[c].Resting?
  }

  /** The process starts again on the tables it left. */
  ghost function Restarted(sha256d: HashFn, sys: System): (r: System)
    ensures r.tasks.Keys == sys.tasks.Keys
  {
    System(Reopened(sha256d, sys.store), map c | c in sys.tasks :: Resting(None))
  }

  /** Only the tasks of configured chains move. */
  ghost predicate Configured(chains: map<u32, Chain>, schedule: Schedule) {
    forall i :: 0 <= i < |schedule| ==> schedule[i].0 in chains
  }

  ghost predicate AllConfigured(chains: map<u32, Chain>, sessions: seq<Schedule>) {
    forall n :: 0 <= n < |sessions| ==> Configured(chains, sessions[n])
  }

  /** One session after the other, a restart before each. */
  ghost function RunSessions(sha256d: HashFn, config: Config, chains: map<u32, Chain>, sys: System,
                             sessions: seq<Schedule>): (r: System)
    requires chains.Keys == sys.tasks.Keys
    requires AllConfigured(chains, sessions)
    ensures chains.Keys == r.tasks.Keys
  {
    if sessions == [] then sys
    else
      var n := |sessions| - 1;
      var before := RunSessions(sha256d, config, chains, sys, sessions[..n]);
      hide Reopened, Restarted;
      assert Configured(chains, sessions[n]);
      Run(sha256d, config, chains, Restarted(sha256d, before), sessions[n])
  }

  /** Every session but the last is stopped with all tasks at rest. */
  ghost predicate StoppedAtRest(sha256d: HashFn, config: Config, chains: map<u32, Chain>, sys: System,
                                sessions: seq<Schedule>)
    requires chains.Keys == sys.tasks.Keys
    requires AllConfigured(chains, sessions)
  {
    forall n :: 0 <= n < |sessions| ==> AllRest(RunSessions(sha256d, config, chains, sys, sessions[..n]))
  }

  /** A restart at rest, with every parent classified, keeps the invariant of the whole system. */
  lemma RestartKeeps(sha256d: HashFn, config: Config, chains: map<u32, Chain>, sys: System)
    requires SystemOk(sha256d, config, chains, sys) && AllRest(sys) && Unclassified(sys.store) == {}
    ensures SystemOk(sha256d, config, chains, Restarted(sha256d, sys))
    ensures Unclassified(Restarted(sha256d, sys).store) == {}
  {
    hide Agrees, ViewOf, Reopened, Unclassified, PhaseOk, NothingLost;
    var sys' := Restarted(sha256d, sys);
    ClassifiedLosesNothing(sha256d, sys.store);
    SameClassified(sha256d, sys.store);
    forall c | c in chains
      ensures PhaseOk(sha256d, config, chains[c], ViewOf(sys'.store, c), Resting(None))
    {
      RestartedView(sha256d, sys.store, c);
      RestForgets(sha256d, config, chains[c], ViewOf(sys.store, c), sys.tasks[c]);
    }
    LostNothing(sha256d, sys.store);
  }

  lemma LostNothing(sha256d: HashFn, st: Store)
    requires NothingLost(sha256d, st)
    ensures Agrees(sha256d, Reopened(sha256d, st))
  {
  }

  lemma SameClassified(sha256d: HashFn, st: Store)
    requires NothingLost(sha256d, st)
    ensures Unclassified(Reopened(sha256d, st)) == Unclassified(st)
  {
    hide Agrees, Reopened, Members;
  }

  lemma RestartedView(sha256d: HashFn, st: Store, c: u32)
    requires Agrees(sha256d, st)
    ensures ViewOf(Reopened(sha256d, st), c) == ViewOf(st, c)
  {
    hide TableOrder, WarmGroups, GroupsOk, ParentsOk, IndexOk;
  }

  lemma RestForgets(sha256d: HashFn, config: Config, chain: Chain, v: View, phase: Phase)
    requires PhaseOk(sha256d, config, chain, v, phase) && phase.Resting?
    ensures PhaseOk(sha256d, config, chain, v, Resting(None))
  {
    hide ViewOk;
  }

  lemma {:induction false} SessionsKeep(sha256d: HashFn, config: Config, chains: map<u32, Chain>, sys: System,
                                        sessions: seq<Schedule>)
    requires ConfigOk(config) && ChainsOk(chains) && chains.Keys == sys.tasks.Keys
    requires AllConfigured(chains, sessions)
    requires SystemOk(sha256d, config, chains, sys) && Awaited(sys)
    requires StoppedAtRest(sha256d, config, chains, sys, sessions)
    ensures var sys' := RunSessions(sha256d, config, chains, sys, sessions);
            SystemOk(sha256d, config, chains, sys') && Awaited(sys')
  {
    hide ConfigOk, ChainsOk, SystemOk, Awaited, Run, Restarted, AllRest;
    if sessions != [] {
      var n := |sessions| - 1;
      var before := RunSessions(sha256d, config, chains, sys, sessions[..n]);
      assert AllRest(before);
      StoppedEarlier(sha256d, config, chains, sys, sessions);
      SessionsKeep(sha256d, config, chains, sys, sessions[..n]);
      SessionKeeps(sha256d, config, chains, before, sessions[n]);
    }
  }

  lemma StoppedEarlier(sha256d: HashFn, config: Config, chains: map<u32, Chain>, sys: System, sessions: seq<Schedule>)
    requires chains.Keys == sys.tasks.Keys && sessions != []
    requires AllConfigured(chains, sessions)
    requires StoppedAtRest(sha256d, config, chains, sys, sessions)
    ensures StoppedAtRest(sha256d, config, chains, sys, sessions[..|sessions| - 1])
  {
    hide AllRest, RunSessions;
    var m := |sessions| - 1;
    forall n | 0 <= n < m
      ensures AllRest(RunSessions(sha256d, config, chains, sys, sessions[..m][..n]))
    {
      assert sessions[..m][..n] == sessions[..n];
    }
  }

  /** One session, from the restart to its end. */
  lemma SessionKeeps(sha256d: HashFn, config: Config, chains: map<u32, Chain>, before: System, session: Schedule)
    requires ConfigOk(config) && ChainsOk(chains) && chains.Keys == before.tasks.Keys
    requires Configured(chains, session)
    requires SystemOk(sha256d, config, chains, before) && Awaited(before) && AllRest(before)
    ensures var sys' := Run(sha256d, config, chains, Restarted(sha256d, before), session);
            SystemOk(sha256d, config, chains, sys') && Awaited(sys')
  {
    RestIsClassified(before);
    hide ConfigOk, ChainsOk, SystemOk, Run, Unclassified, Reopened, AllRest;
    var start := Restarted(sha256d, before);
    RestartKeeps(sha256d, config, chains, before);
    assert Awaited(start);
    hide Awaited;
    RunKeeps(sha256d, config, chains, start, session);
    AwaitedRun(sha256d, config, chains, start, session);
  }

  /** Safety across restarts. From an empty database, through any number of sessions that are stopped at
      rest: tables and caches agree, every resting chain is safe, and when all tasks rest again reopening
      loses nothing. */
  lemma SessionsSafe(sha256d: HashFn, config: Config, chains: map<u32, Chain>, sessions: seq<Schedule>)
    requires ConfigOk(config) && ChainsOk(chains)
    requires AllConfigured(chains, sessions)
    requires StoppedAtRest(sha256d, config, chains, Initial(chains), sessions)
    ensures var sys := RunSessions(sha256d, config, chains, Initial(chains), sessions);
            && Agrees(sha256d, sys.store)
            && (forall c :: c in chains && sys.tasks[c].Resting? ==>
                  RestingSafe(sha256d, config, chains[c], sys.store, sys.tasks[c].stored))
            && (AllRest(sys) ==> Unclassified(sys.store) == {} && NothingLost(sha256d, sys.store))
  {
    var start := Initial(chains);
    assert Awaited(start) by {
      assert Unclassified(EMPTY) == {};
    }
    InitialOk(sha256d, config, chains);
    hide Initial, RunSessions, Agrees, RestingSafe, PhaseOk, NothingLost, Awaited, StoppedAtRest, Unclassified;
    var sys := RunSessions(sha256d, config, chains, start, sessions);
    SessionsKeep(sha256d, config, chains, start, sessions);
    forall c | c in chains && sys.tasks[c].Resting?
      ensures RestingSafe(sha256d, config, chains[c], sys.store, sys.tasks[c].stored)
    {
      RestingMeans(sha256d, config, chains[c], sys.store, sys.tasks[c].stored);
    }
    if AllRest(sys) {
      RestIsClassified(sys);
      ClassifiedLosesNothing(sha256d, sys.store);
    }
  }
}
