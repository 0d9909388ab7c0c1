/**
 As written, the directory copier can hang or finish whatever it copies and however many workers it
 has: a scheduler that lets one worker do all the copying, and then stops it between its test of
 `done` and its wait, brings about the missed shutdown; one that lets `main` go first, the end.
 */
module CopierShutdown {
  import opened CopierTree
  import opened CopierRing
  import opened CopierProtocol
  import opened CopierInvariant
  import opened CopierRefinement
  import opened CopierSafety
  import opened CopierTermination
  import opened CopierProgress

  // ---------------------------------------------------------------------------------------
  // Extending runs.

  ghost predicate IsQuietRun(c: Config, states: seq<State>, actions: seq<Action>) {
    IsRun(c, states, actions) && NoSpurious(actions)
  }

  function Last(states: seq<State>): State
    requires states != []
  {
    states[|states| - 1]
  }

  lemma Extend(c: Config, states: seq<State>, actions: seq<Action>, a: Action)
    requires IsQuietRun(c, states, actions) && Enabled(c, Last(states), a) && !Spurious(a)
    ensures IsQuietRun(c, states + [Next(c, Last(states), a)], actions + [a])
  {
    var all, acts := states + [Next(c, Last(states), a)], actions + [a];
    forall k {:trigger acts[k]} | 0 <= k < |acts| ensures Follows(c, all[k], acts[k], all[k + 1]) {
      if k < |actions| {
        assert acts[k] == actions[k] && all[k] == states[k] && all[k + 1] == states[k + 1];
      }
    }
  }

  /** One more step brings the end of the run nearer. */
  lemma StepOn(c: Config, states: seq<State>, actions: seq<Action>, a: Action)
    requires ValidConfig(c) && IsQuietRun(c, states, actions) && Enabled(c, Last(states), a) && !Spurious(a)
    ensures var s' := Next(c, Last(states), a);
            && IsQuietRun(c, states + [s'], actions + [a]) && Last(states + [s']) == s'
            && Rank(s') < Rank(Last(states))
  {
    RunKeepsInv(c, states, actions, |actions|);
    Extend(c, states, actions, a);
    StepLowersRank(c, Last(states), a, Next(c, Last(states), a));
  }

  /** The actions can be taken one after the other. */
  ghost predicate CanTake(c: Config, s: State, actions: seq<Action>)
    decreases |actions|
  {
    actions == [] ||
    (Enabled(c, s, actions[0]) && !Spurious(actions[0]) && CanTake(c, Next(c, s, actions[0]), actions[1..]))
  }

  ghost function Taken(c: Config, s: State, actions: seq<Action>): State
    requires CanTake(c, s, actions)
    decreases |actions|
  {
    if actions == [] then s else Taken(c, Next(c, s, actions[0]), actions[1..])
  }

  lemma {:induction false} ExtendAll(c: Config, states: seq<State>, actions: seq<Action>, more: seq<Action>)
    returns (states': seq<State>, actions': seq<Action>)
    requires IsQuietRun(c, states, actions) && CanTake(c, Last(states), more)
    ensures IsQuietRun(c, states', actions') && Last(states') == Taken(c, Last(states), more)
    decreases |more|
  {
    if more == [] {
      states', actions' := states, actions;
    } else {
      Extend(c, states, actions, more[0]);
      states', actions' := ExtendAll(c, states + [Next(c, Last(states), more[0])], actions + [more[0]], more[1..]);
    }
  }

  // ---------------------------------------------------------------------------------------
  // One worker copies everything.

  /** The worker has not met an empty ring since its last lock. */
  predicate Busy(w: WorkerPc, empty: bool) {
    || w.WUnborn? || w.WLock? || Copying(w) || w.WSignal? || w.WUnlock?
    || (!empty && (w.WTest? || w.WCheck? || w.WTake?))
  }

  /** Worker 0 is busy, the others have not locked anything yet, `main` waits for the traversal. */
  predicate Steered(s: State) {
    && (s.main.MSpawn? || s.main.MJoinRoot?)
    && |s.workers| > 0 && Busy(s.workers[0], IsEmpty(s.sync.ring))
    && (forall i | 0 < i < |s.workers| :: s.workers[i].WUnborn? || s.workers[i].WLock?)
  }

  /** Everything has been copied, and worker 0 is about to look for more. */
  predicate Drained(s: State) {
    s.main.MJoinRoot? && s.trav.TExited? && IsEmpty(s.sync.ring) && |s.workers| > 0 && s.workers[0].WLock?
  }

  lemma NobodySleeps(s: State)
    requires Steered(s)
    ensures !SomeoneAsleep(s.workers)
  {
  }

  lemma SpawnKeepsSteered(c: Config, s: State)
    requires Steered(s) && s.main.MSpawn? && InvMain(c, s)
    ensures Steered(MainStep(c, s))
  {
  }

  lemma WorkerKeepsSteered(s: State)
    requires Steered(s) && WorkerEnabled(s, 0)
    requires s.workers[0].WLock? ==> !IsEmpty(s.sync.ring)
    ensures Steered(WorkerStep(s, 0))
  {
  }

  lemma TravKeepsSteered(c: Config, s: State)
    requires Steered(s) && InvRing(c, s) && TravEnabled(s, 0)
    ensures Steered(TravStep(s, 0))
  {
    NobodySleeps(s);
    PutFills(s);
    TravLeavesWorkers(s);
  }

  lemma TravLeavesWorkers(s: State)
    requires TravEnabled(s, 0) && !SomeoneAsleep(s.workers)
    ensures var s' := TravStep(s, 0);
            && s'.workers == s.workers && s'.main == s.main
            && s'.sync.ring == if s.trav.TPut? then Put(s.sync.ring, s.trav.task) else s.sync.ring
  {
    assert !Asleep(s.workers, 0);
  }

  /** Whoever holds a mutex the traversal or worker 0 needs is the other of the two. */
  lemma Mutexes(c: Config, s: State)
    requires Steered(s) && InvMain(c, s) && InvBuffer(c, s) && InvOutput(c, s)
    ensures s.sync.bufMutex in {Free, Traversal, Worker(0)} && s.sync.outMutex in {Free, Traversal, Worker(0)}
    ensures s.workers[0].WLock? ==> s.sync.bufMutex != Worker(0) && s.sync.outMutex != Worker(0)
    ensures s.sync.outMutex == Worker(0) ==> WorkerEnabled(s, 0)
    ensures s.sync.outMutex == Traversal ==> TravEnabled(s, 0)
  {
    assert forall i | 0 < i < |s.workers| :: !HoldsBuffer(s.workers[i]) && !HoldsOutput(s.workers[i]);
  }

  lemma HolderOfBufferMoves(s: State)
    requires Steered(s) && TravHoldsBuffer(s.trav)
    ensures TravEnabled(s, 0)
  {
    NobodySleeps(s);
  }

  /** With nothing left in the ring and no mutex taken, the traversal can go on or is over. */
  lemma TraversalMoves(c: Config, s: State)
    requires ValidConfig(c) && Steered(s) && InvWake(s) && InvRing(c, s) && s.workers[0].WLock?
    requires IsEmpty(s.sync.ring) && !s.trav.TExited?
    requires s.sync.bufMutex in {Free, Traversal} && s.sync.outMutex.Free?
    requires s.sync.bufMutex == Traversal ==> TravHoldsBuffer(s.trav)
    ensures TravEnabled(s, 0)
  {
    NobodySleeps(s);
    IndexTests(s.sync.ring);
  }

  /** Until everything is drained, the scheduler finds a step that keeps to its plan. */
  lemma SteeredStep(c: Config, s: State) returns (a: Action)
    requires ValidConfig(c) && Inv(c, s) && Steered(s) && !Drained(s)
    ensures Enabled(c, s, a) && !Spurious(a) && Steered(Next(c, s, a))
  {
    if s.main.MSpawn? {
      SpawnKeepsSteered(c, s);
      return StepMain;
    }
    Mutexes(c, s);
    if WorkerEnabled(s, 0) && (s.workers[0].WLock? ==> !IsEmpty(s.sync.ring)) {
      WorkerKeepsSteered(s);
      return StepWorker(0);
    }
    SteeredTraversal(c, s);
    TravKeepsSteered(c, s);
    return StepTraversal(0);
  }

  lemma SteeredTraversal(c: Config, s: State)
    requires ValidConfig(c) && Inv(c, s) && Steered(s) && !Drained(s) && s.main.MJoinRoot?
    requires WorkerEnabled(s, 0) ==> s.workers[0].WLock? && IsEmpty(s.sync.ring)
    ensures TravEnabled(s, 0)
  {
    Mutexes(c, s);
    if s.sync.outMutex.Free? {
      if s.sync.bufMutex == Traversal {
        HolderOfBufferMoves(s);
      } else {
        TraversalMoves(c, s);
      }
    }
  }

  /** The plan comes to its end. */
  lemma {:induction false} Steer(c: Config, states: seq<State>, actions: seq<Action>)
    returns (states': seq<State>, actions': seq<Action>)
    requires ValidConfig(c) && IsQuietRun(c, states, actions) && Steered(Last(states))
    ensures IsQuietRun(c, states', actions') && Steered(Last(states')) && Drained(Last(states'))
    decreases Rank(Last(states))
  {
    states', actions' := states, actions;
    if !Drained(Last(states)) {
      RunKeepsInv(c, states, actions, |actions|);
      var a := SteeredStep(c, Last(states));
      StepOn(c, states, actions, a);
      states', actions' := Steer(c, states + [Next(c, Last(states), a)], actions + [a]);
    }
  }

  // ---------------------------------------------------------------------------------------
  // The shutdown is missed.

  /** Lock, test, find nothing; then `main` announces the end to workers none of whom waits yet. */
  function MissingSteps(): seq<Action> {
    [StepWorker(0), StepWorker(0), StepMain, StepMain, StepMain, StepMain, StepMain]
  }

  lemma ShutdownMissed(c: Config, s: State)
    requires Drained(s) && c.doneLock.AsWritten? && !s.sync.done
    requires s.sync.bufMutex.Free? && s.sync.outMutex.Free?
    ensures CanTake(c, s, MissingSteps())
    ensures Taken(c, s, MissingSteps()).main.MJoin? && Taken(c, s, MissingSteps()).log.missed
  {
    var rest := MissingSteps();
    var s1 := WorkerStep(s, 0);
    var s2 := WorkerStep(s1, 0);
    assert s2 == s.(workers := s.workers[0 := WGoWait], sync := s.sync.(bufMutex := Worker(0)));
    assert SomeoneBetween(s2.workers);
    BroadcastFalls(c, s2);
    assert rest[1..][1..] == ClosingSteps();
    TakeOne(c, s1, rest[1..]);
    TakeOne(c, s, rest);
  }

  lemma TakeOne(c: Config, s: State, actions: seq<Action>)
    requires actions != [] && Enabled(c, s, actions[0]) && !Spurious(actions[0])
    requires CanTake(c, Next(c, s, actions[0]), actions[1..])
    ensures CanTake(c, s, actions)
    ensures Taken(c, s, actions) == Taken(c, Next(c, s, actions[0]), actions[1..])
  {
  }

  /** Join the traversal, lock, set `done`, unlock, broadcast. */
  function ClosingSteps(): seq<Action> {
    [StepMain, StepMain, StepMain, StepMain, StepMain]
  }

  /** The announcement misses somebody exactly if one was between test and wait all the while. */
  lemma BroadcastFalls(c: Config, s: State)
    requires s.main.MJoinRoot? && s.trav.TExited? && c.doneLock.AsWritten? && s.sync.outMutex.Free?
    ensures CanTake(c, s, ClosingSteps())
    ensures Taken(c, s, ClosingSteps()).main.MJoin?
    ensures Taken(c, s, ClosingSteps()).log.missed == SomeoneBetween(s.workers)
  {
    var acts := ClosingSteps();
    var s1 := MainStep(c, s);
    var s2 := MainStep(c, s1);
    var s3 := MainStep(c, s2);
    var s4 := MainStep(c, s3);
    assert s4.workers == s.workers && s4.main.MBroadcast?;
    var s5 := MainStep(c, s4);
    assert s5.log.missed == SomeoneBetween(s.workers);
    assert acts[1..][1..][1..][1..] == [StepMain] && acts[1..][1..][1..][1..][1..] == [];
    TakeOne(c, s4, acts[1..][1..][1..][1..]);
    TakeOne(c, s3, acts[1..][1..][1..]);
    TakeOne(c, s2, acts[1..][1..]);
    TakeOne(c, s1, acts[1..]);
    TakeOne(c, s, acts);
  }

  lemma DrainedIsFree(c: Config, s: State)
    requires InvMain(c, s) && InvBuffer(c, s) && InvOutput(c, s) && Steered(s) && Drained(s)
    ensures s.sync.bufMutex.Free? && s.sync.outMutex.Free? && !s.sync.done
  {
    Mutexes(c, s);
  }

  // ---------------------------------------------------------------------------------------
  // Any run can be continued until nothing can move.

  lemma MissedStays(c: Config, s: State, a: Action)
    requires Enabled(c, s, a) && !Spurious(a) && (s.main.MJoin? || s.main.MFinished?)
    ensures Next(c, s, a).main.MJoin? || Next(c, s, a).main.MFinished?
    ensures Next(c, s, a).log.missed == s.log.missed
  {
    if a.StepWorker? {
      WorkerLeavesLost(s, a.id);
    } else if a.StepTraversal? {
      TravLeavesMissed(s, a.wake);
    } else {
      JoinKeepsMissed(c, s);
    }
  }

  lemma JoinKeepsMissed(c: Config, s: State)
    requires MainEnabled(c, s) && (s.main.MJoin? || s.main.MFinished?)
    ensures var s' := MainStep(c, s); (s'.main.MJoin? || s'.main.MFinished?) && s'.log.missed == s.log.missed
  {
  }

  /** Until nothing can move; once the broadcast is over, whether it missed somebody is settled. */
  lemma {:induction false} ToTheEnd(c: Config, states: seq<State>, actions: seq<Action>)
    returns (states': seq<State>, actions': seq<Action>)
    requires ValidConfig(c) && IsQuietRun(c, states, actions)
    ensures IsQuietRun(c, states', actions') && Stuck(c, Last(states'))
    ensures Last(states).main.MJoin? || Last(states).main.MFinished? ==>
              Last(states').log.missed == Last(states).log.missed
    decreases Rank(Last(states))
  {
    states', actions' := states, actions;
    if !Stuck(c, Last(states)) {
      var a :| Enabled(c, Last(states), a) && !Spurious(a);
      RunKeepsInv(c, states, actions, |actions|);
      if Last(states).main.MJoin? || Last(states).main.MFinished? {
        MissedStays(c, Last(states), a);
      }
      StepOn(c, states, actions, a);
      states', actions' := ToTheEnd(c, states + [Next(c, Last(states), a)], actions + [a]);
    }
  }

  // ---------------------------------------------------------------------------------------
  // The verdict.

  lemma SomeStart(c: Config) returns (s: State)
    requires ValidConfig(c)
    ensures Initial(c, s) && Steered(s)
  {
    var ring := Ring(seq(c.bufferSize, _ => NthTask(0)), 0, 0);
    s := State(MSpawn(0), if c.sourceOpens then TNext else TErrLock,
               [Frame(c.destRoot, if c.sourceOpens then c.source else [])],
               seq(c.numThreads, _ => WUnborn),
               Sync(Free, Free, ring, false),
               Disk(c.existing, [], [], {}),
               Stats(0, 0, 0, 0, multiset{}),
               History([], [], false));
  }

  /** Whatever is copied, and however many workers and slots there are: as written, some run without
      spurious wake-ups ends with `main` waiting for a worker that sleeps for ever. */
  lemma ShutdownCanBeMissed(c: Config) returns (states: seq<State>, actions: seq<Action>)
    requires ValidConfig(c) && c.doneLock.AsWritten?
    ensures IsRun(c, states, actions) && NoSpurious(actions)
    ensures Hung(states[|actions|]) && Stuck(c, states[|actions|])
  {
    var s0 := SomeStart(c);
    states, actions := [s0], [];
    states, actions := Steer(c, states, actions);
    RunKeepsInv(c, states, actions, |actions|);
    DrainedIsFree(c, Last(states));
    ShutdownMissed(c, Last(states));
    states, actions := ExtendAll(c, states, actions, MissingSteps());
    states, actions := ToTheEnd(c, states, actions);
    FinishesUnlessMissed(c, states, actions);
  }

  /** Some run without spurious wake-ups finishes, as written and repaired. */
  lemma CanFinish(c: Config) returns (states: seq<State>, actions: seq<Action>)
    requires ValidConfig(c)
    ensures IsRun(c, states, actions) && NoSpurious(actions)
    ensures states[|actions|].main.MFinished?
  {
    if c.doneLock.AsWritten? {
      states, actions := NobodyMissed(c);
      FinishesUnlessMissed(c, states, actions);
    } else {
      var s0 := SomeStart(c);
      states, actions := ToTheEnd(c, [s0], []);
      RepairedAlwaysFinishes(c, states, actions, |actions|);
    }
  }

  /** `main` announces the end before worker 0 looks for more. */
  lemma NobodyMissed(c: Config) returns (states: seq<State>, actions: seq<Action>)
    requires ValidConfig(c) && c.doneLock.AsWritten?
    ensures IsQuietRun(c, states, actions) && Stuck(c, Last(states)) && !Last(states).log.missed
  {
    var s0 := SomeStart(c);
    states, actions := Steer(c, [s0], []);
    RunKeepsInv(c, states, actions, |actions|);
    DrainedIsFree(c, Last(states));
    BroadcastFalls(c, Last(states));
    assert !SomeoneBetween(Last(states).workers);
    states, actions := ExtendAll(c, states, actions, ClosingSteps());
    states, actions := ToTheEnd(c, states, actions);
  }

  /** Every run that can go no further, spurious wake-ups aside, has finished. */
  ghost predicate AlwaysFinishes(c: Config) {
    forall states: seq<State>, actions: seq<Action> ::
      IsRun(c, states, actions) && NoSpurious(actions) && Stuck(c, states[|actions|])
      ==> states[|actions|].main.MFinished?
  }

  /** The program is sure to finish if and only if `done` is set under `buffer_mutex`. */
  lemma FinishesIffRepaired(c: Config)
    requires ValidConfig(c)
    ensures AlwaysFinishes(c) <==> c.doneLock.Repaired?
  {
    if c.doneLock.AsWritten? {
      var states, actions := ShutdownCanBeMissed(c);
      assert !states[|actions|].main.MFinished?;
    } else {
      forall states: seq<State>, actions: seq<Action>
        | IsRun(c, states, actions) && NoSpurious(actions) && Stuck(c, states[|actions|])
        ensures states[|actions|].main.MFinished?
      {
        RepairedAlwaysFinishes(c, states, actions, |actions|);
      }
    }
  }
}
