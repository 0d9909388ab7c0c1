/**
 Where the directory copier can come to rest.

 As written, `done` is set under `output_mutex` but tested under `buffer_mutex`, so the shutdown
 broadcast can fall between a worker's test and its wait. That worker then sleeps for ever and
 `main` never returns from its joins, although everything has been copied. This happens exactly
 when some worker is between the test and the wait at the moment of the broadcast; with `done`
 set under `buffer_mutex` it cannot happen.
 */
module CopierProgress {
  import opened CopierTree
  import opened CopierRing
  import opened CopierProtocol
  import opened CopierInvariant
  import opened CopierRefinement
  import opened CopierSafety
  import opened CopierTheorems
  import opened CopierTermination

  /** `main` waits for a worker that sleeps on `buffer_not_empty`; nothing else is left to do. */
  ghost predicate Hung(s: State) {
    && s.main.MJoin? && s.main.next < |s.workers| && s.workers[s.main.next].WAsleep?
    && s.sync.done && s.trav.TExited?
    && Contents(s.sync.ring) == [] && InFlight(s) == [] && s.log.added == s.log.completed
    && (forall i | 0 <= i < |s.workers| :: s.workers[i].WAsleep? || s.workers[i].WExited?)
  }

  // ---------------------------------------------------------------------------------------
  // A state without enabled step is finished or hung.

  /** Whoever holds a mutex can always move; a signal picks some sleeper. */
  lemma StuckThreads(c: Config, s: State)
    requires Stuck(c, s)
    ensures !MainHolds(s.main)
    ensures !TravHoldsOutput(s.trav)
    ensures !TravHoldsBuffer(s.trav)
  {
    assert !Enabled(c, s, StepMain);
    assert !Enabled(c, s, StepTraversal(0));
    if SomeoneAsleep(s.workers) {
      var i :| 0 <= i < |s.workers| && s.workers[i].WAsleep?;
      assert !Enabled(c, s, StepTraversal(i));
    }
  }

  /** A worker holding `buffer_mutex` may have to wait for `output_mutex`, never the other way round. */
  lemma StuckHolders(c: Config, s: State, i: nat)
    requires Stuck(c, s) && i < |s.workers|
    ensures !HoldsOutput(s.workers[i])
    ensures s.sync.outMutex.Free? ==> !HoldsBuffer(s.workers[i])
  {
    assert !Enabled(c, s, StepWorker(i));
  }

  lemma StuckMutexesFree(c: Config, s: State)
    requires Inv(c, s) && Stuck(c, s)
    ensures s.sync.outMutex == Free && s.sync.bufMutex == Free
  {
    StuckThreads(c, s);
    if s.sync.outMutex.Worker? {
      StuckHolders(c, s, s.sync.outMutex.id);
    }
    if s.sync.bufMutex.Worker? {
      StuckHolders(c, s, s.sync.bufMutex.id);
    }
  }

  lemma StuckWorkers(c: Config, s: State)
    requires Inv(c, s) && Stuck(c, s)
    ensures forall i | 0 <= i < |s.workers| ::
              s.workers[i].WAsleep? || s.workers[i].WExited? || s.workers[i].WUnborn?
    ensures s.trav.TAsleep? || s.trav.TExited?
  {
    StuckMutexesFree(c, s);
    forall i | 0 <= i < |s.workers|
      ensures s.workers[i].WAsleep? || s.workers[i].WExited? || s.workers[i].WUnborn?
    {
      assert !Enabled(c, s, StepWorker(i));
    }
    assert !Enabled(c, s, StepTraversal(0));
  }

  /** With every mutex free a worker that is awake could move, so the ring is empty. */
  lemma StuckMain(c: Config, s: State)
    requires ValidConfig(c) && Inv(c, s) && Stuck(c, s)
    ensures s.trav.TExited? && IsEmpty(s.sync.ring)
    ensures s.main.MFinished? || (s.main.MJoin? && s.main.next < |s.workers|)
  {
    StuckMutexesFree(c, s);
    StuckWorkers(c, s);
    assert !Enabled(c, s, StepMain);
    assert forall i | 0 <= i < |s.workers| :: !Awake(s.workers[i]);
    assert !SomeoneAwake(s.workers);
    IndexTests(s.sync.ring);
    assert !IsFull(s.sync.ring);
  }

  /** In every reachable state without an enabled step the program has finished, or it hangs in
      its joins with everything copied; and such states indeed have no enabled step. */
  lemma StuckIffFinishedOrHung(c: Config, states: seq<State>, actions: seq<Action>, k: nat)
    requires ValidConfig(c) && IsRun(c, states, actions) && k < |states|
    ensures Stuck(c, states[k]) <==> states[k].main.MFinished? || Hung(states[k])
  {
    RunKeepsInv(c, states, actions, k);
    var s := states[k];
    if Stuck(c, s) {
      StuckIsFinishedOrHung(c, s);
    }
    if s.main.MFinished? || Hung(s) {
      RestIsStuck(c, s);
    }
  }

  lemma StuckIsFinishedOrHung(c: Config, s: State)
    requires ValidConfig(c) && Inv(c, s) && Stuck(c, s)
    ensures s.main.MFinished? || Hung(s)
  {
    StuckMutexesFree(c, s);
    StuckWorkers(c, s);
    StuckMain(c, s);
    assert !Enabled(c, s, StepMain);
    IndexTests(s.sync.ring);
    assert s.log.completed + [] + [] == s.log.completed;
  }

  lemma RestIsStuck(c: Config, s: State)
    requires ValidConfig(c) && Inv(c, s) && (s.main.MFinished? || Hung(s))
    ensures Stuck(c, s)
  {
    if s.main.MFinished? {
      FinishedIsStuck(c, s);
    } else {
      NobodyMoves(c, s);
    }
  }

  lemma FinishedIsStuck(c: Config, s: State)
    requires ValidConfig(c) && Inv(c, s) && s.main.MFinished?
    ensures Stuck(c, s)
  {
    FinishedIsQuiet(c, s);
    AllExited(c, s);
    NobodyMoves(c, s);
  }

  lemma AllExited(c: Config, s: State)
    requires InvMain(c, s) && s.main.MFinished?
    ensures forall i | 0 <= i < |s.workers| :: s.workers[i].WExited?
  {
  }

  lemma NobodyMoves(c: Config, s: State)
    requires forall i | 0 <= i < |s.workers| :: s.workers[i].WAsleep? || s.workers[i].WExited?
    requires s.trav.TExited? && !MainEnabled(c, s)
    ensures Stuck(c, s)
  {
  }

  /** Even a hung run has copied everything: its destination and counters are those of the
      sequential copy, and no descriptor is open. */
  lemma HungRunHasCopiedAll(c: Config, states: seq<State>, actions: seq<Action>, k: nat)
    requires ValidConfig(c) && IsRun(c, states, actions) && k < |states|
    requires Hung(states[k])
    ensures Result(states[k]) == SequentialCopy(c)
    ensures states[k].disk.open == {}
  {
    RunKeepsInv(c, states, actions, k);
    QuietIsSequentialCopy(c, states[k]);
  }

  // ---------------------------------------------------------------------------------------
  // Exactly when it hangs.

  predicate Lost(w: WorkerPc) {
    w.WGoWait? || w.WAsleep?
  }

  predicate SomeoneLost(ws: seq<WorkerPc>) {
    exists i :: 0 <= i < |ws| && Lost(ws[i])
  }

  /** After the broadcast a worker waits, or is about to, just if the broadcast missed one. */
  ghost predicate InvMissed(s: State) {
    if s.main.MJoin? || s.main.MFinished? then s.log.missed <==> SomeoneLost(s.workers)
    else !s.log.missed
  }

  lemma MainKeepsMissed(c: Config, s: State)
    requires InvMissed(s) && MainEnabled(c, s)
    ensures InvMissed(MainStep(c, s))
  {
    var s' := MainStep(c, s);
    if s.main.MBroadcast? {
      if i :| 0 <= i < |s.workers| && s.workers[i].WGoWait? {
        assert Lost(s'.workers[i]);
      }
      if i :| 0 <= i < |s'.workers| && Lost(s'.workers[i]) {
        assert s.workers[i].WGoWait?;
      }
    }
  }

  lemma TravKeepsMissed(c: Config, s: State, wake: nat)
    requires InvMissed(s) && InvMain(c, s) && TravEnabled(s, wake)
    ensures InvMissed(TravStep(s, wake))
  {
    assert !s.main.MJoin? && !s.main.MFinished?;
    TravLeavesMissed(s, wake);
  }

  lemma TravLeavesMissed(s: State, wake: nat)
    requires TravEnabled(s, wake)
    ensures TravStep(s, wake).main == s.main && TravStep(s, wake).log.missed == s.log.missed
  {
  }

  lemma WorkerKeepsMissed(c: Config, s: State, i: nat)
    requires InvMissed(s) && InvMain(c, s) && WorkerEnabled(s, i)
    ensures InvMissed(WorkerStep(s, i))
  {
    var s' := WorkerStep(s, i);
    WorkerLeavesLost(s, i);
    if s.sync.done {
      assert forall j | 0 <= j < |s.workers| :: Lost(s'.workers[j]) <==> Lost(s.workers[j]);
    }
  }

  lemma WorkerLeavesLost(s: State, i: nat)
    requires WorkerEnabled(s, i)
    ensures var s' := WorkerStep(s, i);
            && s'.main == s.main && s'.log.missed == s.log.missed
            && s'.workers == s.workers[i := s'.workers[i]]
            && (s.sync.done ==> (Lost(s'.workers[i]) <==> Lost(s.workers[i])))
  {
  }

  lemma {:induction false} RunKeepsMissed(c: Config, states: seq<State>, actions: seq<Action>, k: nat)
    requires ValidConfig(c) && IsRun(c, states, actions) && NoSpurious(actions) && k < |states|
    ensures InvMissed(states[k])
  {
    if k > 0 {
      RunKeepsMissed(c, states, actions, k - 1);
      RunKeepsInv(c, states, actions, k - 1);
      RunStep(c, states, actions, k - 1);
      StepKeepsMissed(c, states[k - 1], actions[k - 1], states[k]);
    }
  }

  lemma StepKeepsMissed(c: Config, s: State, a: Action, s': State)
    requires InvMain(c, s) && InvMissed(s) && Follows(c, s, a, s') && !Spurious(a)
    ensures InvMissed(s')
  {
    if a.StepMain? {
      MainKeepsMissed(c, s);
    } else if a.StepTraversal? {
      TravKeepsMissed(c, s, a.wake);
    } else {
      WorkerKeepsMissed(c, s, a.id);
    }
  }

  /** A run without spurious wake-ups that can go no further has finished if and only if no
      worker was between its test of `done` and its wait when `main` broadcast. */
  lemma FinishesUnlessMissed(c: Config, states: seq<State>, actions: seq<Action>)
    requires ValidConfig(c) && IsRun(c, states, actions) && NoSpurious(actions)
    requires Stuck(c, states[|actions|])
    ensures states[|actions|].main.MFinished? <==> !states[|actions|].log.missed
    ensures Hung(states[|actions|]) <==> states[|actions|].log.missed
  {
    var k := |actions|;
    RunKeepsMissed(c, states, actions, k);
    RunKeepsInv(c, states, actions, k);
    StuckIsFinishedOrHung(c, states[k]);
    if Hung(states[k]) {
      assert Lost(states[k].workers[states[k].main.next]);
    }
  }

  // ---------------------------------------------------------------------------------------
  // The repaired program.

  /** With `done` set under `buffer_mutex`, no worker is about to wait once `done` is set, and
      none sleeps after the broadcast; spurious wake-ups change nothing about that. */
  ghost predicate InvRepaired(c: Config, s: State) {
    && (s.sync.done ==> forall i | 0 <= i < |s.workers| :: !s.workers[i].WGoWait?)
    && (s.main.MJoin? || s.main.MFinished? ==> forall i | 0 <= i < |s.workers| :: !Lost(s.workers[i]))
  }

  lemma MainKeepsRepaired(c: Config, s: State)
    requires c.doneLock.Repaired? && InvRepaired(c, s) && InvMain(c, s) && InvBuffer(c, s)
    requires MainEnabled(c, s)
    ensures InvRepaired(c, MainStep(c, s))
  {
    if s.main.MSetDone? {
      forall i | 0 <= i < |s.workers| ensures !s.workers[i].WGoWait? {
        assert HoldsBuffer(s.workers[i]) <==> s.sync.bufMutex == Worker(i);
      }
    }
  }

  lemma OthersKeepRepaired(c: Config, s: State, a: Action)
    requires InvRepaired(c, s) && InvMain(c, s) && Enabled(c, s, a) && !a.StepMain?
    ensures InvRepaired(c, Next(c, s, a))
  {
    match a {
      case StepTraversal(wake) => TravLeavesDone(c, s, wake);
      case StepWorker(i) =>
        WorkerLeavesLost(s, i);
        WorkerLeavesDone(s, i);
      case SpuriousTraversal =>
      case SpuriousWorker(_) =>
    }
  }

  lemma TravLeavesDone(c: Config, s: State, wake: nat)
    requires InvMain(c, s) && TravEnabled(s, wake)
    ensures !TravStep(s, wake).sync.done
    ensures !TravStep(s, wake).main.MJoin? && !TravStep(s, wake).main.MFinished?
  {
  }

  lemma WorkerLeavesDone(s: State, i: nat)
    requires WorkerEnabled(s, i)
    ensures WorkerStep(s, i).sync.done == s.sync.done
    ensures s.sync.done && WorkerStep(s, i).workers[i].WGoWait? ==> s.workers[i].WGoWait?
  {
  }

  lemma {:induction false} RunKeepsRepaired(c: Config, states: seq<State>, actions: seq<Action>, k: nat)
    requires ValidConfig(c) && c.doneLock.Repaired? && IsRun(c, states, actions) && k < |states|
    ensures InvRepaired(c, states[k])
  {
    if k > 0 {
      RunKeepsRepaired(c, states, actions, k - 1);
      RunKeepsInv(c, states, actions, k - 1);
      StepKeepsRepaired(c, states[k - 1], actions[k - 1], states[k]);
    }
  }

  lemma StepKeepsRepaired(c: Config, s: State, a: Action, s': State)
    requires c.doneLock.Repaired? && InvRepaired(c, s) && InvMain(c, s) && InvBuffer(c, s)
    requires Follows(c, s, a, s')
    ensures InvRepaired(c, s')
  {
    if a.StepMain? {
      MainKeepsRepaired(c, s);
    } else {
      OthersKeepRepaired(c, s, a);
    }
  }

  /** The repaired program can only come to rest by finishing. */
  lemma RepairedAlwaysFinishes(c: Config, states: seq<State>, actions: seq<Action>, k: nat)
    requires ValidConfig(c) && c.doneLock.Repaired? && IsRun(c, states, actions) && k < |states|
    requires Stuck(c, states[k])
    ensures states[k].main.MFinished? && Result(states[k]) == SequentialCopy(c)
  {
    RunKeepsRepaired(c, states, actions, k);
    RunKeepsInv(c, states, actions, k);
    StuckIsFinishedOrHung(c, states[k]);
    if Hung(states[k]) {
      assert Lost(states[k].workers[states[k].main.next]);
    }
    FinishedRunIsSequentialCopy(c, states, actions, k);
  }
}
