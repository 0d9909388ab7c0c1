/**
 Safety of the directory copier over whole runs, spurious wake-ups included.
 */
module CopierSafety {
  import opened CopierTree
  import opened CopierRing
  import opened CopierProtocol
  import opened CopierInvariant
  import opened CopierRefinement

  ghost predicate Inv(c: Config, s: State) {
    && InvBuffer(c, s) && InvOutput(c, s) && InvMain(c, s) && InvRing(c, s)
    && InvQueue(c, s) && InvOpen(s) && InvData(s) && InvWake(s)
    && Rest(s) == SequentialCopy(c)
  }

  lemma InitialInv(c: Config, s: State)
    requires ValidConfig(c) && Initial(c, s)
    ensures Inv(c, s)
  {
    assert Contents(s.sync.ring) == [];
    assert InFlight(s) == [];
    assert Settled(s) == Start(c) && Caught(s) == Start(c);
    assert CopyEntries(Start(c), c.destRoot, []) == Start(c);
  }

  lemma MainKeepsInv(c: Config, s: State)
    requires Inv(c, s) && MainEnabled(c, s)
    ensures Inv(c, MainStep(c, s))
  {
    MainKeepsBuffer(c, s);
    MainKeepsOutput(c, s);
    MainKeepsMain(c, s);
    MainKeepsRing(c, s);
    MainKeepsQueue(c, s);
    MainKeepsOpen(c, s);
    MainKeepsData(c, s);
    MainKeepsWake(c, s);
    MainKeepsRest(c, s);
  }

  lemma TravKeepsInv(c: Config, s: State, wake: nat)
    requires ValidConfig(c) && Inv(c, s) && TravEnabled(s, wake)
    ensures Inv(c, TravStep(s, wake))
  {
    TravShifts(s, wake);
    TravFrames(s, wake);
    TravKeepsBuffer(c, s, TravStep(s, wake));
    TravKeepsOutput(c, s, TravStep(s, wake));
    TravKeepsMain(c, s, TravStep(s, wake));
    TravKeepsRing(c, s, wake);
    TravKeepsQueue(c, s, wake);
    TravKeepsOpen(c, s, wake);
    TravKeepsData(c, s, wake);
    TravKeepsWake(c, s, wake);
    TravKeepsRest(c, s, wake);
  }

  lemma WorkerKeepsInv(c: Config, s: State, i: nat)
    requires Inv(c, s) && WorkerEnabled(s, i)
    ensures Inv(c, WorkerStep(s, i))
  {
    WorkerShifts(s, i);
    WorkerKeepsBuffer(c, s, WorkerStep(s, i), i);
    WorkerKeepsOutput(c, s, WorkerStep(s, i), i);
    WorkerKeepsMain(c, s, WorkerStep(s, i), i);
    WorkerKeepsRing(c, s, i);
    WorkerKeepsQueue(c, s, i);
    WorkerKeepsOpen(c, s, i);
    WorkerKeepsData(c, s, i);
    WorkerKeepsWake(c, s, i);
    WorkerKeepsRest(s, i);
  }

  lemma SpuriousTraversalKeepsInv(c: Config, s: State)
    requires Inv(c, s) && s.trav.TAsleep?
    ensures Inv(c, s.(trav := WakeTraversal(s.trav)))
  {
    var s' := s.(trav := WakeTraversal(s.trav));
    SameTraversalSameRest(s, s');
    WokenTraversalKeepsLocks(c, s);
    WokenTraversalKeepsData(c, s);
  }

  lemma WokenTraversalKeepsLocks(c: Config, s: State)
    requires InvBuffer(c, s) && InvOutput(c, s) && InvMain(c, s) && InvRing(c, s) && s.trav.TAsleep?
    ensures var s' := s.(trav := WakeTraversal(s.trav));
            InvBuffer(c, s') && InvOutput(c, s') && InvMain(c, s') && InvRing(c, s')
  {
  }

  lemma WokenTraversalKeepsData(c: Config, s: State)
    requires InvQueue(c, s) && InvOpen(s) && InvData(s) && InvWake(s) && s.trav.TAsleep?
    ensures var s' := s.(trav := WakeTraversal(s.trav));
            InvQueue(c, s') && InvOpen(s') && InvData(s') && InvWake(s')
  {
    assert BufferWorker(s.(trav := WakeTraversal(s.trav))) == BufferWorker(s);
  }

  lemma SpuriousWorkerKeepsInv(c: Config, s: State, i: nat)
    requires Inv(c, s) && Asleep(s.workers, i)
    ensures Inv(c, s.(workers := WakeOne(s.workers, i)))
  {
    var s' := s.(workers := WakeOne(s.workers, i));
    SameTraversalSameRest(s, s');
    WakingKeepsLocksAndPhases(c, s, i);
    WakingKeepsQueueAndData(c, s, i);
  }

  lemma WakingKeepsLocksAndPhases(c: Config, s: State, i: nat)
    requires InvBuffer(c, s) && InvOutput(c, s) && InvMain(c, s) && InvRing(c, s) && Asleep(s.workers, i)
    ensures var s' := s.(workers := WakeOne(s.workers, i));
            InvBuffer(c, s') && InvOutput(c, s') && InvMain(c, s') && InvRing(c, s')
  {
  }

  lemma WakingKeepsQueueAndData(c: Config, s: State, i: nat)
    requires InvBuffer(c, s) && Asleep(s.workers, i)
    requires InvQueue(c, s) && InvOpen(s) && InvData(s) && InvWake(s)
    ensures var s' := s.(workers := WakeOne(s.workers, i));
            InvQueue(c, s') && InvOpen(s') && InvData(s') && InvWake(s')
  {
    var s' := s.(workers := WakeOne(s.workers, i));
    assert BufferWorker(s') == BufferWorker(s);
    assert InFlight(s') == InFlight(s);
    assert Awake(s'.workers[i]);
  }

  /** Every action of every thread keeps the invariant. */
  lemma StepKeepsInv(c: Config, s: State, a: Action, s': State)
    requires ValidConfig(c) && Inv(c, s) && Follows(c, s, a, s')
    ensures Inv(c, s')
  {
    match a
    case StepMain => MainKeepsInv(c, s);
    case StepTraversal(wake) => TravKeepsInv(c, s, wake);
    case StepWorker(i) => WorkerKeepsInv(c, s, i);
    case SpuriousTraversal => SpuriousTraversalKeepsInv(c, s);
    case SpuriousWorker(i) => SpuriousWorkerKeepsInv(c, s, i);
  }

  lemma RunStep(c: Config, states: seq<State>, actions: seq<Action>, k: nat)
    requires IsRun(c, states, actions) && k < |actions|
    ensures Follows(c, states[k], actions[k], states[k + 1])
  {
  }

  lemma {:induction false} RunKeepsInv(c: Config, states: seq<State>, actions: seq<Action>, k: nat)
    requires ValidConfig(c) && IsRun(c, states, actions) && k < |states|
    ensures Inv(c, states[k])
  {
    if k == 0 {
      InitialInv(c, states[0]);
    } else {
      RunKeepsInv(c, states, actions, k - 1);
      RunStep(c, states, actions, k - 1);
      StepKeepsInv(c, states[k - 1], actions[k - 1], states[k]);
    }
  }
}
