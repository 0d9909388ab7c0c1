/**
 What every reachable state of the directory copier satisfies.
 */
module CopierInvariant {
  import opened CopierTree
  import opened CopierRing
  import opened CopierProtocol

  // ---------------------------------------------------------------------------------------
  // Mutexes: each is held by exactly the thread whose program counter says so.

  predicate HoldsBuffer(w: WorkerPc) {
    !(w.WUnborn? || w.WLock? || w.WAsleep? || w.WRelock? || w.WExitSignal? || w.WExited?)
  }

  predicate HoldsOutput(w: WorkerPc) {
    w.WCount? || w.WErrPrint?
  }

  predicate TravHoldsBuffer(t: TravPc) {
    t.TTestFull? || t.TPut? || t.TSignal? || t.TUnlock?
  }

  predicate TravHoldsOutput(t: TravPc) {
    t.TDestErrPrint? || t.TRegCount? || t.TFifoCount? || t.TDirCount? || t.TErrPrint?
  }

  predicate MainHolds(m: MainPc) {
    m.MSetDone? || m.MDoneUnlock?
  }

  ghost predicate InvBuffer(c: Config, s: State) {
    && |s.workers| == c.numThreads
    && (forall i | 0 <= i < |s.workers| :: HoldsBuffer(s.workers[i]) <==> s.sync.bufMutex == Worker(i))
    && (s.sync.bufMutex.Worker? ==> s.sync.bufMutex.id < |s.workers|)
    && (TravHoldsBuffer(s.trav) <==> s.sync.bufMutex.Traversal?)
    && (MainHolds(s.main) && c.doneLock.Repaired? <==> s.sync.bufMutex.Main?)
  }

  ghost predicate InvOutput(c: Config, s: State) {
    && |s.workers| == c.numThreads
    && (forall i | 0 <= i < |s.workers| :: HoldsOutput(s.workers[i]) <==> s.sync.outMutex == Worker(i))
    && (s.sync.outMutex.Worker? ==> s.sync.outMutex.id < |s.workers|)
    && (TravHoldsOutput(s.trav) <==> s.sync.outMutex.Traversal?)
    && (MainHolds(s.main) && c.doneLock.AsWritten? <==> s.sync.outMutex.Main?)
  }

  lemma MainKeepsBuffer(c: Config, s: State)
    requires InvBuffer(c, s) && InvMain(c, s) && MainEnabled(c, s)
    ensures InvBuffer(c, MainStep(c, s))
  {
  }

  lemma MainKeepsOutput(c: Config, s: State)
    requires InvOutput(c, s) && InvMain(c, s) && MainEnabled(c, s)
    ensures InvOutput(c, MainStep(c, s))
  {
  }

  /** A mutex passes to and from a thread as its program counter says. */
  predicate Passes(before: Owner, after: Owner, me: Owner, held: bool, holds: bool) {
    && (holds && !held ==> before == Free && after == me)
    && (held && !holds ==> after == Free)
    && (held == holds ==> after == before)
  }

  /** What a worker's step does to the mutexes, and what it leaves alone. */
  ghost predicate WorkerShift(s: State, s': State, i: nat) {
    && i < |s.workers| && |s'.workers| == |s.workers|
    && s'.workers == s.workers[i := s'.workers[i]]
    && !s.workers[i].WUnborn? && !s.workers[i].WExited? && !s'.workers[i].WUnborn?
    && s'.main == s.main && s'.frames == s.frames && s'.sync.done == s.sync.done
    && (s'.trav == s.trav || s'.trav == WakeTraversal(s.trav))
    && Passes(s.sync.bufMutex, s'.sync.bufMutex, Worker(i), HoldsBuffer(s.workers[i]), HoldsBuffer(s'.workers[i]))
    && Passes(s.sync.outMutex, s'.sync.outMutex, Worker(i), HoldsOutput(s.workers[i]), HoldsOutput(s'.workers[i]))
  }

  lemma WorkerShifts(s: State, i: nat)
    requires WorkerEnabled(s, i)
    ensures WorkerShift(s, WorkerStep(s, i), i)
  {
    WorkerLeavesOthers(s, i);
    WorkerPassesBuffer(s, i);
    WorkerPassesOutput(s, i);
  }

  lemma WorkerLeavesOthers(s: State, i: nat)
    requires WorkerEnabled(s, i)
    ensures var s' := WorkerStep(s, i);
            && s'.workers == s.workers[i := s'.workers[i]] && !s'.workers[i].WUnborn?
            && s'.main == s.main && s'.frames == s.frames && s'.sync.done == s.sync.done
            && (s'.trav == s.trav || s'.trav == WakeTraversal(s.trav))
  {
  }

  lemma WorkerPassesBuffer(s: State, i: nat)
    requires WorkerEnabled(s, i)
    ensures var s' := WorkerStep(s, i);
            Passes(s.sync.bufMutex, s'.sync.bufMutex, Worker(i),
                   HoldsBuffer(s.workers[i]), HoldsBuffer(s'.workers[i]))
  {
  }

  lemma WorkerPassesOutput(s: State, i: nat)
    requires WorkerEnabled(s, i)
    ensures var s' := WorkerStep(s, i);
            Passes(s.sync.outMutex, s'.sync.outMutex, Worker(i),
                   HoldsOutput(s.workers[i]), HoldsOutput(s'.workers[i]))
  {
  }

  /** What a step of the traversal does to the mutexes, and what it leaves alone. */
  ghost predicate TravShift(s: State, s': State) {
    && |s'.workers| == |s.workers|
    && (forall i | 0 <= i < |s.workers| ::
          s'.workers[i] == s.workers[i] || (s.workers[i].WAsleep? && s'.workers[i].WRelock?))
    && !s.trav.TExited? && s'.main == s.main && s'.sync.done == s.sync.done
    && Passes(s.sync.bufMutex, s'.sync.bufMutex, Traversal, TravHoldsBuffer(s.trav), TravHoldsBuffer(s'.trav))
    && Passes(s.sync.outMutex, s'.sync.outMutex, Traversal, TravHoldsOutput(s.trav), TravHoldsOutput(s'.trav))
  }

  lemma TravShifts(s: State, wake: nat)
    requires TravEnabled(s, wake)
    ensures TravShift(s, TravStep(s, wake))
  {
    TravLeavesOthers(s, wake);
    TravPassesBuffer(s, wake);
    TravPassesOutput(s, wake);
  }

  lemma TravLeavesOthers(s: State, wake: nat)
    requires TravEnabled(s, wake)
    ensures var s' := TravStep(s, wake);
            && s'.workers == (if s.trav.TSignal? then WakeOne(s.workers, wake) else s.workers)
            && !s.trav.TExited? && s'.main == s.main && s'.sync.done == s.sync.done
  {
  }

  lemma TravPassesBuffer(s: State, wake: nat)
    requires TravEnabled(s, wake)
    ensures var s' := TravStep(s, wake);
            Passes(s.sync.bufMutex, s'.sync.bufMutex, Traversal, TravHoldsBuffer(s.trav), TravHoldsBuffer(s'.trav))
  {
  }

  lemma TravPassesOutput(s: State, wake: nat)
    requires TravEnabled(s, wake)
    ensures var s' := TravStep(s, wake);
            Passes(s.sync.outMutex, s'.sync.outMutex, Traversal, TravHoldsOutput(s.trav), TravHoldsOutput(s'.trav))
  {
  }

  lemma TravKeepsBuffer(c: Config, s: State, s': State)
    requires InvBuffer(c, s) && TravShift(s, s')
    ensures InvBuffer(c, s')
  {
  }

  lemma TravKeepsOutput(c: Config, s: State, s': State)
    requires InvOutput(c, s) && TravShift(s, s')
    ensures InvOutput(c, s')
  {
  }

  lemma WorkerKeepsBuffer(c: Config, s: State, s': State, i: nat)
    requires InvBuffer(c, s) && WorkerShift(s, s', i)
    ensures InvBuffer(c, s')
  {
  }

  lemma WorkerKeepsOutput(c: Config, s: State, s': State, i: nat)
    requires InvOutput(c, s) && WorkerShift(s, s', i)
    ensures InvOutput(c, s')
  {
  }

  // ---------------------------------------------------------------------------------------
  // Phases: who has started, who has finished, and when `done` is set.

  predicate Leaving(w: WorkerPc) {
    w.WExitUnlock? || w.WExitSignal? || w.WExited?
  }

  predicate AfterDone(m: MainPc) {
    m.MDoneUnlock? || m.MBroadcast? || m.MJoin? || m.MFinished?
  }

  ghost predicate InvMain(c: Config, s: State) {
    && |s.workers| == c.numThreads
    && (s.main.MSpawn? ==> s.main.next <= c.numThreads)
    && (forall i | 0 <= i < |s.workers| :: s.workers[i].WUnborn? <==> s.main.MSpawn? && s.main.next <= i)
    && (s.sync.done <==> AfterDone(s.main))
    && (!s.main.MSpawn? && !s.main.MJoinRoot? ==> s.trav.TExited?)
    && (s.main.MJoin? ==> s.main.next <= c.numThreads)
    && (forall i | 0 <= i < |s.workers| ::
          s.main.MFinished? || (s.main.MJoin? && i < s.main.next) ==> s.workers[i].WExited?)
    && (s.frames == [] <==> s.trav.TExited?)
  }

  lemma MainKeepsMain(c: Config, s: State)
    requires InvMain(c, s) && MainEnabled(c, s)
    ensures InvMain(c, MainStep(c, s))
  {
  }

  lemma TravFrames(s: State, wake: nat)
    requires TravEnabled(s, wake) && (s.frames == [] <==> s.trav.TExited?)
    ensures TravStep(s, wake).frames == [] <==> TravStep(s, wake).trav.TExited?
  {
    if s.trav.TNext? {
      VisitFrames(s);
    } else {
      OthersKeepFrames(s, wake);
    }
  }

  lemma VisitFrames(s: State)
    requires s.trav.TNext? && s.frames != []
    ensures VisitNext(s).frames == [] <==> VisitNext(s).trav.TExited?
  {
  }

  lemma OthersKeepFrames(s: State, wake: nat)
    requires TravEnabled(s, wake) && !s.trav.TNext?
    ensures TravStep(s, wake).frames == s.frames && !TravStep(s, wake).trav.TExited?
  {
  }

  lemma TravKeepsMain(c: Config, s: State, s': State)
    requires InvMain(c, s) && TravShift(s, s') && (s'.frames == [] <==> s'.trav.TExited?)
    ensures InvMain(c, s')
  {
  }

  lemma WorkerKeepsMain(c: Config, s: State, s': State, i: nat)
    requires InvMain(c, s) && WorkerShift(s, s', i)
    ensures InvMain(c, s')
  {
  }

  // ---------------------------------------------------------------------------------------
  // What each thread knows about the ring at each point.

  ghost predicate InvRing(c: Config, s: State) {
    && |s.sync.ring.slots| == c.bufferSize
    && (s.trav.TPut? ==> !IsFull(s.sync.ring))
    && (forall i | 0 <= i < |s.workers| :: KnowsRing(s.workers[i], IsEmpty(s.sync.ring), s.sync.done))
  }

  predicate KnowsRing(w: WorkerPc, empty: bool, done: bool) {
    && (w.WGoWait? ==> empty)
    && (w.WCheck? ==> !empty || done)
    && (w.WTake? ==> !empty)
    && (Leaving(w) ==> empty && done)
  }

  lemma MainKeepsRing(c: Config, s: State)
    requires InvRing(c, s) && InvMain(c, s) && MainEnabled(c, s)
    ensures InvRing(c, MainStep(c, s))
  {
  }

  lemma TravKeepsRing(c: Config, s: State, wake: nat)
    requires InvRing(c, s) && InvMain(c, s) && InvBuffer(c, s) && TravEnabled(s, wake)
    ensures InvRing(c, TravStep(s, wake))
  {
    var s' := TravStep(s, wake);
    TravShifts(s, wake);
    TravFills(c, s, wake);
    forall i | 0 <= i < |s.workers| ensures KnowsRing(s'.workers[i], IsEmpty(s'.sync.ring), s'.sync.done) {
      OthersKnowRing(c, s, s', i);
    }
  }

  /** The traversal changes the ring only while it holds the mutex, and has found room for it. */
  lemma TravFills(c: Config, s: State, wake: nat)
    requires InvRing(c, s) && TravEnabled(s, wake)
    ensures var s' := TravStep(s, wake);
            && |s'.sync.ring.slots| == |s.sync.ring.slots|
            && (s'.trav.TPut? ==> !IsFull(s'.sync.ring))
            && (s'.sync.ring == s.sync.ring || (TravHoldsBuffer(s.trav) && !IsEmpty(s'.sync.ring)))
  {
    PutFills(s);
  }

  lemma OthersKnowRing(c: Config, s: State, s': State, i: nat)
    requires InvRing(c, s) && InvMain(c, s) && InvBuffer(c, s) && TravShift(s, s') && i < |s.workers|
    requires s'.sync.ring == s.sync.ring || (TravHoldsBuffer(s.trav) && !IsEmpty(s'.sync.ring))
    ensures KnowsRing(s'.workers[i], IsEmpty(s'.sync.ring), s'.sync.done)
  {
    assert KnowsRing(s.workers[i], IsEmpty(s.sync.ring), s.sync.done);
    assert HoldsBuffer(s.workers[i]) ==> !TravHoldsBuffer(s.trav);
    assert s.sync.done ==> s.trav.TExited?;
  }

  lemma PutFills(s: State)
    ensures s.trav.TPut? && !IsFull(s.sync.ring) ==> !IsEmpty(Put(s.sync.ring, s.trav.task))
  {
    if s.trav.TPut? && !IsFull(s.sync.ring) {
      PutAppends(s.sync.ring, s.trav.task);
      IndexTests(Put(s.sync.ring, s.trav.task));
    }
  }

  lemma WorkerKeepsRing(c: Config, s: State, i: nat)
    requires InvRing(c, s) && InvMain(c, s) && InvBuffer(c, s) && WorkerEnabled(s, i)
    ensures InvRing(c, WorkerStep(s, i))
  {
    var s' := WorkerStep(s, i);
    WorkerShifts(s, i);
    WorkerKnowsRing(c, s, i);
    WorkerLeavesRing(c, s, i);
    forall j | 0 <= j < |s.workers| && j != i
      ensures KnowsRing(s'.workers[j], IsEmpty(s'.sync.ring), s'.sync.done)
    {
      OtherWorkersKnowRing(c, s, s', i, j);
    }
  }

  /** The worker itself knows what it has just tested. */
  lemma WorkerKnowsRing(c: Config, s: State, i: nat)
    requires InvRing(c, s) && InvBuffer(c, s) && WorkerEnabled(s, i)
    ensures KnowsItsRing(WorkerStep(s, i), i)
  {
    assert KnowsItsRing(s, i);
    if s.workers[i].WTest? || s.workers[i].WCheck? {
      WorkerTests(s, i);
    } else {
      WorkerStillKnows(s, i);
    }
  }

  lemma WorkerTests(s: State, i: nat)
    requires KnowsItsRing(s, i) && (s.workers[i].WTest? || s.workers[i].WCheck?)
    ensures KnowsItsRing(WorkerStep(s, i), i)
  {
  }

  lemma WorkerStillKnows(s: State, i: nat)
    requires KnowsItsRing(s, i) && !s.workers[i].WTest? && !s.workers[i].WCheck?
    ensures KnowsItsRing(WorkerStep(s, i), i)
  {
  }

  predicate KnowsItsRing(s: State, i: nat) {
    i < |s.workers| && KnowsRing(s.workers[i], IsEmpty(s.sync.ring), s.sync.done)
  }

  lemma WorkerLeavesRing(c: Config, s: State, i: nat)
    requires InvBuffer(c, s) && WorkerEnabled(s, i)
    ensures var s' := WorkerStep(s, i);
            && |s'.sync.ring.slots| == |s.sync.ring.slots|
            && (s'.sync.ring == s.sync.ring || s.workers[i].WTake?)
            && (s'.trav.TPut? ==> s.trav.TPut? && !s.workers[i].WTake?)
  {
  }

  lemma OtherWorkersKnowRing(c: Config, s: State, s': State, i: nat, j: nat)
    requires InvRing(c, s) && InvBuffer(c, s) && WorkerShift(s, s', i) && j < |s.workers| && j != i
    requires s'.sync.ring == s.sync.ring || s.workers[i].WTake?
    ensures KnowsRing(s'.workers[j], IsEmpty(s'.sync.ring), s'.sync.done)
  {
    assert KnowsRing(s.workers[j], IsEmpty(s.sync.ring), s.sync.done);
    assert KnowsRing(s.workers[i], IsEmpty(s.sync.ring), s.sync.done);
    assert HoldsBuffer(s.workers[i]) ==> !HoldsBuffer(s.workers[j]);
  }

  // ---------------------------------------------------------------------------------------
  // First in, first out: tasks are copied in the order they were queued, none lost or repeated.

  /** The worker has fetched a task and not yet closed both of its descriptors. */
  predicate Copying(w: WorkerPc) {
    w.WRead? || w.WWrite? || w.WOutLock? || w.WCount? || w.WErrLock? || w.WErrPrint?
    || w.WCloseSrc? || w.WCloseDst?
  }

  /** The holder of `buffer_mutex`, if it is a worker; `WUnborn` otherwise. */
  function BufferWorker(s: State): WorkerPc {
    if s.sync.bufMutex.Worker? && s.sync.bufMutex.id < |s.workers| then s.workers[s.sync.bufMutex.id]
    else WUnborn
  }

  /** The at most one task that has left the ring and is not completed. */
  function InFlight(s: State): seq<Task> {
    var w := BufferWorker(s);
    if Copying(w) then [w.task] else []
  }

  /** The traversal has opened both ends of a file and not yet queued it. */
  predicate HoldsTask(t: TravPc) {
    t.TInsert? || t.TBufLock? || t.TTestFull? || t.TAsleep? || t.TRelock? || t.TPut?
  }

  function NthTask(k: nat): Task {
    Task(ReadEnd(k), WriteEnd(k))
  }

  ghost predicate InvQueue(c: Config, s: State) {
    && s.log.added == s.log.completed + InFlight(s) + Contents(s.sync.ring)
    && (forall k | 0 <= k < |s.log.added| :: s.log.added[k] == NthTask(k))
    && |s.disk.sources| == |s.log.added| + (if HoldsTask(s.trav) then 1 else 0)
    && (HoldsTask(s.trav) ==> s.trav.task == NthTask(|s.log.added|))
    && (InFlight(s) != [] ==> |Contents(s.sync.ring)| + 2 <= c.bufferSize)
  }

  lemma MainKeepsQueue(c: Config, s: State)
    requires InvQueue(c, s) && InvBuffer(c, s) && InvMain(c, s) && MainEnabled(c, s)
    ensures InvQueue(c, MainStep(c, s))
  {
    MainKeepsFlight(c, s);
    MainLeavesQueue(c, s);
  }

  lemma MainKeepsFlight(c: Config, s: State)
    requires InvBuffer(c, s) && InvMain(c, s) && MainEnabled(c, s)
    ensures InFlight(MainStep(c, s)) == InFlight(s)
  {
  }

  lemma MainLeavesQueue(c: Config, s: State)
    requires MainEnabled(c, s)
    ensures var s' := MainStep(c, s);
            && s'.log.added == s.log.added && s'.log.completed == s.log.completed
            && s'.sync.ring == s.sync.ring && s'.disk == s.disk && s'.trav == s.trav
  {
  }

  lemma TravKeepsQueue(c: Config, s: State, wake: nat)
    requires InvQueue(c, s) && InvBuffer(c, s) && InvMain(c, s) && InvRing(c, s) && TravEnabled(s, wake)
    ensures InvQueue(c, TravStep(s, wake))
  {
    TravKeepsFlight(c, s, wake);
    if s.trav.TPut? {
      PutKeepsQueue(c, s, wake);
    } else if s.trav.TOpenDest? {
      OpenKeepsQueue(c, s, wake);
    } else {
      OtherTravSteps(s, wake);
      OtherTravTasks(s, wake);
    }
  }

  lemma PutKeepsQueue(c: Config, s: State, wake: nat)
    requires InvQueue(c, s) && InvBuffer(c, s) && InvRing(c, s) && s.trav.TPut?
    requires InFlight(TravStep(s, wake)) == InFlight(s)
    ensures InvQueue(c, TravStep(s, wake))
  {
    assert InFlight(s) == [] by {
      assert BufferWorker(s).WUnborn?;
    }
    PutAddsTask(s, wake);
    QueuedLast(s.log.completed, Contents(s.sync.ring), s.trav.task);
    OneMoreInOrder(s.log.added, s.trav.task);
  }

  lemma PutAddsTask(s: State, wake: nat)
    requires s.trav.TPut? && !IsFull(s.sync.ring)
    ensures var s' := TravStep(s, wake);
            && Contents(s'.sync.ring) == Contents(s.sync.ring) + [s.trav.task]
            && s'.log == s.log.(added := s.log.added + [s.trav.task])
            && s'.disk.sources == s.disk.sources && s'.trav == TSignal
  {
    PutAppends(s.sync.ring, s.trav.task);
  }

  lemma QueuedLast(completed: seq<Task>, queue: seq<Task>, t: Task)
    ensures completed + [] + (queue + [t]) == completed + [] + queue + [t]
  {
  }

  lemma OneMoreInOrder(added: seq<Task>, t: Task)
    requires (forall k | 0 <= k < |added| :: added[k] == NthTask(k)) && t == NthTask(|added|)
    ensures forall k | 0 <= k < |added + [t]| :: (added + [t])[k] == NthTask(k)
  {
  }

  lemma OpenKeepsQueue(c: Config, s: State, wake: nat)
    requires InvQueue(c, s) && s.trav.TOpenDest? && InFlight(TravStep(s, wake)) == InFlight(s)
    ensures InvQueue(c, TravStep(s, wake))
  {
  }

  lemma TravKeepsFlight(c: Config, s: State, wake: nat)
    requires InvBuffer(c, s) && TravEnabled(s, wake)
    ensures InFlight(TravStep(s, wake)) == InFlight(s)
  {
  }

  lemma OtherTravSteps(s: State, wake: nat)
    requires TravEnabled(s, wake) && !s.trav.TPut? && !s.trav.TOpenDest?
    ensures var s' := TravStep(s, wake);
            && s'.log == s.log && s'.sync.ring == s.sync.ring && s'.disk.sources == s.disk.sources
  {
  }

  lemma OtherTravTasks(s: State, wake: nat)
    requires TravEnabled(s, wake) && !s.trav.TPut? && !s.trav.TOpenDest?
    ensures var s' := TravStep(s, wake);
            && HoldsTask(s'.trav) == HoldsTask(s.trav)
            && (HoldsTask(s.trav) ==> s'.trav.task == s.trav.task)
  {
  }

  lemma WorkerKeepsQueue(c: Config, s: State, i: nat)
    requires InvQueue(c, s) && InvBuffer(c, s) && InvRing(c, s) && WorkerEnabled(s, i)
    ensures InvQueue(c, WorkerStep(s, i))
  {
    if s.workers[i].WTake? {
      TakeKeepsQueue(c, s, i);
    } else if s.workers[i].WCloseDst? {
      CloseKeepsQueue(c, s, i);
    } else {
      OtherStepsKeepFlight(c, s, i);
    }
  }

  lemma TakeKeepsQueue(c: Config, s: State, i: nat)
    requires InvQueue(c, s) && InvBuffer(c, s) && InvRing(c, s) && WorkerEnabled(s, i) && s.workers[i].WTake?
    ensures InvQueue(c, WorkerStep(s, i))
  {
    var s' := WorkerStep(s, i);
    assert s.sync.bufMutex == Worker(i);
    assert KnowsRing(s.workers[i], IsEmpty(s.sync.ring), s.sync.done);
    DropRemovesFront(s.sync.ring);
    IndexTests(s.sync.ring);
    assert InFlight(s') == [Front(s.sync.ring)];
    TakenInOrder(s.log.completed, Front(s.sync.ring), Contents(s'.sync.ring));
  }

  lemma TakenInOrder(completed: seq<Task>, front: Task, rest: seq<Task>)
    ensures completed + [] + ([front] + rest) == completed + [front] + rest
  {
  }

  lemma CloseKeepsQueue(c: Config, s: State, i: nat)
    requires InvQueue(c, s) && InvBuffer(c, s) && WorkerEnabled(s, i) && s.workers[i].WCloseDst?
    ensures InvQueue(c, WorkerStep(s, i))
  {
    var s' := WorkerStep(s, i);
    assert s.sync.bufMutex == Worker(i);
    assert InFlight(s') == [];
    assert s'.log.completed + [] == s.log.completed + InFlight(s);
  }

  lemma OtherStepsKeepFlight(c: Config, s: State, i: nat)
    requires InvBuffer(c, s) && WorkerEnabled(s, i)
    requires !s.workers[i].WTake? && !s.workers[i].WCloseDst?
    ensures var s' := WorkerStep(s, i);
            && InFlight(s') == InFlight(s) && s'.log == s.log && s'.sync.ring == s.sync.ring
            && s'.disk.sources == s.disk.sources
            && HoldsTask(s'.trav) == HoldsTask(s.trav)
            && (HoldsTask(s.trav) ==> s'.trav.task == s.trav.task)
  {
    OtherStepsLeaveQueue(s, i);
    OtherStepsLeaveFlight(c, s, i);
  }

  lemma OtherStepsLeaveFlight(c: Config, s: State, i: nat)
    requires InvBuffer(c, s) && WorkerEnabled(s, i)
    requires !s.workers[i].WTake? && !s.workers[i].WCloseDst?
    ensures InFlight(WorkerStep(s, i)) == InFlight(s)
  {
  }

  lemma OtherStepsLeaveQueue(s: State, i: nat)
    requires WorkerEnabled(s, i) && !s.workers[i].WTake? && !s.workers[i].WCloseDst?
    ensures var s' := WorkerStep(s, i);
            && s'.log == s.log && s'.sync.ring == s.sync.ring && s'.disk.sources == s.disk.sources
            && HoldsTask(s'.trav) == HoldsTask(s.trav)
            && (HoldsTask(s.trav) ==> s'.trav.task == s.trav.task)
  {
  }

  /** The task in flight is the next one in line. */
  lemma FlightIsNext(c: Config, s: State, i: nat)
    requires InvQueue(c, s) && InvBuffer(c, s) && i < |s.workers| && Copying(s.workers[i])
    ensures s.sync.bufMutex == Worker(i) && BufferWorker(s) == s.workers[i]
    ensures |s.log.completed| < |s.log.added| <= |s.disk.sources|
    ensures s.workers[i].task == NthTask(|s.log.completed|)
  {
    assert s.log.added[|s.log.completed|] == s.workers[i].task;
  }

  // ---------------------------------------------------------------------------------------
  // Descriptors: which ones are open follows from what is queued, in flight or being opened.

  /** Only the source side of the next file is open. */
  predicate SourceOnly(t: TravPc) {
    t.TOpenDest? || t.TDestErrLock? || t.TDestErrPrint? || t.TDestErrClose?
  }

  predicate ReadOpen(s: State, k: nat) {
    || (|s.log.completed| <= k < |s.disk.sources| && !(BufferWorker(s).WCloseDst? && k == |s.log.completed|))
    || (k == |s.disk.sources| && SourceOnly(s.trav))
  }

  predicate WriteOpen(s: State, k: nat) {
    |s.log.completed| <= k < |s.disk.sources|
  }

  ghost predicate InvOpen(s: State) {
    && (forall k: nat :: ReadEnd(k) in s.disk.open <==> ReadOpen(s, k))
    && (forall k: nat :: WriteEnd(k) in s.disk.open <==> WriteOpen(s, k))
  }

  lemma MainKeepsOpen(c: Config, s: State)
    requires InvOpen(s) && InvBuffer(c, s) && InvMain(c, s) && MainEnabled(c, s)
    ensures InvOpen(MainStep(c, s))
  {
  }

  lemma TravKeepsOpen(c: Config, s: State, wake: nat)
    requires InvOpen(s) && InvBuffer(c, s) && InvQueue(c, s) && TravEnabled(s, wake)
    ensures InvOpen(TravStep(s, wake))
  {
    var s' := TravStep(s, wake);
    assert |s.log.completed| <= |s.disk.sources|;
    TravKeepsClosing(c, s, wake);
    TravOpens(s, wake);
    forall k: nat
      ensures ReadEnd(k) in s'.disk.open <==> ReadOpen(s', k)
      ensures WriteEnd(k) in s'.disk.open <==> WriteOpen(s', k)
    {
      assert ReadEnd(k) in s.disk.open <==> ReadOpen(s, k);
      assert WriteEnd(k) in s.disk.open <==> WriteOpen(s, k);
    }
  }

  /** The traversal opens the source of the next file, then its destination, or closes the source again. */
  lemma TravOpens(s: State, wake: nat)
    requires TravEnabled(s, wake)
    ensures var s', next := TravStep(s, wake), |s.disk.sources|;
            && s'.log.completed == s.log.completed
            && if |s'.disk.sources| == next + 1 then
                 SourceOnly(s.trav) && !SourceOnly(s'.trav) && s'.disk.open == s.disk.open + {WriteEnd(next)}
               else
                 && |s'.disk.sources| == next
                 && s'.disk.open ==
                    (if SourceOnly(s'.trav) && !SourceOnly(s.trav) then s.disk.open + {ReadEnd(next)}
                     else if SourceOnly(s.trav) && !SourceOnly(s'.trav) then s.disk.open - {ReadEnd(next)}
                     else s.disk.open)
  {
  }

  lemma TravKeepsClosing(c: Config, s: State, wake: nat)
    requires InvBuffer(c, s) && TravEnabled(s, wake)
    ensures BufferWorker(TravStep(s, wake)).WCloseDst? == BufferWorker(s).WCloseDst?
  {
  }

  lemma WorkerKeepsOpen(c: Config, s: State, i: nat)
    requires InvOpen(s) && InvBuffer(c, s) && InvQueue(c, s) && WorkerEnabled(s, i)
    ensures InvOpen(WorkerStep(s, i))
  {
    if Copying(s.workers[i]) {
      FlightIsNext(c, s, i);
      CopyStepKeepsOpen(c, s, i, |s.log.completed|);
    } else {
      IdleStepKeepsOpen(c, s, i);
    }
  }

  lemma IdleStepKeepsOpen(c: Config, s: State, i: nat)
    requires InvOpen(s) && InvBuffer(c, s) && WorkerEnabled(s, i) && !Copying(s.workers[i])
    ensures InvOpen(WorkerStep(s, i))
  {
    var s' := WorkerStep(s, i);
    assert s'.disk == s.disk && s'.log.completed == s.log.completed && SourceOnly(s'.trav) == SourceOnly(s.trav);
    assert !BufferWorker(s').WCloseDst? || BufferWorker(s') == BufferWorker(s);
  }

  lemma CopyStepKeepsOpen(c: Config, s: State, i: nat, k: nat)
    requires InvOpen(s) && WorkerEnabled(s, i) && Copying(s.workers[i])
    requires s.sync.bufMutex == Worker(i) && k == |s.log.completed| < |s.disk.sources|
    requires s.workers[i].task == NthTask(k)
    ensures InvOpen(WorkerStep(s, i))
  {
    var s' := WorkerStep(s, i);
    assert s'.trav == s.trav && s'.disk.sources == s.disk.sources;
  }

  // ---------------------------------------------------------------------------------------
  // Bytes: finished files hold what their script wrote, waiting files are empty, and the file
  // in flight holds a prefix; `bytes_copied` lags by at most the write being counted.

  /** What the file in flight holds, as what is still to be written. */
  ghost predicate Progress(w: WorkerPc, held: seq<bv8>, ts: seq<Transfer>) {
    match w
    case WRead(_, pos) => pos <= |ts| && held + Written(ts[pos..]) == Written(ts)
    case WWrite(_, pos) => pos < |ts| && held + Written(ts[pos..]) == Written(ts)
    case WOutLock(_, pos, n) => pos < |ts| && held + Written(ts[pos + 1..]) == Written(ts)
    case WCount(_, pos, n) => pos < |ts| && held + Written(ts[pos + 1..]) == Written(ts)
    case _ => held == Written(ts)
  }

  /** Bytes written and not yet counted. */
  function Uncounted(w: WorkerPc): nat {
    if w.WOutLock? || w.WCount? then w.wrote else 0
  }

  ghost predicate InvData(s: State) {
    && |s.disk.data| == |s.disk.sources|
    && |s.log.completed| + |InFlight(s)| <= |s.disk.data|
    && (forall k | 0 <= k < |s.log.completed| :: s.disk.data[k] == Written(s.disk.sources[k].transfers))
    && (forall k | |s.log.completed| + |InFlight(s)| <= k < |s.disk.data| :: s.disk.data[k] == [])
    && (Copying(BufferWorker(s)) ==>
          var lo := |s.log.completed|;
          Progress(BufferWorker(s), s.disk.data[lo], s.disk.sources[lo].transfers))
    && s.stats.bytes + Uncounted(BufferWorker(s)) == TotalLength(s.disk.data)
  }

  lemma {:induction false} TotalLengthUpdate(data: seq<seq<bv8>>, k: nat, x: seq<bv8>)
    requires k < |data|
    ensures TotalLength(data[k := x]) == TotalLength(data) - |data[k]| + |x|
  {
    var n := |data| - 1;
    if k < n {
      TotalLengthUpdate(data[..n], k, x);
      assert data[k := x][..n] == data[..n][k := x];
    } else {
      assert data[k := x][..n] == data[..n];
    }
  }

  lemma MainKeepsData(c: Config, s: State)
    requires InvData(s) && InvBuffer(c, s) && InvMain(c, s) && MainEnabled(c, s)
    ensures InvData(MainStep(c, s))
  {
    var s' := MainStep(c, s);
    assert BufferWorker(s') == BufferWorker(s)
        || (!Copying(BufferWorker(s')) && !Copying(BufferWorker(s)));
  }

  lemma TravKeepsBufferWorker(c: Config, s: State, wake: nat)
    requires InvBuffer(c, s) && TravEnabled(s, wake)
    ensures var w, w' := BufferWorker(s), BufferWorker(TravStep(s, wake));
            w' == w || (!Copying(w') && !Copying(w))
  {
  }

  lemma TravKeepsData(c: Config, s: State, wake: nat)
    requires InvData(s) && InvBuffer(c, s) && TravEnabled(s, wake)
    ensures InvData(TravStep(s, wake))
  {
    TravKeepsFlight(c, s, wake);
    TravKeepsBufferWorker(c, s, wake);
    TravKeepsBytes(s, wake);
    TravKeepsDisk(s, wake);
    GrowingKeepsData(s, TravStep(s, wake));
  }

  /** The traversal only adds files, and empty ones. */
  lemma TravKeepsDisk(s: State, wake: nat)
    requires TravEnabled(s, wake)
    ensures SameOrGrown(s, TravStep(s, wake))
  {
  }

  predicate SameOrGrown(s: State, s': State) {
    || (s'.disk.sources == s.disk.sources && s'.disk.data == s.disk.data)
    || (&& s'.disk.sources != [] && s'.disk.sources[..|s'.disk.sources| - 1] == s.disk.sources
        && s'.disk.data == s.disk.data + [[]])
  }

  lemma GrowingKeepsData(s: State, s': State)
    requires InvData(s) && SameOrGrown(s, s')
    requires s'.stats.bytes == s.stats.bytes && s'.log.completed == s.log.completed
    requires InFlight(s') == InFlight(s)
    requires var w, w' := BufferWorker(s), BufferWorker(s'); w' == w || (!Copying(w') && !Copying(w))
    ensures InvData(s')
  {
    if s'.disk.data == s.disk.data + [[]] {
      EmptyAddsNothing(s.disk.data);
    }
  }

  lemma EmptyAddsNothing(data: seq<seq<bv8>>)
    ensures TotalLength(data + [[]]) == TotalLength(data)
  {
    assert (data + [[]])[..|data|] == data;
  }

  lemma TravKeepsBytes(s: State, wake: nat)
    requires TravEnabled(s, wake)
    ensures var s' := TravStep(s, wake);
            && s'.stats.bytes == s.stats.bytes
            && s'.log.completed == s.log.completed
  {
  }

  lemma WorkerKeepsData(c: Config, s: State, i: nat)
    requires InvData(s) && InvOpen(s) && InvBuffer(c, s) && InvQueue(c, s) && InvRing(c, s)
    requires WorkerEnabled(s, i)
    ensures InvData(WorkerStep(s, i))
  {
    var w, s' := s.workers[i], WorkerStep(s, i);
    if Copying(w) {
      FlightIsNext(c, s, i);
      CopyStepKeepsData(c, s, i);
    } else if w.WTake? {
      assert s.sync.bufMutex == Worker(i);
      assert KnowsRing(w, IsEmpty(s.sync.ring), s.sync.done);
      IndexTests(s.sync.ring);
      assert s.log.added[|s.log.completed|] == Contents(s.sync.ring)[0];
      assert s'.workers[i] == BufferWorker(s');
      var ts := s.disk.sources[|s.log.completed|].transfers;
      assert ts[0..] == ts;
    } else {
      IdleStepKeepsData(c, s, i);
    }
  }

  lemma IdleStepKeepsData(c: Config, s: State, i: nat)
    requires InvData(s) && InvBuffer(c, s) && WorkerEnabled(s, i)
    requires !Copying(s.workers[i]) && !s.workers[i].WTake?
    ensures InvData(WorkerStep(s, i))
  {
    var s' := WorkerStep(s, i);
    assert s'.disk == s.disk && s'.stats == s.stats && s'.log == s.log;
    assert BufferWorker(s') == BufferWorker(s)
        || (!Copying(BufferWorker(s')) && !Copying(BufferWorker(s)));
  }

  /** Worker `i` is copying file `k`, whose descriptors are open as far as they should be. */
  ghost predicate CopyingFile(c: Config, s: State, i: nat, k: nat) {
    && InvData(s) && InvOpen(s) && InvBuffer(c, s)
    && WorkerEnabled(s, i) && Copying(s.workers[i])
    && s.sync.bufMutex == Worker(i) && BufferWorker(s) == s.workers[i]
    && k == |s.log.completed| < |s.disk.sources| && s.workers[i].task == NthTask(k)
  }

  lemma CopyStepKeepsData(c: Config, s: State, i: nat)
    requires CopyingFile(c, s, i, |s.log.completed|)
    ensures InvData(WorkerStep(s, i))
  {
    var w, k := s.workers[i], |s.log.completed|;
    assert ReadOpen(s, k) || w.WCloseDst?;
    assert WriteOpen(s, k);
    if w.WWrite? {
      WriteStepKeepsData(c, s, i, k);
    } else if w.WCloseDst? {
      CloseStepKeepsData(c, s, i, k);
    } else if w.WRead? {
      ReadStepKeepsData(c, s, i, k);
    } else {
      CountStepKeepsData(c, s, i, k);
    }
  }

  lemma CountStepKeepsData(c: Config, s: State, i: nat, k: nat)
    requires CopyingFile(c, s, i, k)
    requires !s.workers[i].WRead? && !s.workers[i].WWrite? && !s.workers[i].WCloseDst?
    ensures InvData(WorkerStep(s, i))
  {
    var w, s' := s.workers[i], WorkerStep(s, i);
    CountStep(s, i);
    assert Progress(s'.workers[i], s.disk.data[k], s.disk.sources[k].transfers);
  }

  /** The steps between two chunks: the count, the complaint, the first close. */
  lemma CountStep(s: State, i: nat)
    requires WorkerEnabled(s, i) && Copying(s.workers[i]) && s.sync.bufMutex == Worker(i)
    requires !s.workers[i].WRead? && !s.workers[i].WWrite? && !s.workers[i].WCloseDst?
    ensures var s' := WorkerStep(s, i);
            && s'.disk.data == s.disk.data && s'.disk.sources == s.disk.sources && s'.log == s.log
            && BufferWorker(s') == s'.workers[i] && Copying(s'.workers[i])
            && s'.stats.bytes + Uncounted(s'.workers[i]) == s.stats.bytes + Uncounted(s.workers[i])
  {
  }

  lemma CloseStepKeepsData(c: Config, s: State, i: nat, k: nat)
    requires CopyingFile(c, s, i, k) && s.workers[i].WCloseDst?
    ensures InvData(WorkerStep(s, i))
  {
    var s' := WorkerStep(s, i);
    assert s'.workers[i] == BufferWorker(s');
  }

  lemma ReadStepKeepsData(c: Config, s: State, i: nat, k: nat)
    requires CopyingFile(c, s, i, k) && s.workers[i].WRead? && ReadEnd(k) in s.disk.open
    ensures InvData(WorkerStep(s, i))
  {
    var w, s' := s.workers[i], WorkerStep(s, i);
    var ts := s.disk.sources[k].transfers;
    assert s'.workers[i] == BufferWorker(s');
    assert w.pos == |ts| ==> s.disk.data[k] + Written(ts[w.pos..]) == s.disk.data[k];
  }

  lemma WriteStepKeepsData(c: Config, s: State, i: nat, k: nat)
    requires CopyingFile(c, s, i, k) && s.workers[i].WWrite? && WriteEnd(k) in s.disk.open
    ensures InvData(WorkerStep(s, i))
  {
    var w := s.workers[i];
    var ts, held := s.disk.sources[k].transfers, s.disk.data[k];
    assert Progress(w, held, ts);
    Resume(held, ts, w.pos);
    if ts[w.pos].wrote >= 0 {
      TotalLengthUpdate(s.disk.data, k, held + ts[w.pos].data[..ts[w.pos].wrote]);
      ChunkWritten(s, i, k);
    } else {
      WriteFails(s, i, k);
    }
  }

  lemma ChunkWritten(s: State, i: nat, k: nat)
    requires WorkerEnabled(s, i) && s.workers[i].WWrite? && s.sync.bufMutex == Worker(i)
    requires s.workers[i].task == NthTask(k) && WriteEnd(k) in s.disk.open
    requires k < |s.disk.data| == |s.disk.sources|
    requires s.workers[i].pos < |s.disk.sources[k].transfers|
    requires s.disk.sources[k].transfers[s.workers[i].pos].wrote >= 0
    ensures var w, s' := s.workers[i], WorkerStep(s, i);
            var x := s.disk.sources[k].transfers[w.pos];
            && BufferWorker(s') == WOutLock(w.task, w.pos, x.wrote)
            && s'.disk.data == s.disk.data[k := s.disk.data[k] + x.data[..x.wrote]]
            && s'.disk.sources == s.disk.sources && s'.log == s.log && s'.stats == s.stats
  {
  }

  lemma WriteFails(s: State, i: nat, k: nat)
    requires WorkerEnabled(s, i) && s.workers[i].WWrite? && s.sync.bufMutex == Worker(i)
    requires s.workers[i].task == NthTask(k) && k < |s.disk.sources|
    requires s.workers[i].pos < |s.disk.sources[k].transfers|
    requires s.disk.sources[k].transfers[s.workers[i].pos].wrote < 0
    ensures var s' := WorkerStep(s, i);
            && BufferWorker(s') == WErrLock(s.workers[i].task)
            && s'.disk == s.disk && s'.log == s.log && s'.stats == s.stats
  {
  }

  /** What is still to be written before and after one more write. */
  lemma Resume(held: seq<bv8>, ts: seq<Transfer>, pos: nat)
    requires pos < |ts|
    ensures held + Written(ts[pos..]) ==
            if ts[pos].wrote < 0 then held
            else held + ts[pos].data[..ts[pos].wrote] + Written(ts[pos + 1..])
  {
    var x := ts[pos];
    assert ts[pos..][0] == x && ts[pos..][1..] == ts[pos + 1..];
    if x.wrote >= 0 {
      assert held + (x.data[..x.wrote] + Written(ts[pos + 1..])) == held + x.data[..x.wrote] + Written(ts[pos + 1..]);
    }
  }

  // ---------------------------------------------------------------------------------------
  // Wake-ups: no sleeper is forgotten while there is work for it.

  /** A worker that will look at the ring again without being woken. */
  predicate Awake(w: WorkerPc) {
    !w.WAsleep? && !w.WGoWait? && !Leaving(w)
  }

  predicate SomeoneAwake(ws: seq<WorkerPc>) {
    exists i :: 0 <= i < |ws| && Awake(ws[i])
  }

  /** The lock holder has freed a slot and not yet signalled it. */
  predicate SignalDue(w: WorkerPc) {
    Copying(w) || w.WSignal?
  }

  ghost predicate InvWake(s: State) {
    && (s.trav.TAsleep? ==> IsFull(s.sync.ring) || SignalDue(BufferWorker(s)))
    && (!IsEmpty(s.sync.ring) ==> s.trav.TSignal? || SomeoneAwake(s.workers))
  }

  lemma MainKeepsWake(c: Config, s: State)
    requires InvWake(s) && InvMain(c, s) && InvBuffer(c, s) && MainEnabled(c, s)
    ensures InvWake(MainStep(c, s))
  {
    var s' := MainStep(c, s);
    assert BufferWorker(s') == BufferWorker(s)
        || (!SignalDue(BufferWorker(s')) && !SignalDue(BufferWorker(s)));
    if i :| 0 <= i < |s.workers| && Awake(s.workers[i]) {
      assert Awake(s'.workers[i]);
    }
  }

  lemma TravKeepsWake(c: Config, s: State, wake: nat)
    requires InvWake(s) && InvMain(c, s) && InvBuffer(c, s) && InvRing(c, s)
    requires ValidConfig(c) && TravEnabled(s, wake)
    ensures InvWake(TravStep(s, wake))
  {
    var s' := TravStep(s, wake);
    if s.trav.TSignal? {
      SignalWakesSomeone(c, s, wake);
    } else {
      assert s'.workers == s.workers;
    }
  }

  lemma SignalWakesSomeone(c: Config, s: State, wake: nat)
    requires InvMain(c, s) && InvBuffer(c, s) && InvRing(c, s) && ValidConfig(c)
    requires s.trav.TSignal? && TravEnabled(s, wake)
    ensures SomeoneAwake(WakeOne(s.workers, wake))
  {
    var woken := WakeOne(s.workers, wake);
    if SomeoneAsleep(s.workers) {
      assert Awake(woken[wake]);
    } else {
      assert KnowsRing(s.workers[0], IsEmpty(s.sync.ring), s.sync.done);
      assert HoldsBuffer(s.workers[0]) <==> s.sync.bufMutex == Worker(0);
      assert Awake(woken[0]);
    }
  }

  lemma WorkerKeepsWake(c: Config, s: State, i: nat)
    requires InvWake(s) && InvBuffer(c, s) && InvRing(c, s) && WorkerEnabled(s, i)
    ensures InvWake(WorkerStep(s, i))
  {
    WorkerKeepsRoom(c, s, i);
    WorkerKeepsAwake(c, s, i);
  }

  lemma WorkerKeepsAwake(c: Config, s: State, i: nat)
    requires InvWake(s) && InvRing(c, s) && WorkerEnabled(s, i)
    ensures var s' := WorkerStep(s, i);
            !IsEmpty(s'.sync.ring) ==> s'.trav.TSignal? || SomeoneAwake(s'.workers)
  {
    var s' := WorkerStep(s, i);
    assert KnowsRing(s.workers[i], IsEmpty(s.sync.ring), s.sync.done);
    if Awake(s'.workers[i]) {
      assert SomeoneAwake(s'.workers);
    } else {
      assert s'.sync.ring == s.sync.ring && IsEmpty(s.sync.ring);
    }
  }

  lemma WorkerKeepsRoom(c: Config, s: State, i: nat)
    requires InvWake(s) && InvBuffer(c, s) && WorkerEnabled(s, i)
    ensures var s' := WorkerStep(s, i);
            s'.trav.TAsleep? ==> IsFull(s'.sync.ring) || SignalDue(BufferWorker(s'))
  {
    if SignalDue(s.workers[i]) || s.workers[i].WTake? {
      assert s.sync.bufMutex == Worker(i);
      SignalsLater(s, i);
    } else {
      NoSignalDue(c, s, i);
    }
  }

  /** The worker that has taken a task owes the signal until it gives it. */
  lemma SignalsLater(s: State, i: nat)
    requires WorkerEnabled(s, i) && (SignalDue(s.workers[i]) || s.workers[i].WTake?) && s.sync.bufMutex == Worker(i)
    ensures var s' := WorkerStep(s, i); SignalDue(BufferWorker(s')) || !s'.trav.TAsleep?
  {
  }

  lemma NoSignalDue(c: Config, s: State, i: nat)
    requires InvBuffer(c, s) && WorkerEnabled(s, i) && !SignalDue(s.workers[i]) && !s.workers[i].WTake?
    ensures var s' := WorkerStep(s, i);
            && s'.sync.ring == s.sync.ring && (s'.trav.TAsleep? ==> s.trav.TAsleep?)
            && (SignalDue(BufferWorker(s)) ==> SignalDue(BufferWorker(s')))
  {
  }
}
