/**
 The error messages of the directory copier: every failure is reported exactly once, whatever the
 interleaving.
 */
module CopierErrors {
  import opened CopierTree
  import opened CopierRing
  import opened CopierProtocol
  import opened CopierInvariant
  import opened CopierRefinement
  import opened CopierSafety
  import opened CopierTheorems

  /** The messages a step prints. */
  function PrintedBy(s: State, a: Action): nat {
    match a
    case StepTraversal(_) => if s.trav.TErrPrint? || s.trav.TDestErrPrint? then 1 else 0
    case StepWorker(i) => if i < |s.workers| && s.workers[i].WErrPrint? then 1 else 0
    case StepMain => 0
    case SpuriousTraversal => 0
    case SpuriousWorker(_) => 0
  }

  /** The messages printed in the first `k` steps of a run. */
  function Printed(states: seq<State>, actions: seq<Action>, k: nat): nat
    requires k <= |actions| < |states|
  {
    if k == 0 then 0 else Printed(states, actions, k - 1) + PrintedBy(states[k - 1], actions[k - 1])
  }

  // ---------------------------------------------------------------------------------------
  // What is still to be reported.

  function TravOwes(t: TravPc): nat {
    match t
    case TOpenDest(_, _, script, fate) => if fate.DestFails? then 1 else Complaints(script, 0)
    case TErrLock => 1
    case TErrPrint => 1
    case TDestErrLock => 1
    case TDestErrPrint => 1
    case TFifoLock => 1
    case TFifoCount => 1
    case _ => 0
  }

  function FramesOwe(frames: seq<Frame>): nat {
    if frames == [] then 0 else Troubles(frames[0].entries) + FramesOwe(frames[1..])
  }

  function FilesOwe(sources: seq<Script>): nat {
    if sources == [] then 0 else Complaints(sources[0], 0) + FilesOwe(sources[1..])
  }

  /** What the worker has still to report of the file it is copying. */
  function WorkerOwes(w: WorkerPc, script: Script): nat {
    match w
    case WRead(_, pos) => Complaints(script, pos)
    case WWrite(_, pos) => Complaints(script, pos)
    case WOutLock(_, pos, _) => Complaints(script, pos + 1)
    case WCount(_, pos, _) => Complaints(script, pos + 1)
    case WErrLock(_) => 1
    case WErrPrint(_) => 1
    case _ => 0
  }

  function FlightOwes(w: WorkerPc, sources: seq<Script>, k: nat): nat {
    if Copying(w) && k < |sources| then WorkerOwes(w, sources[k]) else 0
  }

  /** The number of the first file not taken from the ring yet. */
  function NextFile(s: State): nat {
    |s.log.completed| + |InFlight(s)|
  }

  function Waiting(sources: seq<Script>, k: nat): seq<Script> {
    if k <= |sources| then sources[k..] else []
  }

  function Owed(s: State): nat {
    s.stats.fifos + TravOwes(s.trav) + FramesOwe(s.frames)
    + FlightOwes(BufferWorker(s), s.disk.sources, |s.log.completed|)
    + FilesOwe(Waiting(s.disk.sources, NextFile(s)))
  }

  // ---------------------------------------------------------------------------------------
  // Every step reports what it no longer owes.

  lemma {:induction false} FilesOweBoth(a: seq<Script>, b: seq<Script>)
    ensures FilesOwe(a + b) == FilesOwe(a) + FilesOwe(b)
  {
    if a == [] {
      assert a + b == b;
    } else {
      assert (a + b)[1..] == a[1..] + b;
      FilesOweBoth(a[1..], b);
    }
  }

  lemma FramesOweMore(frame: Frame, frames: seq<Frame>)
    ensures FramesOwe([frame] + frames) == Troubles(frame.entries) + FramesOwe(frames)
  {
    assert ([frame] + frames)[1..] == frames;
  }

  /** Visiting an entry, or leaving a directory. */
  lemma VisitOwes(s: State)
    requires s.trav.TNext?
    ensures var s' := VisitNext(s);
            && TravOwes(s'.trav) + FramesOwe(s'.frames) == FramesOwe(s.frames)
            && s'.stats == s.stats && s'.disk.sources == s.disk.sources && s'.log == s.log
  {
    if s.frames != [] && s.frames[0].entries != [] {
      var top, below := s.frames[0], s.frames[1..];
      var rest := Frame(top.path, top.entries[1..]);
      FramesOweMore(rest, below);
      EntryOwes(s);
      if Descends(top.entries[0]) {
        DirVisit(s);
        FramesOweMore(VisitNext(s).frames[0], [rest] + below);
      } else {
        LeafFrames(s);
      }
    }
  }

  lemma EntryOwes(s: State)
    requires s.trav.TNext? && s.frames != [] && s.frames[0].entries != []
    ensures var e, s' := s.frames[0].entries[0], VisitNext(s);
            && s'.frames != []
            && TroublesOf(e) == TravOwes(s'.trav) + if Descends(e) then Troubles(s'.frames[0].entries) else 0
  {
  }

  lemma OpenOwes(s: State)
    requires s.trav.TOpenDest?
    ensures var s' := OpenDest(s);
            && s'.frames == s.frames && s'.stats == s.stats && s'.log == s.log
            && TravOwes(s'.trav) + FilesOwe(s'.disk.sources[|s.disk.sources|..]) == TravOwes(s.trav)
            && s.disk.sources <= s'.disk.sources
  {
    if !s.trav.fate.DestFails? {
      assert OpenDest(s).disk.sources[|s.disk.sources|..] == [s.trav.script];
      assert [s.trav.script][1..] == [];
    }
  }

  lemma OtherTravOwes(s: State, wake: nat)
    requires TravEnabled(s, wake) && !s.trav.TNext? && !s.trav.TOpenDest?
    ensures var s' := TravStep(s, wake);
            && PrintedBy(s, StepTraversal(wake)) + s'.stats.fifos + TravOwes(s'.trav)
               == s.stats.fifos + TravOwes(s.trav)
            && s'.frames == s.frames && s'.disk.sources == s.disk.sources
  {
  }

  /** The traversal leaves the file in flight alone, and adds files only behind those waiting. */
  lemma TravOwesFlight(c: Config, s: State, wake: nat)
    requires Inv(c, s) && TravEnabled(s, wake)
    ensures var s' := TravStep(s, wake);
            && NextFile(s') == NextFile(s) <= |s.disk.sources| && s.disk.sources <= s'.disk.sources
            && FlightOwes(BufferWorker(s'), s'.disk.sources, |s'.log.completed|)
               == FlightOwes(BufferWorker(s), s.disk.sources, |s.log.completed|)
            && FilesOwe(Waiting(s'.disk.sources, NextFile(s')))
               == FilesOwe(Waiting(s.disk.sources, NextFile(s))) + FilesOwe(s'.disk.sources[|s.disk.sources|..])
  {
    var s' := TravStep(s, wake);
    TravKeepsFlight(c, s, wake);
    TravKeepsBufferWorker(c, s, wake);
    TravKeepsDisk(s, wake);
    TravKeepsBytes(s, wake);
    AddedBehind(s.disk.sources, s'.disk.sources, NextFile(s));
    FlightSame(BufferWorker(s), BufferWorker(s'), s.disk.sources, s'.disk.sources, |s.log.completed|);
  }

  lemma AddedBehind(sources: seq<Script>, sources': seq<Script>, k: nat)
    requires sources <= sources' && k <= |sources|
    ensures FilesOwe(Waiting(sources', k)) == FilesOwe(Waiting(sources, k)) + FilesOwe(sources'[|sources|..])
  {
    assert sources'[k..] == sources[k..] + sources'[|sources|..];
    FilesOweBoth(sources[k..], sources'[|sources|..]);
  }

  lemma FlightSame(w: WorkerPc, w': WorkerPc, sources: seq<Script>, sources': seq<Script>, k: nat)
    requires (w' == w || (!Copying(w') && !Copying(w))) && sources <= sources' && (Copying(w) ==> k < |sources|)
    ensures FlightOwes(w', sources', k) == FlightOwes(w, sources, k)
  {
  }

  lemma TravStepOwes(c: Config, s: State, wake: nat)
    requires Inv(c, s) && TravEnabled(s, wake)
    ensures PrintedBy(s, StepTraversal(wake)) + Owed(TravStep(s, wake)) == Owed(s)
  {
    TravOwesFlight(c, s, wake);
    if s.trav.TNext? {
      VisitOwes(s);
    } else if s.trav.TOpenDest? {
      OpenOwes(s);
    } else {
      OtherTravOwes(s, wake);
    }
  }

  /** One step of the worker that is copying file `k`. */
  lemma CopyStepOwes(c: Config, s: State, i: nat, k: nat)
    requires CopyingFile(c, s, i, k)
    ensures var w, w' := s.workers[i], WorkerStep(s, i).workers[i];
            PrintedBy(s, StepWorker(i)) + WorkerOwes(w', s.disk.sources[k]) == WorkerOwes(w, s.disk.sources[k])
  {
    var w := s.workers[i];
    assert ReadOpen(s, k) || w.WCloseDst?;
    assert WriteOpen(s, k);
    assert Progress(w, s.disk.data[k], s.disk.sources[k].transfers);
    if w.WRead? || w.WWrite? {
      TransferOwes(s, i, k);
    }
  }

  lemma TransferOwes(s: State, i: nat, k: nat)
    requires WorkerEnabled(s, i) && k < |s.disk.sources| == |s.disk.data|
    requires (s.workers[i].WRead? || s.workers[i].WWrite?) && s.workers[i].task == NthTask(k)
    requires ReadEnd(k) in s.disk.open && WriteEnd(k) in s.disk.open
    requires s.workers[i].pos <= |s.disk.sources[k].transfers|
    requires s.workers[i].WWrite? ==> s.workers[i].pos < |s.disk.sources[k].transfers|
    ensures WorkerOwes(WorkerStep(s, i).workers[i], s.disk.sources[k]) == WorkerOwes(s.workers[i], s.disk.sources[k])
  {
    var pos, ts := s.workers[i].pos, s.disk.sources[k].transfers;
    if s.workers[i].WWrite? {
      assert Breaks(ts, pos) <==> ts[pos].wrote < 0 || Breaks(ts, pos + 1);
    }
  }

  lemma WorkerLeavesRest(s: State, i: nat)
    requires WorkerEnabled(s, i)
    ensures var s' := WorkerStep(s, i);
            && s'.stats.fifos == s.stats.fifos && s'.frames == s.frames && s'.disk.sources == s.disk.sources
            && TravOwes(s'.trav) == TravOwes(s.trav)
  {
  }

  lemma WorkerStepOwes(c: Config, s: State, i: nat)
    requires Inv(c, s) && WorkerEnabled(s, i)
    ensures PrintedBy(s, StepWorker(i)) + Owed(WorkerStep(s, i)) == Owed(s)
  {
    var w := s.workers[i];
    WorkerLeavesRest(s, i);
    if Copying(w) {
      CopyingOwes(c, s, i);
    } else if w.WTake? {
      TakeOwes(c, s, i);
    } else {
      IdleOwes(c, s, i);
    }
  }

  lemma CopyingOwes(c: Config, s: State, i: nat)
    requires Inv(c, s) && WorkerEnabled(s, i) && Copying(s.workers[i])
    ensures var s', k := WorkerStep(s, i), |s.log.completed|;
            && NextFile(s') == NextFile(s)
            && PrintedBy(s, StepWorker(i)) + FlightOwes(BufferWorker(s'), s'.disk.sources, |s'.log.completed|)
               == FlightOwes(BufferWorker(s), s.disk.sources, k)
  {
    var k := |s.log.completed|;
    FlightIsNext(c, s, i);
    CopyStepOwes(c, s, i, k);
    CopyingStays(s, i);
  }

  lemma CopyingStays(s: State, i: nat)
    requires WorkerEnabled(s, i) && Copying(s.workers[i]) && s.sync.bufMutex == Worker(i)
    ensures var s' := WorkerStep(s, i);
            && BufferWorker(s') == s'.workers[i] && s'.disk.sources == s.disk.sources
            && if s.workers[i].WCloseDst? then !Copying(s'.workers[i]) && |s'.log.completed| == |s.log.completed| + 1
               else Copying(s'.workers[i]) && s'.log == s.log
  {
  }

  lemma TakeOwes(c: Config, s: State, i: nat)
    requires Inv(c, s) && WorkerEnabled(s, i) && s.workers[i].WTake?
    ensures Owed(WorkerStep(s, i)) == Owed(s)
  {
    assert s.sync.bufMutex == Worker(i);
    TakeHasFile(c, s, i);
    TakeStarts(s, i);
    WorkerLeavesRest(s, i);
    NextFileTaken(s.disk.sources, |s.log.completed|);
  }

  lemma TakeHasFile(c: Config, s: State, i: nat)
    requires InvRing(c, s) && InvQueue(c, s) && WorkerEnabled(s, i) && s.workers[i].WTake?
    ensures |s.log.completed| < |s.disk.sources|
  {
    assert KnowsRing(s.workers[i], IsEmpty(s.sync.ring), s.sync.done);
    IndexTests(s.sync.ring);
  }

  lemma NextFileTaken(sources: seq<Script>, k: nat)
    requires k < |sources|
    ensures FilesOwe(Waiting(sources, k)) == Complaints(sources[k], 0) + FilesOwe(Waiting(sources, k + 1))
  {
    assert sources[k..][1..] == sources[k + 1..];
  }

  lemma TakeStarts(s: State, i: nat)
    requires WorkerEnabled(s, i) && s.workers[i].WTake? && s.sync.bufMutex == Worker(i)
    requires |s.log.completed| < |s.disk.sources|
    ensures var s', sources, k := WorkerStep(s, i), s.disk.sources, |s.log.completed|;
            && NextFile(s) == k && NextFile(s') == k + 1 && s'.log == s.log && s'.disk.sources == sources
            && FlightOwes(BufferWorker(s), sources, k) == 0
            && FlightOwes(BufferWorker(s'), sources, k) == Complaints(sources[k], 0)
  {
  }

  lemma IdleOwes(c: Config, s: State, i: nat)
    requires Inv(c, s) && WorkerEnabled(s, i) && !Copying(s.workers[i]) && !s.workers[i].WTake?
    ensures var s' := WorkerStep(s, i);
            && PrintedBy(s, StepWorker(i)) == 0 && NextFile(s') == NextFile(s)
            && FlightOwes(BufferWorker(s'), s'.disk.sources, |s'.log.completed|)
               == FlightOwes(BufferWorker(s), s.disk.sources, |s.log.completed|)
  {
    var s' := WorkerStep(s, i);
    OtherStepsKeepFlight(c, s, i);
    assert BufferWorker(s') == BufferWorker(s)
        || (!Copying(BufferWorker(s')) && !Copying(BufferWorker(s)));
  }

  /** The same file is in flight, or none. */
  predicate SameFlight(s: State, s': State) {
    && s'.log.completed == s.log.completed && s'.disk.sources == s.disk.sources && InFlight(s') == InFlight(s)
    && (BufferWorker(s') == BufferWorker(s) || (!Copying(BufferWorker(s')) && !Copying(BufferWorker(s))))
  }

  lemma SameFlightOwes(s: State, s': State)
    requires SameFlight(s, s') && s'.stats.fifos == s.stats.fifos && s'.frames == s.frames
    requires TravOwes(s'.trav) == TravOwes(s.trav)
    ensures Owed(s') == Owed(s)
  {
  }

  lemma MainStepOwes(c: Config, s: State)
    requires Inv(c, s) && MainEnabled(c, s)
    ensures Owed(MainStep(c, s)) == Owed(s)
  {
    MainSameFlight(c, s);
    MainLeavesQueue(c, s);
    MainLeavesTraversal(c, s);
    SameFlightOwes(s, MainStep(c, s));
  }

  lemma MainSameFlight(c: Config, s: State)
    requires InvBuffer(c, s) && InvMain(c, s) && MainEnabled(c, s)
    ensures SameFlight(s, MainStep(c, s))
  {
    MainKeepsFlight(c, s);
    MainLeavesQueue(c, s);
  }

  lemma WokenTraversalOwes(s: State)
    requires s.trav.TAsleep?
    ensures Owed(s.(trav := WakeTraversal(s.trav))) == Owed(s)
  {
    SameFlightOwes(s, s.(trav := WakeTraversal(s.trav)));
  }

  lemma WokenWorkerOwes(s: State, i: nat)
    requires Asleep(s.workers, i)
    ensures Owed(s.(workers := WakeOne(s.workers, i))) == Owed(s)
  {
    var s' := s.(workers := WakeOne(s.workers, i));
    assert BufferWorker(s') == BufferWorker(s)
        || (!Copying(BufferWorker(s')) && !Copying(BufferWorker(s)));
    SameFlightOwes(s, s');
  }

  lemma StepOwes(c: Config, s: State, a: Action)
    requires Inv(c, s) && Enabled(c, s, a)
    ensures PrintedBy(s, a) + Owed(Next(c, s, a)) == Owed(s)
  {
    match a
    case StepMain => MainStepOwes(c, s);
    case StepTraversal(wake) => TravStepOwes(c, s, wake);
    case StepWorker(i) => WorkerStepOwes(c, s, i);
    case SpuriousTraversal => WokenTraversalOwes(s);
    case SpuriousWorker(i) => WokenWorkerOwes(s, i);
  }

  // ---------------------------------------------------------------------------------------
  // Runs.

  /** In every reachable state, what has been printed and what is owed make up the tree's troubles. */
  lemma {:induction false} PrintedAndOwed(c: Config, states: seq<State>, actions: seq<Action>, k: nat)
    requires ValidConfig(c) && IsRun(c, states, actions) && k <= |actions|
    ensures Printed(states, actions, k) + Owed(states[k]) == if c.sourceOpens then Troubles(c.source) else 1
    decreases k
  {
    if k == 0 {
      StartOwes(c, states[0]);
    } else {
      PrintedAndOwed(c, states, actions, k - 1);
      RunStepOwes(c, states, actions, k - 1);
    }
  }

  lemma RunStepOwes(c: Config, states: seq<State>, actions: seq<Action>, k: nat)
    requires ValidConfig(c) && IsRun(c, states, actions) && k < |actions|
    ensures PrintedBy(states[k], actions[k]) + Owed(states[k + 1]) == Owed(states[k])
  {
    RunKeepsInv(c, states, actions, k);
    RunStep(c, states, actions, k);
    StepOwes(c, states[k], actions[k]);
  }

  lemma StartOwes(c: Config, s: State)
    requires Initial(c, s)
    ensures Owed(s) == if c.sourceOpens then Troubles(c.source) else 1
  {
    assert InFlight(s) == [];
    FramesOweMore(s.frames[0], []);
    assert s.frames == [s.frames[0]] + [];
  }

  lemma QuietOwesNothing(c: Config, s: State)
    requires Inv(c, s) && Quiet(s)
    ensures Owed(s) == s.stats.fifos
  {
    QuietHasWrittenAll(c, s);
  }

  /** A finished run has reported every failure exactly once: everything that could not be read, made or
      opened, every file whose copying failed, and every FIFO not made. */
  lemma EveryFailureReported(c: Config, states: seq<State>, actions: seq<Action>, k: nat)
    requires ValidConfig(c) && IsRun(c, states, actions) && k <= |actions|
    requires states[k].main.MFinished?
    ensures Printed(states, actions, k) + states[k].stats.fifos == if c.sourceOpens then Troubles(c.source) else 1
  {
    PrintedAndOwed(c, states, actions, k);
    RunKeepsInv(c, states, actions, k);
    FinishedIsQuiet(c, states[k]);
    QuietOwesNothing(c, states[k]);
  }
}
