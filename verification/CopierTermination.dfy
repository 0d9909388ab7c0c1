/**
 Without spurious wake-ups every run of the directory copier is finite: each step of any thread
 lowers a rank made of the tree still to read, the tasks still to copy, the bytes still to move,
 the wake-ups still to give and the program counters.
 */
module CopierTermination {
  import opened CopierTree
  import opened CopierRing
  import opened CopierProtocol
  import opened CopierInvariant
  import opened CopierRefinement
  import opened CopierSafety

  // ---------------------------------------------------------------------------------------
  // The rank.

  function Reads(sources: seq<Script>, t: Task): nat {
    if t.src.file < |sources| then |sources[t.src.file].transfers| else 0
  }

  function Left(total: nat, pos: nat): nat {
    if pos < total then total - pos else 0
  }

  function EntryRank(e: Entry): nat {
    match e
    case Dir(_, children, _) => 8 + EntriesRank(children)
    case File(_, script, _) => 38 + 4 * |script.transfers|
    case Fifo(_, _, _) => 4
    case Special(_) => 1
    case Unreadable(_) => 4
  }

  function EntriesRank(es: seq<Entry>): nat {
    if es == [] then 0 else EntryRank(es[0]) + EntriesRank(es[1..])
  }

  function FramesRank(frames: seq<Frame>): nat {
    if frames == [] then 0 else 4 + EntriesRank(frames[0].entries) + FramesRank(frames[1..])
  }

  function TravRank(sources: seq<Script>, t: TravPc): nat {
    match t
    case TNext => 1
    case TOpenDest(_, _, script, _) => 37 + 4 * |script.transfers|
    case TDestErrLock => 4
    case TDestErrPrint => 3
    case TDestErrClose => 2
    case TInsert(task, _) => 36 + 4 * Reads(sources, task)
    case TBufLock(task) => 35 + 4 * Reads(sources, task)
    case TRelock(task) => 35 + 4 * Reads(sources, task)
    case TTestFull(task) => 34 + 4 * Reads(sources, task)
    case TAsleep(task) => 33 + 4 * Reads(sources, task)
    case TPut(task) => 32 + 4 * Reads(sources, task)
    case TSignal => 11
    case TUnlock => 4
    case TRegLock => 3
    case TRegCount => 2
    case TFifoLock => 3
    case TFifoCount => 2
    case TDirLock => 3
    case TDirCount => 2
    case TErrLock => 3
    case TErrPrint => 2
    case TExited => 0
  }

  function WorkerRank(sources: seq<Script>, w: WorkerPc): nat {
    match w
    case WUnborn => 0
    case WLock => 6
    case WRelock => 6
    case WTest => 5
    case WGoWait => 1
    case WAsleep => 0
    case WCheck => 4
    case WTake => 3
    case WRead(t, pos) => 17 + 4 * Left(Reads(sources, t), pos)
    case WWrite(t, pos) => 16 + 4 * Left(Reads(sources, t), pos)
    case WOutLock(t, pos, _) => 15 + 4 * Left(Reads(sources, t), pos)
    case WCount(t, pos, _) => 14 + 4 * Left(Reads(sources, t), pos)
    case WErrLock(_) => 16
    case WErrPrint(_) => 15
    case WCloseSrc(_) => 14
    case WCloseDst(_) => 13
    case WSignal => 12
    case WUnlock => 7
    case WExitUnlock => 2
    case WExitSignal => 1
    case WExited => 0
  }

  function WorkersRank(sources: seq<Script>, ws: seq<WorkerPc>): nat {
    if ws == [] then 0
    else WorkersRank(sources, ws[..|ws| - 1]) + WorkerRank(sources, ws[|ws| - 1])
  }

  function TasksRank(sources: seq<Script>, ts: seq<Task>): nat {
    if ts == [] then 0 else 20 + 4 * Reads(sources, ts[0]) + TasksRank(sources, ts[1..])
  }

  function MainRank(n: nat, m: MainPc): nat {
    match m
    case MSpawn(i) => 7 * n + 7 + 7 * Left(n, i)
    case MJoinRoot => 7 * n + 6
    case MDoneLock => 7 * n + 5
    case MSetDone => 7 * n + 4
    case MDoneUnlock => 7 * n + 3
    case MBroadcast => 7 * n + 2
    case MJoin(i) => 1 + Left(n, i)
    case MFinished => 0
  }

  function Rank(s: State): nat {
    MainRank(|s.workers|, s.main)
    + TravRank(s.disk.sources, s.trav)
    + FramesRank(s.frames)
    + WorkersRank(s.disk.sources, s.workers)
    + TasksRank(s.disk.sources, Contents(s.sync.ring))
  }

  // ---------------------------------------------------------------------------------------
  // How the sums change.

  lemma {:induction false} WorkersRankUpdate(sources: seq<Script>, ws: seq<WorkerPc>, i: nat, w: WorkerPc)
    requires i < |ws|
    ensures WorkersRank(sources, ws[i := w])
            == WorkersRank(sources, ws) - WorkerRank(sources, ws[i]) + WorkerRank(sources, w)
  {
    var n := |ws| - 1;
    if i < n {
      WorkersRankUpdate(sources, ws[..n], i, w);
      assert ws[i := w][..n] == ws[..n][i := w];
    } else {
      assert ws[i := w][..n] == ws[..n];
    }
  }

  lemma {:induction false} WorkersRankWakeAll(sources: seq<Script>, ws: seq<WorkerPc>)
    ensures WorkersRank(sources, WakeAll(ws)) <= WorkersRank(sources, ws) + 6 * |ws|
  {
    if ws != [] {
      var n := |ws| - 1;
      WorkersRankWakeAll(sources, ws[..n]);
      assert WakeAll(ws)[..n] == WakeAll(ws[..n]);
    }
  }

  lemma {:induction false} TasksRankAppend(sources: seq<Script>, ts: seq<Task>, t: Task)
    ensures TasksRank(sources, ts + [t]) == TasksRank(sources, ts) + 20 + 4 * Reads(sources, t)
  {
    if ts == [] {
      assert (ts + [t])[1..] == [];
    } else {
      assert (ts + [t])[1..] == ts[1..] + [t];
      TasksRankAppend(sources, ts[1..], t);
    }
  }

  predicate Known(sources: seq<Script>, t: Task) {
    t.src.file < |sources|
  }

  lemma {:induction false} TasksRankGrow(sources: seq<Script>, x: Script, ts: seq<Task>)
    requires forall t <- ts :: Known(sources, t)
    ensures TasksRank(sources + [x], ts) == TasksRank(sources, ts)
  {
    if ts != [] {
      assert Known(sources, ts[0]);
      TasksRankGrow(sources, x, ts[1..]);
    }
  }

  lemma {:induction false} WorkersRankGrow(sources: seq<Script>, x: Script, ws: seq<WorkerPc>)
    requires forall w <- ws :: Copying(w) ==> Known(sources, w.task)
    ensures WorkersRank(sources + [x], ws) == WorkersRank(sources, ws)
  {
    if ws != [] {
      var n := |ws| - 1;
      assert ws[n] in ws;
      WorkersRankGrow(sources, x, ws[..n]);
    }
  }

  // ---------------------------------------------------------------------------------------
  // Every step lowers the rank.

  lemma SpawnLowersRank(c: Config, s: State)
    requires InvMain(c, s) && s.main.MSpawn?
    ensures Rank(MainStep(c, s)) < Rank(s)
  {
    if s.main.next < |s.workers| {
      assert s.workers[s.main.next].WUnborn?;
      WorkersRankUpdate(s.disk.sources, s.workers, s.main.next, WLock);
    }
  }

  lemma BroadcastLowersRank(c: Config, s: State)
    requires s.main.MBroadcast?
    ensures Rank(MainStep(c, s)) < Rank(s)
  {
    BroadcastFrame(c, s);
    WorkersRankWakeAll(s.disk.sources, s.workers);
  }

  lemma BroadcastFrame(c: Config, s: State)
    requires s.main.MBroadcast?
    ensures var s' := MainStep(c, s);
            && s'.main == MJoin(0) && s'.workers == WakeAll(s.workers) && |s'.workers| == |s.workers|
            && s'.trav == s.trav && s'.frames == s.frames && s'.disk == s.disk && s'.sync.ring == s.sync.ring
  {
  }

  lemma MainLowersRank(c: Config, s: State)
    requires InvMain(c, s) && MainEnabled(c, s)
    ensures Rank(MainStep(c, s)) < Rank(s)
  {
    if s.main.MSpawn? {
      SpawnLowersRank(c, s);
    } else if s.main.MBroadcast? {
      BroadcastLowersRank(c, s);
    }
  }

  lemma WorkerFrame(s: State, i: nat)
    requires WorkerEnabled(s, i) && !s.workers[i].WTake?
    ensures var s' := WorkerStep(s, i);
            && s'.main == s.main && s'.frames == s.frames && s'.disk.sources == s.disk.sources
            && s'.workers == s.workers[i := s'.workers[i]] && s'.sync.ring == s.sync.ring
            && (s'.trav == s.trav || (s.workers[i].WSignal? && s'.trav == WakeTraversal(s.trav))
                || (s.workers[i].WExitSignal? && s'.trav == WakeTraversal(s.trav)))
  {
  }

  /** A step within the copy of one file lowers that worker's rank. */
  lemma CopyStepLowersRank(c: Config, s: State, i: nat)
    requires InvData(s) && InvQueue(c, s) && InvBuffer(c, s) && WorkerEnabled(s, i) && Copying(s.workers[i])
    ensures WorkerRank(s.disk.sources, WorkerStep(s, i).workers[i]) < WorkerRank(s.disk.sources, s.workers[i])
  {
    FlightIsNext(c, s, i);
    var k := |s.log.completed|;
    assert Progress(s.workers[i], s.disk.data[k], s.disk.sources[k].transfers);
    ChunkLowersRank(s, i);
  }

  lemma ChunkLowersRank(s: State, i: nat)
    requires WorkerEnabled(s, i) && Copying(s.workers[i])
    requires s.workers[i].task.src.file < |s.disk.sources|
    requires s.workers[i].WRead? ==> s.workers[i].pos <= Reads(s.disk.sources, s.workers[i].task)
    requires s.workers[i].WWrite? || s.workers[i].WOutLock? || s.workers[i].WCount? ==>
               s.workers[i].pos < Reads(s.disk.sources, s.workers[i].task)
    ensures WorkerRank(s.disk.sources, WorkerStep(s, i).workers[i]) < WorkerRank(s.disk.sources, s.workers[i])
  {
  }

  lemma IdleStepLowersRank(s: State, i: nat)
    requires WorkerEnabled(s, i) && !Copying(s.workers[i]) && !s.workers[i].WTake?
    ensures WorkerRank(s.disk.sources, WorkerStep(s, i).workers[i])
            + (if s.workers[i].WSignal? then 2 else 0)
            < WorkerRank(s.disk.sources, s.workers[i])
  {
  }

  /** Only the signal after a task wakes the traversal; when workers exit it is gone. */
  lemma SignalledTraversal(c: Config, s: State, i: nat)
    requires Inv(c, s) && WorkerEnabled(s, i) && !s.workers[i].WTake?
    ensures TravRank(s.disk.sources, WorkerStep(s, i).trav)
            <= TravRank(s.disk.sources, s.trav) + if s.workers[i].WSignal? then 2 else 0
  {
    WorkerFrame(s, i);
    assert KnowsRing(s.workers[i], IsEmpty(s.sync.ring), s.sync.done);
  }

  lemma WorkerLowersRank(c: Config, s: State, i: nat)
    requires Inv(c, s) && WorkerEnabled(s, i)
    ensures Rank(WorkerStep(s, i)) < Rank(s)
  {
    if s.workers[i].WTake? {
      TakeLowersRank(c, s, i);
    } else {
      var w, s' := s.workers[i], WorkerStep(s, i);
      WorkersRankUpdate(s.disk.sources, s.workers, i, s'.workers[i]);
      WorkerFrame(s, i);
      SignalledTraversal(c, s, i);
      if Copying(w) {
        CopyStepLowersRank(c, s, i);
      } else {
        IdleStepLowersRank(s, i);
      }
    }
  }

  lemma TakeLowersRank(c: Config, s: State, i: nat)
    requires InvRing(c, s) && WorkerEnabled(s, i) && s.workers[i].WTake?
    ensures Rank(WorkerStep(s, i)) < Rank(s)
  {
    var s' := WorkerStep(s, i);
    assert KnowsRing(s.workers[i], IsEmpty(s.sync.ring), s.sync.done);
    DropRemovesFront(s.sync.ring);
    assert Contents(s.sync.ring)[1..] == Contents(s'.sync.ring);
    WorkersRankUpdate(s.disk.sources, s.workers, i, WRead(Front(s.sync.ring), 0));
  }

  lemma FramesRankPush(f: Frame, frames: seq<Frame>)
    ensures FramesRank([f] + frames) == 4 + EntriesRank(f.entries) + FramesRank(frames)
  {
    assert ([f] + frames)[1..] == frames;
  }

  lemma VisitLowersRank(s: State)
    requires s.trav.TNext? && s.frames != []
    ensures var s' := VisitNext(s);
            FramesRank(s'.frames) + TravRank(s.disk.sources, s'.trav)
            < FramesRank(s.frames) + TravRank(s.disk.sources, s.trav)
  {
    var top, below := s.frames[0], s.frames[1..];
    if top.entries != [] {
      var e, rest := top.entries[0], Frame(top.path, top.entries[1..]);
      FramesRankPush(rest, below);
      assert EntriesRank(top.entries) == EntryRank(e) + EntriesRank(rest.entries);
      if Descends(e) {
        DirVisit(s);
        FramesRankPush(Frame(top.path + [e.name], if e.dirFate.Entered? then e.children else []), [rest] + below);
        EnterRank(s, e);
      } else {
        LeafFrames(s);
        LeafRank(s, e);
      }
    }
  }

  lemma EnterRank(s: State, e: Entry)
    requires s.trav.TNext? && s.frames != [] && s.frames[0].entries != [] && e == s.frames[0].entries[0]
    requires Descends(e)
    ensures EntryRank(e) > 4 + EntriesRank(if e.dirFate.Entered? then e.children else [])
                           + TravRank(s.disk.sources, VisitNext(s).trav) - TravRank(s.disk.sources, s.trav)
  {
    assert EntriesRank([]) == 0;
  }

  lemma LeafRank(s: State, e: Entry)
    requires s.trav.TNext? && s.frames != [] && s.frames[0].entries != [] && e == s.frames[0].entries[0]
    requires !Descends(e)
    ensures EntryRank(e) > TravRank(s.disk.sources, VisitNext(s).trav) - TravRank(s.disk.sources, s.trav)
  {
  }

  lemma VisitFrame(s: State)
    requires s.trav.TNext?
    ensures var s' := VisitNext(s);
            && s'.main == s.main && s'.workers == s.workers && s'.disk.sources == s.disk.sources
            && s'.sync == s.sync
  {
  }

  lemma OpenLowersRank(c: Config, s: State)
    requires Inv(c, s) && s.trav.TOpenDest?
    ensures Rank(OpenDest(s)) < Rank(s)
  {
    if !s.trav.fate.DestFails? {
      QueuedAreKnown(c, s);
      TasksRankGrow(s.disk.sources, s.trav.script, Contents(s.sync.ring));
      CopiedAreKnown(c, s);
      WorkersRankGrow(s.disk.sources, s.trav.script, s.workers);
    }
    OpenFrame(s);
  }

  lemma QueuedAreKnown(c: Config, s: State)
    requires InvQueue(c, s)
    ensures forall t <- Contents(s.sync.ring) :: Known(s.disk.sources, t)
  {
    var queue := Contents(s.sync.ring);
    forall t | t in queue ensures Known(s.disk.sources, t) {
      var j :| 0 <= j < |queue| && queue[j] == t;
      assert s.log.added[|s.log.completed| + |InFlight(s)| + j] == t;
    }
  }

  lemma CopiedAreKnown(c: Config, s: State)
    requires InvQueue(c, s) && InvBuffer(c, s)
    ensures forall w <- s.workers :: Copying(w) ==> Known(s.disk.sources, w.task)
  {
    forall w | w in s.workers && Copying(w) ensures Known(s.disk.sources, w.task) {
      var i :| 0 <= i < |s.workers| && s.workers[i] == w;
      FlightIsNext(c, s, i);
    }
  }

  lemma OpenFrame(s: State)
    requires s.trav.TOpenDest?
    ensures var s' := OpenDest(s);
            && s'.main == s.main && s'.workers == s.workers && s'.frames == s.frames && s'.sync == s.sync
            && s'.disk.sources == (if s.trav.fate.DestFails? then s.disk.sources else s.disk.sources + [s.trav.script])
            && TravRank(s'.disk.sources, s'.trav) < TravRank(s.disk.sources, s.trav)
  {
  }

  lemma PutLowersRank(c: Config, s: State)
    requires InvRing(c, s) && s.trav.TPut?
    ensures Rank(TravStep(s, 0)) < Rank(s)
  {
    PutFrame(c, s);
    TasksRankAppend(s.disk.sources, Contents(s.sync.ring), s.trav.task);
    PutRank(s.disk.sources, s.trav.task);
  }

  lemma PutRank(sources: seq<Script>, t: Task)
    ensures TravRank(sources, TSignal) + 20 + 4 * Reads(sources, t) < TravRank(sources, TPut(t))
  {
  }

  lemma PutFrame(c: Config, s: State)
    requires InvRing(c, s) && s.trav.TPut?
    ensures var s' := TravStep(s, 0);
            && s'.main == s.main && s'.workers == s.workers && s'.frames == s.frames && s'.disk == s.disk
            && s'.trav == TSignal && Contents(s'.sync.ring) == Contents(s.sync.ring) + [s.trav.task]
  {
    PutAppends(s.sync.ring, s.trav.task);
  }

  lemma SignalLowersRank(s: State, wake: nat)
    requires s.trav.TSignal?
    ensures Rank(TravStep(s, wake)) < Rank(s)
  {
    var ws, sources := s.workers, s.disk.sources;
    var woken := WakeOne(ws, wake);
    assert WorkersRank(sources, woken) <= WorkersRank(sources, ws) + 6 && |woken| == |ws| by {
      if Asleep(ws, wake) {
        WorkersRankUpdate(sources, ws, wake, WRelock);
      }
    }
    var s' := TravStep(s, wake);
    assert s'.workers == woken && s'.trav == TUnlock;
    assert s'.disk == s.disk && s'.sync == s.sync && s'.frames == s.frames && s'.main == s.main;
  }

  lemma OtherTravLowersRank(s: State, wake: nat)
    requires TravEnabled(s, wake)
    requires !s.trav.TNext? && !s.trav.TOpenDest? && !s.trav.TPut? && !s.trav.TSignal?
    ensures var s' := TravStep(s, wake);
            && s'.main == s.main && s'.workers == s.workers && s'.frames == s.frames
            && s'.disk.sources == s.disk.sources && s'.sync.ring == s.sync.ring
            && TravRank(s.disk.sources, s'.trav) < TravRank(s.disk.sources, s.trav)
  {
  }

  lemma TravLowersRank(c: Config, s: State, wake: nat)
    requires Inv(c, s) && TravEnabled(s, wake)
    ensures Rank(TravStep(s, wake)) < Rank(s)
  {
    if s.trav.TNext? {
      VisitLowersRank(s);
      VisitFrame(s);
    } else if s.trav.TOpenDest? {
      OpenLowersRank(c, s);
    } else if s.trav.TPut? {
      PutLowersRank(c, s);
    } else if s.trav.TSignal? {
      SignalLowersRank(s, wake);
    } else {
      OtherTravLowersRank(s, wake);
    }
  }

  lemma StepLowersRank(c: Config, s: State, a: Action, s': State)
    requires Inv(c, s) && Follows(c, s, a, s') && !Spurious(a)
    ensures Rank(s') < Rank(s)
  {
    if a.StepMain? {
      MainLowersRank(c, s);
    } else if a.StepTraversal? {
      TravLowersRank(c, s, a.wake);
    } else {
      WorkerLowersRank(c, s, a.id);
    }
  }

  /** No thread wakes from a wait unless it was signalled. */
  predicate NoSpurious(actions: seq<Action>) {
    forall k | 0 <= k < |actions| :: !Spurious(actions[k])
  }

  lemma RunStepLowersRank(c: Config, states: seq<State>, actions: seq<Action>, k: nat)
    requires ValidConfig(c) && IsRun(c, states, actions) && NoSpurious(actions) && k < |actions|
    ensures Rank(states[k + 1]) < Rank(states[k])
  {
    RunKeepsInv(c, states, actions, k);
    StepLowersRank(c, states[k], actions[k], states[k + 1]);
  }

  lemma {:induction false} Descent(ranks: seq<nat>, k: nat)
    requires forall i | 0 < i < |ranks| :: ranks[i] < ranks[i - 1]
    requires k < |ranks|
    ensures k + ranks[k] <= ranks[0]
  {
    if k > 0 {
      Descent(ranks, k - 1);
    }
  }

  /** A bound on the length of every run, from the configuration alone. */
  function StepBound(c: Config): nat {
    14 * c.numThreads + 14 + EntriesRank(c.source)
  }

  lemma {:induction false} UnbornRank(n: nat)
    ensures WorkersRank([], seq(n, _ => WUnborn)) == 0
  {
    if n > 0 {
      UnbornRank(n - 1);
      assert seq<WorkerPc>(n, _ => WUnborn)[..n - 1] == seq(n - 1, _ => WUnborn);
    }
  }

  lemma InitialRank(c: Config, s: State)
    requires Initial(c, s)
    ensures Rank(s) <= StepBound(c)
  {
    UnbornRank(c.numThreads);
    FramesRankPush(s.frames[0], []);
    assert s.frames == [s.frames[0]] + [];
    assert Contents(s.sync.ring) == [];
    assert EntriesRank([]) == 0;
  }

  /** Every run without spurious wake-ups is finite, whatever the scheduler does. */
  lemma RunsAreFinite(c: Config, states: seq<State>, actions: seq<Action>)
    requires ValidConfig(c) && IsRun(c, states, actions) && NoSpurious(actions)
    ensures |actions| <= StepBound(c)
  {
    var ranks := seq(|states|, i requires 0 <= i < |states| => Rank(states[i]));
    forall i | 0 < i < |ranks| ensures ranks[i] < ranks[i - 1] {
      RunStepLowersRank(c, states, actions, i - 1);
    }
    Descent(ranks, |actions|);
    InitialRank(c, states[0]);
  }
}
