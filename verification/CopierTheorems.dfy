/**
 What holds in every state of every run of the directory copier.
 */
module CopierTheorems {
  import opened Wrappers
  import opened CopierTree
  import opened CopierRing
  import opened CopierProtocol
  import opened CopierInvariant
  import opened CopierRefinement
  import opened CopierSafety
  import Histogram = CopierHistogram

  /** What the program leaves behind and reports. */
  function Result(s: State): Outcome {
    Outcome(s.disk.names, s.disk.data, s.stats.regular, s.stats.directories, s.stats.fifos,
            s.stats.bytes, s.stats.kinds)
  }

  // ---------------------------------------------------------------------------------------
  // Refinement.

  /** The traversal is over, the ring is empty and nothing is being copied. */
  ghost predicate Quiet(s: State) {
    s.trav.TExited? && Contents(s.sync.ring) == [] && InFlight(s) == []
  }

  lemma FinishedIsQuiet(c: Config, s: State)
    requires ValidConfig(c) && Inv(c, s) && s.main.MFinished?
    ensures Quiet(s)
  {
    assert s.workers[0].WExited?;
    assert KnowsRing(s.workers[0], IsEmpty(s.sync.ring), s.sync.done);
    IndexTests(s.sync.ring);
    assert forall i | 0 <= i < |s.workers| :: s.workers[i].WExited?;
  }

  lemma QuietHasWrittenAll(c: Config, s: State)
    requires Inv(c, s) && Quiet(s)
    ensures |s.disk.sources| == |s.log.completed|
    ensures s.disk.data == WrittenAll(s.disk.sources)
    ensures s.stats.bytes == TotalLength(s.disk.data)
  {
    assert s.log.completed + [] + [] == s.log.completed;
    WrittenAllLength(s.disk.sources);
    forall k | 0 <= k < |s.disk.data| ensures s.disk.data[k] == WrittenAll(s.disk.sources)[k] {
      WrittenAllAt(s.disk.sources, k);
    }
  }

  lemma QuietIsSequentialCopy(c: Config, s: State)
    requires Inv(c, s) && Quiet(s)
    ensures Result(s) == SequentialCopy(c) && s.disk.open == {}
  {
    QuietHasWrittenAll(c, s);
    assert Caught(s) == Settled(s);
    QuietHasClosedAll(c, s);
  }

  lemma QuietHasClosedAll(c: Config, s: State)
    requires Inv(c, s) && Quiet(s)
    ensures s.disk.open == {}
  {
    forall d: Descriptor ensures d !in s.disk.open {
      match d
      case ReadEnd(f) => assert !ReadOpen(s, f);
      case WriteEnd(f) => assert !WriteOpen(s, f);
    }
  }

  /** Whatever the interleaving, the failures and the spurious wake-ups: when `main` has joined
      every thread, the destination and all counters are those of one sequential recursive copy. */
  lemma FinishedRunIsSequentialCopy(c: Config, states: seq<State>, actions: seq<Action>, k: nat)
    requires ValidConfig(c) && IsRun(c, states, actions) && k < |states|
    requires states[k].main.MFinished?
    ensures Result(states[k]) == SequentialCopy(c)
    ensures states[k].disk.open == {}
  {
    RunKeepsInv(c, states, actions, k);
    FinishedIsQuiet(c, states[k]);
    QuietIsSequentialCopy(c, states[k]);
  }

  /** No regular file is numbered before anything is copied. */
  ghost predicate NothingCopiedYet(c: Config) {
    forall p :: p in c.existing ==> !c.existing[p].FileNode?
  }

  /** Whatever fails and whatever was there before: a finished run shows at every destination path what
      the source entry there makes of it, and leaves every other path as it was. */
  lemma FinishedRunShows(c: Config, states: seq<State>, actions: seq<Action>, k: nat, p: Path)
    requires ValidConfig(c) && IsRun(c, states, actions) && k < |states|
    requires states[k].main.MFinished? && NothingCopiedYet(c) && DistinctNames(c.source)
    ensures InodesValid(Result(states[k]))
    ensures ViewOf(Result(states[k]), p) ==
            if c.sourceOpens then Shown(Start(c), c.destRoot, c.source, p) else ViewOf(Start(c), p)
  {
    FinishedRunIsSequentialCopy(c, states, actions, k);
    CopyShows(Start(c), c.destRoot, c.source, p);
  }

  /** ... and has counted what could be copied. */
  lemma FinishedRunCounts(c: Config, states: seq<State>, actions: seq<Action>, k: nat)
    requires ValidConfig(c) && IsRun(c, states, actions) && k < |states|
    requires states[k].main.MFinished? && NothingCopiedYet(c) && DistinctNames(c.source) && c.sourceOpens
    ensures states[k].stats.regular == |OpenedPaths(c.destRoot, c.source)|
    ensures states[k].stats.directories == Joined(c.source)
    ensures states[k].stats.fifos == Makeable(c.existing, c.destRoot, c.source)
  {
    FinishedRunIsSequentialCopy(c, states, actions, k);
    CopyCounts(Start(c), c.destRoot, c.source);
    CopyCountsFifos(Start(c), c.destRoot, c.source);
  }

  /** Whatever fails, the printed histogram of a finished run has for every kind the number of opened
      files of that kind, "fifo" counting the FIFOs made as well, and no line for any other kind. */
  lemma FinishedRunReports(c: Config, states: seq<State>, actions: seq<Action>, k: nat, kind: string)
    requires ValidConfig(c) && IsRun(c, states, actions) && k <= |actions|
    requires states[k].main.MFinished? && c.sourceOpens
    ensures var fifos := if kind == "fifo" then states[k].stats.fifos else 0;
            var n := OfKind(OpenedPaths(c.destRoot, c.source), kind) + fifos;
            Histogram.CountOf(Table(states, actions, k), kind) == if n > 0 then Some(n) else None
  {
    FinishedRunKinds(c, states, actions, k, kind);
    TableTallies(c, states, actions, k);
    TallyOf(Table(states, actions, k), states[k].stats.kinds, kind);
  }

  lemma FinishedRunKinds(c: Config, states: seq<State>, actions: seq<Action>, k: nat, kind: string)
    requires ValidConfig(c) && IsRun(c, states, actions) && k < |states|
    requires states[k].main.MFinished? && c.sourceOpens
    ensures states[k].stats.kinds[kind] ==
            OfKind(OpenedPaths(c.destRoot, c.source), kind) + if kind == "fifo" then states[k].stats.fifos else 0
  {
    FinishedRunIsSequentialCopy(c, states, actions, k);
    CopyKinds(Start(c), c.destRoot, c.source, kind);
  }

  lemma TallyOf(rows: Histogram.Rows, keys: multiset<string>, key: string)
    requires Histogram.Tallies(rows, keys)
    ensures Histogram.CountOf(rows, key) == if keys[key] > 0 then Some(keys[key]) else None
  {
  }

  /** A finished run in which no call failed shows the source tree at the destination, and
      leaves every other path as it was. */
  lemma FinishedRunMirrorsSource(c: Config, states: seq<State>, actions: seq<Action>, k: nat, p: Path)
    requires ValidConfig(c) && IsRun(c, states, actions) && k < |states|
    requires states[k].main.MFinished? && NothingCopiedYet(c)
    requires c.sourceOpens && Flawless(c.source) && DistinctNames(c.source)
    requires RoomFor(Start(c), c.destRoot, c.source)
    ensures InodesValid(Result(states[k]))
    ensures ViewOf(Result(states[k]), p) == Expected(Start(c), c.destRoot, c.source, p)
  {
    FinishedRunIsSequentialCopy(c, states, actions, k);
    CopyMirrorsSource(Start(c), c.destRoot, c.source, p);
  }

  /** ... and counts each of its files, directories and FIFOs once. */
  lemma FinishedRunCountsTree(c: Config, states: seq<State>, actions: seq<Action>, k: nat, kind: Kind)
    requires ValidConfig(c) && IsRun(c, states, actions) && k < |states|
    requires states[k].main.MFinished? && c.sourceOpens && Flawless(c.source)
    ensures Counted(Result(states[k]), kind) == Number(Listing(c.source), kind)
  {
    FinishedRunIsSequentialCopy(c, states, actions, k);
    CopyCountsTree(Start(c), c.destRoot, c.source, kind);
  }

  /** The kind a step records in the histogram, if it is one that does. */
  function RecordedBy(s: State, a: Action): seq<string> {
    if !a.StepTraversal? then []
    else if s.trav.TInsert? then [s.trav.key]
    else if s.trav.TFifoCount? then ["fifo"]
    else []
  }

  /** The kinds recorded in the first `k` steps of a run, in order. */
  function RecordedIn(states: seq<State>, actions: seq<Action>, k: nat): seq<string>
    requires k <= |actions| < |states|
  {
    if k == 0 then [] else RecordedIn(states, actions, k - 1) + RecordedBy(states[k - 1], actions[k - 1])
  }

  /** The rows of the hash table at that moment. */
  function Table(states: seq<State>, actions: seq<Action>, k: nat): Histogram.Rows
    requires k <= |actions| < |states|
  {
    Histogram.RecordAll(RecordedIn(states, actions, k))
  }

  lemma StepRecords(c: Config, s: State, a: Action)
    requires Enabled(c, s, a)
    ensures Next(c, s, a).stats.kinds == s.stats.kinds + multiset(RecordedBy(s, a))
  {
  }

  lemma {:induction false} RunRecords(c: Config, states: seq<State>, actions: seq<Action>, k: nat)
    requires IsRun(c, states, actions) && k <= |actions|
    ensures states[k].stats.kinds == multiset(RecordedIn(states, actions, k))
  {
    if k > 0 {
      RunRecords(c, states, actions, k - 1);
      assert Follows(c, states[k - 1], actions[k - 1], states[k]);
      StepRecords(c, states[k - 1], actions[k - 1]);
    }
  }

  /** In every reachable state the hash table has every kind, with the number of entries of it that were
      recorded so far. */
  lemma TableTallies(c: Config, states: seq<State>, actions: seq<Action>, k: nat)
    requires IsRun(c, states, actions) && k <= |actions|
    ensures Histogram.Tidy(Table(states, actions, k))
    ensures Histogram.Tallies(Table(states, actions, k), states[k].stats.kinds)
  {
    RunRecords(c, states, actions, k);
    Histogram.RecordAllTallies(RecordedIn(states, actions, k));
  }

  /** The printed histogram has one line per kind and adds up to the printed numbers of files and FIFOs. */
  lemma ReportAddsUp(c: Config, states: seq<State>, actions: seq<Action>, k: nat)
    requires ValidConfig(c) && IsRun(c, states, actions) && k <= |actions|
    requires states[k].main.MFinished?
    ensures var rows, s := Table(states, actions, k), states[k];
            && Histogram.Cells(rows) == |Histogram.Kinds(s.stats.kinds)|
            && Histogram.SumOfCounts(rows) == s.stats.regular + s.stats.fifos
            && s.stats.bytes == TotalLength(s.disk.data)
  {
    FinishedRunIsSequentialCopy(c, states, actions, k);
    assert CountersTrue(Start(c));
    CopyKeepsCountersTrue(Start(c), c.destRoot, c.source);
    TableTallies(c, states, actions, k);
    Histogram.CountsAddUp(Table(states, actions, k), states[k].stats.kinds);
  }

  // ---------------------------------------------------------------------------------------
  // Order.

  /** Tasks queued = tasks completed, then the one in flight, then the ring; each file in turn. */
  lemma FifoConservation(c: Config, states: seq<State>, actions: seq<Action>, k: nat)
    requires ValidConfig(c) && IsRun(c, states, actions) && k < |states|
    ensures var s := states[k];
            && s.log.added == s.log.completed + InFlight(s) + Contents(s.sync.ring)
            && |InFlight(s)| <= 1
            && forall j | 0 <= j < |s.log.added| :: s.log.added[j] == NthTask(j)
  {
    RunKeepsInv(c, states, actions, k);
  }

  /** Although `done` is read while `main` may be writing it, no worker takes from an empty ring,
      and the task it takes is the oldest one queued and not yet taken. */
  lemma TakesOldest(c: Config, states: seq<State>, actions: seq<Action>, k: nat, i: nat)
    requires ValidConfig(c) && IsRun(c, states, actions) && k < |actions|
    requires actions[k] == StepWorker(i) && states[k].workers[i].WTake?
    ensures Contents(states[k].sync.ring) != []
    ensures states[k + 1].workers[i] == WRead(Contents(states[k].sync.ring)[0], 0)
    ensures Contents(states[k].sync.ring)[0] == NthTask(|states[k].log.completed|)
  {
    RunKeepsInv(c, states, actions, k);
    RunStep(c, states, actions, k);
    TakeIsOldest(c, states[k], i);
  }

  lemma TakeIsOldest(c: Config, s: State, i: nat)
    requires InvRing(c, s) && InvBuffer(c, s) && InvQueue(c, s) && WorkerEnabled(s, i) && s.workers[i].WTake?
    ensures Contents(s.sync.ring) != []
    ensures WorkerStep(s, i).workers[i] == WRead(Contents(s.sync.ring)[0], 0)
    ensures Contents(s.sync.ring)[0] == NthTask(|s.log.completed|)
  {
    assert KnowsRing(s.workers[i], IsEmpty(s.sync.ring), s.sync.done);
    assert s.sync.bufMutex == Worker(i);
    IndexTests(s.sync.ring);
    DropRemovesFront(s.sync.ring);
    assert s.log.added[|s.log.completed|] == Contents(s.sync.ring)[0];
  }

  /** A worker leaves only when everything that will ever be queued has been taken. */
  lemma {:induction false} LeavesLast(c: Config, states: seq<State>, actions: seq<Action>, i: nat, k: nat, j: nat)
    requires ValidConfig(c) && IsRun(c, states, actions) && k <= j < |states|
    requires Left(states[k], i)
    ensures Left(states[j], i)
    ensures Contents(states[j].sync.ring) == [] && states[j].log.added == states[k].log.added
    decreases j
  {
    if k < j {
      LeavesLast(c, states, actions, i, k, j - 1);
      RunStaysGone(c, states, actions, i, j - 1);
    }
    RunGoneMeansEmpty(c, states, actions, i, j);
  }

  lemma RunStaysGone(c: Config, states: seq<State>, actions: seq<Action>, i: nat, k: nat)
    requires ValidConfig(c) && IsRun(c, states, actions) && k < |actions| && Left(states[k], i)
    ensures Left(states[k + 1], i) && states[k + 1].log.added == states[k].log.added
  {
    RunKeepsInv(c, states, actions, k);
    StaysGone(c, states[k], actions[k], i);
  }

  lemma RunGoneMeansEmpty(c: Config, states: seq<State>, actions: seq<Action>, i: nat, k: nat)
    requires ValidConfig(c) && IsRun(c, states, actions) && k < |states| && Left(states[k], i)
    ensures Contents(states[k].sync.ring) == []
  {
    RunKeepsInv(c, states, actions, k);
    GoneMeansEmpty(c, states[k], i);
  }

  predicate Left(s: State, i: nat) {
    i < |s.workers| && Leaving(s.workers[i])
  }

  lemma GoneMeansEmpty(c: Config, s: State, i: nat)
    requires InvRing(c, s) && InvMain(c, s) && Left(s, i)
    ensures Contents(s.sync.ring) == [] && s.trav.TExited?
  {
    assert KnowsRing(s.workers[i], IsEmpty(s.sync.ring), s.sync.done);
    IndexTests(s.sync.ring);
  }

  lemma StaysGone(c: Config, s: State, a: Action, i: nat)
    requires Inv(c, s) && Enabled(c, s, a) && Left(s, i)
    ensures Left(Next(c, s, a), i) && Next(c, s, a).log.added == s.log.added
  {
    GoneMeansEmpty(c, s, i);
    if a.StepMain? {
      MainLeavesGone(c, s, i);
    } else if a.StepWorker? {
      WorkerLeavesGone(s, a.id, i);
    } else {
      WakingLeavesGone(c, s, a, i);
    }
  }

  /** With the traversal gone, whatever is left can only be a wake-up. */
  lemma WakingLeavesGone(c: Config, s: State, a: Action, i: nat)
    requires Enabled(c, s, a) && !a.StepMain? && !a.StepWorker? && s.trav.TExited? && Left(s, i)
    ensures Left(Next(c, s, a), i) && Next(c, s, a).log.added == s.log.added
  {
  }

  lemma MainLeavesGone(c: Config, s: State, i: nat)
    requires InvMain(c, s) && MainEnabled(c, s) && Left(s, i)
    ensures Left(MainStep(c, s), i) && MainStep(c, s).log.added == s.log.added
  {
  }

  lemma WorkerLeavesGone(s: State, w: nat, i: nat)
    requires WorkerEnabled(s, w) && Left(s, i)
    ensures Left(WorkerStep(s, w), i) && WorkerStep(s, w).log.added == s.log.added
  {
  }

  // ---------------------------------------------------------------------------------------
  // Descriptors.

  /** The tasks that own descriptors: in flight, queued, or about to be queued. */
  function Holders(s: State): seq<Task> {
    InFlight(s) + Contents(s.sync.ring) + Held(s.trav)
  }

  function Held(t: TravPc): seq<Task> {
    if HoldsTask(t) then [t.task] else []
  }

  predicate Owns(t: Task, d: Descriptor) {
    d == t.src || d == t.dst
  }

  /** The tasks of consecutive files, the first of them file number `n`. */
  predicate InLineFrom(n: nat, tasks: seq<Task>) {
    forall j | 0 <= j < |tasks| :: tasks[j] == NthTask(n + j)
  }

  lemma HoldersInOrder(c: Config, s: State)
    requires InvQueue(c, s)
    ensures |Holders(s)| == |s.disk.sources| - |s.log.completed|
    ensures InLineFrom(|s.log.completed|, Holders(s))
  {
    HoldersLine(s);
    HeldIsNext(s.log.added, Held(s.trav));
    InOrder(s.log.completed, Holders(s), s.log.added + Held(s.trav));
  }

  lemma HoldersLine(s: State)
    requires s.log.added == s.log.completed + InFlight(s) + Contents(s.sync.ring)
    ensures s.log.completed + Holders(s) == s.log.added + Held(s.trav)
  {
    InLine(s.log.completed, InFlight(s), Contents(s.sync.ring), Held(s.trav));
  }

  lemma InLine(completed: seq<Task>, flight: seq<Task>, queue: seq<Task>, last: seq<Task>)
    ensures completed + (flight + queue + last) == completed + flight + queue + last
  {
  }

  lemma HeldIsNext(added: seq<Task>, held: seq<Task>)
    requires InLineFrom(0, added) && (held == [] || held == [NthTask(|added|)])
    ensures InLineFrom(0, added + held)
  {
  }

  lemma InOrder(completed: seq<Task>, holders: seq<Task>, all: seq<Task>)
    requires completed + holders == all && InLineFrom(0, all)
    ensures |holders| == |all| - |completed| && InLineFrom(|completed|, holders)
  {
    forall j | 0 <= j < |holders| ensures holders[j] == NthTask(|completed| + j) {
      assert all[|completed| + j] == holders[j];
    }
  }

  /** One task owns the descriptor, or the open in progress does and no task. */
  ghost predicate HasOneOwner(s: State, d: Descriptor) {
    if SourceOnly(s.trav) && d == ReadEnd(|s.disk.sources|) then
      forall j | 0 <= j < |Holders(s)| :: !Owns(Holders(s)[j], d)
    else exists j ::
      && 0 <= j < |Holders(s)| && Owns(Holders(s)[j], d)
      && forall j' | 0 <= j' < |Holders(s)| && Owns(Holders(s)[j'], d) :: j' == j
  }

  /** Every open descriptor has exactly one owner: one task, or the traversal's open of the next
      file's source. */
  lemma OneOwner(c: Config, states: seq<State>, actions: seq<Action>, k: nat, d: Descriptor)
    requires ValidConfig(c) && IsRun(c, states, actions) && k < |states|
    requires d in states[k].disk.open
    ensures HasOneOwner(states[k], d)
  {
    RunKeepsInv(c, states, actions, k);
    OwnerInState(c, states[k], d);
  }

  lemma OwnerInState(c: Config, s: State, d: Descriptor)
    requires InvOpen(s) && InvQueue(c, s) && d in s.disk.open
    ensures HasOneOwner(s, d)
  {
    var lo := |s.log.completed|;
    HoldersInOrder(c, s);
    OwnedByNumber(Holders(s), lo, d);
    assert if d.ReadEnd? then ReadOpen(s, d.file) else WriteOpen(s, d.file);
    if !(SourceOnly(s.trav) && d == ReadEnd(|s.disk.sources|)) {
      assert Owns(Holders(s)[d.file - lo], d);
    }
  }

  lemma OwnedByNumber(holders: seq<Task>, lo: nat, d: Descriptor)
    requires forall j | 0 <= j < |holders| :: holders[j] == NthTask(lo + j)
    ensures forall j | 0 <= j < |holders| :: Owns(holders[j], d) <==> d.file == lo + j
  {
  }

  /** A step that opens a descriptor finds it closed; a step that closes one finds it open. */
  lemma ClosedExactlyOnce(c: Config, states: seq<State>, actions: seq<Action>, k: nat)
    requires ValidConfig(c) && IsRun(c, states, actions) && k < |actions|
    ensures var s := states[k];
            && (actions[k].StepTraversal? && s.trav.TDestErrClose? ==>
                  ReadEnd(|s.disk.sources|) in s.disk.open)
            && (actions[k].StepTraversal? && s.trav.TNext? ==> ReadEnd(|s.disk.sources|) !in s.disk.open)
            && (actions[k].StepTraversal? && s.trav.TOpenDest? ==> WriteEnd(|s.disk.sources|) !in s.disk.open)
            && (actions[k].StepWorker? ==>
                  var w := s.workers[actions[k].id];
                  && (w.WCloseSrc? ==> w.task.src in s.disk.open)
                  && (w.WCloseDst? ==> w.task.dst in s.disk.open && w.task.src !in s.disk.open)
                  && (w.WRead? || w.WWrite? ==> w.task.src in s.disk.open && w.task.dst in s.disk.open))
  {
    var s := states[k];
    RunKeepsInv(c, states, actions, k);
    assert |s.log.completed| <= |s.disk.sources|;
    assert ReadEnd(|s.disk.sources|) in s.disk.open <==> ReadOpen(s, |s.disk.sources|);
    assert WriteEnd(|s.disk.sources|) in s.disk.open <==> WriteOpen(s, |s.disk.sources|);
    if actions[k].StepWorker? && Copying(s.workers[actions[k].id]) {
      FlightIsNext(c, s, actions[k].id);
      assert ReadEnd(|s.log.completed|) in s.disk.open <==> ReadOpen(s, |s.log.completed|);
      assert WriteEnd(|s.log.completed|) in s.disk.open <==> WriteOpen(s, |s.log.completed|);
    }
  }

  function Ends(lo: nat, hi: nat): (ends: set<Descriptor>)
    requires lo <= hi
    ensures |ends| <= 2 * (hi - lo)
    decreases hi
  {
    if lo == hi then {}
    else
      var before, last := Ends(lo, hi - 1), {ReadEnd(hi - 1), WriteEnd(hi - 1)};
      assert |before + last| <= |before| + |last|;
      before + last
  }

  lemma {:induction false} EndsContain(lo: nat, hi: nat, d: Descriptor)
    requires lo <= d.file < hi
    ensures d in Ends(lo, hi)
    decreases hi
  {
    if d.file < hi - 1 {
      EndsContain(lo, hi - 1, d);
    }
  }

  lemma SubsetSize(a: set<Descriptor>, b: set<Descriptor>)
    requires a <= b
    ensures |a| <= |b|
  {
    assert b == a + (b - a);
  }

  /** There are never more owners than ring slots, since a copying worker keeps the mutex. */
  lemma HoldersBound(c: Config, s: State)
    requires ValidConfig(c) && Inv(c, s)
    ensures |Holders(s)| + (if SourceOnly(s.trav) then 1 else 0) <= c.bufferSize
  {
    IndexTests(s.sync.ring);
  }

  /** At most twice the ring size of regular-file descriptors are open at any moment. */
  lemma DescriptorBound(c: Config, states: seq<State>, actions: seq<Action>, k: nat)
    requires ValidConfig(c) && IsRun(c, states, actions) && k < |states|
    ensures |states[k].disk.open| <= 2 * c.bufferSize
  {
    RunKeepsInv(c, states, actions, k);
    HoldersBound(c, states[k]);
    HoldersInOrder(c, states[k]);
    OpenBound(c, states[k]);
  }

  lemma OpenBound(c: Config, s: State)
    requires InvOpen(s) && |s.log.completed| <= |s.disk.sources|
    requires |s.disk.sources| - |s.log.completed| + (if SourceOnly(s.trav) then 1 else 0) <= c.bufferSize
    ensures |s.disk.open| <= 2 * c.bufferSize
  {
    var lo, hi := |s.log.completed|, |s.disk.sources|;
    var all := Ends(lo, hi) + if SourceOnly(s.trav) then {ReadEnd(hi)} else {};
    forall d | d in s.disk.open ensures d in all {
      assert if d.ReadEnd? then ReadOpen(s, d.file) else WriteOpen(s, d.file);
      if d.file < hi {
        EndsContain(lo, hi, d);
      }
    }
    SubsetSize(s.disk.open, all);
  }

  // ---------------------------------------------------------------------------------------
  // Bytes.

  /** `bytes_copied` is what all destinations hold, less a write not yet counted; and every
      destination holds a prefix of what its source's script writes. */
  lemma ByteAccounting(c: Config, states: seq<State>, actions: seq<Action>, k: nat)
    requires ValidConfig(c) && IsRun(c, states, actions) && k < |states|
    ensures var s := states[k];
            && s.stats.bytes + Uncounted(BufferWorker(s)) == TotalLength(s.disk.data)
            && |s.disk.data| == |s.disk.sources|
            && (forall j | 0 <= j < |s.disk.data| :: s.disk.data[j] <= Written(s.disk.sources[j].transfers))
  {
    RunKeepsInv(c, states, actions, k);
    var s := states[k];
    forall j | 0 <= j < |s.disk.data| ensures s.disk.data[j] <= Written(s.disk.sources[j].transfers) {
      DataIsPrefix(s, j);
    }
  }

  lemma DataIsPrefix(s: State, j: nat)
    requires InvData(s) && j < |s.disk.data|
    ensures s.disk.data[j] <= Written(s.disk.sources[j].transfers)
  {
    if j == |s.log.completed| && InFlight(s) != [] {
      assert Progress(BufferWorker(s), s.disk.data[j], s.disk.sources[j].transfers);
    }
  }
}
