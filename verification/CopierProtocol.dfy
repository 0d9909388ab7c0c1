/**
 The directory copier as a transition system: `main`, the traversal and any number of workers,
 each with a program counter, two mutexes, two condition variables and the shared data.

 One step is one action of one thread between two synchronisation points. Waiting on a
 condition releases the mutex and falls asleep in one step, as POSIX promises. A signal wakes
 one sleeper, whichever the action names; the `Spurious` actions wake a sleeper for no reason.
 */
module CopierProtocol {
  import opened CopierTree
  import opened CopierRing

  /** `AsWritten` sets `done` while holding `output_mutex`; `Repaired` while holding `buffer_mutex`. */
  datatype DoneLock = AsWritten | Repaired

  datatype Config = Config(
    bufferSize: nat,
    numThreads: nat,
    source: seq<Entry>,
    sourceOpens: bool,
    destRoot: Path,
    existing: map<Path, Node>,
    doneLock: DoneLock)

  /** The program's arguments: a ring of at least two slots and at least one worker. */
  predicate ValidConfig(c: Config) {
    c.bufferSize >= 2 && c.numThreads >= 1
  }

  /** A descriptor opened for the `file`-th file queued for copying. */
  datatype Descriptor = ReadEnd(file: nat) | WriteEnd(file: nat)
  datatype Task = Task(src: Descriptor, dst: Descriptor)

  type TaskRing = r: Ring<Task> | ValidRing(r) witness Ring([Task(ReadEnd(0), WriteEnd(0))], 0, 0)

  /** One directory being traversed: its destination path and the entries still to read. */
  datatype Frame = Frame(path: Path, entries: seq<Entry>)

  datatype Owner = Free | Main | Traversal | Worker(id: nat)

  datatype MainPc =
    | MSpawn(next: nat) | MJoinRoot | MDoneLock | MSetDone | MDoneUnlock | MBroadcast
    | MJoin(next: nat) | MFinished

  datatype TravPc =
    | TNext
    | TOpenDest(path: Path, name: string, script: Script, fate: FileFate)
    | TDestErrLock | TDestErrPrint | TDestErrClose
    | TInsert(task: Task, key: string)
    | TBufLock(task: Task) | TTestFull(task: Task) | TAsleep(task: Task) | TRelock(task: Task)
    | TPut(task: Task) | TSignal | TUnlock
    | TRegLock | TRegCount | TFifoLock | TFifoCount | TDirLock | TDirCount
    | TErrLock | TErrPrint
    | TExited

  datatype WorkerPc =
    | WUnborn | WLock | WTest | WGoWait | WAsleep | WRelock | WCheck | WTake
    | WRead(task: Task, pos: nat) | WWrite(task: Task, pos: nat)
    | WOutLock(task: Task, pos: nat, wrote: nat) | WCount(task: Task, pos: nat, wrote: nat)
    | WErrLock(task: Task) | WErrPrint(task: Task)
    | WCloseSrc(task: Task) | WCloseDst(task: Task) | WSignal | WUnlock
    | WExitUnlock | WExitSignal | WExited

  /** The mutexes and what the buffer mutex protects. */
  datatype Sync = Sync(bufMutex: Owner, outMutex: Owner, ring: TaskRing, done: bool)

  /** The destination names, the file behind each descriptor, and the open descriptors. */
  datatype Disk = Disk(
    names: map<Path, Node>,
    sources: seq<Script>,
    data: seq<seq<bv8>>,
    open: set<Descriptor>)

  datatype Stats = Stats(regular: nat, directories: nat, fifos: nat, bytes: nat, kinds: multiset<string>)

  /** What was queued, what was copied, and whether the shutdown broadcast came between some
      worker's test of `done` and its wait. */
  datatype History = History(added: seq<Task>, completed: seq<Task>, missed: bool)

  datatype State = State(
    main: MainPc,
    trav: TravPc,
    frames: seq<Frame>,
    workers: seq<WorkerPc>,
    sync: Sync,
    disk: Disk,
    stats: Stats,
    log: History)

  datatype Action =
    | StepMain
    | StepTraversal(wake: nat)
    | StepWorker(id: nat)
    | SpuriousTraversal
    | SpuriousWorker(id: nat)

  ghost predicate Initial(c: Config, s: State) {
    && s.main == MSpawn(0)
    && s.trav == (if c.sourceOpens then TNext else TErrLock)
    && s.frames == [Frame(c.destRoot, if c.sourceOpens then c.source else [])]
    && s.workers == seq(c.numThreads, _ => WUnborn)
    && s.sync.bufMutex == Free && s.sync.outMutex == Free && !s.sync.done
    && |s.sync.ring.slots| == c.bufferSize && s.sync.ring.bufferIn == 0 && s.sync.ring.bufferOut == 0
    && s.disk == Disk(c.existing, [], [], {})
    && s.stats == Stats(0, 0, 0, 0, multiset{})
    && s.log == History([], [], false)
  }

  // ---------------------------------------------------------------------------------------
  // Condition variables.

  predicate Asleep(ws: seq<WorkerPc>, i: nat) {
    i < |ws| && ws[i].WAsleep?
  }

  predicate SomeoneAsleep(ws: seq<WorkerPc>) {
    exists i :: 0 <= i < |ws| && ws[i].WAsleep?
  }

  /** `pthread_cond_signal(&buffer_not_empty)`. */
  function WakeOne(ws: seq<WorkerPc>, i: nat): seq<WorkerPc> {
    if Asleep(ws, i) then ws[i := WRelock] else ws
  }

  /** `pthread_cond_broadcast(&buffer_not_empty)`. */
  function WakeAll(ws: seq<WorkerPc>): (woken: seq<WorkerPc>)
    ensures |woken| == |ws|
    ensures forall i | 0 <= i < |ws| :: woken[i] == if ws[i].WAsleep? then WRelock else ws[i]
  {
    seq(|ws|, i requires 0 <= i < |ws| => if ws[i].WAsleep? then WRelock else ws[i])
  }

  /** `pthread_cond_signal(&buffer_not_full)`; only the traversal ever waits for it. */
  function WakeTraversal(t: TravPc): TravPc {
    if t.TAsleep? then TRelock(t.task) else t
  }

  // ---------------------------------------------------------------------------------------
  // main: HW5/program.c lines 547 to 569.

  predicate MainEnabled(c: Config, s: State) {
    match s.main
    case MJoinRoot => s.trav.TExited?
    case MDoneLock => if c.doneLock.AsWritten? then s.sync.outMutex.Free? else s.sync.bufMutex.Free?
    case MJoin(i) => i < |s.workers| ==> s.workers[i].WExited?
    case MFinished => false
    case _ => true
  }

  function MainStep(c: Config, s: State): State {
    match s.main
    case MSpawn(i) =>
      if i < |s.workers| then s.(workers := s.workers[i := WLock], main := MSpawn(i + 1))
      else s.(main := MJoinRoot)
    case MJoinRoot => s.(main := MDoneLock)
    case MDoneLock =>
      if c.doneLock.AsWritten? then s.(main := MSetDone, sync := s.sync.(outMutex := Main))
      else s.(main := MSetDone, sync := s.sync.(bufMutex := Main))
    case MSetDone => s.(main := MDoneUnlock, sync := s.sync.(done := true))
    case MDoneUnlock =>
      if c.doneLock.AsWritten? then s.(main := MBroadcast, sync := s.sync.(outMutex := Free))
      else s.(main := MBroadcast, sync := s.sync.(bufMutex := Free))
    case MBroadcast =>
      s.(main := MJoin(0), workers := WakeAll(s.workers), log := s.log.(missed := SomeoneBetween(s.workers)))
    case MJoin(i) => s.(main := if i < |s.workers| then MJoin(i + 1) else MFinished)
    case MFinished => s
  }

  /** Some worker has found the ring empty and `done` unset, and has not begun to wait. */
  predicate SomeoneBetween(ws: seq<WorkerPc>) {
    exists i :: 0 <= i < |ws| && ws[i].WGoWait?
  }

  // ---------------------------------------------------------------------------------------
  // traverse_directory and add_task_to_buffer: lines 171 to 303 and 382 to 396. The threads of
  // the directories on the current path are the frames, the running one first.

  predicate TravEnabled(s: State, wake: nat) {
    match s.trav
    case TBufLock(_) => s.sync.bufMutex.Free?
    case TRelock(_) => s.sync.bufMutex.Free?
    case TRegLock => s.sync.outMutex.Free?
    case TFifoLock => s.sync.outMutex.Free?
    case TDirLock => s.sync.outMutex.Free?
    case TErrLock => s.sync.outMutex.Free?
    case TDestErrLock => s.sync.outMutex.Free?
    case TAsleep(_) => false
    case TExited => false
    case TSignal => SomeoneAsleep(s.workers) ==> Asleep(s.workers, wake)
    case _ => true
  }

  /** Read the next entry of the running directory, or leave it. */
  function VisitNext(s: State): State {
    if s.frames == [] then s.(trav := TExited)
    else if s.frames[0].entries == [] then
      // the thread exits; its parent's join returns and the parent counts the directory
      s.(frames := s.frames[1..], trav := if |s.frames| == 1 then TExited else TDirLock)
    else
      var e, path := s.frames[0].entries[0], s.frames[0].path;
      var p := path + [e.name];
      var s1 := s.(frames := [Frame(path, s.frames[0].entries[1..])] + s.frames[1..]);
      match e
      case Dir(_, children, fate) =>
        if fate.MkdirFails? then s1.(trav := TErrLock)
        else
          var s2 := s1.(disk := s1.disk.(names := MakeDir(s.disk.names, p)));
          (match fate
           case ThreadFails => s2.(trav := TErrLock)
           case OpendirFails => s2.(frames := [Frame(p, [])] + s2.frames, trav := TErrLock)
           case _ => s2.(frames := [Frame(p, children)] + s2.frames))
      case File(name, script, fate) =>
        if fate.SourceFails? then s1.(trav := TErrLock)
        else
          s1.(disk := s1.disk.(open := s.disk.open + {ReadEnd(|s.disk.sources|)}),
              trav := TOpenDest(p, name, script, fate))
      case Fifo(_, _, _) =>
        s1.(disk := s1.disk.(names := MakeFifo(s.disk.names, p, e)),
            trav := if FifoMade(s.disk.names, p, e) then TFifoLock else TErrLock)
      case Special(_) => s1
      case Unreadable(_) => s1.(trav := TErrLock)
  }

  function OpenDest(s: State): State
    requires s.trav.TOpenDest?
  {
    var k := |s.disk.sources|;
    if s.trav.fate.DestFails? then s.(trav := TDestErrLock)
    else
      s.(disk := s.disk.(names := s.disk.names[s.trav.path := FileNode(k)],
                         sources := s.disk.sources + [s.trav.script],
                         data := s.disk.data + [[]],
                         open := s.disk.open + {WriteEnd(k)}),
         trav := TInsert(Task(ReadEnd(k), WriteEnd(k)), Extension(s.trav.name)))
  }

  function TravStep(s: State, wake: nat): State {
    match s.trav
    case TNext => VisitNext(s)
    case TOpenDest(_, _, _, _) => OpenDest(s)
    case TDestErrLock => s.(trav := TDestErrPrint, sync := s.sync.(outMutex := Traversal))
    case TDestErrPrint => s.(trav := TDestErrClose, sync := s.sync.(outMutex := Free))
    case TDestErrClose => s.(trav := TNext, disk := s.disk.(open := s.disk.open - {ReadEnd(|s.disk.sources|)}))
    case TInsert(t, key) => s.(trav := TBufLock(t), stats := s.stats.(kinds := s.stats.kinds + multiset{key}))
    case TBufLock(t) => s.(trav := TTestFull(t), sync := s.sync.(bufMutex := Traversal))
    case TTestFull(t) =>
      if IsFull(s.sync.ring) then s.(trav := TAsleep(t), sync := s.sync.(bufMutex := Free)) else s.(trav := TPut(t))
    case TAsleep(_) => s
    case TRelock(t) => s.(trav := TTestFull(t), sync := s.sync.(bufMutex := Traversal))
    case TPut(t) =>
      s.(trav := TSignal,
         sync := s.sync.(ring := Put(s.sync.ring, t)), log := s.log.(added := s.log.added + [t]))
    case TSignal => s.(trav := TUnlock, workers := WakeOne(s.workers, wake))
    case TUnlock => s.(trav := TRegLock, sync := s.sync.(bufMutex := Free))
    case TRegLock => s.(trav := TRegCount, sync := s.sync.(outMutex := Traversal))
    case TRegCount =>
      s.(trav := TNext, sync := s.sync.(outMutex := Free), stats := s.stats.(regular := s.stats.regular + 1))
    case TFifoLock => s.(trav := TFifoCount, sync := s.sync.(outMutex := Traversal))
    case TFifoCount =>
      s.(trav := TNext, sync := s.sync.(outMutex := Free),
         stats := s.stats.(kinds := s.stats.kinds + multiset{"fifo"}, fifos := s.stats.fifos + 1))
    case TDirLock => s.(trav := TDirCount, sync := s.sync.(outMutex := Traversal))
    case TDirCount =>
      s.(trav := TNext, sync := s.sync.(outMutex := Free), stats := s.stats.(directories := s.stats.directories + 1))
    case TErrLock => s.(trav := TErrPrint, sync := s.sync.(outMutex := Traversal))
    case TErrPrint => s.(trav := TNext, sync := s.sync.(outMutex := Free))
    case TExited => s
  }

  // ---------------------------------------------------------------------------------------
  // worker_thread, process_task_from_buffer and copy_fd: lines 307 to 329 and 400 to 436.

  predicate WorkerEnabled(s: State, i: nat) {
    i < |s.workers| &&
    match s.workers[i]
    case WUnborn => false
    case WLock => s.sync.bufMutex.Free?
    case WRelock => s.sync.bufMutex.Free?
    case WAsleep => false
    case WOutLock(_, _, _) => s.sync.outMutex.Free?
    case WErrLock(_) => s.sync.outMutex.Free?
    case WExited => false
    case _ => true
  }

  function SetWorker(s: State, i: nat, pc: WorkerPc): State
    requires i < |s.workers|
  {
    s.(workers := s.workers[i := pc])
  }

  /** `read`: the next chunk, the end of the file, or an error; a closed descriptor is an error. */
  function ReadChunk(s: State, i: nat, t: Task, pos: nat): State
    requires i < |s.workers|
  {
    if t.src !in s.disk.open || t.src.file >= |s.disk.sources| then SetWorker(s, i, WErrLock(t))
    else
      var script := s.disk.sources[t.src.file];
      if pos < |script.transfers| then SetWorker(s, i, WWrite(t, pos))
      else SetWorker(s, i, if script.readFails then WErrLock(t) else WCloseSrc(t))
  }

  /** `write`: append the accepted prefix of the chunk, or fail. */
  function WriteChunk(s: State, i: nat, t: Task, pos: nat): State
    requires i < |s.workers|
  {
    if t.dst !in s.disk.open || t.dst.file >= |s.disk.data| || t.src.file >= |s.disk.sources|
       || pos >= |s.disk.sources[t.src.file].transfers| then SetWorker(s, i, WErrLock(t))
    else
      var x := s.disk.sources[t.src.file].transfers[pos];
      if x.wrote < 0 then SetWorker(s, i, WErrLock(t))
      else
        var k := t.dst.file;
        SetWorker(s, i, WOutLock(t, pos, x.wrote)).(
          disk := s.disk.(data := s.disk.data[k := s.disk.data[k] + x.data[..x.wrote]]))
  }

  function WorkerStep(s: State, i: nat): State
    requires i < |s.workers|
  {
    match s.workers[i]
    case WUnborn => s
    case WLock => SetWorker(s, i, WTest).(sync := s.sync.(bufMutex := Worker(i)))
    case WTest => SetWorker(s, i, if IsEmpty(s.sync.ring) && !s.sync.done then WGoWait else WCheck)
    case WGoWait => SetWorker(s, i, WAsleep).(sync := s.sync.(bufMutex := Free))
    case WAsleep => s
    case WRelock => SetWorker(s, i, WTest).(sync := s.sync.(bufMutex := Worker(i)))
    case WCheck => SetWorker(s, i, if s.sync.done && IsEmpty(s.sync.ring) then WExitUnlock else WTake)
    case WTake => SetWorker(s, i, WRead(Front(s.sync.ring), 0)).(sync := s.sync.(ring := Drop(s.sync.ring)))
    case WRead(t, pos) => ReadChunk(s, i, t, pos)
    case WWrite(t, pos) => WriteChunk(s, i, t, pos)
    case WOutLock(t, pos, n) => SetWorker(s, i, WCount(t, pos, n)).(sync := s.sync.(outMutex := Worker(i)))
    case WCount(t, pos, n) =>
      SetWorker(s, i, WRead(t, pos + 1)).(
        sync := s.sync.(outMutex := Free), stats := s.stats.(bytes := s.stats.bytes + n))
    case WErrLock(t) => SetWorker(s, i, WErrPrint(t)).(sync := s.sync.(outMutex := Worker(i)))
    case WErrPrint(t) => SetWorker(s, i, WCloseSrc(t)).(sync := s.sync.(outMutex := Free))
    case WCloseSrc(t) => SetWorker(s, i, WCloseDst(t)).(disk := s.disk.(open := s.disk.open - {t.src}))
    case WCloseDst(t) =>
      SetWorker(s, i, WSignal).(
        disk := s.disk.(open := s.disk.open - {t.dst}), log := s.log.(completed := s.log.completed + [t]))
    case WSignal => SetWorker(s, i, WUnlock).(trav := WakeTraversal(s.trav))
    case WUnlock => SetWorker(s, i, WLock).(sync := s.sync.(bufMutex := Free))
    case WExitUnlock => SetWorker(s, i, WExitSignal).(sync := s.sync.(bufMutex := Free))
    case WExitSignal => SetWorker(s, i, WExited).(trav := WakeTraversal(s.trav))
    case WExited => s
  }

  // ---------------------------------------------------------------------------------------
  // Runs.

  predicate Enabled(c: Config, s: State, a: Action) {
    match a
    case StepMain => MainEnabled(c, s)
    case StepTraversal(wake) => TravEnabled(s, wake)
    case StepWorker(i) => WorkerEnabled(s, i)
    case SpuriousTraversal => s.trav.TAsleep?
    case SpuriousWorker(i) => Asleep(s.workers, i)
  }

  function Next(c: Config, s: State, a: Action): State
    requires Enabled(c, s, a)
  {
    match a
    case StepMain => MainStep(c, s)
    case StepTraversal(wake) => TravStep(s, wake)
    case StepWorker(i) => WorkerStep(s, i)
    case SpuriousTraversal => s.(trav := WakeTraversal(s.trav))
    case SpuriousWorker(i) => s.(workers := WakeOne(s.workers, i))
  }

  predicate Spurious(a: Action) {
    a.SpuriousTraversal? || a.SpuriousWorker?
  }

  predicate Follows(c: Config, s: State, a: Action, s': State) {
    Enabled(c, s, a) && s' == Next(c, s, a)
  }

  /** A run from an initial state: `states[k + 1]` follows `states[k]` by `actions[k]`. */
  ghost predicate IsRun(c: Config, states: seq<State>, actions: seq<Action>) {
    && |states| == |actions| + 1
    && Initial(c, states[0])
    && forall k {:trigger actions[k]} | 0 <= k < |actions| ::
         Follows(c, states[k], actions[k], states[k + 1])
  }

  /** No thread can move; only a spurious wake-up could still change anything. */
  ghost predicate Stuck(c: Config, s: State) {
    forall a: Action :: Enabled(c, s, a) ==> Spurious(a)
  }
}
