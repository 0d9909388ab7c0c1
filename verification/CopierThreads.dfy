/**
 The traversal threads of the directory copier, one per directory entered, each with its own
 program counter and its own path buffer, of which its child only has a pointer.

 Any thread may be scheduled at any time; in particular a thread that has created a child runs on
 beside it until it comes to join it. Yet the live threads always form one chain from the root
 directory down, and all but the last have nothing to do but to join the next. So the traversal
 behaves as the single stack of frames that `CopierProtocol` steps, and no two traversal threads
 ever use the histogram or a shared path buffer at the same time.
 */
module CopierThreads {
  import opened Wrappers
  import opened CopierTree
  import opened CopierProtocol
  import opened CopierRefinement

  datatype ThreadPc = Running | Created(child: nat) | Joining(child: nat) | Exited

  /** `buffer` is the thread's own path array; its child reads its directory name there. */
  datatype Thread = Thread(parent: Option<nat>, entries: seq<Entry>, buffer: Path, pc: ThreadPc)

  /** The directory a thread works in, read through the pointer it was given. */
  function Directory(root: Path, ts: seq<Thread>, k: nat): Path
    requires k < |ts|
  {
    match ts[k].parent
    case None => root
    case Some(p) => if p < |ts| then ts[p].buffer else root
  }

  predicate CanStep(ts: seq<Thread>, k: nat) {
    k < |ts| &&
    match ts[k].pc
    case Running => true
    case Created(_) => true
    case Joining(child) => child < |ts| && ts[child].pc.Exited?
    case Exited => false
  }

  /** The thread reads entries, uses the histogram and the path buffers; joining needs none of them. */
  predicate Working(ts: seq<Thread>, k: nat) {
    k < |ts| && ts[k].pc.Running?
  }

  /** One step of thread `k`: begin a join, return from it, exit, or handle the next entry, which
      overwrites the thread's path buffer and may create a child. */
  function ThreadStep(root: Path, ts: seq<Thread>, k: nat): seq<Thread>
    requires CanStep(ts, k)
  {
    var t := ts[k];
    if t.pc.Created? then ts[k := t.(pc := Joining(t.pc.child))]
    else if t.pc.Joining? then ts[k := t.(pc := Running)]
    else if t.entries == [] then ts[k := t.(pc := Exited)]
    else
      var e := t.entries[0];
      var t' := t.(entries := t.entries[1..], buffer := Directory(root, ts, k) + [e.name]);
      if Descends(e) then
        ts[k := t'.(pc := Created(|ts|))]
        + [Thread(Some(k), if e.dirFate.Entered? then e.children else [], [], Running)]
      else ts[k := t']
  }

  // ---------------------------------------------------------------------------------------
  // The chain.

  /** The thread has created `child` and not yet returned from joining it. */
  predicate WaitsFor(t: Thread, child: nat) {
    t.pc == Created(child) || t.pc == Joining(child)
  }

  /** Each thread of `stack` is the parent of the one before it and will join it; the last is the root. */
  ghost predicate Linked(ts: seq<Thread>, stack: seq<nat>)
    decreases |stack|
  {
    stack == [] ||
    (&& stack[0] < |ts| && stack[0] !in stack[1..] && Linked(ts, stack[1..])
     && if |stack| == 1 then ts[stack[0]].parent == None
        else WaitsFor(ts[stack[1]], stack[0]) && ts[stack[0]].parent == Some(stack[1]))
  }

  /** The first thread is running, or the child it has created or is joining has exited. */
  ghost predicate Ready(ts: seq<Thread>, k: nat)
    requires k < |ts|
  {
    match ts[k].pc
    case Running => true
    case Created(child) => child < |ts| && ts[child].pc.Exited?
    case Joining(child) => child < |ts| && ts[child].pc.Exited?
    case Exited => false
  }

  /** The live threads are `stack`, the one that works or is about to first. */
  ghost predicate Chain(ts: seq<Thread>, stack: seq<nat>) {
    && Linked(ts, stack)
    && (forall k | 0 <= k < |ts| :: ts[k].pc.Exited? <==> k !in stack)
    && (stack != [] ==> Ready(ts, stack[0]))
  }

  ghost function Frames(root: Path, ts: seq<Thread>, stack: seq<nat>): seq<Frame>
    requires Linked(ts, stack)
    decreases |stack|
  {
    if stack == [] then []
    else [Frame(Directory(root, ts, stack[0]), ts[stack[0]].entries)] + Frames(root, ts, stack[1..])
  }

  /** What the protocol's single stack does in one visit. */
  function FramesAfter(frames: seq<Frame>): seq<Frame>
    requires frames != []
  {
    var top, below := frames[0], frames[1..];
    if top.entries == [] then below
    else
      var e, rest := top.entries[0], Frame(top.path, top.entries[1..]);
      if Descends(e) then
        [Frame(top.path + [e.name], if e.dirFate.Entered? then e.children else [])] + ([rest] + below)
      else [rest] + below
  }

  lemma ProtocolFrames(s: State)
    requires s.trav.TNext? && s.frames != []
    ensures VisitNext(s).frames == FramesAfter(s.frames)
  {
    if s.frames[0].entries != [] {
      if Descends(s.frames[0].entries[0]) {
        DirVisit(s);
      } else {
        LeafVisit(s);
      }
    }
  }

  /** All but the first have created a thread of the chain, and read a buffer of the chain's others. */
  lemma {:induction false} InChain(ts: seq<Thread>, stack: seq<nat>, k: nat)
    requires Linked(ts, stack) && k in stack
    ensures k < |ts|
    ensures k != stack[0] ==> exists child <- stack :: WaitsFor(ts[k], child)
    ensures ts[k].parent == None || (ts[k].parent.Some? && ts[k].parent.value in stack[1..])
    decreases |stack|
  {
    if k != stack[0] {
      assert k in stack[1..];
      InChain(ts, stack[1..], k);
      if k == stack[1] {
        assert stack[0] in stack;
      } else {
        var child :| child in stack[1..] && WaitsFor(ts[k], child);
        assert child in stack;
      }
      assert forall p | p in stack[1..][1..] :: p in stack[1..];
    }
  }

  /** Only the first thread of the chain can do anything but begin a join. */
  lemma OnlyTopMoves(ts: seq<Thread>, stack: seq<nat>, k: nat)
    requires Chain(ts, stack) && CanStep(ts, k)
    ensures stack != [] && k in stack
    ensures k != stack[0] ==> ts[k].pc.Created?
  {
    assert k in stack;
    InChain(ts, stack, k);
  }

  /** Threads that change neither entries, buffer nor parent, nor whom they wait for, keep their links
      and frames. */
  lemma {:induction false} Untouched(root: Path, ts: seq<Thread>, ts': seq<Thread>, stack: seq<nat>)
    requires Linked(ts, stack) && |ts| <= |ts'|
    requires forall k | k in stack && k < |ts| :: SameLinks(ts[k], ts'[k])
    ensures Linked(ts', stack) && Frames(root, ts', stack) == Frames(root, ts, stack)
    decreases |stack|
  {
    if stack != [] {
      assert stack[0] in stack;
      assert |stack| > 1 ==> stack[1] in stack;
      Untouched(root, ts, ts', stack[1..]);
    }
  }

  predicate SameLinks(t: Thread, t': Thread) {
    && t'.parent == t.parent && t'.entries == t.entries && t'.buffer == t.buffer
    && (t.pc.Created? ==> WaitsFor(t', t.pc.child))
    && (t.pc.Joining? ==> WaitsFor(t', t.pc.child))
  }

  /** The chain after a step of thread `k`. */
  function StackAfter(ts: seq<Thread>, stack: seq<nat>, k: nat): seq<nat>
    requires stack != [] && stack[0] < |ts|
  {
    var t := ts[stack[0]];
    if k != stack[0] || !t.pc.Running? then stack
    else if t.entries == [] then stack[1..]
    else if Descends(t.entries[0]) then [|ts|] + stack
    else stack
  }

  /** The threads below the first do not change in its step. */
  lemma BelowUntouched(root: Path, ts: seq<Thread>, stack: seq<nat>)
    requires Chain(ts, stack) && stack != [] && CanStep(ts, stack[0])
    ensures var ts' := ThreadStep(root, ts, stack[0]);
            && Linked(ts', stack[1..]) && Frames(root, ts', stack[1..]) == Frames(root, ts, stack[1..])
            && (|stack| > 1 ==> stack[1] < |ts| && stack[1] != stack[0] && ts'[stack[1]] == ts[stack[1]])
  {
    assert |stack| > 1 ==> stack[1] in stack[1..];
    Untouched(root, ts, ThreadStep(root, ts, stack[0]), stack[1..]);
  }

  /** A thread that begins to join, or returns from it, changes nothing else. */
  lemma JoinKeepsChain(root: Path, ts: seq<Thread>, stack: seq<nat>, k: nat)
    requires Chain(ts, stack) && CanStep(ts, k) && !ts[k].pc.Running?
    ensures stack != [] && Chain(ThreadStep(root, ts, k), stack)
    ensures Frames(root, ThreadStep(root, ts, k), stack) == Frames(root, ts, stack)
  {
    OnlyTopMoves(ts, stack, k);
    JoinKeepsLinks(root, ts, stack, k);
  }

  lemma JoinKeepsLinks(root: Path, ts: seq<Thread>, stack: seq<nat>, k: nat)
    requires Linked(ts, stack) && CanStep(ts, k) && !ts[k].pc.Running?
    requires stack != [] && (k == stack[0] || ts[k].pc.Created?)
    ensures Linked(ThreadStep(root, ts, k), stack)
    ensures Frames(root, ThreadStep(root, ts, k), stack) == Frames(root, ts, stack)
  {
    if ts[k].pc.Created? {
      Untouched(root, ts, ThreadStep(root, ts, k), stack);
    } else {
      Untouched(root, ts, ThreadStep(root, ts, k), stack[1..]);
    }
  }

  /** The first thread stays first when it handles an entry that is no directory. */
  lemma LeafKeepsChain(root: Path, ts: seq<Thread>, stack: seq<nat>)
    requires Chain(ts, stack) && stack != [] && ts[stack[0]].pc.Running?
    requires ts[stack[0]].entries != [] && !Descends(ts[stack[0]].entries[0])
    ensures var ts' := ThreadStep(root, ts, stack[0]);
            Chain(ts', stack) && Frames(root, ts', stack) == FramesAfter(Frames(root, ts, stack))
  {
    BelowUntouched(root, ts, stack);
    assert stack[0] in stack;
  }

  lemma ExitKeepsChain(root: Path, ts: seq<Thread>, stack: seq<nat>)
    requires Chain(ts, stack) && stack != [] && ts[stack[0]].pc.Running? && ts[stack[0]].entries == []
    ensures var ts', below := ThreadStep(root, ts, stack[0]), stack[1..];
            Chain(ts', below) && Frames(root, ts', below) == FramesAfter(Frames(root, ts, stack))
  {
    var ts', below := ThreadStep(root, ts, stack[0]), stack[1..];
    BelowUntouched(root, ts, stack);
    assert stack == [stack[0]] + below;
    forall k | 0 <= k < |ts'|
      ensures ts'[k].pc.Exited? <==> k !in below
    {
      assert k in stack <==> k == stack[0] || k in below;
    }
  }

  /** The new thread is linked to the one that created it. */
  lemma ChildIsLinked(root: Path, ts: seq<Thread>, stack: seq<nat>)
    requires Chain(ts, stack) && stack != [] && ts[stack[0]].pc.Running?
    requires ts[stack[0]].entries != [] && Descends(ts[stack[0]].entries[0])
    ensures var ts', longer := ThreadStep(root, ts, stack[0]), [|ts|] + stack;
            Linked(ts', longer) && Frames(root, ts', longer) == FramesAfter(Frames(root, ts, stack))
  {
    var ts', longer := ThreadStep(root, ts, stack[0]), [|ts|] + stack;
    BelowUntouched(root, ts, stack);
    if |ts| in stack {
      InChain(ts, stack, |ts|);
    }
    assert longer[1..] == stack && longer[1] == stack[0];
    assert Linked(ts', stack);
  }

  lemma EnterKeepsChain(root: Path, ts: seq<Thread>, stack: seq<nat>)
    requires Chain(ts, stack) && stack != [] && ts[stack[0]].pc.Running?
    requires ts[stack[0]].entries != [] && Descends(ts[stack[0]].entries[0])
    ensures var ts', longer := ThreadStep(root, ts, stack[0]), [|ts|] + stack;
            Chain(ts', longer) && Frames(root, ts', longer) == FramesAfter(Frames(root, ts, stack))
  {
    var ts', longer := ThreadStep(root, ts, stack[0]), [|ts|] + stack;
    ChildIsLinked(root, ts, stack);
    assert stack[0] in stack;
    forall k | 0 <= k < |ts'|
      ensures ts'[k].pc.Exited? <==> k !in longer
    {
      assert k in longer <==> k == |ts| || k in stack;
    }
  }

  /** Every step keeps the chain. A step of a working thread is a visit of the protocol's stack, a
      step of a joining thread leaves the stack alone. */
  lemma StepKeepsChain(root: Path, ts: seq<Thread>, stack: seq<nat>, k: nat)
    requires Chain(ts, stack) && CanStep(ts, k)
    ensures stack != [] && (Working(ts, k) ==> k == stack[0])
    ensures var ts', stack' := ThreadStep(root, ts, k), StackAfter(ts, stack, k);
            && Chain(ts', stack')
            && Frames(root, ts', stack') ==
               if Working(ts, k) then FramesAfter(Frames(root, ts, stack)) else Frames(root, ts, stack)
  {
    OnlyTopMoves(ts, stack, k);
    if !ts[k].pc.Running? {
      JoinKeepsChain(root, ts, stack, k);
    } else if ts[k].entries == [] {
      ExitKeepsChain(root, ts, stack);
    } else if Descends(ts[k].entries[0]) {
      EnterKeepsChain(root, ts, stack);
    } else {
      LeafKeepsChain(root, ts, stack);
    }
  }

  // ---------------------------------------------------------------------------------------
  // Runs.

  /** Any schedule of the threads, starting with the root thread alone. */
  ghost predicate IsThreadRun(root: Path, source: seq<Entry>, states: seq<seq<Thread>>, schedule: seq<nat>) {
    && |states| == |schedule| + 1
    && states[0] == [Thread(None, source, [], Running)]
    && forall i {:trigger schedule[i]} | 0 <= i < |schedule| ::
         CanStep(states[i], schedule[i]) && states[i + 1] == ThreadStep(root, states[i], schedule[i])
  }

  /** The chain in every state of a run. */
  ghost function StackAt(states: seq<seq<Thread>>, schedule: seq<nat>, n: nat): seq<nat>
    requires n < |states| <= |schedule| + 1
  {
    if n == 0 then [0]
    else
      var before := StackAt(states, schedule, n - 1);
      if before == [] || before[0] >= |states[n - 1]| then [] else StackAfter(states[n - 1], before, schedule[n - 1])
  }

  lemma {:induction false} RunIsChain(root: Path, source: seq<Entry>, states: seq<seq<Thread>>,
                                      schedule: seq<nat>, n: nat)
    requires IsThreadRun(root, source, states, schedule) && n < |states|
    ensures Chain(states[n], StackAt(states, schedule, n))
  {
    if n == 0 {
      var t := states[0][0];
      assert t.pc.Running? && 0 in StackAt(states, schedule, 0);
    } else {
      RunIsChain(root, source, states, schedule, n - 1);
      StepKeepsChain(root, states[n - 1], StackAt(states, schedule, n - 1), schedule[n - 1]);
    }
  }

  /** At most one traversal thread works at any time, also between the creation of a child and its
      join: the histogram update, which takes no lock, and the path buffers are never used by two
      threads at once. */
  lemma SingleRunner(root: Path, source: seq<Entry>, states: seq<seq<Thread>>, schedule: seq<nat>,
                     n: nat, k: nat, k': nat)
    requires IsThreadRun(root, source, states, schedule) && n < |states|
    requires Working(states[n], k) && Working(states[n], k')
    ensures k == k'
  {
    RunIsChain(root, source, states, schedule, n);
    OnlyTopMoves(states[n], StackAt(states, schedule, n), k);
    OnlyTopMoves(states[n], StackAt(states, schedule, n), k');
  }

  /** In a run every step of a working thread is one visit of the protocol's stack, and the joins of
      the others do not show. */
  lemma RunIsStack(root: Path, source: seq<Entry>, states: seq<seq<Thread>>, schedule: seq<nat>, n: nat)
    requires IsThreadRun(root, source, states, schedule) && n < |schedule|
    ensures Chain(states[n], StackAt(states, schedule, n)) && Chain(states[n + 1], StackAt(states, schedule, n + 1))
    ensures var frames := Frames(root, states[n], StackAt(states, schedule, n));
            && frames != []
            && Frames(root, states[n + 1], StackAt(states, schedule, n + 1)) ==
               if Working(states[n], schedule[n]) then FramesAfter(frames) else frames
  {
    RunIsChain(root, source, states, schedule, n);
    StepKeepsChain(root, states[n], StackAt(states, schedule, n), schedule[n]);
  }

  lemma StepKeepsDirectory(root: Path, ts: seq<Thread>, stack: seq<nat>, k: nat, live: nat)
    requires Chain(ts, stack) && CanStep(ts, k) && live < |ts|
    requires !ThreadStep(root, ts, k)[live].pc.Exited?
    ensures !ts[live].pc.Exited?
    ensures Directory(root, ThreadStep(root, ts, k), live) == Directory(root, ts, live)
  {
    OnlyTopMoves(ts, stack, k);
    assert live in stack;
    InChain(ts, stack, live);
    if ts[live].parent.Some? {
      InChain(ts, stack, ts[live].parent.value);
    }
  }

  lemma RunKeepsDirectory(root: Path, source: seq<Entry>, states: seq<seq<Thread>>, schedule: seq<nat>,
                          j: nat, k: nat)
    requires IsThreadRun(root, source, states, schedule) && j + 1 < |states| && k < |states[j]|
    ensures k < |states[j + 1]|
    ensures !states[j + 1][k].pc.Exited? ==>
              !states[j][k].pc.Exited? && Directory(root, states[j + 1], k) == Directory(root, states[j], k)
  {
    RunIsChain(root, source, states, schedule, j);
    assert states[j + 1] == ThreadStep(root, states[j], schedule[j]);
    if !states[j + 1][k].pc.Exited? {
      StepKeepsDirectory(root, states[j], StackAt(states, schedule, j), schedule[j], k);
    }
  }

  /** The path a thread reads through its parent's buffer is the same for as long as it lives. */
  lemma {:induction false} DirectoryNeverChanges(root: Path, source: seq<Entry>, states: seq<seq<Thread>>,
                                                 schedule: seq<nat>, i: nat, j: nat, k: nat)
    requires IsThreadRun(root, source, states, schedule) && i <= j < |states| && k < |states[i]|
    ensures k < |states[j]|
    ensures !states[j][k].pc.Exited? ==>
              !states[i][k].pc.Exited? && Directory(root, states[j], k) == Directory(root, states[i], k)
    decreases j
  {
    if i < j {
      DirectoryNeverChanges(root, source, states, schedule, i, j - 1, k);
      RunKeepsDirectory(root, source, states, schedule, j - 1, k);
    }
  }
}
