/**
 Every finished run of the concurrent copier has the outcome of the sequential copy.

 The traversal's part is followed by the outcome a sequential copy would still reach from the
 current state: `Rest` never changes. The workers' part is the byte invariant.
 */
module CopierRefinement {
  import opened CopierTree
  import opened CopierRing
  import opened CopierProtocol
  import opened CopierInvariant

  /** Before anything is copied. */
  function Start(c: Config): Outcome {
    Outcome(c.existing, [], 0, 0, 0, 0, multiset{})
  }

  /** The reference: one plain recursive copy of the source tree. */
  function SequentialCopy(c: Config): Outcome {
    if c.sourceOpens then CopyEntries(Start(c), c.destRoot, c.source) else Start(c)
  }

  function WrittenAll(sources: seq<Script>): seq<seq<bv8>> {
    if sources == [] then []
    else WrittenAll(sources[..|sources| - 1]) + [Written(sources[|sources| - 1].transfers)]
  }

  lemma {:induction false} WrittenAllAt(sources: seq<Script>, k: nat)
    requires k < |sources|
    ensures |WrittenAll(sources)| == |sources|
    ensures WrittenAll(sources)[k] == Written(sources[k].transfers)
  {
    var n := |sources| - 1;
    if n > 0 {
      WrittenAllAt(sources[..n], if k < n then k else 0);
    }
  }

  lemma WrittenAllGrows(sources: seq<Script>, x: Script)
    ensures WrittenAll(sources + [x]) == WrittenAll(sources) + [Written(x.transfers)]
    ensures TotalLength(WrittenAll(sources + [x])) == TotalLength(WrittenAll(sources)) + |Written(x.transfers)|
  {
    assert (sources + [x])[..|sources|] == sources;
    assert (WrittenAll(sources) + [Written(x.transfers)])[..|WrittenAll(sources)|] == WrittenAll(sources);
  }

  /** The outcome if every file opened so far were copied to the end. */
  function Settled(s: State): Outcome {
    var data := WrittenAll(s.disk.sources);
    Outcome(s.disk.names, data, s.stats.regular, s.stats.directories, s.stats.fifos,
            TotalLength(data), s.stats.kinds)
  }

  /** The traversal still owes the count of a queued file, a FIFO or a finished directory. */
  predicate OwesFile(t: TravPc) {
    HoldsTask(t) || t.TSignal? || t.TUnlock? || t.TRegLock? || t.TRegCount?
  }

  predicate OwesFifo(t: TravPc) {
    t.TFifoLock? || t.TFifoCount?
  }

  predicate OwesDir(t: TravPc) {
    t.TDirLock? || t.TDirCount?
  }

  function OwedKinds(t: TravPc): multiset<string> {
    if t.TInsert? then multiset{t.key} else if OwesFifo(t) then multiset{"fifo"} else multiset{}
  }

  /** ... and the operation under way in the traversal were finished. */
  function Caught(s: State): Outcome {
    WithOwed(Settled(s), s.trav)
  }

  function WithOwed(o: Outcome, t: TravPc): Outcome {
    if t.TOpenDest? then
      if t.fate.DestFails? then o else CopyFile(o, t.path, t.name, t.script)
    else
      o.(regular := o.regular + (if OwesFile(t) then 1 else 0),
         fifos := o.fifos + (if OwesFifo(t) then 1 else 0),
         directories := o.directories + (if OwesDir(t) then 1 else 0),
         kinds := o.kinds + OwedKinds(t))
  }

  /** Copy what is left of the running directory, count it, and go on in its parent. */
  function RunFrames(o: Outcome, frames: seq<Frame>): Outcome
    decreases |frames|
  {
    if frames == [] then o
    else
      var o1 := CopyEntries(o, frames[0].path, frames[0].entries);
      if |frames| == 1 then o1
      else RunFrames(o1.(directories := o1.directories + 1), frames[1..])
  }

  /** The outcome of finishing everything sequentially from here. */
  function Rest(s: State): Outcome {
    RunFrames(Caught(s), s.frames)
  }

  /** One entry of the running directory, by the sequential copy. */
  lemma FrameStep(o: Outcome, frames: seq<Frame>)
    requires frames != [] && frames[0].entries != []
    ensures var top := frames[0];
            RunFrames(o, frames) ==
            RunFrames(CopyEntry(o, top.path, top.entries[0]),
                      [Frame(top.path, top.entries[1..])] + frames[1..])
  {
    assert ([Frame(frames[0].path, frames[0].entries[1..])] + frames[1..])[1..] == frames[1..];
  }

  /** Descending into a directory, by the sequential copy. */
  lemma FrameEnter(o: Outcome, child: Frame, frames: seq<Frame>)
    requires frames != []
    ensures var o1 := CopyEntries(o, child.path, child.entries);
            RunFrames(o, [child] + frames) == RunFrames(o1.(directories := o1.directories + 1), frames)
  {
    assert ([child] + frames)[1..] == frames;
  }

  predicate Descends(e: Entry) {
    e.Dir? && (e.dirFate.Entered? || e.dirFate.OpendirFails?)
  }

  lemma LeafVisit(s: State)
    requires s.trav.TNext? && s.frames != [] && s.frames[0].entries != []
    requires !Descends(s.frames[0].entries[0])
    ensures var top, s' := s.frames[0], VisitNext(s);
            && s'.frames == [Frame(top.path, top.entries[1..])] + s.frames[1..]
            && Caught(s') == CopyEntry(Settled(s), top.path, top.entries[0])
  {
    LeafFrames(s);
    var e := s.frames[0].entries[0];
    if e.File? {
      FileVisit(s);
    } else if e.Fifo? {
      FifoVisit(s);
    } else if e.Dir? {
      FailedDirVisit(s);
    } else {
      SkippedVisit(s);
    }
  }

  lemma LeafFrames(s: State)
    requires s.trav.TNext? && s.frames != [] && s.frames[0].entries != []
    requires !Descends(s.frames[0].entries[0])
    ensures VisitNext(s).frames == [Frame(s.frames[0].path, s.frames[0].entries[1..])] + s.frames[1..]
  {
  }

  lemma FailedDirVisit(s: State)
    requires s.trav.TNext? && s.frames != [] && s.frames[0].entries != []
    requires s.frames[0].entries[0].Dir? && !Descends(s.frames[0].entries[0])
    ensures Caught(VisitNext(s)) == CopyEntry(Settled(s), s.frames[0].path, s.frames[0].entries[0])
  {
    assert Settled(VisitNext(s)) == Settled(s).(names := VisitNext(s).disk.names);
  }

  lemma SkippedVisit(s: State)
    requires s.trav.TNext? && s.frames != [] && s.frames[0].entries != []
    requires s.frames[0].entries[0].Special? || s.frames[0].entries[0].Unreadable?
    ensures Caught(VisitNext(s)) == CopyEntry(Settled(s), s.frames[0].path, s.frames[0].entries[0])
  {
    assert CopyEntry(Settled(s), s.frames[0].path, s.frames[0].entries[0]) == Settled(s);
    assert Settled(VisitNext(s)) == Settled(s);
    assert Caught(VisitNext(s)) == Settled(VisitNext(s));
  }

  lemma FileVisit(s: State)
    requires s.trav.TNext? && s.frames != [] && s.frames[0].entries != [] && s.frames[0].entries[0].File?
    ensures Caught(VisitNext(s)) == CopyEntry(Settled(s), s.frames[0].path, s.frames[0].entries[0])
  {
    assert Settled(VisitNext(s)) == Settled(s);
  }

  lemma FifoVisit(s: State)
    requires s.trav.TNext? && s.frames != [] && s.frames[0].entries != [] && s.frames[0].entries[0].Fifo?
    ensures Caught(VisitNext(s)) == CopyEntry(Settled(s), s.frames[0].path, s.frames[0].entries[0])
  {
    assert Settled(VisitNext(s)) == Settled(s).(names := VisitNext(s).disk.names);
  }

  lemma DirVisit(s: State)
    requires s.trav.TNext? && s.frames != [] && s.frames[0].entries != []
    requires Descends(s.frames[0].entries[0])
    ensures var top, e, s' := s.frames[0], s.frames[0].entries[0], VisitNext(s);
            var p := top.path + [e.name];
            && s'.frames == [Frame(p, if e.dirFate.Entered? then e.children else [])]
                            + ([Frame(top.path, top.entries[1..])] + s.frames[1..])
            && Caught(s') == Settled(s).(names := MakeDir(s.disk.names, p))
  {
    DirFrames(s);
    DirCaught(s);
  }

  lemma DirFrames(s: State)
    requires s.trav.TNext? && s.frames != [] && s.frames[0].entries != []
    requires Descends(s.frames[0].entries[0])
    ensures var top, e, s' := s.frames[0], s.frames[0].entries[0], VisitNext(s);
            && s'.frames == [Frame(top.path + [e.name], if e.dirFate.Entered? then e.children else [])]
                            + ([Frame(top.path, top.entries[1..])] + s.frames[1..])
            && (s'.trav.TNext? || s'.trav.TErrLock?) && s'.disk.sources == s.disk.sources && s'.stats == s.stats
            && s'.disk.names == MakeDir(s.disk.names, top.path + [e.name])
  {
  }

  lemma DirCaught(s: State)
    requires s.trav.TNext? && s.frames != [] && s.frames[0].entries != []
    requires Descends(s.frames[0].entries[0])
    ensures var p := s.frames[0].path + [s.frames[0].entries[0].name];
            Caught(VisitNext(s)) == Settled(s).(names := MakeDir(s.disk.names, p))
  {
    DirFrames(s);
    NothingOwed(Settled(VisitNext(s)), VisitNext(s).trav);
  }

  lemma NothingOwed(o: Outcome, t: TravPc)
    requires t.TNext? || t.TErrLock?
    ensures WithOwed(o, t) == o
  {
  }

  lemma LeaveVisit(s: State)
    requires s.trav.TNext? && s.frames != [] && s.frames[0].entries == []
    ensures Rest(VisitNext(s)) == Rest(s)
  {
    LeaveKeepsSettled(s);
  }

  lemma LeaveKeepsSettled(s: State)
    requires s.trav.TNext? && s.frames != [] && s.frames[0].entries == []
    ensures VisitNext(s).frames == s.frames[1..] && Caught(s) == Settled(s)
    ensures Caught(VisitNext(s)) ==
            if |s.frames| == 1 then Settled(s) else Settled(s).(directories := s.stats.directories + 1)
  {
    assert Settled(VisitNext(s)) == Settled(s);
  }

  lemma VisitKeepsRest(s: State)
    requires s.trav.TNext? && s.frames != []
    ensures Rest(VisitNext(s)) == Rest(s)
  {
    if s.frames[0].entries == [] {
      LeaveVisit(s);
    } else {
      var o, top, e := Settled(s), s.frames[0], s.frames[0].entries[0];
      assert Caught(s) == o;
      FrameStep(o, s.frames);
      if Descends(e) {
        EnterKeepsRest(s);
      } else {
        LeafVisit(s);
      }
    }
  }

  lemma EnterKeepsRest(s: State)
    requires s.trav.TNext? && s.frames != [] && s.frames[0].entries != []
    requires Descends(s.frames[0].entries[0])
    ensures var top := s.frames[0];
            Rest(VisitNext(s)) == RunFrames(CopyEntry(Settled(s), top.path, top.entries[0]),
                                            [Frame(top.path, top.entries[1..])] + s.frames[1..])
  {
    var o, top, e := Settled(s), s.frames[0], s.frames[0].entries[0];
    DirVisit(s);
    FrameEnter(o.(names := MakeDir(o.names, top.path + [e.name])), VisitNext(s).frames[0],
               [Frame(top.path, top.entries[1..])] + s.frames[1..]);
  }

  lemma OpenKeepsRest(s: State)
    requires s.trav.TOpenDest?
    ensures Rest(OpenDest(s)) == Rest(s)
  {
    OpenKeepsCaught(s);
  }

  lemma OpenKeepsCaught(s: State)
    requires s.trav.TOpenDest?
    ensures OpenDest(s).frames == s.frames && Caught(OpenDest(s)) == Caught(s)
  {
    if !s.trav.fate.DestFails? {
      FileCaught(s);
    }
  }

  lemma FileCaught(s: State)
    requires s.trav.TOpenDest? && !s.trav.fate.DestFails?
    ensures Caught(OpenDest(s)) == Caught(s)
  {
    FileAdded(s);
  }

  /** The file just opened counts as copied, with everything its script will write. */
  lemma FileAdded(s: State)
    requires s.trav.TOpenDest? && !s.trav.fate.DestFails?
    ensures var s', w := OpenDest(s), Written(s.trav.script.transfers);
            && Settled(s').data == Settled(s).data + [w] && |Settled(s).data| == |s.disk.sources|
            && Settled(s').bytes == Settled(s).bytes + |w|
  {
    WrittenAllGrows(s.disk.sources, s.trav.script);
    WrittenAllLength(s.disk.sources);
    var data := WrittenAll(s.disk.sources);
    assert (data + [Written(s.trav.script.transfers)])[..|data|] == data;
  }

  lemma {:induction false} WrittenAllLength(sources: seq<Script>)
    ensures |WrittenAll(sources)| == |sources|
  {
    if sources != [] {
      WrittenAllAt(sources, 0);
    }
  }

  lemma TravKeepsRest(c: Config, s: State, wake: nat)
    requires TravEnabled(s, wake) && InvMain(c, s)
    ensures Rest(TravStep(s, wake)) == Rest(s)
  {
    if s.trav.TNext? {
      VisitKeepsRest(s);
    } else if s.trav.TOpenDest? {
      OpenKeepsRest(s);
    } else {
      CountKeepsCaught(s, wake);
    }
  }

  lemma CountKeepsCaught(s: State, wake: nat)
    requires TravEnabled(s, wake) && !s.trav.TNext? && !s.trav.TOpenDest?
    ensures TravStep(s, wake).frames == s.frames && Caught(TravStep(s, wake)) == Caught(s)
  {
    SettledButStats(s, wake);
    StatsAreOwed(s, wake);
    DirectoriesAreOwed(s, wake);
    KindsAreOwed(s, wake);
  }

  lemma SettledButStats(s: State, wake: nat)
    requires TravEnabled(s, wake) && !s.trav.TNext? && !s.trav.TOpenDest?
    ensures var s' := TravStep(s, wake);
            && s'.frames == s.frames && s'.disk.names == s.disk.names && s'.disk.sources == s.disk.sources
            && s'.stats.bytes == s.stats.bytes
  {
  }

  lemma StatsAreOwed(s: State, wake: nat)
    requires TravEnabled(s, wake) && !s.trav.TNext? && !s.trav.TOpenDest?
    ensures var s' := TravStep(s, wake);
            && !s'.trav.TOpenDest?
            && s'.stats.regular + (if OwesFile(s'.trav) then 1 else 0)
               == s.stats.regular + (if OwesFile(s.trav) then 1 else 0)
            && s'.stats.fifos + (if OwesFifo(s'.trav) then 1 else 0)
               == s.stats.fifos + (if OwesFifo(s.trav) then 1 else 0)
  {
  }

  lemma DirectoriesAreOwed(s: State, wake: nat)
    requires TravEnabled(s, wake) && !s.trav.TNext? && !s.trav.TOpenDest?
    ensures var s' := TravStep(s, wake);
            s'.stats.directories + (if OwesDir(s'.trav) then 1 else 0)
            == s.stats.directories + (if OwesDir(s.trav) then 1 else 0)
  {
  }

  lemma KindsAreOwed(s: State, wake: nat)
    requires TravEnabled(s, wake) && !s.trav.TNext? && !s.trav.TOpenDest?
    ensures var s' := TravStep(s, wake);
            s'.stats.kinds + OwedKinds(s'.trav) == s.stats.kinds + OwedKinds(s.trav)
  {
    if s.trav.TInsert? || s.trav.TFifoCount? {
      KindRecorded(s, wake);
    } else {
      KindsStayOwed(s, wake);
    }
  }

  lemma KindRecorded(s: State, wake: nat)
    requires s.trav.TInsert? || s.trav.TFifoCount?
    ensures OwedKinds(TravStep(s, wake).trav) == multiset{}
    ensures TravStep(s, wake).stats.kinds == s.stats.kinds + OwedKinds(s.trav)
  {
  }

  lemma KindsStayOwed(s: State, wake: nat)
    requires TravEnabled(s, wake) && !s.trav.TNext? && !s.trav.TOpenDest? && !s.trav.TInsert? && !s.trav.TFifoCount?
    ensures OwedKinds(TravStep(s, wake).trav) == OwedKinds(s.trav)
    ensures TravStep(s, wake).stats.kinds == s.stats.kinds
  {
  }

  /** Workers and `main` leave everything the traversal works on alone, but may wake it. */
  ghost predicate SameTraversal(s: State, s': State) {
    && s'.frames == s.frames
    && s'.disk.names == s.disk.names && s'.disk.sources == s.disk.sources
    && s'.stats == s.stats.(bytes := s'.stats.bytes)
    && (s'.trav == s.trav || s'.trav == WakeTraversal(s.trav))
  }

  lemma SameTraversalSameRest(s: State, s': State)
    requires SameTraversal(s, s')
    ensures Rest(s') == Rest(s)
  {
    SameCaught(s, s');
  }

  lemma SameCaught(s: State, s': State)
    requires SameTraversal(s, s')
    ensures Caught(s') == Caught(s)
  {
    assert Settled(s') == Settled(s);
    WakingOwesTheSame(Settled(s), s.trav);
  }

  lemma WakingOwesTheSame(o: Outcome, t: TravPc)
    ensures WithOwed(o, WakeTraversal(t)) == WithOwed(o, t)
  {
  }

  lemma WorkerLeavesTraversal(s: State, i: nat)
    requires WorkerEnabled(s, i)
    ensures SameTraversal(s, WorkerStep(s, i))
  {
  }

  lemma MainLeavesTraversal(c: Config, s: State)
    requires MainEnabled(c, s)
    ensures SameTraversal(s, MainStep(c, s))
  {
  }

  /** No step of a worker changes the outcome of finishing sequentially ... */
  lemma WorkerKeepsRest(s: State, i: nat)
    requires WorkerEnabled(s, i)
    ensures Rest(WorkerStep(s, i)) == Rest(s)
  {
    WorkerLeavesTraversal(s, i);
    SameTraversalSameRest(s, WorkerStep(s, i));
  }

  /** ... and no step of `main`. */
  lemma MainKeepsRest(c: Config, s: State)
    requires MainEnabled(c, s)
    ensures Rest(MainStep(c, s)) == Rest(s)
  {
    MainLeavesTraversal(c, s);
    SameTraversalSameRest(s, MainStep(c, s));
  }
}
