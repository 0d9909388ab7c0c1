/**
 Several processes write bytes to one file at the same time. Each opens the file once, either for
 appending or not; one that does not append moves to the end of the file before every byte.
 */
module AppendRace {

  /** How a process was started: the number of bytes asked for, and whether `x` was given. */
  datatype Job = Job(count: int, seeks: bool) {
    /** A negative count writes nothing. */
    function Bytes(): nat {
      if count < 0 then 0 else count
    }
  }

  /** Where a process stands in its loop; a failing call ends it. */
  datatype Status = AtTop | Sought(offset: nat) | Failed

  datatype Writer = Writer(written: nat, status: Status)

  datatype State = State(file: seq<char>, writers: seq<Writer>)

  function Repeat(n: nat): seq<char> {
    seq(n, _ => 'a')
  }

  /** One byte written at an offset; beyond the end of the file it would leave a gap. */
  function WriteAt(file: seq<char>, offset: nat): seq<char> {
    if offset < |file| then file[offset := 'a'] else file + seq(offset - |file|, _ => '\0') + ['a']
  }

  // ---------------------------------------------------------------------------------------
  // One process on its own.

  class OpenFile {
    var contents: seq<char>

    /** `write_bytes_to_file`; the call numbered `failing` is the first to fail, if it is reached. */
    method WriteBytes(job: Job, failing: nat) returns (code: int)
      modifies this
      ensures var n := if failing < job.Bytes() then failing else job.Bytes();
              contents == old(contents) + Repeat(n)
      ensures code == if failing < job.Bytes() then 1 else 0
    {
      var i := 0;
      while i < job.count
        invariant 0 <= i <= job.Bytes() && i <= failing
        invariant contents == old(contents) + Repeat(i)
      {
        if i == failing {
          return 1;
        }
        var offset := |contents|;
        contents := WriteAt(contents, offset);
        i := i + 1;
      }
      code := 0;
    }
  }

  // ---------------------------------------------------------------------------------------
  // Many processes, interleaved call by call.

  datatype Action = Call(process: nat) | Fail(process: nat)

  predicate Enabled(jobs: seq<Job>, s: State, a: Action) {
    var p := a.process;
    && p < |jobs| && p < |s.writers|
    && !s.writers[p].status.Failed? && s.writers[p].written < jobs[p].Bytes()
  }

  /** An append, a seek to the end, or a write where the last seek led. */
  function Next(jobs: seq<Job>, s: State, a: Action): State
    requires Enabled(jobs, s, a)
  {
    var p, w := a.process, s.writers[a.process];
    if a.Fail? then
      s.(writers := s.writers[p := w.(status := Failed)])
    else if !jobs[p].seeks then
      State(WriteAt(s.file, |s.file|), s.writers[p := Writer(w.written + 1, AtTop)])
    else if w.status.AtTop? then
      s.(writers := s.writers[p := w.(status := Sought(|s.file|))])
    else
      State(WriteAt(s.file, w.status.offset), s.writers[p := Writer(w.written + 1, AtTop)])
  }

  function Start(file: seq<char>, jobs: seq<Job>): State {
    State(file, seq(|jobs|, _ => Writer(0, AtTop)))
  }

  predicate Possible(file: seq<char>, jobs: seq<Job>, actions: seq<Action>)
    decreases |actions|, 0
  {
    actions == [] ||
    (var before := actions[..|actions| - 1];
     Possible(file, jobs, before) && Enabled(jobs, After(file, jobs, before), actions[|actions| - 1]))
  }

  function After(file: seq<char>, jobs: seq<Job>, actions: seq<Action>): State
    requires Possible(file, jobs, actions)
    decreases |actions|, 1
  {
    if actions == [] then Start(file, jobs)
    else Next(jobs, After(file, jobs, actions[..|actions| - 1]), actions[|actions| - 1])
  }

  // ---------------------------------------------------------------------------------------
  // What every reachable state keeps.

  /** Bytes written so far, by everyone or by the appending processes only. */
  function Written(jobs: seq<Job>, writers: seq<Writer>, appendersOnly: bool): nat
    requires |jobs| == |writers|
    decreases |jobs|
  {
    if jobs == [] then 0
    else (if appendersOnly && jobs[0].seeks then 0 else writers[0].written)
         + Written(jobs[1..], writers[1..], appendersOnly)
  }

  lemma {:induction false} WrittenOneMore(jobs: seq<Job>, writers: seq<Writer>, p: nat, w: Writer, appendersOnly: bool)
    requires |jobs| == |writers| && p < |jobs|
    ensures Written(jobs, writers[p := w], appendersOnly) ==
            Written(jobs, writers, appendersOnly)
            + if appendersOnly && jobs[p].seeks then 0 else w.written - writers[p].written
    decreases p
  {
    if p == 0 {
      assert writers[p := w][1..] == writers[1..];
    } else {
      assert writers[p := w][1..] == writers[1..][p - 1 := w];
      WrittenOneMore(jobs[1..], writers[1..], p - 1, w, appendersOnly);
    }
  }

  lemma {:induction false} NothingWritten(jobs: seq<Job>, appendersOnly: bool)
    ensures Written(jobs, seq(|jobs|, _ => Writer(0, AtTop)), appendersOnly) == 0
  {
    if jobs != [] {
      NothingWritten(jobs[1..], appendersOnly);
      assert seq(|jobs|, _ => Writer(0, AtTop))[1..] == seq(|jobs[1..]|, _ => Writer(0, AtTop));
    }
  }

  predicate WriterFits(file: seq<char>, job: Job, s: State, w: Writer) {
    && w.written <= job.Bytes()
    && |file| + w.written <= |s.file|
    && (w.status.Sought? ==> |file| + w.written <= w.status.offset <= |s.file|)
  }

  predicate Extends(file: seq<char>, now: seq<char>) {
    |file| <= |now| && now == file + Repeat(|now| - |file|)
  }

  predicate Inv(file: seq<char>, jobs: seq<Job>, s: State) {
    && |s.writers| == |jobs|
    && Extends(file, s.file)
    && (forall p | 0 <= p < |jobs| :: WriterFits(file, jobs[p], s, s.writers[p]))
    && |file| + Written(jobs, s.writers, true) <= |s.file| <= |file| + Written(jobs, s.writers, false)
  }

  /** Writing at or before the end, but behind the original contents, adds at most one byte. */
  lemma WriteExtends(file: seq<char>, now: seq<char>, offset: nat)
    requires Extends(file, now) && |file| <= offset <= |now|
    ensures Extends(file, WriteAt(now, offset))
    ensures |WriteAt(now, offset)| == if offset == |now| then |now| + 1 else |now|
  {
    if offset < |now| {
      assert WriteAt(now, offset) == now;
    }
  }

  lemma StepKeepsInv(file: seq<char>, jobs: seq<Job>, s: State, a: Action)
    requires Inv(file, jobs, s) && Enabled(jobs, s, a)
    ensures Inv(file, jobs, Next(jobs, s, a))
  {
    var p, s' := a.process, Next(jobs, s, a);
    var w := s.writers[p];
    assert WriterFits(file, jobs[p], s, w);
    WrittenOneMore(jobs, s.writers, p, s'.writers[p], true);
    WrittenOneMore(jobs, s.writers, p, s'.writers[p], false);
    if a.Call? && (!jobs[p].seeks || w.status.Sought?) {
      WriteExtends(file, s.file, if jobs[p].seeks then w.status.offset else |s.file|);
    }
    forall q | 0 <= q < |jobs|
      ensures WriterFits(file, jobs[q], s', s'.writers[q])
    {
      assert WriterFits(file, jobs[q], s, s.writers[q]);
    }
  }

  lemma {:induction false} RunKeepsInv(file: seq<char>, jobs: seq<Job>, actions: seq<Action>)
    requires Possible(file, jobs, actions)
    ensures Inv(file, jobs, After(file, jobs, actions))
    decreases |actions|
  {
    if actions == [] {
      NothingWritten(jobs, true);
      NothingWritten(jobs, false);
      assert file == file + Repeat(0);
    } else {
      var before := actions[..|actions| - 1];
      RunKeepsInv(file, jobs, before);
      StepKeepsInv(file, jobs, After(file, jobs, before), actions[|actions| - 1]);
    }
  }

  // ---------------------------------------------------------------------------------------
  // The file's size at the end.

  function Asked(jobs: seq<Job>, appendersOnly: bool): nat {
    if jobs == [] then 0
    else (if appendersOnly && jobs[0].seeks then 0 else jobs[0].Bytes()) + Asked(jobs[1..], appendersOnly)
  }

  /** Every process has written all its bytes. */
  predicate AllDone(jobs: seq<Job>, s: State) {
    |s.writers| == |jobs| && forall p | 0 <= p < |jobs| :: s.writers[p].written == jobs[p].Bytes()
  }

  lemma {:induction false} WrittenAsAsked(jobs: seq<Job>, writers: seq<Writer>, appendersOnly: bool)
    requires |jobs| == |writers|
    requires forall p | 0 <= p < |jobs| :: writers[p].written == jobs[p].Bytes()
    ensures Written(jobs, writers, appendersOnly) == Asked(jobs, appendersOnly)
  {
    if jobs != [] {
      WrittenAsAsked(jobs[1..], writers[1..], appendersOnly);
    }
  }

  lemma {:induction false} OnlyAppenders(jobs: seq<Job>, writers: seq<Writer>)
    requires |jobs| == |writers| && forall job <- jobs :: !job.seeks
    ensures Written(jobs, writers, true) == Written(jobs, writers, false)
  {
    if jobs != [] {
      OnlyAppenders(jobs[1..], writers[1..]);
    }
  }

  /** Appending loses nothing: at any moment the file is the original followed by exactly the bytes
      written so far, so at the end it has grown by all the counts together, whatever the order. */
  lemma AppendsAddUp(file: seq<char>, jobs: seq<Job>, actions: seq<Action>)
    requires Possible(file, jobs, actions) && forall job <- jobs :: !job.seeks
    ensures var s := After(file, jobs, actions);
            && |s.writers| == |jobs|
            && s.file == file + Repeat(Written(jobs, s.writers, false))
            && (AllDone(jobs, s) ==> s.file == file + Repeat(Asked(jobs, false)))
  {
    RunKeepsInv(file, jobs, actions);
    var s := After(file, jobs, actions);
    OnlyAppenders(jobs, s.writers);
    if AllDone(jobs, s) {
      WrittenAsAsked(jobs, s.writers, false);
    }
  }

  /** The largest count of a process that seeks. */
  function Largest(jobs: seq<Job>): (n: nat)
    ensures forall job <- jobs :: job.seeks ==> job.Bytes() <= n
    ensures n > 0 ==> exists p | 0 <= p < |jobs| :: jobs[p].seeks && jobs[p].Bytes() == n
  {
    if jobs == [] then 0
    else
      var rest := Largest(jobs[1..]);
      if jobs[0].seeks && jobs[0].Bytes() > rest then jobs[0].Bytes() else rest
  }

  function Min(a: nat, b: nat): nat {
    if a < b then a else b
  }

  function Max(a: nat, b: nat): nat {
    if a < b then b else a
  }

  /** Any mixture of processes: the original contents stay and only bytes `a` follow, at least as many
      as were appended and as any seeking process wrote, and at most all together. */
  lemma MixedBounds(file: seq<char>, jobs: seq<Job>, actions: seq<Action>)
    requires Possible(file, jobs, actions) && AllDone(jobs, After(file, jobs, actions))
    ensures var size := |After(file, jobs, actions).file|;
            && Extends(file, After(file, jobs, actions).file)
            && |file| + Max(Asked(jobs, true), Largest(jobs)) <= size <= |file| + Asked(jobs, false)
  {
    RunKeepsInv(file, jobs, actions);
    var s := After(file, jobs, actions);
    WrittenAsAsked(jobs, s.writers, true);
    WrittenAsAsked(jobs, s.writers, false);
    if Largest(jobs) > 0 {
      var p :| 0 <= p < |jobs| && jobs[p].seeks && jobs[p].Bytes() == Largest(jobs);
      assert WriterFits(file, jobs[p], s, s.writers[p]);
    }
  }

  // ---------------------------------------------------------------------------------------
  // Both bounds are reached.

  ghost predicate Reaches(file: seq<char>, jobs: seq<Job>, s: State) {
    exists actions :: Possible(file, jobs, actions) && After(file, jobs, actions) == s
  }

  lemma ReachesStart(file: seq<char>, jobs: seq<Job>)
    ensures Reaches(file, jobs, Start(file, jobs))
  {
    assert Possible(file, jobs, []);
    assert After(file, jobs, []) == Start(file, jobs);
  }

  lemma ReachesNext(file: seq<char>, jobs: seq<Job>, s: State, p: nat)
    requires Reaches(file, jobs, s) && Enabled(jobs, s, Call(p))
    ensures Reaches(file, jobs, Next(jobs, s, Call(p)))
  {
    var actions :| Possible(file, jobs, actions) && After(file, jobs, actions) == s;
    var more := actions + [Call(p)];
    assert more[..|more| - 1] == actions;
    assert Possible(file, jobs, more) && After(file, jobs, more) == Next(jobs, s, Call(p));
  }

  /** How many of `m` appended bytes are the p-th process's, if they come from the appending processes
      one after the other. */
  function Share(jobs: seq<Job>, m: nat, p: nat): nat
    requires p < |jobs|
  {
    var first := if jobs[0].seeks then 0 else Min(m, jobs[0].Bytes());
    if p == 0 then first else Share(jobs[1..], m - first, p - 1)
  }

  lemma {:induction false} ShareOfNothing(jobs: seq<Job>, p: nat)
    requires p < |jobs|
    ensures Share(jobs, 0, p) == 0
  {
    if p > 0 {
      ShareOfNothing(jobs[1..], p - 1);
    }
  }

  lemma {:induction false} ShareOfAll(jobs: seq<Job>, p: nat)
    requires p < |jobs| && !jobs[p].seeks
    ensures Share(jobs, Asked(jobs, true), p) == jobs[p].Bytes()
  {
    if p > 0 {
      ShareOfAll(jobs[1..], p - 1);
    }
  }

  /** The process whose turn it is to append the next byte. */
  function Turn(jobs: seq<Job>, m: nat): (p: nat)
    requires m < Asked(jobs, true)
    ensures p < |jobs| && !jobs[p].seeks
  {
    if jobs[0].seeks then Turn(jobs[1..], m) + 1
    else if m < jobs[0].Bytes() then 0
    else Turn(jobs[1..], m - jobs[0].Bytes()) + 1
  }

  /** It has a byte left, and the next byte changes its share only. */
  lemma {:induction false} ShareOfOneMore(jobs: seq<Job>, m: nat, q: nat)
    requires m < Asked(jobs, true) && q < |jobs|
    ensures Share(jobs, m + 1, q) == Share(jobs, m, q) + if q == Turn(jobs, m) then 1 else 0
    ensures q == Turn(jobs, m) ==> Share(jobs, m, q) < jobs[q].Bytes()
  {
    if !jobs[0].seeks && m < jobs[0].Bytes() {
      if q > 0 {
        ShareOfNothing(jobs[1..], q - 1);
      }
    } else if q > 0 {
      ShareOfOneMore(jobs[1..], m - (if jobs[0].seeks then 0 else jobs[0].Bytes()), q - 1);
    }
  }

  /** In round `r`, the first `q` seeking processes with bytes left have moved to the end; `m` bytes
      have been appended. */
  function Seeking(jobs: seq<Job>, size: nat, r: nat, q: nat, m: nat): seq<Writer> {
    seq(|jobs|, p requires 0 <= p < |jobs| =>
      if !jobs[p].seeks then Writer(Share(jobs, m, p), AtTop)
      else if p < q && r < jobs[p].Bytes() then Writer(r, Sought(size))
      else Writer(Min(r, jobs[p].Bytes()), AtTop))
  }

  /** In round `r`, everyone has moved and the first `q` seeking processes have written. */
  function Writing(jobs: seq<Job>, size: nat, r: nat, q: nat, m: nat): seq<Writer> {
    seq(|jobs|, p requires 0 <= p < |jobs| =>
      if !jobs[p].seeks then Writer(Share(jobs, m, p), AtTop)
      else if p < q || jobs[p].Bytes() <= r then Writer(Min(r + 1, jobs[p].Bytes()), AtTop)
      else Writer(r, Sought(size)))
  }

  predicate Active(job: Job, r: nat) {
    job.seeks && r < job.Bytes()
  }

  lemma OneSeek(jobs: seq<Job>, now: seq<char>, r: nat, q: nat, m: nat)
    requires q < |jobs| && Active(jobs[q], r)
    ensures var s := State(now, Seeking(jobs, |now|, r, q, m));
            && Enabled(jobs, s, Call(q))
            && Next(jobs, s, Call(q)) == State(now, Seeking(jobs, |now|, r, q + 1, m))
  {
    var s := State(now, Seeking(jobs, |now|, r, q, m));
    assert Next(jobs, s, Call(q)).writers == Seeking(jobs, |now|, r, q + 1, m);
  }

  lemma {:induction false} AllSeek(file: seq<char>, jobs: seq<Job>, now: seq<char>, r: nat, q: nat, m: nat)
    requires q <= |jobs| && Reaches(file, jobs, State(now, Seeking(jobs, |now|, r, 0, m)))
    ensures Reaches(file, jobs, State(now, Seeking(jobs, |now|, r, q, m)))
  {
    if q > 0 {
      AllSeek(file, jobs, now, r, q - 1, m);
      if Active(jobs[q - 1], r) {
        OneSeek(jobs, now, r, q - 1, m);
        ReachesNext(file, jobs, State(now, Seeking(jobs, |now|, r, q - 1, m)), q - 1);
      } else {
        assert Seeking(jobs, |now|, r, q - 1, m) == Seeking(jobs, |now|, r, q, m);
      }
    }
  }

  lemma OneWrite(jobs: seq<Job>, now: seq<char>, s: State, r: nat, q: nat, m: nat)
    requires q < |jobs| && Active(jobs[q], r)
    requires s.writers == Writing(jobs, |now|, r, q, m) && (s.file == now || s.file == now + ['a'])
    ensures Enabled(jobs, s, Call(q))
    ensures Next(jobs, s, Call(q)) == State(now + ['a'], Writing(jobs, |now|, r, q + 1, m))
  {
    assert Next(jobs, s, Call(q)).writers == Writing(jobs, |now|, r, q + 1, m);
    assert WriteAt(s.file, |now|) == now + ['a'];
  }

  predicate AnyActive(jobs: seq<Job>, r: nat, q: nat)
    requires q <= |jobs|
  {
    exists p | 0 <= p < q :: Active(jobs[p], r)
  }

  function WithOne(now: seq<char>, more: bool): seq<char> {
    if more then now + ['a'] else now
  }

  /** All write to the same place; after the first byte there, the others only overwrite it. */
  lemma {:induction false} AllWrite(file: seq<char>, jobs: seq<Job>, now: seq<char>, more: bool, r: nat, q: nat, m: nat)
    requires q <= |jobs| && Reaches(file, jobs, State(WithOne(now, more), Writing(jobs, |now|, r, 0, m)))
    ensures Reaches(file, jobs, State(WithOne(now, more || AnyActive(jobs, r, q)), Writing(jobs, |now|, r, q, m)))
  {
    if q > 0 {
      AllWrite(file, jobs, now, more, r, q - 1, m);
      var wrote := AnyActive(jobs, r, q - 1);
      var s := State(WithOne(now, more || wrote), Writing(jobs, |now|, r, q - 1, m));
      if Active(jobs[q - 1], r) {
        OneWrite(jobs, now, s, r, q - 1, m);
        ReachesNext(file, jobs, s, q - 1);
        assert AnyActive(jobs, r, q);
      } else {
        NotActive(jobs, |now|, r, q, m);
      }
    }
  }

  lemma NotActive(jobs: seq<Job>, size: nat, r: nat, q: nat, m: nat)
    requires 0 < q <= |jobs| && !Active(jobs[q - 1], r)
    ensures AnyActive(jobs, r, q) == AnyActive(jobs, r, q - 1)
    ensures Writing(jobs, size, r, q, m) == Writing(jobs, size, r, q - 1, m)
  {
  }

  /** One byte is appended, where the seeking processes are about to write. */
  lemma OneAppend(file: seq<char>, jobs: seq<Job>, now: seq<char>, r: nat, m: nat)
    requires Reaches(file, jobs, State(now, Writing(jobs, |now|, r, 0, m))) && m < Asked(jobs, true)
    ensures Reaches(file, jobs, State(now + ['a'], Writing(jobs, |now|, r, 0, m + 1)))
  {
    var p := Turn(jobs, m);
    forall q | 0 <= q < |jobs|
      ensures Share(jobs, m + 1, q) == Share(jobs, m, q) + if q == p then 1 else 0
    {
      ShareOfOneMore(jobs, m, q);
    }
    ShareOfOneMore(jobs, m, p);
    var s := State(now, Writing(jobs, |now|, r, 0, m));
    ReachesNext(file, jobs, s, p);
    assert Next(jobs, s, Call(p)).writers == Writing(jobs, |now|, r, 0, m + 1);
    assert WriteAt(now, |now|) == now + ['a'];
  }

  /** A round: all move, one byte is appended, all write. The file grows by one. */
  lemma Round(file: seq<char>, jobs: seq<Job>, now: seq<char>, r: nat)
    requires r < Max(Asked(jobs, true), Largest(jobs))
    requires Reaches(file, jobs, State(now, Seeking(jobs, |now|, r, 0, Min(r, Asked(jobs, true)))))
    ensures Reaches(file, jobs, State(now + ['a'], Seeking(jobs, |now| + 1, r + 1, 0, Min(r + 1, Asked(jobs, true)))))
  {
    var k, m, m' := |jobs|, Min(r, Asked(jobs, true)), Min(r + 1, Asked(jobs, true));
    AllSeek(file, jobs, now, r, k, m);
    AllMoved(jobs, |now|, r, m);
    if m < m' {
      OneAppend(file, jobs, now, r, m);
    }
    AllWrite(file, jobs, now, m < m', r, k, m');
    if r < Largest(jobs) {
      SomeActive(jobs, r);
    }
    AllWritten(jobs, |now|, r, m');
  }

  lemma AllMoved(jobs: seq<Job>, size: nat, r: nat, m: nat)
    ensures Seeking(jobs, size, r, |jobs|, m) == Writing(jobs, size, r, 0, m)
  {
  }

  lemma AllWritten(jobs: seq<Job>, size: nat, r: nat, m: nat)
    ensures Writing(jobs, size, r, |jobs|, m) == Seeking(jobs, size + 1, r + 1, 0, m)
  {
  }

  lemma SomeActive(jobs: seq<Job>, r: nat)
    requires r < Largest(jobs)
    ensures AnyActive(jobs, r, |jobs|)
  {
    var p :| 0 <= p < |jobs| && jobs[p].seeks && jobs[p].Bytes() == Largest(jobs);
    assert Active(jobs[p], r);
  }

  /** Moving in lock step, all processes together add one byte a round. */
  lemma {:induction false} LockStep(file: seq<char>, jobs: seq<Job>, r: nat)
    requires r <= Max(Asked(jobs, true), Largest(jobs))
    ensures Reaches(file, jobs, State(file + Repeat(r), Seeking(jobs, |file| + r, r, 0, Min(r, Asked(jobs, true)))))
  {
    if r == 0 {
      ReachesStart(file, jobs);
      assert file + Repeat(0) == file;
      NothingYet(jobs, |file|);
    } else {
      LockStep(file, jobs, r - 1);
      Round(file, jobs, file + Repeat(r - 1), r - 1);
      RepeatMore(file, r);
    }
  }

  lemma RepeatMore(file: seq<char>, r: nat)
    requires r > 0
    ensures file + Repeat(r - 1) + ['a'] == file + Repeat(r)
  {
  }

  lemma NothingYet(jobs: seq<Job>, size: nat)
    ensures Seeking(jobs, size, 0, 0, 0) == seq(|jobs|, _ => Writer(0, AtTop))
  {
    forall p | 0 <= p < |jobs| ensures Share(jobs, 0, p) == 0 {
      ShareOfNothing(jobs, p);
    }
  }

  /** The lower bound is exact for every mixture: processes moving in lock step lose every byte but the
      appended ones or the largest seeking count, whichever are more. */
  lemma BytesCanBeLost(file: seq<char>, jobs: seq<Job>)
    ensures exists s :: Reaches(file, jobs, s) && AllDone(jobs, s)
                        && s.file == file + Repeat(Max(Asked(jobs, true), Largest(jobs)))
  {
    var a, n := Asked(jobs, true), Max(Asked(jobs, true), Largest(jobs));
    LockStep(file, jobs, n);
    var s := State(file + Repeat(n), Seeking(jobs, |file| + n, n, 0, Min(n, a)));
    forall p | 0 <= p < |jobs|
      ensures s.writers[p].written == jobs[p].Bytes()
    {
      assert jobs[p] in jobs;
      if !jobs[p].seeks {
        ShareOfAll(jobs, p);
      }
    }
    assert AllDone(jobs, s);
  }

  /** The first `q` processes are done, the next has written `i` bytes. */
  function OneByOne(jobs: seq<Job>, q: nat, i: nat): seq<Writer> {
    seq(|jobs|, p requires 0 <= p < |jobs| =>
      Writer(if p < q then jobs[p].Bytes() else if p == q then i else 0, AtTop))
  }

  lemma {:induction false} RunAlone(file: seq<char>, jobs: seq<Job>, now: seq<char>, q: nat, i: nat)
    requires q < |jobs| && i <= jobs[q].Bytes()
    requires Reaches(file, jobs, State(now, OneByOne(jobs, q, 0)))
    ensures Reaches(file, jobs, State(now + Repeat(i), OneByOne(jobs, q, i)))
  {
    if i == 0 {
      assert now + Repeat(0) == now;
    } else {
      RunAlone(file, jobs, now, q, i - 1);
      var s := State(now + Repeat(i - 1), OneByOne(jobs, q, i - 1));
      ReachesNext(file, jobs, s, q);
      var s' := Next(jobs, s, Call(q));
      if jobs[q].seeks {
        ReachesNext(file, jobs, s', q);
        s' := Next(jobs, s', Call(q));
      }
      assert s'.file == now + Repeat(i);
      assert s'.writers == OneByOne(jobs, q, i);
    }
  }

  lemma {:induction false} RunInTurn(file: seq<char>, jobs: seq<Job>, q: nat)
    requires q <= |jobs|
    ensures Reaches(file, jobs, State(file + Repeat(Asked(jobs[..q], false)), OneByOne(jobs, q, 0)))
  {
    if q == 0 {
      ReachesStart(file, jobs);
      assert file + Repeat(0) == file;
      assert OneByOne(jobs, 0, 0) == Start(file, jobs).writers;
    } else {
      RunInTurn(file, jobs, q - 1);
      var now := file + Repeat(Asked(jobs[..q - 1], false));
      RunAlone(file, jobs, now, q - 1, jobs[q - 1].Bytes());
      AskedOneMore(jobs[..q]);
      assert jobs[..q][..q - 1] == jobs[..q - 1];
      assert now + Repeat(jobs[q - 1].Bytes()) == file + Repeat(Asked(jobs[..q], false));
      NextInTurn(jobs, q);
    }
  }

  lemma NextInTurn(jobs: seq<Job>, q: nat)
    requires 0 < q <= |jobs|
    ensures OneByOne(jobs, q - 1, jobs[q - 1].Bytes()) == OneByOne(jobs, q, 0)
  {
  }

  lemma {:induction false} AskedOneMore(jobs: seq<Job>)
    requires jobs != []
    ensures Asked(jobs, false) == Asked(jobs[..|jobs| - 1], false) + jobs[|jobs| - 1].Bytes()
  {
    if |jobs| > 1 {
      AskedOneMore(jobs[1..]);
      assert jobs[1..][..|jobs| - 2] == jobs[..|jobs| - 1][1..];
    }
  }

  /** The upper bound is exact: run one after the other, no process loses anything. */
  lemma NothingNeedBeLost(file: seq<char>, jobs: seq<Job>)
    ensures exists s :: Reaches(file, jobs, s) && AllDone(jobs, s) && s.file == file + Repeat(Asked(jobs, false))
  {
    RunInTurn(file, jobs, |jobs|);
    assert jobs[..|jobs|] == jobs;
    assert AllDone(jobs, State(file + Repeat(Asked(jobs, false)), OneByOne(jobs, |jobs|, 0)));
  }

  // ---------------------------------------------------------------------------------------
  // Exactly when nothing can be lost.

  /** However the processes interleave, the file ends with all their bytes. */
  ghost predicate SureToKeepAll(file: seq<char>, jobs: seq<Job>) {
    forall actions :: Possible(file, jobs, actions) && AllDone(jobs, After(file, jobs, actions)) ==>
      |After(file, jobs, actions).file| == |file| + Asked(jobs, false)
  }

  /** No process that writes anything seeks, or only one process writes anything. */
  predicate Harmless(jobs: seq<Job>) {
    || (forall job <- jobs :: job.seeks ==> job.Bytes() == 0)
    || (exists p | 0 <= p < |jobs| :: OnlyWriter(jobs, p))
  }

  /** The bounds on the file's size meet exactly then. */
  lemma SureIffBoundsMeet(file: seq<char>, jobs: seq<Job>)
    ensures SureToKeepAll(file, jobs) <==> Max(Asked(jobs, true), Largest(jobs)) == Asked(jobs, false)
  {
    var low := Max(Asked(jobs, true), Largest(jobs));
    if SureToKeepAll(file, jobs) {
      BytesCanBeLost(file, jobs);
      var s :| Reaches(file, jobs, s) && AllDone(jobs, s) && s.file == file + Repeat(low);
      var actions :| Possible(file, jobs, actions) && After(file, jobs, actions) == s;
    }
    if low == Asked(jobs, false) {
      forall actions | Possible(file, jobs, actions) && AllDone(jobs, After(file, jobs, actions))
        ensures |After(file, jobs, actions).file| == |file| + Asked(jobs, false)
      {
        MixedBounds(file, jobs, actions);
      }
    }
  }

  /** All bytes are appended ones exactly if no process that writes anything seeks. */
  lemma {:induction false} AllAppended(jobs: seq<Job>)
    ensures Asked(jobs, true) <= Asked(jobs, false)
    ensures Asked(jobs, true) == Asked(jobs, false) <==> forall job <- jobs :: job.seeks ==> job.Bytes() == 0
  {
    if jobs != [] {
      AllAppended(jobs[1..]);
      assert forall job <- jobs :: job == jobs[0] || job in jobs[1..];
    }
  }

  lemma {:induction false} NothingAsked(jobs: seq<Job>)
    ensures Asked(jobs, false) == 0 <==> forall q | 0 <= q < |jobs| :: jobs[q].Bytes() == 0
  {
    if jobs != [] {
      NothingAsked(jobs[1..]);
      assert forall q | 0 < q < |jobs| :: jobs[q] == jobs[1..][q - 1];
    }
  }

  /** Only process `p` writes anything. */
  predicate OnlyWriter(jobs: seq<Job>, p: nat)
    requires p < |jobs|
  {
    forall q | 0 <= q < |jobs| && q != p :: jobs[q].Bytes() == 0
  }

  /** One process writes all bytes exactly if the others write none. */
  lemma {:induction false} AllByOne(jobs: seq<Job>, p: nat)
    requires p < |jobs|
    ensures jobs[p].Bytes() <= Asked(jobs, false)
    ensures jobs[p].Bytes() == Asked(jobs, false) <==> OnlyWriter(jobs, p)
  {
    var rest := jobs[1..];
    if p == 0 {
      NothingAsked(rest);
      assert forall q | 0 < q < |jobs| :: jobs[q] == rest[q - 1];
      assert forall q | 0 <= q < |rest| :: rest[q] == jobs[q + 1];
    } else {
      AllByOne(rest, p - 1);
      assert forall q | 0 < q < |jobs| :: jobs[q] == rest[q - 1];
      assert forall q | 0 <= q < |rest| :: rest[q] == jobs[q + 1];
    }
  }

  lemma LargestFits(jobs: seq<Job>)
    ensures Largest(jobs) <= Asked(jobs, false)
  {
    if Largest(jobs) > 0 {
      var p :| 0 <= p < |jobs| && jobs[p].seeks && jobs[p].Bytes() == Largest(jobs);
      AllByOne(jobs, p);
    }
  }

  /** If only one process writes anything, the bounds meet. */
  lemma OneWriterMeets(jobs: seq<Job>, p: nat)
    requires p < |jobs| && OnlyWriter(jobs, p)
    ensures if jobs[p].seeks then Largest(jobs) == Asked(jobs, false) else Asked(jobs, true) == Asked(jobs, false)
  {
    AllByOne(jobs, p);
    LargestFits(jobs);
    AllAppended(jobs);
    assert jobs[p] in jobs;
  }

  /** If a seeking process wrote as much as all together, only one process writes anything. */
  lemma LargestMeets(jobs: seq<Job>)
    requires Largest(jobs) == Asked(jobs, false)
    ensures Harmless(jobs)
  {
    if Largest(jobs) > 0 {
      var p :| 0 <= p < |jobs| && jobs[p].seeks && jobs[p].Bytes() == Largest(jobs);
      AllByOne(jobs, p);
    } else {
      AllAppended(jobs);
    }
  }

  lemma BoundsMeetIffHarmless(jobs: seq<Job>)
    ensures Max(Asked(jobs, true), Largest(jobs)) == Asked(jobs, false) <==> Harmless(jobs)
  {
    AllAppended(jobs);
    LargestFits(jobs);
    if Largest(jobs) == Asked(jobs, false) {
      LargestMeets(jobs);
    }
    if p :| 0 <= p < |jobs| && OnlyWriter(jobs, p) {
      OneWriterMeets(jobs, p);
    }
  }

  /** Bytes are safe, whatever the interleaving, exactly if no process that writes anything seeks or
      only one process writes anything. */
  lemma KeepsAllIffHarmless(file: seq<char>, jobs: seq<Job>)
    ensures SureToKeepAll(file, jobs) <==> Harmless(jobs)
  {
    SureIffBoundsMeet(file, jobs);
    BoundsMeetIffHarmless(jobs);
  }
}
