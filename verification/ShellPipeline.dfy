/**
 The shell's pipelines: n commands joined by n - 1 pipes.

 The shell creates the pipes, forks one child per command and then closes its own ends. Every
 child inherits a copy of the shell's descriptors, closes the ends it does not need and moves the
 two it needs to standard input and output. Shell and children run interleaved in any order.
 */
module ShellPipeline {

  const STDIN := 0
  const STDOUT := 1

  /** What a descriptor refers to: something the shell had open already, or an end of a pipe. */
  datatype File = Kept(id: nat) | ReadEnd(pipe: nat) | WriteEnd(pipe: nat)

  type Table = map<nat, File>

  datatype Pipe = Pipe(input: nat, output: nat)

  /** The descriptors open before the pipes are created, and those chosen for the pipes. */
  datatype Shell = Shell(base: Table, pipes: seq<Pipe>) {
    function Commands(): nat {
      |pipes| + 1
    }

    /** New pipes get unused descriptors; standard input and output are in use. */
    ghost predicate Valid() {
      && STDIN in base && STDOUT in base
      && (forall fd <- base :: base[fd].Kept?)
      && (forall j | 0 <= j < |pipes| :: pipes[j].input !in base && pipes[j].output !in base)
      && (forall j, k | 0 <= j < |pipes| && 0 <= k < |pipes| :: pipes[j].input != pipes[k].output)
      && (forall j, k | 0 <= j < k < |pipes| ::
            pipes[j].input != pipes[k].input && pipes[j].output != pipes[k].output)
    }
  }

  // ---------------------------------------------------------------------------------------
  // System calls on one process's descriptors.

  datatype Call = Close(fd: nat) | Dup2(from: nat, to: nat)

  function Perform(t: Table, call: Call): Table {
    match call
    case Close(fd) => t - {fd}
    case Dup2(from, to) => if from in t then t[to := t[from]] else t
  }

  function Execute(t: Table, calls: seq<Call>): Table
    decreases |calls|
  {
    if calls == [] then t else Perform(Execute(t, calls[..|calls| - 1]), calls[|calls| - 1])
  }

  /** The shell's descriptors once its first `n` pipes exist. */
  function WithPipes(c: Shell, n: nat): Table
    requires n <= |c.pipes|
  {
    if n == 0 then c.base
    else WithPipes(c, n - 1)[c.pipes[n - 1].input := ReadEnd(n - 1)][c.pipes[n - 1].output := WriteEnd(n - 1)]
  }

  function Full(c: Shell): Table {
    WithPipes(c, |c.pipes|)
  }

  /** Command `i` keeps the read end of the pipe before it and the write end of the pipe after it. */
  function CloseEnds(c: Shell, i: nat, j: nat): seq<Call>
    requires j < |c.pipes|
  {
    if j == i - 1 then [Close(c.pipes[j].output)]
    else if j == i then [Close(c.pipes[j].input)]
    else [Close(c.pipes[j].input), Close(c.pipes[j].output)]
  }

  function CloseUnused(c: Shell, i: nat, n: nat): seq<Call>
    requires n <= |c.pipes|
  {
    if n == 0 then [] else CloseUnused(c, i, n - 1) + CloseEnds(c, i, n - 1)
  }

  function MoveEnds(c: Shell, i: nat): seq<Call>
    requires i < c.Commands()
  {
    if c.Commands() == 1 then []
    else if i == 0 then [Dup2(c.pipes[0].output, STDOUT), Close(c.pipes[0].output)]
    else if i == c.Commands() - 1 then [Dup2(c.pipes[i - 1].input, STDIN), Close(c.pipes[i - 1].input)]
    else [Dup2(c.pipes[i - 1].input, STDIN), Dup2(c.pipes[i].output, STDOUT),
          Close(c.pipes[i - 1].input), Close(c.pipes[i].output)]
  }

  /** Everything child `i` does before it runs its command. */
  function ChildCalls(c: Shell, i: nat): seq<Call>
    requires i < c.Commands()
  {
    CloseUnused(c, i, |c.pipes|) + MoveEnds(c, i)
  }

  function ParentCalls(c: Shell, n: nat): seq<Call>
    requires n <= |c.pipes|
  {
    if n == 0 then []
    else ParentCalls(c, n - 1) + [Close(c.pipes[n - 1].input), Close(c.pipes[n - 1].output)]
  }

  lemma {:induction false} ExecuteBoth(t: Table, a: seq<Call>, b: seq<Call>)
    ensures Execute(t, a + b) == Execute(Execute(t, a), b)
    decreases |b|
  {
    if b == [] {
      assert a + b == a;
    } else {
      assert (a + b)[..|a + b| - 1] == a + b[..|b| - 1];
      ExecuteBoth(t, a, b[..|b| - 1]);
    }
  }

  lemma ExecuteOne(t: Table, call: Call)
    ensures Execute(t, [call]) == Perform(t, call)
  {
    assert [call][..0] == [];
  }

  lemma ExecuteTwo(t: Table, a: Call, b: Call)
    ensures Execute(t, [a, b]) == Perform(Perform(t, a), b)
  {
    assert [a, b][..1] == [a];
    ExecuteOne(t, a);
  }

  // ---------------------------------------------------------------------------------------
  // The loops of the shell and its children.

  class Process {
    var table: Table

    constructor (table: Table)
      ensures this.table == table
    {
      this.table := table;
    }

    method Close(fd: nat)
      modifies this
      ensures table == Perform(old(table), Call.Close(fd))
    {
      table := table - {fd};
    }

    method Dup2(from: nat, to: nat)
      modifies this
      ensures table == Perform(old(table), Call.Dup2(from, to))
    {
      if from in table {
        table := table[to := table[from]];
      }
    }

    /** The shell creates all pipes first. */
    method CreatePipes(c: Shell)
      requires table == c.base
      modifies this
      ensures table == Full(c)
    {
      for j := 0 to |c.pipes|
        invariant table == WithPipes(c, j)
      {
        table := table[c.pipes[j].input := ReadEnd(j)];
        table := table[c.pipes[j].output := WriteEnd(j)];
      }
    }

    /** The first loop of child `i`. */
    method CloseUnusedEnds(c: Shell, i: nat)
      requires i < c.Commands()
      modifies this
      ensures table == Execute(old(table), CloseUnused(c, i, |c.pipes|))
    {
      ghost var start := table;
      for j := 0 to |c.pipes|
        invariant table == Execute(start, CloseUnused(c, i, j))
      {
        ExecuteBoth(start, CloseUnused(c, i, j), CloseEnds(c, i, j));
        if j == i - 1 {
          ExecuteOne(table, Call.Close(c.pipes[j].output));
          Close(c.pipes[j].output);
        } else if j == i {
          ExecuteOne(table, Call.Close(c.pipes[j].input));
          Close(c.pipes[j].input);
        } else {
          ExecuteTwo(table, Call.Close(c.pipes[j].input), Call.Close(c.pipes[j].output));
          Close(c.pipes[j].input);
          Close(c.pipes[j].output);
        }
      }
    }

    /** The whole wiring of child `i`. */
    method Wire(c: Shell, i: nat)
      requires i < c.Commands()
      modifies this
      ensures table == Execute(old(table), ChildCalls(c, i))
    {
      CloseUnusedEnds(c, i);
      ExecuteBoth(old(table), CloseUnused(c, i, |c.pipes|), MoveEnds(c, i));
      if c.Commands() > 1 {
        if i == 0 {
          ExecuteTwo(table, Call.Dup2(c.pipes[0].output, STDOUT), Call.Close(c.pipes[0].output));
          Dup2(c.pipes[0].output, STDOUT);
          Close(c.pipes[0].output);
        } else if i == c.Commands() - 1 {
          ExecuteTwo(table, Call.Dup2(c.pipes[i - 1].input, STDIN), Call.Close(c.pipes[i - 1].input));
          Dup2(c.pipes[i - 1].input, STDIN);
          Close(c.pipes[i - 1].input);
        } else {
          MiddleCalls(c, i, table);
          Dup2(c.pipes[i - 1].input, STDIN);
          Dup2(c.pipes[i].output, STDOUT);
          Close(c.pipes[i - 1].input);
          Close(c.pipes[i].output);
        }
      }
    }

    /** The shell's own closes, after the last fork. */
    method CloseAll(c: Shell)
      modifies this
      ensures table == Execute(old(table), ParentCalls(c, |c.pipes|))
    {
      ghost var start := table;
      for j := 0 to |c.pipes|
        invariant table == Execute(start, ParentCalls(c, j))
      {
        ExecuteBoth(start, ParentCalls(c, j), [Call.Close(c.pipes[j].input), Call.Close(c.pipes[j].output)]);
        ExecuteTwo(table, Call.Close(c.pipes[j].input), Call.Close(c.pipes[j].output));
        Close(c.pipes[j].input);
        Close(c.pipes[j].output);
      }
    }
  }

  lemma MiddleCalls(c: Shell, i: nat, t: Table)
    requires 0 < i < c.Commands() - 1
    ensures var input, output := c.pipes[i - 1].input, c.pipes[i].output;
            Execute(t, MoveEnds(c, i)) ==
            Perform(Perform(Perform(Perform(t, Dup2(input, STDIN)), Dup2(output, STDOUT)), Close(input)), Close(output))
  {
    var m := MoveEnds(c, i);
    assert m == m[..2] + m[2..] && m[..2] == [m[0], m[1]] && m[2..] == [m[2], m[3]];
    ExecuteBoth(t, m[..2], m[2..]);
    ExecuteTwo(t, m[0], m[1]);
    ExecuteTwo(Execute(t, m[..2]), m[2], m[3]);
  }

  // ---------------------------------------------------------------------------------------
  // Shell and children, interleaved.

  datatype Child = Unborn | Running(table: Table, done: nat) | Exited

  datatype State = State(parent: Table, forked: nat, closed: nat, children: seq<Child>)

  datatype Action = Fork | ParentClose | ChildCall(child: nat) | Exit(child: nat)

  /** A child can end at any time, its wiring done or not. */
  ghost predicate Enabled(c: Shell, s: State, a: Action) {
    match a
    case Fork => s.forked < c.Commands() && |s.children| == c.Commands()
    case ParentClose => s.forked == c.Commands() && s.closed < |ParentCalls(c, |c.pipes|)|
    case ChildCall(i) =>
      i < c.Commands() && i < |s.children| && s.children[i].Running? && s.children[i].done < |ChildCalls(c, i)|
    case Exit(i) =>
      i < |s.children| && s.children[i].Running?
  }

  ghost function Next(c: Shell, s: State, a: Action): State
    requires Enabled(c, s, a)
  {
    match a
    case Fork =>
      s.(forked := s.forked + 1, children := s.children[s.forked := Running(s.parent, 0)])
    case ParentClose =>
      s.(parent := Perform(s.parent, ParentCalls(c, |c.pipes|)[s.closed]), closed := s.closed + 1)
    case ChildCall(i) =>
      var p := s.children[i];
      s.(children := s.children[i := Running(Perform(p.table, ChildCalls(c, i)[p.done]), p.done + 1)])
    case Exit(i) =>
      s.(children := s.children[i := Exited])
  }

  ghost function Start(c: Shell): State {
    State(Full(c), 0, 0, seq(c.Commands(), _ => Unborn))
  }

  /** The actions can happen in this order. */
  ghost predicate Possible(c: Shell, actions: seq<Action>)
    decreases |actions|, 0
  {
    actions == [] ||
    (var before := actions[..|actions| - 1];
     Possible(c, before) && Enabled(c, After(c, before), actions[|actions| - 1]))
  }

  ghost function After(c: Shell, actions: seq<Action>): State
    requires Possible(c, actions)
    decreases |actions|, 1
  {
    if actions == [] then Start(c)
    else Next(c, After(c, actions[..|actions| - 1]), actions[|actions| - 1])
  }

  ghost predicate ChildAsExpected(c: Shell, i: nat, child: Child)
    requires i < c.Commands()
  {
    child.Running? ==>
      child.done <= |ChildCalls(c, i)| && child.table == Execute(Full(c), ChildCalls(c, i)[..child.done])
  }

  /** Every process holds what its own calls so far leave of the shell's descriptors. */
  ghost predicate Inv(c: Shell, s: State) {
    && |s.children| == c.Commands() && s.forked <= c.Commands()
    && s.closed <= |ParentCalls(c, |c.pipes|)| && (s.closed > 0 ==> s.forked == c.Commands())
    && s.parent == Execute(Full(c), ParentCalls(c, |c.pipes|)[..s.closed])
    && (forall i | 0 <= i < c.Commands() ::
          (i < s.forked <==> !s.children[i].Unborn?) && ChildAsExpected(c, i, s.children[i]))
  }

  lemma StepKeepsInv(c: Shell, s: State, a: Action)
    requires Inv(c, s) && Enabled(c, s, a)
    ensures Inv(c, Next(c, s, a))
  {
    match a
    case Fork =>
      assert ChildCalls(c, s.forked)[..0] == [];
    case ParentClose =>
      ExecuteMore(Full(c), ParentCalls(c, |c.pipes|), s.closed);
    case ChildCall(i) =>
      ExecuteMore(Full(c), ChildCalls(c, i), s.children[i].done);
    case Exit(i) =>
  }

  lemma ExecuteMore(t: Table, calls: seq<Call>, k: nat)
    requires k < |calls|
    ensures Execute(t, calls[..k + 1]) == Perform(Execute(t, calls[..k]), calls[k])
  {
    assert calls[..k + 1][..k] == calls[..k];
  }

  lemma {:induction false} RunKeepsInv(c: Shell, actions: seq<Action>)
    requires Possible(c, actions)
    ensures Inv(c, After(c, actions))
    decreases |actions|
  {
    if actions == [] {
      assert ParentCalls(c, |c.pipes|)[..0] == [];
    } else {
      var before := actions[..|actions| - 1];
      RunKeepsInv(c, before);
      StepKeepsInv(c, After(c, before), actions[|actions| - 1]);
    }
  }

  // ---------------------------------------------------------------------------------------
  // What the calls leave.

  ghost function PipeFds(c: Shell, n: nat): set<nat>
    requires n <= |c.pipes|
  {
    if n == 0 then {} else PipeFds(c, n - 1) + {c.pipes[n - 1].input, c.pipes[n - 1].output}
  }

  lemma {:induction false} PipeFdsAre(c: Shell, n: nat)
    requires c.Valid() && n <= |c.pipes|
    ensures forall j | 0 <= j < n :: c.pipes[j].input in PipeFds(c, n) && c.pipes[j].output in PipeFds(c, n)
    ensures forall j | n <= j < |c.pipes| ::
              c.pipes[j].input !in PipeFds(c, n) && c.pipes[j].output !in PipeFds(c, n)
    ensures PipeFds(c, n) !! c.base.Keys
  {
    if n > 0 {
      PipeFdsAre(c, n - 1);
    }
  }

  ghost predicate HasPipes(c: Shell, n: nat, t: Table)
    requires n <= |c.pipes|
  {
    && (forall fd <- c.base :: fd in t && t[fd] == c.base[fd])
    && (forall j | 0 <= j < n :: c.pipes[j].input in t && t[c.pipes[j].input] == ReadEnd(j))
    && (forall j | 0 <= j < n :: c.pipes[j].output in t && t[c.pipes[j].output] == WriteEnd(j))
  }

  lemma {:induction false} FullKeys(c: Shell, n: nat)
    requires n <= |c.pipes|
    ensures WithPipes(c, n).Keys == c.base.Keys + PipeFds(c, n)
  {
    if n > 0 {
      FullKeys(c, n - 1);
    }
  }

  /** Later pipes take other descriptors. */
  lemma {:induction false} PipeStays(c: Shell, n: nat, j: nat)
    requires c.Valid() && j < n <= |c.pipes|
    ensures var t := WithPipes(c, n);
            && c.pipes[j].input in t && t[c.pipes[j].input] == ReadEnd(j)
            && c.pipes[j].output in t && t[c.pipes[j].output] == WriteEnd(j)
  {
    assert c.pipes[n - 1].input != c.pipes[n - 1].output;
    if j < n - 1 {
      PipeStays(c, n - 1, j);
      Apart(c, j, n - 1);
    }
  }

  lemma Apart(c: Shell, j: nat, k: nat)
    requires c.Valid() && j < k < |c.pipes|
    ensures c.pipes[j].input != c.pipes[k].input && c.pipes[j].input != c.pipes[k].output
    ensures c.pipes[j].output != c.pipes[k].input && c.pipes[j].output != c.pipes[k].output
  {
  }

  lemma {:induction false} BaseStays(c: Shell, n: nat, fd: nat)
    requires c.Valid() && n <= |c.pipes| && fd in c.base
    ensures fd in WithPipes(c, n) && WithPipes(c, n)[fd] == c.base[fd]
  {
    if n > 0 {
      BaseStays(c, n - 1, fd);
    }
  }

  lemma FullValues(c: Shell, n: nat)
    requires c.Valid() && n <= |c.pipes|
    ensures HasPipes(c, n, WithPipes(c, n))
  {
    forall fd <- c.base ensures fd in WithPipes(c, n) && WithPipes(c, n)[fd] == c.base[fd] {
      BaseStays(c, n, fd);
    }
    forall j | 0 <= j < n
      ensures c.pipes[j].input in WithPipes(c, n) && WithPipes(c, n)[c.pipes[j].input] == ReadEnd(j)
      ensures c.pipes[j].output in WithPipes(c, n) && WithPipes(c, n)[c.pipes[j].output] == WriteEnd(j)
    {
      PipeStays(c, n, j);
    }
  }

  /** The descriptors a sequence of closes mentions. */
  ghost function Fds(calls: seq<Call>): set<nat> {
    set k | 0 <= k < |calls| && calls[k].Close? :: calls[k].fd
  }

  ghost predicate OnlyCloses(calls: seq<Call>) {
    forall k | 0 <= k < |calls| :: calls[k].Close?
  }

  lemma {:induction false} ClosesRemove(t: Table, calls: seq<Call>)
    requires OnlyCloses(calls)
    ensures Execute(t, calls) == t - Fds(calls)
    decreases |calls|
  {
    if calls != [] {
      var rest := calls[..|calls| - 1];
      ClosesRemove(t, rest);
      assert Fds(calls) == Fds(rest) + {calls[|calls| - 1].fd};
    }
  }

  /** The two ends child `i` is going to use. */
  ghost function Own(c: Shell, i: nat): set<nat>
    requires i < c.Commands()
  {
    (if i > 0 then {c.pipes[i - 1].input} else {}) + (if i < |c.pipes| then {c.pipes[i].output} else {})
  }

  /** Child `i` closes every end but its own two. */
  lemma {:induction false} UnusedEnds(c: Shell, i: nat, n: nat)
    requires c.Valid() && i < c.Commands() && n <= |c.pipes|
    ensures OnlyCloses(CloseUnused(c, i, n))
    ensures Fds(CloseUnused(c, i, n)) == PipeFds(c, n) - Own(c, i)
  {
    if n > 0 {
      UnusedEnds(c, i, n - 1);
      FdsOfBoth(CloseUnused(c, i, n - 1), CloseEnds(c, i, n - 1));
      FdsOfEnds(c, i, n - 1);
    }
  }

  lemma FdsOfBoth(a: seq<Call>, b: seq<Call>)
    ensures Fds(a + b) == Fds(a) + Fds(b)
  {
    forall fd <- Fds(a) + Fds(b)
      ensures fd in Fds(a + b)
    {
      if k :| 0 <= k < |a| && a[k].Close? && a[k].fd == fd {
        assert (a + b)[k] == a[k];
      } else {
        var k :| 0 <= k < |b| && b[k].Close? && b[k].fd == fd;
        assert (a + b)[|a| + k] == b[k];
      }
    }
  }

  lemma FdsOfEnds(c: Shell, i: nat, j: nat)
    requires c.Valid() && i < c.Commands() && j < |c.pipes|
    ensures Fds(CloseEnds(c, i, j)) == {c.pipes[j].input, c.pipes[j].output} - Own(c, i)
  {
    var calls := CloseEnds(c, i, j);
    if j == i - 1 || j == i {
      assert Fds(calls) == {calls[0].fd} by {
        assert calls[0].fd in Fds(calls);
      }
    } else {
      assert Fds(calls) == {calls[0].fd, calls[1].fd} by {
        assert calls[0].fd in Fds(calls) && calls[1].fd in Fds(calls);
      }
    }
  }

  /** The descriptors of the shell and child `i`'s own two ends, all where they were created. */
  ghost predicate HasOwn(c: Shell, i: nat, t: Table)
    requires i < c.Commands()
  {
    && (forall fd <- c.base :: fd in t && t[fd] == c.base[fd])
    && (i < |c.pipes| ==> c.pipes[i].output in t && t[c.pipes[i].output] == WriteEnd(i))
    && (i > 0 ==> c.pipes[i - 1].input in t && t[c.pipes[i - 1].input] == ReadEnd(i - 1))
  }

  /** Child `i` on its way. */
  lemma HalfWired(c: Shell, i: nat, k: nat)
    requires c.Valid() && i < c.Commands() && k <= |CloseUnused(c, i, |c.pipes|)|
    ensures HasOwn(c, i, Execute(Full(c), CloseUnused(c, i, |c.pipes|)[..k]))
  {
    var calls := CloseUnused(c, i, |c.pipes|);
    FullKeys(c, |c.pipes|);
    FullValues(c, |c.pipes|);
    PipeFdsAre(c, |c.pipes|);
    UnusedEnds(c, i, |c.pipes|);
    ClosesRemove(Full(c), calls[..k]);
    assert Fds(calls[..k]) <= Fds(calls);
  }

  /** What remains once all unused ends are closed. */
  ghost function Ends(c: Shell, i: nat): Table
    requires i < c.Commands()
  {
    var t := if i > 0 then c.base[c.pipes[i - 1].input := ReadEnd(i - 1)] else c.base;
    if i < |c.pipes| then t[c.pipes[i].output := WriteEnd(i)] else t
  }

  lemma AllUnusedClosed(c: Shell, i: nat)
    requires c.Valid() && i < c.Commands()
    ensures Execute(Full(c), CloseUnused(c, i, |c.pipes|)) == Ends(c, i)
  {
    var calls := CloseUnused(c, i, |c.pipes|);
    HalfWired(c, i, |calls|);
    assert calls[..|calls|] == calls;
    UnusedKeysClosed(c, i);
    var t := Execute(Full(c), calls);
    assert Ends(c, i).Keys == c.base.Keys + Own(c, i);
    forall fd | fd in t
      ensures t[fd] == Ends(c, i)[fd]
    {
      assert fd in c.base || fd in Own(c, i);
    }
  }

  lemma UnusedKeysClosed(c: Shell, i: nat)
    requires c.Valid() && i < c.Commands()
    ensures Execute(Full(c), CloseUnused(c, i, |c.pipes|)).Keys == c.base.Keys + Own(c, i)
  {
    FullKeys(c, |c.pipes|);
    PipeFdsAre(c, |c.pipes|);
    UnusedEnds(c, i, |c.pipes|);
    ClosesRemove(Full(c), CloseUnused(c, i, |c.pipes|));
  }

  /** The shell's own descriptors with standard input and output moved to the neighbouring pipes. */
  ghost function Wired(c: Shell, i: nat): Table
    requires i < c.Commands()
  {
    var t := if i > 0 then c.base[STDIN := ReadEnd(i - 1)] else c.base;
    if i < |c.pipes| then t[STDOUT := WriteEnd(i)] else t
  }

  /** The calls of child `i` leave it exactly the shell's descriptors, standard input reading from the
      pipe before it and standard output writing to the pipe after it. */
  lemma ChildIsWired(c: Shell, i: nat)
    requires c.Valid() && i < c.Commands()
    ensures Execute(Full(c), ChildCalls(c, i)) == Wired(c, i)
  {
    ExecuteBoth(Full(c), CloseUnused(c, i, |c.pipes|), MoveEnds(c, i));
    AllUnusedClosed(c, i);
    if c.Commands() > 1 {
      MovedEnds(c, i);
    }
  }

  lemma MovedEnds(c: Shell, i: nat)
    requires c.Valid() && i < c.Commands() && c.Commands() > 1
    ensures Execute(Ends(c, i), MoveEnds(c, i)) == Wired(c, i)
  {
    var t := Ends(c, i);
    if i == 0 {
      ExecuteTwo(t, Dup2(c.pipes[0].output, STDOUT), Close(c.pipes[0].output));
      assert Execute(t, MoveEnds(c, i)) == Wired(c, i);
    } else if i == c.Commands() - 1 {
      ExecuteTwo(t, Dup2(c.pipes[i - 1].input, STDIN), Close(c.pipes[i - 1].input));
      assert Execute(t, MoveEnds(c, i)) == Wired(c, i);
    } else {
      MiddleCalls(c, i, t);
      assert Execute(t, MoveEnds(c, i)) == Wired(c, i);
    }
  }

  /** The shell itself keeps no pipe end. */
  lemma ParentIsClean(c: Shell)
    requires c.Valid()
    ensures Execute(Full(c), ParentCalls(c, |c.pipes|)) == c.base
  {
    ParentCloses(c, |c.pipes|);
    ClosesRemove(Full(c), ParentCalls(c, |c.pipes|));
    FullKeys(c, |c.pipes|);
    FullValues(c, |c.pipes|);
    PipeFdsAre(c, |c.pipes|);
    WithoutAdded(Full(c), c.base, PipeFds(c, |c.pipes|));
  }

  lemma WithoutAdded(t: Table, base: Table, added: set<nat>)
    requires t.Keys == base.Keys + added && added !! base.Keys
    requires forall fd <- base :: t[fd] == base[fd]
    ensures t - added == base
  {
    assert (t - added).Keys == base.Keys;
  }

  lemma {:induction false} ParentCloses(c: Shell, n: nat)
    requires n <= |c.pipes|
    ensures OnlyCloses(ParentCalls(c, n))
    ensures Fds(ParentCalls(c, n)) == PipeFds(c, n)
  {
    if n > 0 {
      ParentCloses(c, n - 1);
      var here := [Close(c.pipes[n - 1].input), Close(c.pipes[n - 1].output)];
      FdsOfBoth(ParentCalls(c, n - 1), here);
      assert here[0].fd in Fds(here) && here[1].fd in Fds(here);
    }
  }

  // ---------------------------------------------------------------------------------------
  // Who holds the ends of a pipe.

  datatype Holder = Parent(fd: nat) | ByChild(child: nat, fd: nat)

  ghost predicate Holds(s: State, h: Holder, file: File) {
    match h
    case Parent(fd) => fd in s.parent && s.parent[fd] == file
    case ByChild(i, fd) =>
      i < |s.children| && s.children[i].Running? && fd in s.children[i].table && s.children[i].table[fd] == file
  }

  ghost predicate Held(s: State, file: File) {
    exists h :: Holds(s, h, file)
  }

  /** A reader sees end-of-file on an empty pipe when nobody can write to it any more. */
  ghost predicate NoWriter(s: State, j: nat) {
    !Held(s, WriteEnd(j))
  }

  ghost predicate AllWired(c: Shell, s: State) {
    && s.forked == c.Commands() && s.closed == |ParentCalls(c, |c.pipes|)|
    && forall i | 0 <= i < |s.children| ::
         i < c.Commands() && (s.children[i].Running? ==> s.children[i].done == |ChildCalls(c, i)|)
  }

  lemma TablesWhenWired(c: Shell, s: State)
    requires c.Valid() && Inv(c, s) && AllWired(c, s)
    ensures s.parent == c.base
    ensures forall i | 0 <= i < c.Commands() :: s.children[i].Running? ==> s.children[i].table == Wired(c, i)
  {
    ParentIsClean(c);
    assert ParentCalls(c, |c.pipes|)[..s.closed] == ParentCalls(c, |c.pipes|);
    forall i | 0 <= i < c.Commands() && s.children[i].Running?
      ensures s.children[i].table == Wired(c, i)
    {
      assert ChildAsExpected(c, i, s.children[i]);
      assert ChildCalls(c, i)[..s.children[i].done] == ChildCalls(c, i);
      ChildIsWired(c, i);
    }
  }

  /** Once shell and children are through with their calls, in whatever order, the only holder of a
      pipe's write end is the standard output of the command before it, and the only holder of its
      read end the standard input of the command behind it. */
  lemma WiringIsExact(c: Shell, actions: seq<Action>, j: nat, h: Holder)
    requires c.Valid() && Possible(c, actions) && AllWired(c, After(c, actions)) && j < |c.pipes|
    ensures var s := After(c, actions);
            && |s.children| == c.Commands()
            && (Holds(s, h, WriteEnd(j)) <==> h == ByChild(j, 1) && s.children[j].Running?)
            && (Holds(s, h, ReadEnd(j)) <==> h == ByChild(j + 1, 0) && s.children[j + 1].Running?)
  {
    RunKeepsInv(c, actions);
    TablesWhenWired(c, After(c, actions));
    WiredHolder(c, After(c, actions), j, h);
  }

  lemma WiredHolder(c: Shell, s: State, j: nat, h: Holder)
    requires c.Valid() && |s.children| == c.Commands() && s.parent == c.base && j < |c.pipes|
    requires forall i | 0 <= i < c.Commands() :: s.children[i].Running? ==> s.children[i].table == Wired(c, i)
    ensures Holds(s, h, WriteEnd(j)) <==> h == ByChild(j, STDOUT) && s.children[j].Running?
    ensures Holds(s, h, ReadEnd(j)) <==> h == ByChild(j + 1, STDIN) && s.children[j + 1].Running?
  {
  }

  /** The reader of a pipe gets end-of-file exactly when the command before it has exited. */
  lemma EofIffWriterExited(c: Shell, actions: seq<Action>, j: nat)
    requires c.Valid() && Possible(c, actions) && AllWired(c, After(c, actions)) && j < |c.pipes|
    ensures |After(c, actions).children| == c.Commands()
    ensures NoWriter(After(c, actions), j) <==> After(c, actions).children[j].Exited?
  {
    RunKeepsInv(c, actions);
    var s := After(c, actions);
    WiringIsExact(c, actions, j, ByChild(j, STDOUT));
    if s.children[j].Exited? {
      forall h
        ensures !Holds(s, h, WriteEnd(j))
      {
        WiringIsExact(c, actions, j, h);
      }
    }
  }

  ghost predicate InTable(t: Table, file: File) {
    exists fd :: fd in t && t[fd] == file
  }

  /** At any time, also in the middle of the wiring, a child that has not exited holds the ends it is
      going to use, under one descriptor or another. */
  lemma ChildKeepsItsEnds(c: Shell, i: nat, k: nat)
    requires c.Valid() && i < c.Commands() && k <= |ChildCalls(c, i)|
    ensures var t := Execute(Full(c), ChildCalls(c, i)[..k]);
            && (i < |c.pipes| ==> InTable(t, WriteEnd(i)))
            && (i > 0 ==> InTable(t, ReadEnd(i - 1)))
  {
    var closes, moves := CloseUnused(c, i, |c.pipes|), MoveEnds(c, i);
    if k <= |closes| {
      assert ChildCalls(c, i)[..k] == closes[..k];
      HalfWired(c, i, k);
    } else {
      var m := k - |closes|;
      assert ChildCalls(c, i)[..k] == closes + moves[..m];
      ExecuteBoth(Full(c), closes, moves[..m]);
      AllUnusedClosed(c, i);
      MovingKeepsEnds(c, i, m);
    }
  }

  lemma MovingKeepsEnds(c: Shell, i: nat, m: nat)
    requires c.Valid() && i < c.Commands() && 0 < m <= |MoveEnds(c, i)|
    ensures var t := Execute(Ends(c, i), MoveEnds(c, i)[..m]);
            && (i < |c.pipes| ==>
                  || (STDOUT in t && t[STDOUT] == WriteEnd(i))
                  || (c.pipes[i].output in t && t[c.pipes[i].output] == WriteEnd(i)))
            && (i > 0 ==> STDIN in t && t[STDIN] == ReadEnd(i - 1))
  {
    var t, moves := Ends(c, i), MoveEnds(c, i);
    ExecuteMore(t, moves, 0);
    assert moves[..0] == [];
    if m > 1 {
      ExecuteMore(t, moves, 1);
    }
    if m > 2 {
      ExecuteMore(t, moves, 2);
    }
    if m > 3 {
      ExecuteMore(t, moves, 3);
    }
  }

  /** No reader is ever told end-of-file too early and no writer ever finds its pipe without a reader:
      in every reachable state, a pipe's write end is open somewhere unless the command before it has
      exited, and its read end unless the command behind it has. */
  lemma NoEarlyEof(c: Shell, actions: seq<Action>, j: nat)
    requires c.Valid() && Possible(c, actions) && j < |c.pipes|
    ensures var s := After(c, actions);
            && |s.children| == c.Commands()
            && (!s.children[j].Exited? ==> Held(s, WriteEnd(j)))
            && (!s.children[j + 1].Exited? ==> Held(s, ReadEnd(j)))
  {
    RunKeepsInv(c, actions);
    var s := After(c, actions);
    if !s.children[j].Exited? {
      EndHeld(c, s, j);
    }
    if !s.children[j + 1].Exited? {
      EndHeld(c, s, j + 1);
    }
  }

  lemma EndHeld(c: Shell, s: State, i: nat)
    requires c.Valid() && Inv(c, s) && i < c.Commands() && !s.children[i].Exited?
    ensures i < |c.pipes| ==> Held(s, WriteEnd(i))
    ensures i > 0 ==> Held(s, ReadEnd(i - 1))
  {
    if s.children[i].Unborn? {
      assert ParentCalls(c, |c.pipes|)[..s.closed] == [];
      FullValues(c, |c.pipes|);
      if i < |c.pipes| {
        assert Holds(s, Parent(c.pipes[i].output), WriteEnd(i));
      }
      if i > 0 {
        assert Holds(s, Parent(c.pipes[i - 1].input), ReadEnd(i - 1));
      }
    } else {
      var t := s.children[i].table;
      assert ChildAsExpected(c, i, s.children[i]);
      ChildKeepsItsEnds(c, i, s.children[i].done);
      if i < |c.pipes| {
        var fd :| fd in t && t[fd] == WriteEnd(i);
        assert Holds(s, ByChild(i, fd), WriteEnd(i));
      }
      if i > 0 {
        var fd :| fd in t && t[fd] == ReadEnd(i - 1);
        assert Holds(s, ByChild(i, fd), ReadEnd(i - 1));
      }
    }
  }

  /** The wiring never gets stuck: until it is complete, some process has a call to make. */
  lemma WiringProceeds(c: Shell, actions: seq<Action>)
    requires Possible(c, actions) && !AllWired(c, After(c, actions))
    ensures exists a :: Enabled(c, After(c, actions), a) && !a.Exit?
  {
    RunKeepsInv(c, actions);
    var s := After(c, actions);
    if s.forked < c.Commands() {
      assert Enabled(c, s, Fork);
    } else if s.closed < |ParentCalls(c, |c.pipes|)| {
      assert Enabled(c, s, ParentClose);
    } else {
      var i :| 0 <= i < |s.children| &&
               !(i < c.Commands() && (s.children[i].Running? ==> s.children[i].done == |ChildCalls(c, i)|));
      assert ChildAsExpected(c, i, s.children[i]);
      assert Enabled(c, s, ChildCall(i));
    }
  }
}
