/**
 The source tree of the directory copier, the destination it writes, and the plain
 sequential recursive copy that every concurrent run is compared with.

 The outcome of each system call on an entry is fixed by the entry itself, so a tree
 stands for one source directory together with one pattern of failures. The special
 entries `.` and `..` are not part of a tree.
 */
module CopierTree {
  import opened Wrappers

  type Path = seq<string>

  const READ_SIZE := 1024

  /** One `read` of the copy loop with the result of the `write` that follows it:
      -1, or the number of bytes taken (possibly fewer than were offered). */
  datatype Exchange = Exchange(data: seq<bv8>, wrote: int)

  predicate ValidExchange(x: Exchange) {
    && 1 <= |x.data| <= READ_SIZE
    && -1 <= x.wrote <= |x.data|
  }

  type Transfer = x: Exchange | ValidExchange(x) witness Exchange([0], 0)

  /** All reads of one source file; after the last one `read` gives 0 or, if `readFails`, -1. */
  datatype Script = Script(transfers: seq<Transfer>, readFails: bool)

  datatype DirFate = Entered | MkdirFails | ThreadFails | OpendirFails
  datatype FileFate = Opened | SourceFails | DestFails

  datatype Entry =
    | Dir(name: string, children: seq<Entry>, dirFate: DirFate)
    | File(name: string, script: Script, fileFate: FileFate)
    | Fifo(name: string, unlinks: bool, makes: bool)
    | Special(name: string)
    | Unreadable(name: string)

  /** `FileNode` names a file written by the copy, `OldFile` one that was there before. */
  datatype Node = DirNode | FileNode(inode: nat) | OldFile(content: seq<bv8>) | FifoNode | OtherNode

  /** A destination file system with the counters of the final report. */
  datatype Outcome = Outcome(
    names: map<Path, Node>,
    data: seq<seq<bv8>>,
    regular: nat,
    directories: nat,
    fifos: nat,
    bytes: nat,
    kinds: multiset<string>)

  /** What reaches the destination: the accepted prefix of every chunk up to the first failed write. */
  function Written(ts: seq<Transfer>): seq<bv8> {
    if ts == [] || ts[0].wrote < 0 then []
    else ts[0].data[..ts[0].wrote] + Written(ts[1..])
  }

  function Content(ts: seq<Transfer>): seq<bv8> {
    if ts == [] then [] else ts[0].data + Content(ts[1..])
  }

  /** The position `strrchr(name, '.')` finds. */
  function LastDot(name: string): (k: nat)
    requires '.' in name
    ensures k < |name| && name[k] == '.' && '.' !in name[k + 1..]
  {
    var n := |name| - 1;
    if name[n] == '.' then n
    else
      assert '.' in name[..n];
      var k := LastDot(name[..n]);
      assert name[k + 1..] == name[..n][k + 1..] + [name[n]];
      k
  }

  lemma LastDotIs(name: string, k: nat)
    requires k < |name| && name[k] == '.' && '.' !in name[k + 1..]
    ensures LastDot(name) == k
  {
  }

  /** The key under which a regular file is recorded. */
  function Extension(name: string): string {
    if '.' in name then name[LastDot(name) + 1..] else "unidentified file"
  }

  /** `key` is the kind of a file: what stands behind the last dot, or a fixed text if there is no dot. */
  ghost predicate HasKind(name: string, key: string) {
    if '.' in name then '.' !in key && exists stem: string :: name == stem + "." + key
    else key == "unidentified file"
  }

  /** A file has one kind, and it is the key it is recorded under. */
  lemma ExtensionIsKind(name: string, key: string)
    ensures HasKind(name, key) <==> Extension(name) == key
  {
    if '.' in name {
      var k := LastDot(name);
      assert name == name[..k] + "." + name[k + 1..];
      if '.' !in key {
        forall stem: string | name == stem + "." + key ensures |stem| == k && name[k + 1..] == key {
          assert name[|stem|] == '.' && name[|stem| + 1..] == key;
          LastDotIs(name, |stem|);
        }
      }
    }
  }

  /** `mkdir`: an existing name is kept, since EEXIST is not treated as a failure. */
  function MakeDir(names: map<Path, Node>, p: Path): map<Path, Node> {
    if p in names then names else names[p := DirNode]
  }

  /** `open` with O_CREAT and O_TRUNC: the name now denotes a fresh, empty file. */
  function CreateFile(o: Outcome, p: Path): Outcome {
    o.(names := o.names[p := FileNode(|o.data|)], data := o.data + [[]])
  }

  /** Delete an existing name (if that works), then `mkfifo` (if that works). */
  function FifoMade(names: map<Path, Node>, p: Path, e: Entry): bool
    requires e.Fifo?
  {
    (p in names ==> e.unlinks) && e.makes
  }

  function MakeFifo(names: map<Path, Node>, p: Path, e: Entry): map<Path, Node>
    requires e.Fifo?
  {
    var cleared := if p in names && e.unlinks then names - {p} else names;
    if FifoMade(names, p, e) then cleared[p := FifoNode] else cleared
  }

  /** Copy one regular file from beginning to end and count it. */
  function CopyFile(o: Outcome, p: Path, name: string, script: Script): Outcome {
    var w := Written(script.transfers);
    var c := CreateFile(o, p);
    c.(data := o.data + [w],
       bytes := o.bytes + |w|,
       regular := o.regular + 1,
       kinds := o.kinds + multiset{Extension(name)})
  }

  /** The plain sequential recursive copy of one directory's entries into directory `path`. */
  function CopyEntries(o: Outcome, path: Path, es: seq<Entry>): Outcome
    decreases es
  {
    if es == [] then o else CopyEntries(CopyEntry(o, path, es[0]), path, es[1..])
  }

  function CopyEntry(o: Outcome, path: Path, e: Entry): Outcome
    decreases e
  {
    var p := path + [e.name];
    match e
    case Dir(_, children, fate) =>
      if fate.MkdirFails? then o
      else
        var made := o.(names := MakeDir(o.names, p));
        if fate.ThreadFails? then made
        else
          var filled := if fate.OpendirFails? then made else CopyEntries(made, p, children);
          filled.(directories := filled.directories + 1)
    case File(name, script, fate) =>
      if fate.Opened? then CopyFile(o, p, name, script) else o
    case Fifo(_, _, _) =>
      var made := o.(names := MakeFifo(o.names, p, e));
      if FifoMade(o.names, p, e) then
        made.(fifos := o.fifos + 1, kinds := o.kinds + multiset{"fifo"})
      else made
    case Special(_) => o
    case Unreadable(_) => o
  }

  // ---------------------------------------------------------------------------------------
  // What the sequential copy means: the destination shows the source tree.

  datatype View = Absent | ADir | AFile(content: seq<bv8>) | AFifo | AnOther

  predicate InodesValid(o: Outcome) {
    forall p :: p in o.names && o.names[p].FileNode? ==> o.names[p].inode < |o.data|
  }

  /** What a path shows: the path's kind and, for a regular file, its bytes. */
  function ViewOf(o: Outcome, p: Path): View
    requires InodesValid(o)
  {
    if p !in o.names then Absent
    else match o.names[p]
      case DirNode => ADir
      case FileNode(i) => AFile(o.data[i])
      case OldFile(content) => AFile(content)
      case FifoNode => AFifo
      case OtherNode => AnOther
  }

  /** The source entry at a relative path. */
  function Lookup(es: seq<Entry>, q: Path): Option<Entry>
    decreases es, |q|
  {
    if es == [] || q == [] then None
    else if es[0].name == q[0] then
      if |q| == 1 then Some(es[0])
      else if es[0].Dir? then Lookup(es[0].children, q[1..]) else None
    else Lookup(es[1..], q)
  }

  /** The source entry that belongs at destination path `p` when `es` is copied into `path`. */
  function SourceAt(es: seq<Entry>, path: Path, p: Path): Option<Entry> {
    if path <= p then Lookup(es, p[|path|..]) else None
  }

  /** No call fails and every write is complete. */
  predicate Flawless(es: seq<Entry>)
    decreases es
  {
    es == [] ||
    (&& (match es[0]
         case Dir(_, children, fate) => fate.Entered? && Flawless(children)
         case File(_, script, fate) =>
           && fate.Opened? && !script.readFails
           && (forall t <- script.transfers :: t.wrote == |t.data|)
         case Fifo(_, unlinks, makes) => unlinks && makes
         case Special(_) => true
         case Unreadable(_) => false)
     && Flawless(es[1..]))
  }

  /** Names within one directory differ. */
  predicate DistinctNames(es: seq<Entry>)
    decreases es
  {
    es == [] ||
    (&& (forall e <- es[1..] :: e.name != es[0].name)
     && (es[0].Dir? ==> DistinctNames(es[0].children))
     && DistinctNames(es[1..]))
  }

  /** Where the source has a directory the destination has nothing or a directory. */
  ghost predicate RoomFor(o: Outcome, path: Path, es: seq<Entry>)
    requires InodesValid(o)
  {
    forall p: Path :: match SourceAt(es, path, p)
                      case Some(Dir(_, _, _)) => ViewOf(o, p) in {Absent, ADir}
                      case _ => true
  }

  /** What path `p` shows after a faultless copy of `es` into `path`. */
  function Expected(o: Outcome, path: Path, es: seq<Entry>, p: Path): View
    requires InodesValid(o)
  {
    match SourceAt(es, path, p)
    case None => ViewOf(o, p)
    case Some(e) =>
      match e
      case Dir(_, _, _) => ADir
      case File(_, script, _) => AFile(Content(script.transfers))
      case Fifo(_, _, _) => AFifo
      case Special(_) => ViewOf(o, p)
      case Unreadable(_) => ViewOf(o, p)
  }

  lemma {:induction false} CompleteWritesKeepContent(ts: seq<Transfer>)
    requires forall t <- ts :: t.wrote == |t.data|
    ensures Written(ts) == Content(ts)
  {
    if ts != [] {
      CompleteWritesKeepContent(ts[1..]);
      assert ts[0] in ts;
      assert ts[0].data[..ts[0].wrote] == ts[0].data;
    }
  }

  /** Inode numbers stay meaningful and old files keep their bytes, whatever fails. */
  lemma {:induction false} CopyKeepsInodes(o: Outcome, path: Path, es: seq<Entry>)
    requires InodesValid(o)
    ensures InodesValid(CopyEntries(o, path, es))
    ensures o.data <= CopyEntries(o, path, es).data
    decreases es
  {
    if es != [] {
      CopyEntryKeepsInodes(o, path, es[0]);
      CopyKeepsInodes(CopyEntry(o, path, es[0]), path, es[1..]);
    }
  }

  lemma {:induction false} CopyEntryKeepsInodes(o: Outcome, path: Path, e: Entry)
    requires InodesValid(o)
    ensures InodesValid(CopyEntry(o, path, e))
    ensures o.data <= CopyEntry(o, path, e).data
    decreases e
  {
    if e.Dir? {
      var made := o.(names := MakeDir(o.names, path + [e.name]));
      CopyKeepsInodes(made, path + [e.name], e.children);
    }
  }

  // ---------------------------------------------------------------------------------------
  // What every path shows after a copy, whatever fails.

  /** The source entry at a relative path, if the traversal gets there: every directory above has been
      entered. */
  function Reached(es: seq<Entry>, q: Path): Option<Entry>
    decreases es, |q|
  {
    if es == [] || q == [] then None
    else if es[0].name == q[0] then
      if |q| == 1 then Some(es[0])
      else if es[0].Dir? && es[0].dirFate.Entered? then Reached(es[0].children, q[1..]) else None
    else Reached(es[1..], q)
  }

  function ReachedAt(es: seq<Entry>, path: Path, p: Path): Option<Entry> {
    if path <= p then Reached(es, p[|path|..]) else None
  }

  /** What an entry makes of its destination path: `mkdir` keeps what is there, `open` replaces it, and
      a FIFO is replaced by deleting and making, each of which can fail. */
  function ShownFor(e: Entry, before: View): View {
    match e
    case Dir(_, _, fate) => if fate.MkdirFails? || before != Absent then before else ADir
    case File(_, script, fate) => if fate.Opened? then AFile(Written(script.transfers)) else before
    case Fifo(_, unlinks, makes) =>
      if before != Absent && !unlinks then before else if makes then AFifo else Absent
    case Special(_) => before
    case Unreadable(_) => before
  }

  function Shown(o: Outcome, path: Path, es: seq<Entry>, p: Path): View
    requires InodesValid(o)
  {
    match ReachedAt(es, path, p)
    case None => ViewOf(o, p)
    case Some(e) => ShownFor(e, ViewOf(o, p))
  }

  lemma {:induction false} ReachedPresent(es: seq<Entry>, q: Path)
    requires Reached(es, q).Some?
    ensures q != [] && exists e <- es :: e.name == q[0]
  {
    if es[0].name != q[0] {
      ReachedPresent(es[1..], q);
    } else {
      assert es[0] in es;
    }
  }

  /** An entry is reached through the first element or through the others, never both. */
  lemma {:induction false} HeadOrTail(es: seq<Entry>, path: Path, p: Path)
    requires es != [] && DistinctNames(es)
    ensures ReachedAt([es[0]], path, p).Some? ==> ReachedAt(es[1..], path, p).None?
    ensures ReachedAt(es, path, p) ==
            if ReachedAt([es[0]], path, p).Some? then ReachedAt([es[0]], path, p) else ReachedAt(es[1..], path, p)
  {
    if path <= p && p != path {
      var q := p[|path|..];
      assert [es[0]][1..] == [];
      assert Reached([], q) == None;
      assert Reached([es[0]], q) == if es[0].name == q[0] then Reached(es, q) else None;
      if Reached(es[1..], q).Some? {
        ReachedPresent(es[1..], q);
        assert es[0].name != q[0];
      }
    }
  }

  /** Where a single entry is reached: at its own path, or below it among its children. */
  lemma SingleReached(e: Entry, path: Path, p: Path)
    ensures var d := path + [e.name];
            ReachedAt([e], path, p) ==
            if p == d then Some(e)
            else if e.Dir? && e.dirFate.Entered? then ReachedAt(e.children, d, p)
            else None
  {
    var d := path + [e.name];
    assert [e][1..] == [];
    if path <= p && p != path {
      var q := p[|path|..];
      assert q[0] == p[|path|];
      if q[0] == e.name {
        assert d <= p;
        assert q[1..] == p[|d|..];
        if |q| == 1 {
          assert p == d;
        }
      } else {
        assert Reached([], q) == None;
        assert p[..|path| + 1][|path|] != d[|path|];
        assert !(d <= p);
      }
    }
  }

  /** Whatever fails, and whatever was at the destination before: after the copy every path that the
      traversal gets to shows what its entry makes of it, and every other path what it showed before. */
  lemma {:induction false} CopyShows(o: Outcome, path: Path, es: seq<Entry>, p: Path)
    requires InodesValid(o) && DistinctNames(es)
    ensures InodesValid(CopyEntries(o, path, es))
    ensures ViewOf(CopyEntries(o, path, es), p) == Shown(o, path, es, p)
    decreases es, 1
  {
    CopyKeepsInodes(o, path, es);
    if es != [] {
      CopyEntryKeepsInodes(o, path, es[0]);
      CopyEntryShows(o, path, es[0], p);
      CopyShows(CopyEntry(o, path, es[0]), path, es[1..], p);
      HeadOrTail(es, path, p);
    }
  }

  lemma {:induction false} CopyEntryShows(o: Outcome, path: Path, e: Entry, p: Path)
    requires InodesValid(o) && DistinctNames([e])
    ensures InodesValid(CopyEntry(o, path, e))
    ensures ViewOf(CopyEntry(o, path, e), p) == Shown(o, path, [e], p)
    decreases e, 0
  {
    CopyEntryKeepsInodes(o, path, e);
    SingleReached(e, path, p);
    if e.Dir? && e.dirFate.Entered? {
      var d := path + [e.name];
      CopyShows(o.(names := MakeDir(o.names, d)), d, e.children, p);
      NotItsOwnChild(e.children, d);
    } else {
      LeafShows(o, path, e, p);
    }
  }

  lemma NotItsOwnChild(es: seq<Entry>, d: Path)
    ensures ReachedAt(es, d, d) == None
  {
    assert d[|d|..] == [];
  }

  lemma LeafShows(o: Outcome, path: Path, e: Entry, p: Path)
    requires InodesValid(o) && !(e.Dir? && e.dirFate.Entered?)
    ensures InodesValid(CopyEntry(o, path, e))
    ensures ViewOf(CopyEntry(o, path, e), p) ==
            if p == path + [e.name] then ShownFor(e, ViewOf(o, p)) else ViewOf(o, p)
  {
    var d := path + [e.name];
    match e
    case Dir(_, _, _) => DirShows(o, d, p);
    case File(name, script, _) => FileShows(o, d, name, script, p);
    case Fifo(_, _, _) => FifoShows(o, d, e, p);
    case Special(_) =>
    case Unreadable(_) =>
  }

  lemma DirShows(o: Outcome, d: Path, p: Path)
    requires InodesValid(o)
    ensures var o' := o.(names := MakeDir(o.names, d));
            InodesValid(o') && ViewOf(o', p) == if p == d && ViewOf(o, p) == Absent then ADir else ViewOf(o, p)
  {
  }

  lemma FileShows(o: Outcome, d: Path, name: string, script: Script, p: Path)
    requires InodesValid(o)
    ensures var o' := CopyFile(o, d, name, script);
            InodesValid(o') && ViewOf(o', p) == if p == d then AFile(Written(script.transfers)) else ViewOf(o, p)
  {
  }

  lemma FifoShows(o: Outcome, d: Path, e: Entry, p: Path)
    requires InodesValid(o) && e.Fifo?
    ensures var o' := o.(names := MakeFifo(o.names, d, e));
            InodesValid(o') && ViewOf(o', p) == if p == d then ShownFor(e, ViewOf(o, p)) else ViewOf(o, p)
  {
  }

  // ---------------------------------------------------------------------------------------
  // The faultless copy.

  /** What is found is reached, if nothing fails, and does not fail itself. */
  lemma {:induction false} FlawlessReached(es: seq<Entry>, q: Path)
    requires Flawless(es)
    ensures Reached(es, q) == Lookup(es, q)
    ensures Lookup(es, q).Some? ==> Flawless([Lookup(es, q).value])
    decreases es, |q|
  {
    if es != [] && q != [] {
      if es[0].name != q[0] {
        FlawlessReached(es[1..], q);
      } else if |q| > 1 && es[0].Dir? {
        FlawlessReached(es[0].children, q[1..]);
      } else {
        assert [es[0]][1..] == [];
      }
    }
  }

  /** A faultless copy makes the destination show the source at every path: each path with a
      source entry shows that entry, every other path shows what it showed before. */
  lemma CopyMirrorsSource(o: Outcome, path: Path, es: seq<Entry>, p: Path)
    requires InodesValid(o) && Flawless(es) && DistinctNames(es) && RoomFor(o, path, es)
    ensures InodesValid(CopyEntries(o, path, es))
    ensures ViewOf(CopyEntries(o, path, es), p) == Expected(o, path, es, p)
  {
    CopyShows(o, path, es, p);
    if path <= p {
      FlawlessReached(es, p[|path|..]);
      var found := SourceAt(es, path, p);
      if found.Some? && found.value.File? {
        CompleteWritesKeepContent(found.value.script.transfers);
      }
    }
  }

  // ---------------------------------------------------------------------------------------
  // What a copy leaves alone.

  /** The destination paths of the FIFO entries that the traversal gets to. */
  function FifoPaths(path: Path, es: seq<Entry>): seq<Path>
    decreases es
  {
    if es == [] then [] else FifosFor(path, es[0]) + FifoPaths(path, es[1..])
  }

  function FifosFor(path: Path, e: Entry): seq<Path>
    decreases e
  {
    match e
    case Dir(name, children, fate) => if fate.Entered? then FifoPaths(path + [name], children) else []
    case File(_, _, _) => []
    case Fifo(name, _, _) => [path + [name]]
    case Special(_) => []
    case Unreadable(_) => []
  }

  /** Whatever fails, and even if a directory lists a name twice: an existing name that is neither opened
      for writing nor a FIFO's keeps its node, where the source has a directory too. */
  lemma {:induction false} CopyKeepsOldNames(o: Outcome, path: Path, es: seq<Entry>, p: Path)
    requires p in o.names && p !in OpenedPaths(path, es) && p !in FifoPaths(path, es)
    ensures p in CopyEntries(o, path, es).names && CopyEntries(o, path, es).names[p] == o.names[p]
    decreases es
  {
    if es != [] {
      var e := es[0];
      if e.Dir? && e.dirFate.Entered? {
        var d := path + [e.name];
        CopyKeepsOldNames(o.(names := MakeDir(o.names, d)), d, e.children, p);
      }
      CopyKeepsOldNames(CopyEntry(o, path, e), path, es[1..], p);
    }
  }

  // ---------------------------------------------------------------------------------------
  // No path is opened twice, so a truncating `open` never meets a file of the same copy.

  /** The destination paths opened for writing, in order. */
  function OpenedPaths(path: Path, es: seq<Entry>): seq<Path>
    decreases es
  {
    if es == [] then [] else OpenedFor(path, es[0]) + OpenedPaths(path, es[1..])
  }

  function OpenedFor(path: Path, e: Entry): seq<Path>
    decreases e
  {
    match e
    case Dir(name, children, fate) => if fate.Entered? then OpenedPaths(path + [name], children) else []
    case File(name, _, fate) => if fate.Opened? then [path + [name]] else []
    case Fifo(_, _, _) => []
    case Special(_) => []
    case Unreadable(_) => []
  }

  /** One file is created per path opened. */
  lemma {:induction false} OpenedAreCreated(o: Outcome, path: Path, es: seq<Entry>)
    ensures |CopyEntries(o, path, es).data| == |o.data| + |OpenedPaths(path, es)|
    decreases es
  {
    if es != [] {
      var e, p := es[0], path + [es[0].name];
      if e.Dir? && e.dirFate.Entered? {
        OpenedAreCreated(o.(names := MakeDir(o.names, p)), p, e.children);
      }
      OpenedAreCreated(CopyEntry(o, path, e), path, es[1..]);
    }
  }

  /** Whatever is opened for the entries of a directory lies at or below one of them. */
  lemma {:induction false} OpenedBelow(path: Path, es: seq<Entry>)
    ensures forall p <- OpenedPaths(path, es) ::
              path <= p && |p| > |path| && exists e <- es :: e.name == p[|path|]
    decreases es, 1
  {
    if es != [] {
      OpenedBelowEntry(path, es[0]);
      OpenedBelow(path, es[1..]);
      forall p <- OpenedPaths(path, es)
        ensures path <= p && |p| > |path| && exists e <- es :: e.name == p[|path|]
      {
        if p in OpenedFor(path, es[0]) {
          assert es[0] in es;
        } else {
          var e :| e in es[1..] && e.name == p[|path|];
          assert e in es;
        }
      }
    }
  }

  lemma {:induction false} OpenedBelowEntry(path: Path, e: Entry)
    ensures forall p <- OpenedFor(path, e) :: path <= p && |p| > |path| && p[|path|] == e.name
    decreases e, 0
  {
    if e.Dir? && e.dirFate.Entered? {
      var d := path + [e.name];
      OpenedBelow(d, e.children);
      forall p <- OpenedFor(path, e) ensures path <= p && |p| > |path| && p[|path|] == e.name {
        assert d <= p && p[|path|] == d[|path|];
      }
    }
  }

  predicate AllDifferent(paths: seq<Path>) {
    forall i, j | 0 <= i < j < |paths| :: paths[i] != paths[j]
  }

  /** With distinct names in every directory, no path is opened twice. */
  lemma {:induction false} OpenedOnce(path: Path, es: seq<Entry>)
    requires DistinctNames(es)
    ensures AllDifferent(OpenedPaths(path, es))
    decreases es
  {
    if es != [] {
      var e, here, rest := es[0], OpenedFor(path, es[0]), OpenedPaths(path, es[1..]);
      if e.Dir? && e.dirFate.Entered? {
        OpenedOnce(path + [e.name], e.children);
      }
      OpenedOnce(path, es[1..]);
      OpenedBelowEntry(path, e);
      OpenedBelow(path, es[1..]);
      forall p <- here, q <- rest ensures p != q {
        assert q[|path|] != e.name;
      }
      assert AllDifferent(here) && AllDifferent(rest);
      DifferentTogether(here, rest);
    }
  }

  lemma DifferentTogether(a: seq<Path>, b: seq<Path>)
    requires AllDifferent(a) && AllDifferent(b) && forall p <- a, q <- b :: p != q
    ensures AllDifferent(a + b)
  {
    forall i, j | 0 <= i < j < |a + b| ensures (a + b)[i] != (a + b)[j] {
      if j < |a| {
        assert a[i] != a[j];
      } else if i < |a| {
        assert a[i] in a && b[j - |a|] in b;
      } else {
        assert b[i - |a|] != b[j - |a|];
      }
    }
  }

  // ---------------------------------------------------------------------------------------
  // What the counters of the report mean.

  function TotalLength(data: seq<seq<bv8>>): nat {
    if data == [] then 0 else TotalLength(data[..|data| - 1]) + |data[|data| - 1]|
  }

  /** `bytes` counts the bytes of all copied files and `kinds` has one key per copied file or FIFO. */
  predicate CountersTrue(o: Outcome) {
    && o.bytes == TotalLength(o.data)
    && |o.kinds| == o.regular + o.fifos
    && |o.data| == o.regular
  }

  /** The counters stay true whatever fails. */
  lemma {:induction false} CopyKeepsCountersTrue(o: Outcome, path: Path, es: seq<Entry>)
    requires CountersTrue(o)
    ensures CountersTrue(CopyEntries(o, path, es))
    decreases es, 1
  {
    if es != [] {
      var e, p := es[0], path + [es[0].name];
      if e.Dir? && e.dirFate.Entered? {
        CopyKeepsCountersTrue(o.(names := MakeDir(o.names, p)), p, e.children);
      } else if e.File? && e.fileFate.Opened? {
        var w := Written(e.script.transfers);
        assert (o.data + [w])[..|o.data|] == o.data;
      }
      CopyKeepsCountersTrue(CopyEntry(o, path, e), path, es[1..]);
    }
  }

  /** The directories whose thread was started and joined: also those that could then not be opened. */
  function Joined(es: seq<Entry>): nat
    decreases es
  {
    if es == [] then 0
    else
      (match es[0]
       case Dir(_, children, fate) =>
         if fate.Entered? then 1 + Joined(children) else if fate.OpendirFails? then 1 else 0
       case _ => 0)
      + Joined(es[1..])
  }

  /** The FIFOs that can be made on the destination as it was before the copy. */
  function Makeable(names: map<Path, Node>, path: Path, es: seq<Entry>): nat
    decreases es
  {
    if es == [] then 0 else MakeableFor(names, path, es[0]) + Makeable(names, path, es[1..])
  }

  function MakeableFor(names: map<Path, Node>, path: Path, e: Entry): nat
    decreases e
  {
    match e
    case Dir(name, children, fate) => if fate.Entered? then Makeable(names, path + [name], children) else 0
    case File(_, _, _) => 0
    case Fifo(name, unlinks, makes) => if makes && (unlinks || path + [name] !in names) then 1 else 0
    case Special(_) => 0
    case Unreadable(_) => 0
  }

  /** Whatever fails, files count if both ends could be opened, directories if they were joined. */
  lemma {:induction false} CopyCounts(o: Outcome, path: Path, es: seq<Entry>)
    ensures CopyEntries(o, path, es).regular == o.regular + |OpenedPaths(path, es)|
    ensures CopyEntries(o, path, es).directories == o.directories + Joined(es)
    decreases es
  {
    if es != [] {
      var e, p := es[0], path + [es[0].name];
      if e.Dir? && e.dirFate.Entered? {
        CopyCounts(o.(names := MakeDir(o.names, p)), p, e.children);
      }
      CopyCounts(CopyEntry(o, path, e), path, es[1..]);
    }
  }

  /** FIFO paths lie at or below the entries of the directory. */
  lemma {:induction false} FifosBelow(path: Path, es: seq<Entry>)
    ensures forall p <- FifoPaths(path, es) :: path < p && exists e <- es :: e.name == p[|path|]
    decreases es, 1
  {
    if es != [] {
      var rest := es[1..];
      FifosBelowEntry(path, es[0]);
      FifosBelow(path, rest);
      forall p <- FifoPaths(path, es) ensures path < p && exists e <- es :: e.name == p[|path|] {
        if p in FifosFor(path, es[0]) {
          assert es[0] in es;
        } else {
          assert p in FifoPaths(path, rest);
          var e :| e in rest && e.name == p[|path|];
          assert e in es;
        }
      }
    }
  }

  lemma {:induction false} FifosBelowEntry(path: Path, e: Entry)
    ensures forall p <- FifosFor(path, e) :: path < p && p[|path|] == e.name
    decreases e, 0
  {
    if e.Dir? && e.dirFate.Entered? {
      var d := path + [e.name];
      FifosBelow(d, e.children);
      forall p <- FifosFor(path, e) ensures path < p && p[|path|] == e.name {
        assert d <= p && p[|path|] == d[|path|];
      }
    }
  }

  /** Only the FIFOs' own names matter. */
  lemma {:induction false} MakeableSame(a: map<Path, Node>, b: map<Path, Node>, path: Path, es: seq<Entry>)
    requires forall p <- FifoPaths(path, es) :: p in a <==> p in b
    ensures Makeable(a, path, es) == Makeable(b, path, es)
    decreases es, 1
  {
    if es != [] {
      assert FifoPaths(path, es) == FifosFor(path, es[0]) + FifoPaths(path, es[1..]);
      MakeableSameFor(a, b, path, es[0]);
      MakeableSame(a, b, path, es[1..]);
    }
  }

  lemma {:induction false} MakeableSameFor(a: map<Path, Node>, b: map<Path, Node>, path: Path, e: Entry)
    requires forall p <- FifosFor(path, e) :: p in a <==> p in b
    ensures MakeableFor(a, path, e) == MakeableFor(b, path, e)
    decreases e, 0
  {
    if e.Dir? && e.dirFate.Entered? {
      MakeableSame(a, b, path + [e.name], e.children);
    } else if e.Fifo? {
      assert path + [e.name] in FifosFor(path, e);
    }
  }

  /** One entry leaves the names of the others alone. */
  lemma EntryLeavesOthers(o: Outcome, path: Path, es: seq<Entry>)
    requires es != [] && InodesValid(o) && DistinctNames(es)
    ensures Makeable(CopyEntry(o, path, es[0]).names, path, es[1..]) == Makeable(o.names, path, es[1..])
  {
    var e, o1 := es[0], CopyEntry(o, path, es[0]);
    FifosBelow(path, es[1..]);
    forall p <- FifoPaths(path, es[1..]) ensures p in o1.names <==> p in o.names {
      CopyEntryShows(o, path, e, p);
      SingleReached(e, path, p);
      assert !(path + [e.name] <= p) by {
        assert p[|path|] != (path + [e.name])[|path|];
      }
    }
    MakeableSame(o1.names, o.names, path, es[1..]);
  }

  /** Whatever fails, a FIFO counts if what is in its way can be deleted and it can be made. */
  lemma {:induction false} CopyCountsFifos(o: Outcome, path: Path, es: seq<Entry>)
    requires InodesValid(o) && DistinctNames(es)
    ensures CopyEntries(o, path, es).fifos == o.fifos + Makeable(o.names, path, es)
    decreases es
  {
    if es != [] {
      var e, d := es[0], path + [es[0].name];
      if e.Dir? && e.dirFate.Entered? {
        var made := o.(names := MakeDir(o.names, d));
        CopyCountsFifos(made, d, e.children);
        FifosBelow(d, e.children);
        MakeableSame(made.names, o.names, d, e.children);
      }
      CopyEntryKeepsInodes(o, path, e);
      CopyCountsFifos(CopyEntry(o, path, e), path, es[1..]);
      EntryLeavesOthers(o, path, es);
    }
  }

  /** How many of the paths are files of a kind. */
  ghost function OfKind(paths: seq<Path>, key: string): nat {
    if paths == [] then 0
    else (if paths[0] != [] && HasKind(paths[0][|paths[0]| - 1], key) then 1 else 0) + OfKind(paths[1..], key)
  }

  lemma {:induction false} OfKindBoth(a: seq<Path>, b: seq<Path>, key: string)
    ensures OfKind(a + b, key) == OfKind(a, key) + OfKind(b, key)
  {
    if a == [] {
      assert a + b == b;
    } else {
      assert (a + b)[1..] == a[1..] + b;
      OfKindBoth(a[1..], b, key);
    }
  }

  /** Whatever fails, a kind has been recorded once for every file of the kind that was opened; "fifo"
      once more for every FIFO counted. */
  lemma {:induction false} CopyKinds(o: Outcome, path: Path, es: seq<Entry>, key: string)
    ensures var o' := CopyEntries(o, path, es);
            && o'.fifos >= o.fifos
            && o'.kinds[key] == o.kinds[key] + OfKind(OpenedPaths(path, es), key)
                                + if key == "fifo" then o'.fifos - o.fifos else 0
    decreases es, 1
  {
    if es != [] {
      CopyEntryKinds(o, path, es[0], key);
      CopyKinds(CopyEntry(o, path, es[0]), path, es[1..], key);
      OfKindBoth(OpenedFor(path, es[0]), OpenedPaths(path, es[1..]), key);
    }
  }

  lemma {:induction false} CopyEntryKinds(o: Outcome, path: Path, e: Entry, key: string)
    ensures var o' := CopyEntry(o, path, e);
            && o'.fifos >= o.fifos
            && o'.kinds[key] == o.kinds[key] + OfKind(OpenedFor(path, e), key)
                                + if key == "fifo" then o'.fifos - o.fifos else 0
    decreases e, 0
  {
    var p := path + [e.name];
    if e.Dir? && e.dirFate.Entered? {
      CopyKinds(o.(names := MakeDir(o.names, p)), p, e.children, key);
    } else if e.File? && e.fileFate.Opened? {
      FileKind(o, p, e, key);
    } else {
      OtherKinds(o, path, e, key);
    }
  }

  lemma OtherKinds(o: Outcome, path: Path, e: Entry, key: string)
    requires !(e.Dir? && e.dirFate.Entered?) && !(e.File? && e.fileFate.Opened?)
    ensures var o' := CopyEntry(o, path, e);
            && o'.fifos >= o.fifos && OpenedFor(path, e) == []
            && o'.kinds[key] == o.kinds[key] + if key == "fifo" then o'.fifos - o.fifos else 0
  {
  }

  lemma FileKind(o: Outcome, p: Path, e: Entry, key: string)
    requires e.File? && p != [] && p[|p| - 1] == e.name
    ensures CopyFile(o, p, e.name, e.script).kinds[key] == o.kinds[key] + OfKind([p], key)
  {
    ExtensionIsKind(e.name, key);
    assert OfKind([p], key) == if HasKind(e.name, key) then 1 else 0;
  }

  /** Some write from the `pos`-th on fails. */
  predicate Breaks(ts: seq<Transfer>, pos: nat) {
    exists i | pos <= i < |ts| :: ts[i].wrote < 0
  }

  /** The complaints of a copy from there on: one, if a write or the last read fails. */
  function Complaints(script: Script, pos: nat): nat {
    if Breaks(script.transfers, pos) || script.readFails then 1 else 0
  }

  /** What the copy of a tree complains about: everything that could not be read, made or opened, and
      every file whose copying failed. FIFOs are counted too, as each is either made or complained about. */
  function Troubles(es: seq<Entry>): nat
    decreases es
  {
    if es == [] then 0 else TroublesOf(es[0]) + Troubles(es[1..])
  }

  function TroublesOf(e: Entry): nat
    decreases e
  {
    match e
    case Dir(_, children, fate) => if fate.Entered? then Troubles(children) else 1
    case File(_, script, fate) => if fate.Opened? then Complaints(script, 0) else 1
    case Fifo(_, _, _) => 1
    case Special(_) => 0
    case Unreadable(_) => 1
  }

  /** All entries of a tree, each directory before its contents. */
  function Listing(es: seq<Entry>): seq<Entry>
    decreases es
  {
    if es == [] then []
    else [es[0]] + (if es[0].Dir? then Listing(es[0].children) else []) + Listing(es[1..])
  }

  datatype Kind = Files | Fifos | Dirs

  predicate IsKind(e: Entry, k: Kind) {
    match k
    case Files => e.File?
    case Fifos => e.Fifo?
    case Dirs => e.Dir?
  }

  function Number(es: seq<Entry>, k: Kind): nat {
    if es == [] then 0 else (if IsKind(es[0], k) then 1 else 0) + Number(es[1..], k)
  }

  lemma {:induction false} NumberOfConcatenation(a: seq<Entry>, b: seq<Entry>, k: Kind)
    ensures Number(a + b, k) == Number(a, k) + Number(b, k)
  {
    if a == [] {
      assert a + b == b;
    } else {
      assert (a + b)[1..] == a[1..] + b;
      NumberOfConcatenation(a[1..], b, k);
    }
  }

  function Counted(o: Outcome, k: Kind): nat {
    match k
    case Files => o.regular
    case Fifos => o.fifos
    case Dirs => o.directories
  }

  /** A faultless copy counts every file, directory and FIFO of the tree once. */
  lemma {:induction false} CopyCountsTree(o: Outcome, path: Path, es: seq<Entry>, k: Kind)
    requires Flawless(es)
    ensures Counted(CopyEntries(o, path, es), k) == Counted(o, k) + Number(Listing(es), k)
    decreases es
  {
    if es != [] {
      var e, p := es[0], path + [es[0].name];
      var below := if e.Dir? then Listing(e.children) else [];
      if e.Dir? {
        CopyCountsTree(o.(names := MakeDir(o.names, p)), p, e.children, k);
      }
      CopyCountsTree(CopyEntry(o, path, e), path, es[1..], k);
      NumberOfConcatenation([e], below, k);
      NumberOfConcatenation([e] + below, Listing(es[1..]), k);
      assert [e][1..] == [];
    }
  }
}
