/**
 Rebuilding from the flattened list reproduces the server's tree below the client's directory.
 */
module MirrorRoundTrip {
  import opened Wrappers
  import opened MirrorPaths
  import opened MirrorTree

  /** Names in one directory are proper names and differ. */
  predicate ValidTree(es: seq<Entry>)
    decreases es
  {
    es == [] ||
    (&& ValidName(es[0].name)
     && (forall e <- es[1..] :: e.name != es[0].name)
     && (es[0].Dir? ==> ValidTree(es[0].children))
     && ValidTree(es[1..]))
  }

  /** The tree's entry at a relative path. */
  function Lookup(es: seq<Entry>, q: Path): Option<Entry>
    decreases es, |q|
  {
    if es == [] || q == [] then None
    else if es[0].name == q[0] then
      if |q| == 1 then Some(es[0])
      else if es[0].Dir? then Lookup(es[0].children, q[1..]) else None
    else Lookup(es[1..], q)
  }

  function EntryAt(es: seq<Entry>, base: Path, p: Path): Option<Entry> {
    if base <= p then Lookup(es, p[|base|..]) else None
  }

  /** What an entry becomes on the client before its content arrives; whatever is not a regular
      file becomes a directory. */
  function Rebuilt(e: Entry): Node {
    if e.File? then Plain([]) else Folder
  }

  function Get(disk: Disk, p: Path): Option<Node> {
    if p in disk then Some(disk[p]) else None
  }

  /** What path `p` shows after the rebuild: the tree's entry there, or what it showed before. */
  function Expected(disk: Disk, base: Path, es: seq<Entry>, p: Path): Option<Node> {
    match EntryAt(es, base, p)
    case Some(e) => Some(Rebuilt(e))
    case None => Get(disk, p)
  }

  /** The target directory is there, and nothing of the wrong kind stands in the way. */
  ghost predicate RoomFor(disk: Disk, base: Path, es: seq<Entry>) {
    && Get(disk, base) == Some(Folder)
    && forall p: Path :: match EntryAt(es, base, p)
                         case Some(e) => FitsFor(Get(disk, p), e)
                         case None => true
  }

  predicate FitsFor(there: Option<Node>, e: Entry) {
    there == None || (if e.File? then there.value.Plain? else there.value.Folder?)
  }

  /** No `mkdir` or `fopen` of the rebuild fails. */
  predicate Succeeds(disk: Disk, list: seq<Listed>)
    decreases |list|
  {
    list == [] ||
    (var path := list[0].path;
     && (if list[0].isFile then CanOpenForWriting(disk, path)
         else CanMakeDir(disk, path) || Get(disk, Components(path)) == Some(Folder))
     && Succeeds(RebuildOne(disk, path, list[0].isFile), list[1..]))
  }

  lemma {:induction false} RebuildConcat(disk: Disk, a: seq<Listed>, b: seq<Listed>)
    ensures Rebuild(disk, a + b) == Rebuild(Rebuild(disk, a), b)
    ensures Succeeds(disk, a + b) <==> Succeeds(disk, a) && Succeeds(Rebuild(disk, a), b)
    decreases |a|
  {
    if a == [] {
      assert a + b == b;
    } else {
      assert (a + b)[1..] == a[1..] + b;
      RebuildConcat(RebuildOne(disk, a[0].path, a[0].isFile), a[1..], b);
    }
  }

  /** Whatever the list and whatever is on the disk: an existing name keeps its kind, and its content unless
      it is on the list as a file. */
  lemma {:induction false} RebuildKeepsOld(disk: Disk, list: seq<Listed>, p: Path)
    requires p in disk
    ensures p in Rebuild(disk, list) && Rebuild(disk, list)[p].Plain? == disk[p].Plain?
    ensures (forall path <- FilePaths(list) :: Components(path) != p) ==> Rebuild(disk, list)[p] == disk[p]
    decreases |list|
  {
    if list != [] {
      RebuildKeepsOld(RebuildOne(disk, list[0].path, list[0].isFile), list[1..], p);
      ListedFirst(list);
    }
  }

  lemma ListedFirst(list: seq<Listed>)
    requires list != []
    ensures list[0].isFile ==> list[0].path in FilePaths(list)
    ensures forall path <- FilePaths(list[1..]) :: path in FilePaths(list)
  {
  }

  /** Whatever is new has its parent directory. */
  lemma {:induction false} RebuildIsRooted(disk: Disk, list: seq<Listed>, p: Path)
    requires p !in disk && p in Rebuild(disk, list)
    ensures ParentExists(Rebuild(disk, list), p)
    decreases |list|
  {
    if list != [] {
      var disk1 := RebuildOne(disk, list[0].path, list[0].isFile);
      if p in disk1 {
        RebuildKeepsOld(disk1, list[1..], p[..|p| - 1]);
      } else {
        RebuildIsRooted(disk1, list[1..], p);
      }
    }
  }

  // ---------------------------------------------------------------------------------------
  // Looking up in one entry or in the others.

  lemma {:induction false} LookupPresent(es: seq<Entry>, q: Path)
    requires Lookup(es, q).Some?
    ensures q != [] && exists e <- es :: e.name == q[0]
  {
    if es[0].name == q[0] {
      assert es[0] in es;
    } else {
      LookupPresent(es[1..], q);
    }
  }

  lemma HeadOrTail(es: seq<Entry>, base: Path, p: Path)
    requires es != [] && ValidTree(es)
    ensures EntryAt([es[0]], base, p).Some? ==> EntryAt(es[1..], base, p).None?
    ensures EntryAt(es, base, p) ==
            if EntryAt([es[0]], base, p).Some? then EntryAt([es[0]], base, p) else EntryAt(es[1..], base, p)
  {
    if base <= p && p != base {
      var q := p[|base|..];
      assert [es[0]][1..] == [] && Lookup([], q) == None;
      assert Lookup([es[0]], q) == if es[0].name == q[0] then Lookup(es, q) else None;
      if Lookup(es[1..], q).Some? {
        LookupPresent(es[1..], q);
      }
    }
  }

  lemma SingleLookup(e: Entry, base: Path, p: Path)
    ensures var d := base + [e.name];
            EntryAt([e], base, p) ==
            if p == d then Some(e) else if e.Dir? then EntryAt(e.children, d, p) else None
  {
    var d := base + [e.name];
    assert [e][1..] == [];
    if base <= p && p != base {
      var q := p[|base|..];
      assert q[0] == p[|base|] && Lookup([], q) == None;
      if q[0] == e.name {
        assert d <= p && q[1..] == p[|d|..];
      } else {
        assert p[..|base| + 1][|base|] != d[|base|];
        assert !(d <= p);
      }
    }
  }

  // ---------------------------------------------------------------------------------------
  // The round trip.

  lemma EntryRoom(disk: Disk, base: Path, es: seq<Entry>)
    requires es != [] && ValidTree(es) && RoomFor(disk, base, es)
    ensures RoomFor(disk, base, [es[0]])
  {
    forall p: Path ensures match EntryAt([es[0]], base, p)
                           case Some(e) => FitsFor(Get(disk, p), e)
                           case None => true
    {
      HeadOrTail(es, base, p);
    }
  }

  lemma OthersRoom(disk: Disk, disk': Disk, base: Path, es: seq<Entry>)
    requires es != [] && ValidTree(es) && RoomFor(disk, base, es)
    requires forall p: Path :: Get(disk', p) == Expected(disk, base, [es[0]], p)
    ensures RoomFor(disk', base, es[1..])
  {
    SingleLookup(es[0], base, base);
    EntryNotAbove(es[0], base);
    forall p: Path ensures match EntryAt(es[1..], base, p)
                           case Some(e) => FitsFor(Get(disk', p), e)
                           case None => true
    {
      HeadOrTail(es, base, p);
    }
  }

  lemma EntryNotAbove(e: Entry, base: Path)
    ensures EntryAt([e], base, base) == None
  {
    assert base[|base|..] == [];
  }

  lemma {:induction false} FlattenedRebuilds(disk: Disk, dir: string, es: seq<Entry>, p: Path)
    requires ValidTree(es) && RoomFor(disk, Components(dir), es)
    ensures Succeeds(disk, Flatten(dir, es))
    ensures Get(Rebuild(disk, Flatten(dir, es)), p) == Expected(disk, Components(dir), es, p)
    decreases es, 1
  {
    if es != [] {
      var base, disk' := Components(dir), Rebuild(disk, FlattenEntry(dir, es[0]));
      EntryRoom(disk, base, es);
      forall p': Path ensures Get(disk', p') == Expected(disk, base, [es[0]], p') {
        EntryRebuilds(disk, dir, es[0], p');
      }
      EntryRebuilds(disk, dir, es[0], p);
      OthersRoom(disk, disk', base, es);
      FlattenedRebuilds(disk', dir, es[1..], p);
      RebuildConcat(disk, FlattenEntry(dir, es[0]), Flatten(dir, es[1..]));
      HeadOrTail(es, base, p);
    }
  }

  /** The entry's own line of the list: it is there, empty, and nothing else has changed. */
  lemma OwnLineRebuilds(disk: Disk, dir: string, e: Entry)
    requires ValidName(e.name) && RoomFor(disk, Components(dir), [e])
    ensures var one := [Listed(Under(dir, e.name), e.File?)];
            && Succeeds(disk, one)
            && Rebuild(disk, one) == RebuildOne(disk, Under(dir, e.name), e.File?)
            && Rebuild(disk, one) == disk[Components(dir) + [e.name] := Rebuilt(e)]
  {
    var base, path := Components(dir), Under(dir, e.name);
    var d := base + [e.name];
    UnderAddsName(dir, e.name);
    SingleLookup(e, base, d);
    assert d[..|d| - 1] == base;
    assert EntryAt([e], base, d) == Some(e) && FitsFor(Get(disk, d), e);
    var one := [Listed(path, e.File?)];
    assert one[1..] == [];
    assert d in disk && !e.File? ==> disk[d := Folder] == disk;
  }

  lemma {:induction false} EntryRebuilds(disk: Disk, dir: string, e: Entry, p: Path)
    requires ValidTree([e]) && RoomFor(disk, Components(dir), [e])
    ensures Succeeds(disk, FlattenEntry(dir, e))
    ensures Get(Rebuild(disk, FlattenEntry(dir, e)), p) == Expected(disk, Components(dir), [e], p)
    decreases e, 0
  {
    var base, path := Components(dir), Under(dir, e.name);
    SingleLookup(e, base, p);
    OwnLineRebuilds(disk, dir, e);
    if e.Dir? {
      var one := [Listed(path, false)];
      var disk1 := Rebuild(disk, one);
      ChildrenRoom(disk, base, e, disk1);
      UnderAddsName(dir, e.name);
      FlattenedRebuilds(disk1, path, e.children, p);
      RebuildConcat(disk, one, Flatten(path, e.children));
      ChildrenExpected(disk, base, e, disk1, p);
    }
  }

  lemma ChildrenExpected(disk: Disk, base: Path, e: Entry, disk1: Disk, p: Path)
    requires e.Dir? && disk1 == disk[base + [e.name] := Folder]
    ensures Expected(disk1, base + [e.name], e.children, p) == Expected(disk, base, [e], p)
  {
    SingleLookup(e, base, p);
    EntryNotAboveIn(e.children, base + [e.name]);
  }

  lemma ChildrenRoom(disk: Disk, base: Path, e: Entry, disk1: Disk)
    requires e.Dir? && RoomFor(disk, base, [e])
    requires var d := base + [e.name]; disk1 == disk[d := Folder]
    ensures RoomFor(disk1, base + [e.name], e.children)
  {
    var d := base + [e.name];
    EntryNotAboveIn(e.children, d);
    forall p: Path ensures match EntryAt(e.children, d, p)
                           case Some(c) => FitsFor(Get(disk1, p), c)
                           case None => true
    {
      SingleLookup(e, base, p);
    }
  }

  lemma EntryNotAboveIn(es: seq<Entry>, base: Path)
    ensures EntryAt(es, base, base) == None
  {
    assert base[|base|..] == [];
  }

  // ---------------------------------------------------------------------------------------
  // From the server's paths to the client's.

  /** Below any subdirectory the client's path of a server path is the same path below the
      client's directory. */
  lemma {:induction false} RebasedList(serverDir: string, clientDir: string, sub: string, es: seq<Entry>)
    requires sub == "" || sub[0] == '/'
    ensures BelowServer(serverDir, Flatten(serverDir + sub, es))
    ensures ClientList(serverDir, clientDir, Flatten(serverDir + sub, es)) == Flatten(clientDir + sub, es)
    decreases es, 1
  {
    if es != [] {
      RebasedEntry(serverDir, clientDir, sub, es[0]);
      RebasedList(serverDir, clientDir, sub, es[1..]);
      ClientListConcat(serverDir, clientDir, FlattenEntry(serverDir + sub, es[0]), Flatten(serverDir + sub, es[1..]));
    }
  }

  lemma {:induction false} RebasedEntry(serverDir: string, clientDir: string, sub: string, e: Entry)
    requires sub == "" || sub[0] == '/'
    ensures BelowServer(serverDir, FlattenEntry(serverDir + sub, e))
    ensures ClientList(serverDir, clientDir, FlattenEntry(serverDir + sub, e)) == FlattenEntry(clientDir + sub, e)
    decreases e, 0
  {
    var below := sub + "/" + e.name;
    RebasedPath(serverDir, clientDir, sub, e.name);
    var one := [Listed(serverDir + below, e.File?)];
    RebasedOne(serverDir, clientDir, below, e.File?);
    if e.Dir? {
      RebasedList(serverDir, clientDir, below, e.children);
      ClientListConcat(serverDir, clientDir, one, Flatten(serverDir + below, e.children));
    }
  }

  lemma RebasedPath(serverDir: string, clientDir: string, sub: string, name: string)
    requires sub == "" || sub[0] == '/'
    ensures var below := sub + "/" + name;
            && below[0] == '/'
            && Under(serverDir + sub, name) == serverDir + below
            && Under(clientDir + sub, name) == clientDir + below
  {
  }

  lemma RebasedOne(serverDir: string, clientDir: string, below: string, isFile: bool)
    requires below != "" && below[0] == '/'
    ensures BelowServer(serverDir, [Listed(serverDir + below, isFile)])
    ensures ClientList(serverDir, clientDir, [Listed(serverDir + below, isFile)])
            == [Listed(clientDir + below, isFile)]
  {
    var from := serverDir + below;
    assert serverDir + "/" <= from;
    assert from[|serverDir| + 1..] == below[1..];
    assert "/" + below[1..] == below;
    assert ClientPath(serverDir, clientDir, from) == clientDir + ("/" + below[1..]);
  }

  lemma {:induction false} ClientListConcat(serverDir: string, clientDir: string, a: seq<Listed>, b: seq<Listed>)
    requires BelowServer(serverDir, a) && BelowServer(serverDir, b)
    ensures BelowServer(serverDir, a + b)
    ensures ClientList(serverDir, clientDir, a + b)
            == ClientList(serverDir, clientDir, a) + ClientList(serverDir, clientDir, b)
  {
    if a == [] {
      assert a + b == b;
    } else {
      assert (a + b)[1..] == a[1..] + b;
      ClientListConcat(serverDir, clientDir, a[1..], b);
    }
  }

  // ---------------------------------------------------------------------------------------
  // Filling the files.

  /** The contents of the tree's regular files, in the order of the list. */
  function Bodies(es: seq<Entry>): seq<seq<byte>>
    decreases es
  {
    if es == [] then []
    else
      (match es[0]
       case Dir(_, children) => Bodies(children)
       case File(_, content) => [content]
       case Other(_) => [])
      + Bodies(es[1..])
  }

  /** Write the i-th body to the i-th path; a file that cannot be opened ends the program. */
  function Fill(disk: Disk, paths: seq<string>, bodies: seq<seq<byte>>): Option<Disk>
    requires |paths| == |bodies|
    decreases |paths|
  {
    if paths == [] then Some(disk)
    else if !CanOpenForWriting(disk, paths[0]) then None
    else Fill(disk[Components(paths[0]) := Plain(bodies[0])], paths[1..], bodies[1..])
  }

  lemma {:induction false} FillConcat(disk: Disk, pa: seq<string>, ba: seq<seq<byte>>,
                                      pb: seq<string>, bb: seq<seq<byte>>)
    requires |pa| == |ba| && |pb| == |bb|
    ensures Fill(disk, pa + pb, ba + bb) ==
            match Fill(disk, pa, ba) case None => None case Some(d) => Fill(d, pb, bb)
    decreases |pa|
  {
    if pa == [] {
      assert pa + pb == pb && ba + bb == bb;
    } else {
      assert (pa + pb)[1..] == pa[1..] + pb && (ba + bb)[1..] == ba[1..] + bb;
      if CanOpenForWriting(disk, pa[0]) {
        FillConcat(disk[Components(pa[0]) := Plain(ba[0])], pa[1..], ba[1..], pb, bb);
      }
    }
  }

  lemma {:induction false} FilePathsConcat(a: seq<Listed>, b: seq<Listed>)
    ensures FilePaths(a + b) == FilePaths(a) + FilePaths(b)
  {
    if a == [] {
      assert a + b == b;
    } else {
      assert (a + b)[1..] == a[1..] + b;
      FilePathsConcat(a[1..], b);
    }
  }

  /** Sizes and bodies are sent for exactly the paths the client has noted. */
  lemma {:induction false} OneBodyPerPath(dir: string, es: seq<Entry>)
    ensures |FilePaths(Flatten(dir, es))| == |Bodies(es)|
    decreases es
  {
    if es != [] {
      var e, path := es[0], Under(dir, es[0].name);
      if e.Dir? {
        OneBodyPerPath(path, e.children);
        FilePathsConcat([Listed(path, false)], Flatten(path, e.children));
      }
      OneBodyPerPath(dir, es[1..]);
      FilePathsConcat(FlattenEntry(dir, e), Flatten(dir, es[1..]));
    }
  }

  function Finished(e: Entry): Node {
    if e.File? then Plain(e.content) else Folder
  }

  /** What path `p` shows in the end: the tree's entry there, with its content. */
  function Mirrored(disk: Disk, base: Path, es: seq<Entry>, p: Path): Option<Node> {
    match EntryAt(es, base, p)
    case Some(e) => Some(Finished(e))
    case None => Get(disk, p)
  }

  /** Every entry of the tree is there, with the right kind. */
  ghost predicate Shaped(disk: Disk, base: Path, es: seq<Entry>) {
    && Get(disk, base) == Some(Folder)
    && forall p: Path :: match EntryAt(es, base, p)
                         case Some(e) => Get(disk, p).Some? && FitsFor(Get(disk, p), e)
                         case None => true
  }

  /** What path `p` shows once the bodies are stored: a file of the tree has its content. */
  function Filled(disk: Disk, base: Path, es: seq<Entry>, p: Path): Option<Node> {
    match EntryAt(es, base, p)
    case Some(e) => if e.File? then Some(Plain(e.content)) else Get(disk, p)
    case None => Get(disk, p)
  }

  ghost predicate IsFilled(disk': Disk, disk: Disk, base: Path, es: seq<Entry>) {
    forall p: Path :: Get(disk', p) == Filled(disk, base, es, p)
  }

  lemma ShapedFirst(disk: Disk, base: Path, es: seq<Entry>)
    requires es != [] && ValidTree(es) && Shaped(disk, base, es)
    ensures Shaped(disk, base, [es[0]])
  {
    forall p: Path ensures match EntryAt([es[0]], base, p)
                           case Some(e) => Get(disk, p).Some? && FitsFor(Get(disk, p), e)
                           case None => true
    {
      HeadOrTail(es, base, p);
    }
  }

  lemma ShapedRest(disk: Disk, disk1: Disk, base: Path, es: seq<Entry>)
    requires es != [] && ValidTree(es) && Shaped(disk, base, es) && IsFilled(disk1, disk, base, [es[0]])
    ensures Shaped(disk1, base, es[1..])
  {
    EntryNotAbove(es[0], base);
    assert Get(disk1, base) == Filled(disk, base, [es[0]], base);
    forall p: Path ensures match EntryAt(es[1..], base, p)
                           case Some(e) => Get(disk1, p).Some? && FitsFor(Get(disk1, p), e)
                           case None => true
    {
      HeadOrTail(es, base, p);
      assert Get(disk1, p) == Filled(disk, base, [es[0]], p);
    }
  }

  lemma FilledBoth(disk: Disk, disk1: Disk, disk2: Disk, base: Path, es: seq<Entry>)
    requires es != [] && ValidTree(es)
    requires IsFilled(disk1, disk, base, [es[0]]) && IsFilled(disk2, disk1, base, es[1..])
    ensures IsFilled(disk2, disk, base, es)
  {
    forall p: Path ensures Get(disk2, p) == Filled(disk, base, es, p) {
      HeadOrTail(es, base, p);
      assert Get(disk1, p) == Filled(disk, base, [es[0]], p);
      assert Get(disk2, p) == Filled(disk1, base, es[1..], p);
    }
  }

  /** Storing the bodies at their paths opens every file, and fills exactly the tree's files. */
  lemma {:induction false} BodiesFill(disk: Disk, dir: string, es: seq<Entry>)
    requires ValidTree(es) && Shaped(disk, Components(dir), es)
    ensures |FilePaths(Flatten(dir, es))| == |Bodies(es)|
    ensures var filled := Fill(disk, FilePaths(Flatten(dir, es)), Bodies(es));
            filled.Some? && IsFilled(filled.value, disk, Components(dir), es)
    decreases es, 1
  {
    OneBodyPerPath(dir, es);
    if es != [] {
      var base := Components(dir);
      ShapedFirst(disk, base, es);
      EntryFills(disk, dir, es[0]);
      var disk1 := Fill(disk, FilePaths(FlattenEntry(dir, es[0])), Bodies([es[0]])).value;
      ShapedRest(disk, disk1, base, es);
      BodiesFill(disk1, dir, es[1..]);
      FillBoth(disk, disk1, dir, es);
      FilledBoth(disk, disk1, Fill(disk1, FilePaths(Flatten(dir, es[1..])), Bodies(es[1..])).value, base, es);
    }
  }

  lemma FillBoth(disk: Disk, disk1: Disk, dir: string, es: seq<Entry>)
    requires es != []
    requires |FilePaths(FlattenEntry(dir, es[0]))| == |Bodies([es[0]])|
    requires |FilePaths(Flatten(dir, es[1..]))| == |Bodies(es[1..])|
    requires |FilePaths(Flatten(dir, es))| == |Bodies(es)|
    requires Fill(disk, FilePaths(FlattenEntry(dir, es[0])), Bodies([es[0]])) == Some(disk1)
    ensures Fill(disk, FilePaths(Flatten(dir, es)), Bodies(es)) ==
            Fill(disk1, FilePaths(Flatten(dir, es[1..])), Bodies(es[1..]))
  {
    var e, rest := es[0], es[1..];
    FilePathsConcat(FlattenEntry(dir, e), Flatten(dir, rest));
    FillConcat(disk, FilePaths(FlattenEntry(dir, e)), Bodies([e]), FilePaths(Flatten(dir, rest)), Bodies(rest));
    BodiesSplit(es);
  }

  lemma BodiesSplit(es: seq<Entry>)
    requires es != []
    ensures Bodies(es) == Bodies([es[0]]) + Bodies(es[1..])
  {
    assert [es[0]][1..] == [] && Bodies([]) == [];
  }

  lemma OneBodyPerEntry(dir: string, e: Entry)
    ensures |FilePaths(FlattenEntry(dir, e))| == |Bodies([e])|
  {
    OneBodyPerPath(dir, [e]);
    assert [e][1..] == [] && FlattenEntry(dir, e) + [] == FlattenEntry(dir, e);
  }

  lemma {:induction false} EntryFills(disk: Disk, dir: string, e: Entry)
    requires ValidTree([e]) && Shaped(disk, Components(dir), [e])
    ensures |FilePaths(FlattenEntry(dir, e))| == |Bodies([e])|
    ensures var filled := Fill(disk, FilePaths(FlattenEntry(dir, e)), Bodies([e]));
            filled.Some? && IsFilled(filled.value, disk, Components(dir), [e])
    decreases e, 0
  {
    var base, path := Components(dir), Under(dir, e.name);
    UnderAddsName(dir, e.name);
    OneBodyPerEntry(dir, e);
    OnlyItsOwn(dir, e);
    if e.File? {
      FileFills(disk, dir, e);
      FileIsFilled(disk, base, e);
    } else if e.Dir? {
      ChildrenShaped(disk, base, e);
      BodiesFill(disk, path, e.children);
      var filled := Fill(disk, FilePaths(Flatten(path, e.children)), Bodies(e.children)).value;
      DirectoryIsFilled(filled, disk, base, e);
    } else {
      OtherIsFilled(disk, base, e);
    }
  }

  lemma FileIsFilled(disk: Disk, base: Path, e: Entry)
    requires e.File?
    ensures IsFilled(disk[base + [e.name] := Plain(e.content)], disk, base, [e])
  {
    var disk' := disk[base + [e.name] := Plain(e.content)];
    forall p: Path ensures Get(disk', p) == Filled(disk, base, [e], p) {
      SingleLookup(e, base, p);
    }
  }

  lemma DirectoryIsFilled(disk': Disk, disk: Disk, base: Path, e: Entry)
    requires e.Dir? && IsFilled(disk', disk, base + [e.name], e.children)
    ensures IsFilled(disk', disk, base, [e])
  {
    EntryNotAboveIn(e.children, base + [e.name]);
    forall p: Path ensures Get(disk', p) == Filled(disk, base, [e], p) {
      SingleLookup(e, base, p);
      assert Get(disk', p) == Filled(disk, base + [e.name], e.children, p);
    }
  }

  lemma OtherIsFilled(disk: Disk, base: Path, e: Entry)
    requires e.Other?
    ensures IsFilled(disk, disk, base, [e])
  {
    forall p: Path ensures Get(disk, p) == Filled(disk, base, [e], p) {
      SingleLookup(e, base, p);
    }
  }

  lemma FileFills(disk: Disk, dir: string, e: Entry)
    requires ValidName(e.name) && e.File? && Shaped(disk, Components(dir), [e])
    ensures Fill(disk, [Under(dir, e.name)], [e.content]) ==
            Some(disk[Components(dir) + [e.name] := Plain(e.content)])
  {
    var base := Components(dir);
    var d := base + [e.name];
    UnderAddsName(dir, e.name);
    SingleLookup(e, base, d);
    assert d[..|d| - 1] == base;
    assert EntryAt([e], base, d) == Some(e);
    FillOne(disk, Under(dir, e.name), e.content);
  }

  lemma ChildrenShaped(disk: Disk, base: Path, e: Entry)
    requires e.Dir? && Shaped(disk, base, [e])
    ensures Shaped(disk, base + [e.name], e.children)
  {
    var d := base + [e.name];
    SingleLookup(e, base, d);
    assert EntryAt([e], base, d) == Some(e);
    EntryNotAboveIn(e.children, d);
    forall p: Path ensures match EntryAt(e.children, d, p)
                           case Some(c) => Get(disk, p).Some? && FitsFor(Get(disk, p), c)
                           case None => true
    {
      SingleLookup(e, base, p);
    }
  }

  /** The paths and bodies one entry contributes. */
  lemma OnlyItsOwn(dir: string, e: Entry)
    ensures var path := Under(dir, e.name);
            && FilePaths(FlattenEntry(dir, e)) ==
               (match e
                case File(_, _) => [path]
                case Dir(_, children) => FilePaths(Flatten(path, children))
                case Other(_) => [])
            && Bodies([e]) ==
               (match e
                case File(_, content) => [content]
                case Dir(_, children) => Bodies(children)
                case Other(_) => [])
  {
    var path := Under(dir, e.name);
    assert [Listed(path, e.File?)][1..] == [] && [e][1..] == [];
    assert FilePaths([Listed(path, e.File?)]) == if e.File? then [path] else [];
    if e.Dir? {
      FilePathsConcat([Listed(path, false)], Flatten(path, e.children));
    }
  }

  lemma FillOne(disk: Disk, path: string, body: seq<byte>)
    requires CanOpenForWriting(disk, path)
    ensures Fill(disk, [path], [body]) == Some(disk[Components(path) := Plain(body)])
  {
    assert [path][1..] == [] && [body][1..] == [];
  }

  /** The directory shows the tree, with contents, and every other path what it showed before. */
  ghost predicate Shows(disk': Disk, disk: Disk, base: Path, es: seq<Entry>) {
    forall p: Path :: Get(disk', p) == Mirrored(disk, base, es, p)
  }

  /** The whole initial mirroring: from the server's list and its bodies, taken in order, the
      client's directory shows the server's tree, and nothing else on the client's disk changes. */
  lemma MirrorsServerTree(disk: Disk, serverDir: string, clientDir: string, es: seq<Entry>)
    requires ValidTree(es) && RoomFor(disk, Components(clientDir), es)
    ensures BelowServer(serverDir, Flatten(serverDir, es))
    ensures var list := ClientList(serverDir, clientDir, Flatten(serverDir, es));
            && Succeeds(disk, list)
            && |FilePaths(list)| == |Bodies(es)|
            && var filled := Fill(Rebuild(disk, list), FilePaths(list), Bodies(es));
               filled.Some? && Shows(filled.value, disk, Components(clientDir), es)
  {
    var base := Components(clientDir);
    assert serverDir + "" == serverDir && clientDir + "" == clientDir;
    RebasedList(serverDir, clientDir, "", es);
    var disk1 := Rebuild(disk, Flatten(clientDir, es));
    forall p ensures Get(disk1, p) == Expected(disk, base, es, p) {
      FlattenedRebuilds(disk, clientDir, es, p);
    }
    FlattenedRebuilds(disk, clientDir, es, base);
    EntryNotAboveIn(es, base);
    BodiesFill(disk1, clientDir, es);
    var disk' := Fill(disk1, FilePaths(Flatten(clientDir, es)), Bodies(es)).value;
    forall p: Path ensures Get(disk', p) == Mirrored(disk, base, es, p) {
      assert Get(disk', p) == Filled(disk1, base, es, p);
    }
  }
}
