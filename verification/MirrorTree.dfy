/**
 The initial mirroring of a server directory: the server flattens its tree into a list of paths,
 the client rebuilds the tree below its own directory from the list.

 A server tree holds what the server can open and `stat`; the entries `.` and `..` are not part
 of it. `Other` is anything that is neither a regular file nor a directory.
 */
module MirrorTree {
  import opened MirrorPaths

  datatype Entry =
    | Dir(name: string, children: seq<Entry>)
    | File(name: string, content: seq<byte>)
    | Other(name: string)

  datatype Listed = Listed(path: string, isFile: bool)

  // ---------------------------------------------------------------------------------------
  // The server's list.

  /** Each entry, a directory followed at once by everything below it. */
  function Flatten(dir: string, es: seq<Entry>): seq<Listed>
    decreases es
  {
    if es == [] then [] else FlattenEntry(dir, es[0]) + Flatten(dir, es[1..])
  }

  function FlattenEntry(dir: string, e: Entry): seq<Listed>
    decreases e
  {
    var p := Under(dir, e.name);
    if e.Dir? then [Listed(p, false)] + Flatten(p, e.children) else [Listed(p, e.File?)]
  }

  /** `getDirectoryContents`. */
  method GetDirectoryContents(dir: string, es: seq<Entry>) returns (paths: seq<Listed>)
    ensures paths == Flatten(dir, es)
    decreases es
  {
    paths := [];
    var i := 0;
    while i < |es|
      invariant i <= |es|
      invariant paths + Flatten(dir, es[i..]) == Flatten(dir, es)
    {
      assert es[i..][0] == es[i] && es[i..][1..] == es[i + 1..];
      var more := GetEntry(dir, es[i]);
      Reassociate(paths, more, Flatten(dir, es[i + 1..]));
      paths := paths + more;
      i := i + 1;
    }
  }

  /** One round of its loop: the entry itself, and for a directory what is below it. */
  method GetEntry(dir: string, e: Entry) returns (paths: seq<Listed>)
    ensures paths == FlattenEntry(dir, e)
    decreases e, 0
  {
    paths := [Listed(Under(dir, e.name), e.File?)];
    if e.Dir? {
      var sub := GetDirectoryContents(Under(dir, e.name), e.children);
      paths := paths + sub;
    }
  }

  lemma Reassociate(a: seq<Listed>, b: seq<Listed>, c: seq<Listed>)
    ensures a + (b + c) == a + b + c
  {
  }

  // ---------------------------------------------------------------------------------------
  // The client's disk.

  datatype Node = Folder | Plain(content: seq<byte>)
  type Disk = map<Path, Node>

  predicate ParentExists(disk: Disk, p: Path) {
    p != [] && p[..|p| - 1] in disk && disk[p[..|p| - 1]].Folder?
  }

  predicate CanMakeDir(disk: Disk, path: string) {
    var p := Components(path); p !in disk && ParentExists(disk, p)
  }

  /** `mkdir`; an existing name or a missing parent leaves the disk alone. */
  function MakeDir(disk: Disk, path: string): Disk {
    if CanMakeDir(disk, path) then disk[Components(path) := Folder] else disk
  }

  predicate CanOpenForWriting(disk: Disk, path: string) {
    var p := Components(path); ParentExists(disk, p) && (p in disk ==> disk[p].Plain?)
  }

  /** `fopen` for writing: the file is there and empty, unless it could not be opened. */
  function OpenForWriting(disk: Disk, path: string): Disk {
    if CanOpenForWriting(disk, path) then disk[Components(path) := Plain([])] else disk
  }

  // ---------------------------------------------------------------------------------------
  // The client's rebuild.

  /** Where the client puts a server path: below its own directory instead of the server's. */
  function ClientPath(serverDir: string, clientDir: string, path: string): string
    requires |serverDir| + 1 <= |path|
  {
    clientDir + "/" + path[|serverDir| + 1..]
  }

  predicate BelowServer(serverDir: string, list: seq<Listed>) {
    forall l <- list :: serverDir + "/" <= l.path
  }

  function RebuildOne(disk: Disk, path: string, isFile: bool): Disk {
    if isFile then OpenForWriting(disk, path) else MakeDir(disk, path)
  }

  function Rebuild(disk: Disk, list: seq<Listed>): Disk
    decreases |list|
  {
    if list == [] then disk else Rebuild(RebuildOne(disk, list[0].path, list[0].isFile), list[1..])
  }

  function FilePaths(list: seq<Listed>): seq<string> {
    if list == [] then [] else (if list[0].isFile then [list[0].path] else []) + FilePaths(list[1..])
  }

  function ClientList(serverDir: string, clientDir: string, list: seq<Listed>): (r: seq<Listed>)
    requires BelowServer(serverDir, list)
    ensures |r| == |list|
    ensures forall i | 0 <= i < |list| ::
              |serverDir| + 1 <= |list[i].path|
              && r[i] == Listed(ClientPath(serverDir, clientDir, list[i].path), list[i].isFile)
  {
    if list == [] then []
    else
      assert list[0] in list;
      [Listed(ClientPath(serverDir, clientDir, list[0].path), list[0].isFile)]
      + ClientList(serverDir, clientDir, list[1..])
  }

  /** The growing string array `newPaths`. */
  class PathArray {
    var items: array<string>
    var size: nat

    ghost predicate Valid()
      reads this, items
    {
      size <= items.Length && items.Length > 0
    }

    ghost function Contents(): seq<string>
      requires Valid()
      reads this, items
    {
      items[..size]
    }

    constructor ()
      ensures Valid() && fresh(items) && Contents() == []
    {
      items := new string[5](_ => "");
      size := 0;
    }

    /** `addStringToArray`: double a full array, then append. */
    method Add(s: string)
      requires Valid()
      modifies this, items
      ensures Valid() && (items == old(items) || fresh(items))
      ensures Contents() == old(Contents()) + [s]
    {
      if size == items.Length {
        var larger := new string[2 * items.Length](_ => "");
        for i := 0 to size
          invariant size <= items.Length < larger.Length
          invariant unchanged(this) && unchanged(items)
          invariant forall k | 0 <= k < i :: larger[k] == items[k]
        {
          larger[i] := items[i];
        }
        items := larger;
      }
      items[size] := s;
      size := size + 1;
    }
  }

  class Client {
    var disk: Disk
    const newPaths: PathArray

    constructor (disk: Disk)
      ensures this.disk == disk
      ensures newPaths.Valid() && fresh(newPaths) && fresh(newPaths.items) && newPaths.Contents() == []
    {
      this.disk := disk;
      newPaths := new PathArray();
    }

    /** `createSameDirectoryStructure`: note every file's path, whether or not it could be created. */
    method CreateSameDirectoryStructure(serverDir: string, clientDir: string, list: seq<Listed>)
      requires newPaths.Valid() && BelowServer(serverDir, list)
      modifies this, newPaths, newPaths.items
      ensures newPaths.Valid()
      ensures disk == Rebuild(old(disk), ClientList(serverDir, clientDir, list))
      ensures newPaths.Contents() == old(newPaths.Contents()) + FilePaths(ClientList(serverDir, clientDir, list))
    {
      ghost var todo := ClientList(serverDir, clientDir, list);
      ghost var start := newPaths.Contents();
      var i := 0;
      while i < |list|
        invariant i <= |list| && newPaths.Valid()
        invariant newPaths.items == old(newPaths.items) || fresh(newPaths.items)
        invariant Rebuild(disk, todo[i..]) == Rebuild(old(disk), todo)
        invariant newPaths.Contents() + FilePaths(todo[i..]) == start + FilePaths(todo)
      {
        NextInList(todo, i, newPaths.Contents());
        CreateEntry(ClientPath(serverDir, clientDir, list[i].path), list[i].isFile);
        i := i + 1;
      }
    }

    /** One round of its loop. */
    method CreateEntry(path: string, isFile: bool)
      requires newPaths.Valid()
      modifies this, newPaths, newPaths.items
      ensures newPaths.Valid() && (newPaths.items == old(newPaths.items) || fresh(newPaths.items))
      ensures disk == RebuildOne(old(disk), path, isFile)
      ensures newPaths.Contents() == if isFile then old(newPaths.Contents()) + [path] else old(newPaths.Contents())
    {
      if isFile {
        newPaths.Add(path);
      }
      disk := RebuildOne(disk, path, isFile);
    }

    static lemma NextInList(list: seq<Listed>, i: nat, before: seq<string>)
      requires i < |list|
      ensures list[i..][0] == list[i] && list[i..][1..] == list[i + 1..]
      ensures before + FilePaths(list[i..]) ==
              (if list[i].isFile then before + [list[i].path] else before) + FilePaths(list[i + 1..])
    {
      assert list[i..][0] == list[i] && list[i..][1..] == list[i + 1..];
    }
  }
}
