/**
 What the commands do to the server's disk. Any call that fails, other than a failing removal, ends
 the server, and leaves on the disk what was done before it.
 */
module MirrorServer {
  import opened Wrappers
  import opened MirrorPaths
  import opened MirrorTree
  import opened MirrorRoundTrip

  /** The disk after an operation, and whether the server survives it. */
  datatype Made = Made(disk: Disk, ok: bool)

  // ---------------------------------------------------------------------------------------
  // Folders.

  /** `mkdir` of every missing directory of a path, from the root down. */
  function CreateFolders(disk: Disk, p: Path): Made
    decreases |p|
  {
    if p == [] then Made(disk, true)
    else
      var above := CreateFolders(disk, p[..|p| - 1]);
      if !above.ok then above
      else if p in above.disk then Made(above.disk, above.disk[p].Folder?)
      else if ParentExists(above.disk, p) then Made(above.disk[p := Folder], true)
      else Made(above.disk, false)
  }

  class Server {
    var disk: Disk
    const base: string

    constructor (disk: Disk, base: string)
      ensures this.disk == disk && this.base == base
    {
      this.disk, this.base := disk, base;
    }

    /** `create_folder_structure`. */
    method CreateFolderStructure(path: string) returns (ok: bool)
      modifies this
      ensures Made(disk, ok) == CreateFolders(old(disk), Components(path))
    {
      var tokens := Components(path);
      var i := 0;
      while i < |tokens|
        invariant i <= |tokens|
        invariant Made(disk, true) == CreateFolders(old(disk), tokens[..i])
      {
        var current := tokens[..i + 1];
        assert current[..|current| - 1] == tokens[..i];
        if current in disk {
          if !disk[current].Folder? {
            FailureStays(old(disk), tokens, i + 1);
            return false;
          }
        } else {
          if !ParentExists(disk, current) {
            FailureStays(old(disk), tokens, i + 1);
            return false;
          }
          disk := disk[current := Folder];
        }
        i := i + 1;
      }
      assert tokens[..i] == tokens;
      ok := true;
    }

    /** The file system half of `handle_create`. */
    method Create(path: string) returns (ok: bool)
      modifies this
      ensures Made(disk, ok) == CreateOn(old(disk), path)
    {
      if '/' !in path {
        return false;
      }
      var k := NameStart(path);
      if '.' !in path[k..] {
        ok := CreateFolderStructure(path);
      } else {
        ok := CreateFolderStructure(path[..k]);
        if ok {
          ok := CanOpenForWriting(disk, path);
          disk := OpenForWriting(disk, path);
        }
      }
    }

    /** `remove`, whose failure is only reported. */
    method Remove(path: string)
      modifies this
      ensures disk == RemoveOn(old(disk), path)
    {
      var p := Components(path);
      if CanRemove(disk, p) {
        disk := disk - {p};
      }
    }
  }

  lemma {:induction false} FailureStays(disk: Disk, p: Path, k: nat)
    requires k <= |p| && !CreateFolders(disk, p[..k]).ok
    ensures CreateFolders(disk, p) == CreateFolders(disk, p[..k])
    decreases |p|
  {
    if k < |p| {
      assert p[..|p| - 1][..k] == p[..k];
      FailureStays(disk, p[..|p| - 1], k);
    } else {
      assert p[..k] == p;
    }
  }

  /** A prefix can be a directory: it is one, or nothing is there yet. */
  predicate Passable(disk: Disk, p: Path) {
    p in disk ==> disk[p].Folder?
  }

  /** What a disk shows once all directories of `p` exist. */
  function WithFolders(disk: Disk, p: Path, q: Path): Option<Node> {
    if q <= p then Some(Folder) else Get(disk, q)
  }

  ghost predicate HasFolders(disk': Disk, disk: Disk, p: Path) {
    forall q: Path :: Get(disk', q) == WithFolders(disk, p, q)
  }

  ghost predicate AllPassable(disk: Disk, p: Path) {
    forall k | 0 <= k <= |p| :: Passable(disk, p[..k])
  }

  /** The folders of a path can be made exactly if nothing but folders stands in their way; they then
      all exist, and nothing else has changed. */
  lemma {:induction false} FoldersMade(disk: Disk, p: Path)
    requires Get(disk, []) == Some(Folder)
    ensures CreateFolders(disk, p).ok <==> AllPassable(disk, p)
    ensures CreateFolders(disk, p).ok ==> HasFolders(CreateFolders(disk, p).disk, disk, p)
    decreases |p|
  {
    if p == [] {
      assert p[..0] == [];
    } else {
      var above := p[..|p| - 1];
      FoldersMade(disk, above);
      PassableStep(disk, p);
      if CreateFolders(disk, above).ok {
        LastFolderMade(disk, CreateFolders(disk, above).disk, p);
      }
    }
  }

  /** The directories are made as far as nothing else is in the way, and nothing else changes. */
  lemma {:induction false} FoldersAsFar(disk: Disk, p: Path) returns (k: nat)
    requires Get(disk, []) == Some(Folder)
    ensures k <= |p| && AllPassable(disk, p[..k]) && (k < |p| ==> !Passable(disk, p[..k + 1]))
    ensures CreateFolders(disk, p).ok <==> k == |p|
    ensures HasFolders(CreateFolders(disk, p).disk, disk, p[..k])
    decreases |p|
  {
    FoldersMade(disk, p);
    assert p[..|p|] == p;
    if CreateFolders(disk, p).ok {
      k := |p|;
    } else {
      var up := p[..|p| - 1];
      k := FoldersAsFar(disk, up);
      assert up[..k] == p[..k];
      if k < |up| {
        assert up[..k + 1] == p[..k + 1];
      } else {
        PassableStep(disk, p);
      }
    }
  }

  lemma PassableStep(disk: Disk, p: Path)
    requires p != []
    ensures AllPassable(disk, p) <==> AllPassable(disk, p[..|p| - 1]) && Passable(disk, p)
  {
    var above := p[..|p| - 1];
    assert p[..|p|] == p;
    forall k | 0 <= k <= |above| ensures above[..k] == p[..k] {
    }
  }

  lemma LastFolderMade(disk: Disk, disk1: Disk, p: Path)
    requires p != [] && HasFolders(disk1, disk, p[..|p| - 1])
    ensures ParentExists(disk1, p) && Get(disk1, p) == Get(disk, p)
    ensures HasFolders(disk1[p := Folder], disk, p)
    ensures Get(disk1, p) == Some(Folder) ==> disk1[p := Folder] == disk1
  {
    var above := p[..|p| - 1];
    assert Get(disk1, above) == WithFolders(disk, above, above);
    assert Get(disk1, p) == WithFolders(disk, above, p);
    forall q: Path ensures Get(disk1[p := Folder], q) == WithFolders(disk, p, q) {
      PrefixStep(p, q);
      assert Get(disk1, q) == WithFolders(disk, above, q);
    }
  }

  lemma PrefixStep(p: Path, q: Path)
    requires p != []
    ensures q <= p <==> q == p || q <= p[..|p| - 1]
  {
    if q <= p && q != p {
      assert q == p[..|p| - 1][..|q|];
    }
  }

  // ---------------------------------------------------------------------------------------
  // Files.

  /** Where the part behind the last separator begins. */
  function NameStart(path: string): (k: nat)
    requires '/' in path
    ensures 0 < k <= |path| && path[k - 1] == '/' && '/' !in path[k..]
  {
    var n := |path| - 1;
    if path[n] == '/' then n + 1
    else
      assert '/' in path[..n];
      var k := NameStart(path[..n]);
      assert path[k..] == path[..n][k..] + [path[n]];
      k
  }

  lemma NameStartIs(dir: string, name: string)
    requires '/' !in name
    ensures '/' in Under(dir, name) && NameStart(Under(dir, name)) == |dir| + 1
    ensures Under(dir, name)[..|dir| + 1] == dir + "/" && Under(dir, name)[|dir| + 1..] == name
  {
    var path := Under(dir, name);
    assert path[|dir|] == '/';
    NoneBehind(path, NameStart(path));
    assert path[|dir| + 1..] == name;
    NoneBehind(path, |dir| + 1);
  }

  lemma NoneBehind(path: string, k: nat)
    requires k <= |path| && '/' !in path[k..]
    ensures forall i | k <= i < |path| :: path[i] != '/'
  {
    forall i | k <= i < |path| ensures path[i] != '/' {
      assert path[i] == path[k..][i - k];
    }
  }

  /** A name with a dot becomes an empty file, any other name a folder; missing folders above are made. */
  function CreateOn(disk: Disk, path: string): Made {
    if '/' !in path then Made(disk, false)
    else
      var k := NameStart(path);
      if '.' !in path[k..] then CreateFolders(disk, Components(path))
      else
        var folders := CreateFolders(disk, Components(path[..k]));
        if !folders.ok then folders
        else Made(OpenForWriting(folders.disk, path), CanOpenForWriting(folders.disk, path))
  }

  predicate CanRemove(disk: Disk, p: Path) {
    p != [] && p in disk && (disk[p].Plain? || forall q <- disk.Keys :: !(p < q))
  }

  function RemoveOn(disk: Disk, path: string): Disk {
    if CanRemove(disk, Components(path)) then disk - {Components(path)} else disk
  }

  function WriteOn(disk: Disk, path: string, content: seq<byte>): Made {
    if CanOpenForWriting(disk, path) then Made(disk[Components(path) := Plain(content)], true) else Made(disk, false)
  }

  /** What a CREATE makes of the name reported to it. */
  function CreatedAs(name: string): Node {
    if '.' in name then Plain([]) else Folder
  }

  lemma DirectoryPart(dir: string)
    ensures Components(dir + "/") == Components(dir)
  {
    ComponentsJoin(dir, "");
    assert dir + "/" + "" == dir + "/";
  }

  /** `p` shows `node`, the directories of `above` exist, and nothing else has changed. */
  ghost predicate Becomes(disk': Disk, disk: Disk, above: Path, p: Path, node: Node) {
    forall q: Path :: Get(disk', q) == if q == p then Some(node) else WithFolders(disk, above, q)
  }

  /** A CREATE succeeds exactly if nothing but folders is in the way above, and nothing of the wrong
      kind at the name itself. The name then shows a file if it has a dot and a folder if not, the
      directories above it exist, and nothing else has changed. The client only ever reports files, so
      the two sides differ exactly after a name without a dot. */
  lemma CreateMakes(disk: Disk, dir: string, name: string)
    requires Get(disk, []) == Some(Folder) && ValidName(name)
    ensures var above, r := Components(dir), CreateOn(disk, Under(dir, name));
            var p := above + [name];
            && (r.ok <==> AllPassable(disk, above) && (p in disk ==> disk[p].Plain? == ('.' in name)))
            && (r.ok ==> Becomes(r.disk, disk, above, p, CreatedAs(name)))
  {
    NameStartIs(dir, name);
    UnderAddsName(dir, name);
    if '.' in name {
      DirectoryPart(dir);
      FoldersMade(disk, Components(dir));
      FileMade(disk, CreateFolders(disk, Components(dir)).disk, Components(dir), name);
    } else {
      FoldersMade(disk, Components(dir) + [name]);
      FolderMade(disk, CreateFolders(disk, Components(dir) + [name]).disk, Components(dir), name);
    }
  }

  /** A CREATE that fails has made the directories above the name, down to the first place where something
      else is in the way, and nothing else. */
  lemma CreateFails(disk: Disk, dir: string, name: string) returns (k: nat)
    requires Get(disk, []) == Some(Folder) && ValidName(name) && !CreateOn(disk, Under(dir, name)).ok
    ensures var above := Components(dir);
            && k <= |above| && AllPassable(disk, above[..k]) && (k < |above| ==> !Passable(disk, above[..k + 1]))
            && HasFolders(CreateOn(disk, Under(dir, name)).disk, disk, above[..k])
  {
    var above := Components(dir);
    if '.' in name {
      CreateDotted(disk, dir, name);
      k := FoldersAsFar(disk, above);
    } else {
      CreateUndotted(disk, dir, name);
      k := FoldersAsFar(disk, above + [name]);
      Shorter(above, name, k);
    }
  }

  lemma Shorter(above: Path, name: string, k: nat)
    requires k <= |above|
    ensures (above + [name])[..k] == above[..k]
    ensures k < |above| ==> (above + [name])[..k + 1] == above[..k + 1]
  {
  }

  lemma CreateDotted(disk: Disk, dir: string, name: string)
    requires ValidName(name) && '.' in name && !CreateOn(disk, Under(dir, name)).ok
    ensures CreateOn(disk, Under(dir, name)).disk == CreateFolders(disk, Components(dir)).disk
  {
    NameStartIs(dir, name);
    DirectoryPart(dir);
  }

  lemma CreateUndotted(disk: Disk, dir: string, name: string)
    requires ValidName(name) && '.' !in name
    ensures CreateOn(disk, Under(dir, name)) == CreateFolders(disk, Components(dir) + [name])
  {
    NameStartIs(dir, name);
    UnderAddsName(dir, name);
  }

  lemma FileMade(disk: Disk, disk1: Disk, above: Path, name: string)
    ensures var p := above + [name];
            HasFolders(disk1, disk, above) ==>
              && ParentExists(disk1, p) && Get(disk1, p) == Get(disk, p)
              && Becomes(disk1[p := Plain([])], disk, above, p, Plain([]))
  {
    var p := above + [name];
    assert p[..|p| - 1] == above;
    if HasFolders(disk1, disk, above) {
      assert Get(disk1, above) == WithFolders(disk, above, above);
      assert Get(disk1, p) == WithFolders(disk, above, p);
      forall q: Path
        ensures Get(disk1[p := Plain([])], q) == if q == p then Some(Plain([])) else WithFolders(disk, above, q)
      {
        assert Get(disk1, q) == WithFolders(disk, above, q);
      }
    }
  }

  lemma FolderMade(disk: Disk, disk1: Disk, above: Path, name: string)
    ensures var p := above + [name];
            && (AllPassable(disk, p) <==> AllPassable(disk, above) && Passable(disk, p))
            && (HasFolders(disk1, disk, p) ==> Becomes(disk1, disk, above, p, Folder))
  {
    var p := above + [name];
    assert p[..|p| - 1] == above;
    PassableStep(disk, p);
    if HasFolders(disk1, disk, p) {
      forall q: Path ensures Get(disk1, q) == if q == p then Some(Folder) else WithFolders(disk, above, q) {
        PrefixStep(p, q);
        assert Get(disk1, q) == WithFolders(disk, p, q);
      }
    }
  }
}
