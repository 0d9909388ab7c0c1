/**
 Clearing the client's directory before a session.

 What `readdir` and `stat` find is a tree of `Found` entries; whether a directory can be opened and
 a file deleted is part of it. The entries `.` and `..` are not.
 */
module MirrorClear {
  import opened MirrorPaths
  import opened MirrorTree

  datatype Found =
    | Subdirectory(name: string, children: seq<Found>, opens: bool)
    | Regular(name: string, unlinks: bool)
    | Special(name: string)

  /** `p` lies below the directory `d`. */
  predicate Below(d: Path, p: Path) {
    d < p
  }

  predicate EmptyDirectory(disk: Disk, d: Path) {
    forall p <- disk.Keys :: !Below(d, p)
  }

  /** `rmdir`: only an empty directory goes. */
  function RemoveDirectory(disk: Disk, d: Path): Disk {
    if EmptyDirectory(disk, d) then disk - {d} else disk
  }

  /** The disk after clearing directory `d`, in which `found` is found. A failed `unlink` abandons the
      directory; anything that is neither a directory nor a regular file stays. */
  function Clear(disk: Disk, d: Path, found: seq<Found>): Disk
    decreases found
  {
    if found == [] then disk
    else if found[0].Regular? && !found[0].unlinks then disk
    else Clear(ClearEntry(disk, d, found[0]), d, found[1..])
  }

  function ClearEntry(disk: Disk, d: Path, f: Found): Disk
    decreases f
  {
    var p := d + [f.name];
    match f
    case Regular(_, unlinks) => if unlinks then disk - {p} else disk
    case Subdirectory(_, children, opens) => RemoveDirectory(if opens then Clear(disk, p, children) else disk, p)
    case Special(_) => disk
  }

  /** `clearDirectory`. */
  method ClearDirectory(client: Client, d: Path, found: seq<Found>)
    modifies client
    ensures client.disk == Clear(old(client.disk), d, found)
    decreases found
  {
    ghost var result := Clear(client.disk, d, found);
    var i := 0;
    while i < |found|
      invariant i <= |found|
      invariant Clear(client.disk, d, found[i..]) == result
    {
      assert found[i..][0] == found[i] && found[i..][1..] == found[i + 1..];
      if found[i].Regular? && !found[i].unlinks {
        return;
      }
      ClearOne(client, d, found[i]);
      i := i + 1;
    }
  }

  /** One round of the loop: clear and remove a subdirectory, delete a file, skip anything else. */
  method ClearOne(client: Client, d: Path, f: Found)
    modifies client
    ensures client.disk == ClearEntry(old(client.disk), d, f)
    decreases f, 0
  {
    var p := d + [f.name];
    if f.Subdirectory? {
      if f.opens {
        ClearDirectory(client, p, f.children);
      }
      client.disk := RemoveDirectory(client.disk, p);
    } else if f.Regular? && f.unlinks {
      client.disk := client.disk - {p};
    }
  }

  // ---------------------------------------------------------------------------------------
  // What clearing removes.

  /** The paths of everything found. */
  function Paths(d: Path, found: seq<Found>): set<Path>
    decreases found
  {
    if found == [] then {} else PathsOf(d, found[0]) + Paths(d, found[1..])
  }

  function PathsOf(d: Path, f: Found): set<Path>
    decreases f
  {
    {d + [f.name]} + (if f.Subdirectory? then Paths(d + [f.name], f.children) else {})
  }

  lemma {:induction false} PathsAreBelow(d: Path, found: seq<Found>)
    ensures forall p <- Paths(d, found) :: Below(d, p) && exists f <- found :: f.name == p[|d|]
    decreases found, 1
  {
    if found != [] {
      PathsOfAreBelow(d, found[0]);
      PathsAreBelow(d, found[1..]);
      forall p <- Paths(d, found) ensures Below(d, p) && exists f <- found :: f.name == p[|d|] {
        if p in PathsOf(d, found[0]) {
          assert found[0] in found;
        } else {
          var f :| f in found[1..] && f.name == p[|d|];
          assert f in found;
        }
      }
    }
  }

  lemma {:induction false} PathsOfAreBelow(d: Path, f: Found)
    ensures forall p <- PathsOf(d, f) :: Below(d, p) && p[|d|] == f.name
    decreases f, 0
  {
    var e := d + [f.name];
    if f.Subdirectory? {
      PathsAreBelow(e, f.children);
      forall p <- PathsOf(d, f) ensures Below(d, p) && p[|d|] == f.name {
        if p != e {
          assert p in Paths(e, f.children) && Below(e, p);
          assert p[|d|] == e[|d|];
        }
      }
    }
  }

  /** Only paths found are ever removed, and nothing changes at the others. */
  lemma {:induction false} OnlyFoundGoes(disk: Disk, d: Path, found: seq<Found>)
    ensures Clear(disk, d, found).Keys <= disk.Keys
    ensures forall p <- disk :: p !in Paths(d, found) ==>
              p in Clear(disk, d, found) && Clear(disk, d, found)[p] == disk[p]
    decreases found, 1
  {
    if found != [] && !(found[0].Regular? && !found[0].unlinks) {
      OnlyFoundGoesOf(disk, d, found[0]);
      OnlyFoundGoes(ClearEntry(disk, d, found[0]), d, found[1..]);
    }
  }

  lemma {:induction false} OnlyFoundGoesOf(disk: Disk, d: Path, f: Found)
    ensures ClearEntry(disk, d, f).Keys <= disk.Keys
    ensures forall p <- disk :: p !in PathsOf(d, f) ==>
              p in ClearEntry(disk, d, f) && ClearEntry(disk, d, f)[p] == disk[p]
    decreases f, 0
  {
    if f.Subdirectory? && f.opens {
      OnlyFoundGoes(disk, d + [f.name], f.children);
    }
  }

  // ---------------------------------------------------------------------------------------
  // A file that cannot be deleted ends the clearing of its directory, and of no other.

  /** `unlink` fails. */
  predicate Undeletable(f: Found) {
    f.Regular? && !f.unlinks
  }

  lemma {:induction false} ClearGoesOn(disk: Disk, d: Path, a: seq<Found>, b: seq<Found>)
    requires forall f <- a :: !Undeletable(f)
    ensures Clear(disk, d, a + b) == Clear(Clear(disk, d, a), d, b)
    decreases |a|
  {
    if a == [] {
      assert a + b == b;
    } else {
      assert a[0] in a && (a + b)[1..] == a[1..] + b;
      ClearGoesOn(ClearEntry(disk, d, a[0]), d, a[1..], b);
    }
  }

  /** Nothing behind the first undeletable file of a directory is touched. */
  lemma {:induction false} ClearStops(disk: Disk, d: Path, a: seq<Found>, name: string, b: seq<Found>)
    ensures Clear(disk, d, a + [Regular(name, false)] + b) == Clear(disk, d, a)
    decreases |a|
  {
    var all := a + [Regular(name, false)] + b;
    if a != [] {
      assert all[1..] == a[1..] + [Regular(name, false)] + b;
      if !Undeletable(a[0]) {
        ClearStops(ClearEntry(disk, d, a[0]), d, a[1..], name, b);
      }
    }
  }

  /** Two disks agree below `d`. */
  ghost predicate AgreeBelow(a: Disk, b: Disk, d: Path) {
    forall p: Path | Below(d, p) :: p in a <==> p in b
  }

  /** What is removed below a directory depends on nothing else. */
  lemma {:induction false} ClearIsLocal(a: Disk, b: Disk, d: Path, found: seq<Found>)
    requires AgreeBelow(a, b, d)
    ensures AgreeBelow(Clear(a, d, found), Clear(b, d, found), d)
    decreases found, 1
  {
    if found != [] && !Undeletable(found[0]) {
      ClearEntryIsLocal(a, b, d, found[0]);
      ClearIsLocal(ClearEntry(a, d, found[0]), ClearEntry(b, d, found[0]), d, found[1..]);
    }
  }

  lemma {:induction false} ClearEntryIsLocal(a: Disk, b: Disk, d: Path, f: Found)
    requires AgreeBelow(a, b, d)
    ensures AgreeBelow(ClearEntry(a, d, f), ClearEntry(b, d, f), d)
    decreases f, 0
  {
    if f.Subdirectory? {
      var e := d + [f.name];
      var a1 := if f.opens then Clear(a, e, f.children) else a;
      var b1 := if f.opens then Clear(b, e, f.children) else b;
      if f.opens {
        ClearIsLocal(a, b, e, f.children);
        OnlyFoundGoes(a, e, f.children);
        OnlyFoundGoes(b, e, f.children);
        PathsAreBelow(e, f.children);
      }
      assert AgreeBelow(a1, b1, d) && AgreeBelow(a1, b1, e);
      assert EmptyDirectory(a1, e) <==> EmptyDirectory(b1, e);
    }
  }

  // ---------------------------------------------------------------------------------------
  // When the directory ends up empty.

  /** Names within one directory differ. */
  predicate Distinct(found: seq<Found>)
    decreases found
  {
    found == [] ||
    (&& (forall f <- found[1..] :: f.name != found[0].name)
     && (found[0].Subdirectory? ==> Distinct(found[0].children))
     && Distinct(found[1..]))
  }

  /** Exactly what is on the disk below `d` has been found. */
  ghost predicate Lists(disk: Disk, d: Path, found: seq<Found>) {
    forall p: Path :: Below(d, p) ==> (p in disk <==> p in Paths(d, found))
  }

  /** Every regular file can be deleted, every non-empty directory opened, and there is nothing else. */
  predicate Removable(found: seq<Found>)
    decreases found
  {
    found == [] || (RemovableEntry(found[0]) && Removable(found[1..]))
  }

  predicate RemovableEntry(f: Found)
    decreases f
  {
    match f
    case Regular(_, unlinks) => unlinks
    case Subdirectory(_, children, opens) => children == [] || (opens && Removable(children))
    case Special(_) => false
  }

  /** What lies below a subdirectory is its own part of what was found. */
  lemma ChildPaths(d: Path, found: seq<Found>, p: Path)
    requires found != [] && Distinct(found) && found[0].Subdirectory?
    requires Below(d + [found[0].name], p)
    ensures p in Paths(d, found) <==> p in Paths(d + [found[0].name], found[0].children)
  {
    var e := d + [found[0].name];
    PathsAreBelow(d, found[1..]);
    assert p[|d|] == e[|d|];
  }

  lemma ChildLists(disk: Disk, d: Path, found: seq<Found>)
    requires found != [] && Distinct(found) && found[0].Subdirectory? && Lists(disk, d, found)
    ensures Lists(disk, d + [found[0].name], found[0].children)
  {
    var e := d + [found[0].name];
    forall p: Path | Below(e, p) ensures p in disk <==> p in Paths(e, found[0].children) {
      assert Below(d, p);
      ChildPaths(d, found, p);
    }
  }

  /** After a first entry that goes, the rest is what is left to be found. */
  lemma RestLists(disk: Disk, d: Path, found: seq<Found>)
    requires found != [] && Distinct(found) && Lists(disk, d, found)
    requires forall p <- PathsOf(d, found[0]) :: p !in ClearEntry(disk, d, found[0])
    ensures Lists(ClearEntry(disk, d, found[0]), d, found[1..])
  {
    OnlyFoundGoesOf(disk, d, found[0]);
    OthersApart(d, found);
  }

  lemma OthersApart(d: Path, found: seq<Found>)
    requires found != [] && Distinct(found)
    ensures PathsOf(d, found[0]) !! Paths(d, found[1..])
  {
    PathsOfAreBelow(d, found[0]);
    PathsAreBelow(d, found[1..]);
  }

  /** An entry goes with everything below it exactly if it is removable. */
  lemma {:induction false} EntryGoesIff(disk: Disk, d: Path, found: seq<Found>)
    requires found != [] && Distinct(found) && Lists(disk, d, found)
    ensures if RemovableEntry(found[0])
            then forall p <- PathsOf(d, found[0]) :: p !in ClearEntry(disk, d, found[0])
            else exists p <- PathsOf(d, found[0]) :: p in ClearEntry(disk, d, found[0])
    decreases found[0], 0
  {
    var f, e := found[0], d + [found[0].name];
    assert e in PathsOf(d, f) && e in Paths(d, found) && Below(d, e);
    if f.Subdirectory? {
      ChildLists(disk, d, found);
      var disk1 := if f.opens then Clear(disk, e, f.children) else disk;
      if f.opens {
        EmptiedIff(disk, e, f.children);
        OnlyFoundGoes(disk, e, f.children);
      } else if f.children != [] {
        var c := e + [f.children[0].name];
        assert c in PathsOf(e, f.children[0]) && c in Paths(e, f.children) && Below(e, c);
        assert !EmptyDirectory(disk, e);
      }
      PathsAreBelow(e, f.children);
      SubdirectoryGoes(disk, disk1, e, f);
    }
  }

  lemma SubdirectoryGoes(disk: Disk, disk1: Disk, e: Path, f: Found)
    requires f.Subdirectory? && e in disk && e in disk1 && disk1.Keys <= disk.Keys
    requires EmptyDirectory(disk1, e) <==> f.children == [] || (f.opens && Removable(f.children))
    requires Lists(disk, e, f.children)
    ensures if EmptyDirectory(disk1, e)
            then forall p <- {e} + Paths(e, f.children) :: p !in RemoveDirectory(disk1, e)
            else e in RemoveDirectory(disk1, e)
  {
    PathsAreBelow(e, f.children);
  }

  /** The directory ends up empty if and only if everything found in it can be removed. */
  lemma {:induction false} EmptiedIff(disk: Disk, d: Path, found: seq<Found>)
    requires Distinct(found) && Lists(disk, d, found)
    ensures EmptyDirectory(Clear(disk, d, found), d) <==> Removable(found)
    decreases found
  {
    if found != [] {
      EntryGoesIff(disk, d, found);
      if RemovableEntry(found[0]) {
        RestLists(disk, d, found);
        EmptiedIff(ClearEntry(disk, d, found[0]), d, found[1..]);
      } else {
        EntryStays(disk, d, found);
      }
    }
  }

  /** Whatever stays of one entry, the clearing of the others does not touch. */
  lemma EntryStays(disk: Disk, d: Path, found: seq<Found>)
    requires found != [] && Distinct(found) && !RemovableEntry(found[0])
    requires exists p <- PathsOf(d, found[0]) :: p in ClearEntry(disk, d, found[0])
    ensures !EmptyDirectory(Clear(disk, d, found), d)
  {
    var p :| p in PathsOf(d, found[0]) && p in ClearEntry(disk, d, found[0]);
    PathsOfAreBelow(d, found[0]);
    OthersApart(d, found);
    OnlyFoundGoes(ClearEntry(disk, d, found[0]), d, found[1..]);
    OnlyFoundGoesOf(disk, d, found[0]);
    assert p in Clear(disk, d, found) && Below(d, p);
  }

  // ---------------------------------------------------------------------------------------
  // What becomes of each entry.

  predicate AtOrBelow(e: Path, p: Path) {
    e <= p
  }

  lemma OtherName(d: Path, name: string, p: Path)
    requires Below(d, p) && p[|d|] != name
    ensures !AtOrBelow(d + [name], p)
  {
    assert (d + [name])[|d|] == name;
  }

  lemma {:induction false} PathsBoth(d: Path, a: seq<Found>, b: seq<Found>)
    ensures Paths(d, a + b) == Paths(d, a) + Paths(d, b)
    decreases |a|
  {
    if a == [] {
      assert a + b == b;
    } else {
      assert (a + b)[1..] == a[1..] + b;
      PathsBoth(d, a[1..], b);
    }
  }

  lemma {:induction false} OthersDiffer(found: seq<Found>, i: nat)
    requires i < |found| && Distinct(found)
    ensures forall f <- found[..i] + found[i + 1..] :: f.name != found[i].name
    ensures found[i].Subdirectory? ==> Distinct(found[i].children)
    decreases i
  {
    if i > 0 {
      OthersDiffer(found[1..], i - 1);
      assert found[i] in found[1..];
      assert found[..i] + found[i + 1..] == [found[0]] + (found[1..][..i - 1] + found[1..][i..]);
    }
  }

  /** The i-th entry's paths are apart from those of the entries before and behind it. */
  lemma ApartFrom(d: Path, found: seq<Found>, i: nat)
    requires i < |found| && Distinct(found)
    ensures var e, before, behind := d + [found[i].name], found[..i], found[i + 1..];
            && Paths(d, found) == Paths(d, before) + PathsOf(d, found[i]) + Paths(d, behind)
            && (forall p <- Paths(d, before) :: !AtOrBelow(e, p))
            && (forall p <- Paths(d, behind) :: !AtOrBelow(e, p))
    ensures forall p <- PathsOf(d, found[i]) :: AtOrBelow(d + [found[i].name], p)
  {
    var f, before, behind := found[i], found[..i], found[i + 1..];
    assert found == before + ([f] + behind) && [f][1..] == [];
    PathsBoth(d, before, [f] + behind);
    PathsBoth(d, [f], behind);
    OthersDiffer(found, i);
    PathsAreBelow(d, before);
    PathsAreBelow(d, behind);
    forall p | p in Paths(d, before) || p in Paths(d, behind) ensures !AtOrBelow(d + [f.name], p) {
      OtherName(d, f.name, p);
    }
    if f.Subdirectory? {
      PathsAreBelow(d + [f.name], f.children);
    }
  }

  /** The entries before the i-th leave its part of the disk alone. */
  lemma BeforeLeavesEntry(disk: Disk, d: Path, found: seq<Found>, i: nat)
    requires i < |found| && Distinct(found)
    ensures var e, disk1 := d + [found[i].name], Clear(disk, d, found[..i]);
            (e in disk1 <==> e in disk) && AgreeBelow(disk1, disk, e)
  {
    OnlyFoundGoes(disk, d, found[..i]);
    ApartFrom(d, found, i);
    var e := d + [found[i].name];
    forall p: Path | Below(e, p) ensures p in Clear(disk, d, found[..i]) <==> p in disk {
      assert AtOrBelow(e, p);
    }
    assert AtOrBelow(e, e);
  }

  /** ... and so do those behind it. */
  lemma BehindLeavesEntry(disk: Disk, d: Path, found: seq<Found>, i: nat, p: Path)
    requires i < |found| && Distinct(found) && p in PathsOf(d, found[i])
    ensures p in Clear(disk, d, found[i + 1..]) <==> p in disk
  {
    OnlyFoundGoes(disk, d, found[i + 1..]);
    ApartFrom(d, found, i);
  }

  lemma ListsEntry(disk: Disk, d: Path, found: seq<Found>, i: nat)
    requires i < |found| && Distinct(found) && Lists(disk, d, found)
    ensures forall p <- PathsOf(d, found[i]) :: p in disk
    ensures found[i].Subdirectory? ==> Lists(disk, d + [found[i].name], found[i].children)
  {
    ApartFrom(d, found, i);
    PathsAreBelow(d, found);
    var e := d + [found[i].name];
    if found[i].Subdirectory? {
      forall p: Path | Below(e, p) ensures p in disk <==> p in Paths(e, found[i].children) {
        assert AtOrBelow(e, p) && Below(d, p) && p != e;
      }
    }
  }

  /** An entry at or behind the first undeletable file stays with everything below it. */
  lemma BehindUndeletable(disk: Disk, d: Path, found: seq<Found>, j: nat, i: nat, p: Path)
    requires j <= i < |found| && Undeletable(found[j])
    requires Distinct(found) && Lists(disk, d, found) && p in PathsOf(d, found[i])
    ensures p in Clear(disk, d, found)
  {
    var name := found[j].name;
    assert found == found[..j] + [Regular(name, false)] + found[j + 1..];
    ClearStops(disk, d, found[..j], name, found[j + 1..]);
    if j < i {
      assert found[..i] == found[..j] + [Regular(name, false)] + found[j + 1..i];
      ClearStops(disk, d, found[..j], name, found[j + 1..i]);
    }
    BeforeLeavesEntry(disk, d, found, i);
    ListsEntry(disk, d, found, i);
    ApartFrom(d, found, i);
    var e := d + [found[i].name];
    assert AtOrBelow(e, p);
    assert p == e || Below(e, p);
    assert Clear(disk, d, found) == Clear(disk, d, found[..i]);
  }

  /** The disk just behind entry `i`, when nothing before it stops the clearing. */
  lemma UpTo(disk: Disk, d: Path, found: seq<Found>, i: nat)
    requires i < |found| && forall j | 0 <= j <= i :: !Undeletable(found[j])
    ensures Clear(disk, d, found) == Clear(ClearEntry(Clear(disk, d, found[..i]), d, found[i]), d, found[i + 1..])
  {
    assert found == found[..i] + found[i..] && found[i..][1..] == found[i + 1..];
    ClearGoesOn(disk, d, found[..i], found[i..]);
  }

  /** An entry before any undeletable file goes exactly if it is removable, and in a directory that
      opens exactly those paths go that clearing this directory alone would remove. */
  lemma BeforeUndeletable(disk: Disk, d: Path, found: seq<Found>, i: nat)
    requires i < |found| && Distinct(found) && Lists(disk, d, found)
    requires forall j | 0 <= j <= i :: !Undeletable(found[j])
    ensures var f, e, after := found[i], d + [found[i].name], Clear(disk, d, found);
            && (e in after <==> !RemovableEntry(f))
            && (f.Subdirectory? ==>
                  forall p <- Paths(e, f.children) :: p in after <==> !f.opens || p in Clear(disk, e, f.children))
  {
    var f, e := found[i], d + [found[i].name];
    var before := Clear(disk, d, found[..i]);
    UpTo(disk, d, found, i);
    BeforeLeavesEntry(disk, d, found, i);
    ListsEntry(disk, d, found, i);
    OthersDiffer(found, i);
    EntryAlone(disk, before, d, f);
    forall p <- PathsOf(d, f) ensures p in Clear(disk, d, found) <==> p in ClearEntry(before, d, f) {
      BehindLeavesEntry(ClearEntry(before, d, f), d, found, i, p);
    }
  }

  /** One entry, on a disk that shows what was found at and below it. */
  lemma EntryAlone(disk: Disk, before: Disk, d: Path, f: Found)
    requires forall p <- PathsOf(d, f) :: p in disk
    requires f.Subdirectory? ==> Lists(disk, d + [f.name], f.children) && Distinct(f.children)
    requires (d + [f.name] in before) && AgreeBelow(before, disk, d + [f.name]) && !Undeletable(f)
    ensures var e, after := d + [f.name], ClearEntry(before, d, f);
            && (e in after <==> !RemovableEntry(f))
            && (f.Subdirectory? ==>
                  forall p <- Paths(e, f.children) :: p in after <==> !f.opens || p in Clear(disk, e, f.children))
  {
    if f.Subdirectory? {
      var e := d + [f.name];
      PathsAreBelow(e, f.children);
      ClearIsLocal(before, disk, e, f.children);
      EmptiedIff(disk, e, f.children);
      OnlyFoundGoes(before, e, f.children);
      if f.children != [] {
        var c := e + [f.children[0].name];
        assert c in PathsOf(e, f.children[0]) && c in Paths(e, f.children);
      }
    }
  }
}
