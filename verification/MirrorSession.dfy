/**
 The first part of a mirroring session, end to end: clear the client's directory, send the list,
 rebuild it, send the bodies, store them.
 */
module MirrorSession {
  import opened Wrappers
  import opened MirrorPaths
  import opened MirrorTree
  import opened MirrorClear
  import opened MirrorRoundTrip
  import opened MirrorStream
  import opened MirrorListing

  /** An emptied directory has room for any tree. */
  lemma ClearedHasRoom(disk: Disk, base: Path, found: seq<Found>, es: seq<Entry>)
    requires Get(disk, base) == Some(Node.Folder)
    requires Distinct(found) && Lists(disk, base, found) && Removable(found)
    ensures EmptyDirectory(Clear(disk, base, found), base)
    ensures RoomFor(Clear(disk, base, found), base, es)
  {
    EmptiedIff(disk, base, found);
    PathsAreBelow(base, found);
    OnlyFoundGoes(disk, base, found);
    EntryNotAboveIn(es, base);
  }

  // ---------------------------------------------------------------------------------------
  // Sending the tree's contents.

  /** What each listed path holds: the file's bytes, nothing for the others. */
  function ListedContents(es: seq<Entry>): seq<seq<byte>>
    decreases es
  {
    if es == [] then [] else EntryContents(es[0]) + ListedContents(es[1..])
  }

  function EntryContents(e: Entry): seq<seq<byte>>
    decreases e
  {
    match e
    case File(_, content) => [content]
    case Dir(_, children) => [[]] + ListedContents(children)
    case Other(_) => [[]]
  }

  lemma {:induction false} FileContentsConcat(la: seq<Listed>, ca: seq<seq<byte>>, lb: seq<Listed>, cb: seq<seq<byte>>)
    requires |la| == |ca| && |lb| == |cb|
    ensures FileContents(la + lb, ca + cb) == FileContents(la, ca) + FileContents(lb, cb)
    decreases |lb|
  {
    var n := |lb| - 1;
    if lb == [] {
      assert la + lb == la && ca + cb == ca;
    } else {
      assert (la + lb)[..|la + lb| - 1] == la + lb[..n];
      assert (ca + cb)[..|ca + cb| - 1] == ca + cb[..n];
      FileContentsConcat(la, ca, lb[..n], cb[..n]);
    }
  }

  lemma FileContentsOne(l: Listed, c: seq<byte>)
    ensures FileContents([l], [c]) == if l.isFile then [c] else []
  {
    assert [l][..0] == [] && [c][..0] == [];
  }

  /** `sendFile` walks the list and sends the tree's files in the tree's order. */
  lemma {:induction false} ListedContentsAreBodies(dir: string, es: seq<Entry>)
    ensures |Flatten(dir, es)| == |ListedContents(es)|
    ensures FileContents(Flatten(dir, es), ListedContents(es)) == Bodies(es)
    decreases es, 1
  {
    if es != [] {
      EntryContentsAreBodies(dir, es[0]);
      ListedContentsAreBodies(dir, es[1..]);
      FileContentsConcat(FlattenEntry(dir, es[0]), EntryContents(es[0]),
                         Flatten(dir, es[1..]), ListedContents(es[1..]));
      BodiesSplit(es);
    }
  }

  lemma {:induction false} EntryContentsAreBodies(dir: string, e: Entry)
    ensures |FlattenEntry(dir, e)| == |EntryContents(e)|
    ensures FileContents(FlattenEntry(dir, e), EntryContents(e)) == Bodies([e])
    decreases e, 0
  {
    var path := Under(dir, e.name);
    OnlyItsOwn(dir, e);
    FileContentsOne(Listed(path, e.File?), if e.File? then e.content else []);
    if e.Dir? {
      ListedContentsAreBodies(path, e.children);
      FileContentsConcat([Listed(path, false)], [[]], Flatten(path, e.children), ListedContents(e.children));
    }
  }

  // ---------------------------------------------------------------------------------------
  // Storing the received files.

  /** Everything stored, waiting for more of the stream, or ended by a file that cannot be opened. */
  datatype Outcome = Complete | Waiting | Exited

  datatype Stored = Stored(disk: Disk, rest: seq<byte>, clock: nat, outcome: Outcome)

  /** Receive a file's size, open the file, receive and write its body. */
  function StoreOne(disk: Disk, path: string, stream: seq<byte>, cut: nat -> nat, clock: nat): Stored {
    if |stream| < 8 then Stored(disk, stream, clock, Waiting)
    else if !CanOpenForWriting(disk, path) then Stored(disk, stream[8..], clock, Exited)
    else
      var b := ReceiveBody(stream[8..], DecodeInt(stream[..8]), cut, clock);
      Stored(disk[Components(path) := Plain(b.content)], b.rest, b.clock, if b.blocked then Waiting else Complete)
  }

  /** One body per path. */
  function StoreAll(disk: Disk, paths: seq<string>, stream: seq<byte>, cut: nat -> nat, clock: nat): Stored
    decreases |paths|
  {
    if paths == [] then Stored(disk, stream, clock, Complete)
    else
      var one := StoreOne(disk, paths[0], stream, cut, clock);
      if one.outcome.Complete? then StoreAll(one.disk, paths[1..], one.rest, cut, one.clock) else one
  }

  /** One round of `saveFile`. */
  method SaveOne(client: Client, socket: Socket, path: string) returns (outcome: Outcome)
    modifies client, socket
    ensures Stored(client.disk, socket.incoming, socket.clock, outcome) ==
            StoreOne(old(client.disk), path, old(socket.incoming), socket.cut, old(socket.clock))
  {
    if |socket.incoming| < 8 {
      return Waiting;
    }
    var size := socket.RecvInt(8);
    if !CanOpenForWriting(client.disk, path) {
      return Exited;
    }
    var content, dry := SaveBody(socket, size);
    client.disk := client.disk[Components(path) := Plain(content)];
    outcome := if dry then Waiting else Complete;
  }

  /** `saveFile`. */
  method SaveFile(client: Client, socket: Socket) returns (outcome: Outcome)
    requires client.newPaths.Valid()
    modifies client, socket
    ensures Stored(client.disk, socket.incoming, socket.clock, outcome) ==
            StoreAll(old(client.disk), client.newPaths.Contents(), old(socket.incoming), socket.cut, old(socket.clock))
  {
    ghost var paths := client.newPaths.Contents();
    ghost var all := StoreAll(client.disk, paths, socket.incoming, socket.cut, socket.clock);
    var i := 0;
    while i < client.newPaths.size
      invariant i <= client.newPaths.size
      invariant StoreAll(client.disk, paths[i..], socket.incoming, socket.cut, socket.clock) == all
    {
      assert paths[i..][0] == client.newPaths.items[i] && paths[i..][1..] == paths[i + 1..];
      outcome := SaveOne(client, socket, client.newPaths.items[i]);
      if !outcome.Complete? {
        return;
      }
      i := i + 1;
    }
    outcome := Complete;
  }

  /** The i-th body received goes to the i-th path: when all bodies have arrived, storing them one by
      one as they come is the same as filling the paths with them in order. */
  lemma {:induction false} StoreIsFill(disk: Disk, paths: seq<string>, stream: seq<byte>, cut: nat -> nat, clock: nat)
    requires !ReceiveAll(|paths|, stream, cut, clock).blocked
    ensures var r, stored := ReceiveAll(|paths|, stream, cut, clock), StoreAll(disk, paths, stream, cut, clock);
            && |r.contents| == |paths|
            && (stored.outcome.Complete? <==> Fill(disk, paths, r.contents).Some?)
            && (stored.outcome.Complete? ==>
                  Fill(disk, paths, r.contents) == Some(stored.disk) && stored.rest == r.rest)
    decreases |paths|
  {
    if paths != [] {
      var b := ReceiveBody(stream[8..], DecodeInt(stream[..8]), cut, clock);
      var r := ReceiveAll(|paths| - 1, b.rest, cut, b.clock);
      assert ([b.content] + r.contents)[1..] == r.contents;
      StoreIsFill(disk[Components(paths[0]) := Plain(b.content)], paths[1..], b.rest, cut, b.clock);
    }
  }

  /** Once the first `j` bodies are in, storing goes on from there. */
  lemma {:induction false} StoreGoesOn(disk: Disk, paths: seq<string>, stream: seq<byte>, cut: nat -> nat, clock: nat,
                                       j: nat)
    requires j <= |paths| && !ReceiveAll(j, stream, cut, clock).blocked
    ensures var r := ReceiveAll(j, stream, cut, clock);
            && |r.contents| == j
            && var filled := Fill(disk, paths[..j], r.contents);
               filled.Some? ==>
                 StoreAll(disk, paths, stream, cut, clock)
                 == StoreAll(filled.value, paths[j..], r.rest, cut, r.clock)
    decreases |paths|
  {
    if j > 0 {
      var b := ReceiveBody(stream[8..], DecodeInt(stream[..8]), cut, clock);
      var r := ReceiveAll(j - 1, b.rest, cut, b.clock);
      assert ([b.content] + r.contents)[1..] == r.contents && paths[..j][1..] == paths[1..][..j - 1];
      assert paths[1..][j - 1..] == paths[j..];
      StoreGoesOn(disk[Components(paths[0]) := Plain(b.content)], paths[1..], b.rest, cut, b.clock, j - 1);
    }
  }

  /** How storing ends early, behind the first `j` files: a file that cannot be opened ends the client,
      with those files stored; a missing size makes it wait, with those files stored; a missing part of
      the next body makes it wait, with what there is of that body stored as well. */
  lemma StoreEndsEarly(disk: Disk, paths: seq<string>, stream: seq<byte>, cut: nat -> nat, clock: nat, j: nat)
    requires j < |paths| && !ReceiveAll(j, stream, cut, clock).blocked
    requires |ReceiveAll(j, stream, cut, clock).contents| == j
    requires Fill(disk, paths[..j], ReceiveAll(j, stream, cut, clock).contents).Some?
    ensures var r, end := ReceiveAll(j, stream, cut, clock), StoreAll(disk, paths, stream, cut, clock);
            var d, p := Fill(disk, paths[..j], r.contents).value, Components(paths[j]);
            if |r.rest| < 8 then end.outcome.Waiting? && end.disk == d
            else if !(ParentExists(d, p) && (p in d ==> d[p].Plain?)) then end.outcome.Exited? && end.disk == d
            else
              DecodeInt(r.rest[..8]) > |r.rest| - 8 ==>
                end.outcome.Waiting? && end.disk == d[p := Plain(r.rest[8..])]
  {
    StoreGoesOn(disk, paths, stream, cut, clock, j);
    var r := ReceiveAll(j, stream, cut, clock);
    assert paths[j..][0] == paths[j];
    if |r.rest| >= 8 && DecodeInt(r.rest[..8]) > |r.rest| - 8 {
      BodyWaits(r.rest[8..], DecodeInt(r.rest[..8]), cut, r.clock);
    }
  }

  // ---------------------------------------------------------------------------------------
  // The whole first part of a session.

  /** The client's side: clear the directory, receive the list, rebuild the tree, receive and store the
      files. */
  function ClientSession(disk: Disk, found: seq<Found>, stream: seq<byte>, serverDir: string, clientDir: string,
                         memory: nat -> Block, cut: nat -> nat): Stored
  {
    var cleared := Clear(disk, Components(clientDir), found);
    var got := ReceiveList(stream, memory, cut, 0);
    if got.blocked || !BelowServer(serverDir, got.list) then Stored(cleared, got.rest, got.clock, Waiting)
    else
      var list := ClientList(serverDir, clientDir, got.list);
      StoreAll(Rebuild(cleared, list), FilePaths(list), got.rest, cut, got.clock)
  }

  lemma FilesArriveAlone(bodies: seq<seq<byte>>, cut: nat -> nat, clock: nat)
    requires SmallFiles(bodies) && Uncrossed(bodies, [], cut, clock)
    ensures var r := ReceiveAll(|bodies|, Sent(bodies), cut, clock);
            r.contents == bodies && !r.blocked && r.rest == []
  {
    FilesArriveIffUncrossed(bodies, [], cut, clock);
    assert Sent(bodies) + [] == Sent(bodies);
  }

  /** Storing uncrossed bodies fills the paths with them. */
  lemma BodiesStored(disk: Disk, paths: seq<string>, bodies: seq<seq<byte>>, cut: nat -> nat, clock: nat)
    requires SmallFiles(bodies) && Uncrossed(bodies, [], cut, clock)
    requires |paths| == |bodies| && Fill(disk, paths, bodies).Some?
    ensures var stored := StoreAll(disk, paths, Sent(bodies), cut, clock);
            stored.outcome == Complete && stored.rest == [] && Some(stored.disk) == Fill(disk, paths, bodies)
  {
    FilesArriveAlone(bodies, cut, clock);
    StoreIsFill(disk, paths, Sent(bodies), cut, clock);
  }

  /** With whole records, the client rebuilds the server's list below its own directory. */
  lemma SessionIsStore(disk: Disk, found: seq<Found>, serverDir: string, clientDir: string, list: seq<Listed>,
                       tail: seq<byte>, memory: nat -> Block, cut: nat -> nat)
    requires SendableList(list) && BelowServer(serverDir, list) && WholeReads(|list|, cut, 0)
    ensures var mine, cleared := ClientList(serverDir, clientDir, list), Clear(disk, Components(clientDir), found);
            ClientSession(disk, found, ListWire(list, tail), serverDir, clientDir, memory, cut) ==
            StoreAll(Rebuild(cleared, mine), FilePaths(mine), tail, cut, |list|)
  {
    var got := ReceiveList(ListWire(list, tail), memory, cut, 0);
    assert got.list == list && !got.blocked && got.rest == tail && got.clock == |list| by {
      ListInStepIffWhole(list, tail, memory, cut, 0);
    }
  }

  /** In the end the client's directory holds the server's tree and nothing else, and the rest of the
      client's disk is as it was. What is neither file nor directory on the server is a directory. */
  ghost predicate IsMirror(disk': Disk, disk: Disk, base: Path, es: seq<Entry>) {
    forall p: Path :: Get(disk', p) ==
      match EntryAt(es, base, p)
      case Some(e) => Some(Finished(e))
      case None => if Below(base, p) then None else Get(disk, p)
  }

  /** If everything in the client's directory can be removed, every record of the list arrives in one
      piece and no `recv` crosses a file boundary, then the first part of the session makes the
      client's directory a mirror of the server's, byte for byte, and leaves nothing on the wire. */
  lemma SessionMirrors(disk: Disk, found: seq<Found>, serverDir: string, clientDir: string, es: seq<Entry>,
                       memory: nat -> Block, cut: nat -> nat)
    requires Get(disk, Components(clientDir)) == Some(Node.Folder)
    requires Distinct(found) && Lists(disk, Components(clientDir), found) && Removable(found)
    requires ValidTree(es) && SmallFiles(Bodies(es)) && SendableList(Flatten(serverDir, es))
    requires WholeReads(|Flatten(serverDir, es)|, cut, 0)
    requires Uncrossed(Bodies(es), [], cut, |Flatten(serverDir, es)|)
    ensures |Flatten(serverDir, es)| == |ListedContents(es)|
    ensures var sent := Flatten(serverDir, es);
            var stream := ListWire(sent, Sent(FileContents(sent, ListedContents(es))));
            var end := ClientSession(disk, found, stream, serverDir, clientDir, memory, cut);
            && end.outcome == Complete && end.rest == []
            && IsMirror(end.disk, disk, Components(clientDir), es)
  {
    var base, sent := Components(clientDir), Flatten(serverDir, es);
    var cleared := Clear(disk, base, found);
    ClearedHasRoom(disk, base, found, es);
    MirrorsServerTree(cleared, serverDir, clientDir, es);
    ListedContentsAreBodies(serverDir, es);
    SessionIsStore(disk, found, serverDir, clientDir, sent, Sent(Bodies(es)), memory, cut);
    var list := ClientList(serverDir, clientDir, sent);
    BodiesStored(Rebuild(cleared, list), FilePaths(list), Bodies(es), cut, |sent|);
    var end := StoreAll(Rebuild(cleared, list), FilePaths(list), Sent(Bodies(es)), cut, |sent|);
    ShownIsMirror(end.disk, disk, base, found, es);
  }

  lemma ShownIsMirror(disk': Disk, disk: Disk, base: Path, found: seq<Found>, es: seq<Entry>)
    requires Shows(disk', Clear(disk, base, found), base, es)
    requires EmptyDirectory(Clear(disk, base, found), base)
    ensures IsMirror(disk', disk, base, es)
  {
    PathsAreBelow(base, found);
    OnlyFoundGoes(disk, base, found);
    forall p: Path
      ensures Get(disk', p) ==
              match EntryAt(es, base, p)
              case Some(e) => Some(Finished(e))
              case None => if Below(base, p) then None else Get(disk, p)
    {
      assert Get(disk', p) == Mirrored(Clear(disk, base, found), base, es, p);
    }
  }
}
