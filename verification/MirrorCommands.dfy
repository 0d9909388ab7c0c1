/**
 The commands that carry later changes from the client to the server, as bytes on the wire, and what
 the server makes of them.

 Every command starts with the length of its tag and the tag; names are preceded by their length
 and read until they are complete. An update's contents are read 1024 bytes at a time, whatever
 the size announced, so they can run into the next command.
 */
module MirrorCommands {
  import opened Wrappers
  import opened MirrorPaths
  import opened MirrorTree
  import opened MirrorRoundTrip
  import opened MirrorStream
  import opened MirrorServer

  /** What the client reports; paths are relative to the base directory, with a leading separator. */
  datatype Command =
    | Create(path: string, size: int)
    | Delete(path: string)
    | Update(path: string, content: seq<byte>)

  function Tag(c: Command): (tag: string)
    ensures |tag| == 11 && Narrow(tag)
  {
    match c
    case Create(_, _) => "!_CREATE_!\n"
    case Delete(_) => "!_DELETE_!\n"
    case Update(_, _) => "!_UPDATE_!\n"
  }

  /** Names have `int` sizes; so has the file of a CREATE, or -1 if it is gone. */
  predicate Sendable(c: Command) {
    && Narrow(c.path) && |c.path| < LIMIT
    && (c.Create? ==> -1 <= c.size < LIMIT)
  }

  function NameField(path: string): seq<byte>
    requires Narrow(path) && |path| < LIMIT
  {
    Int(|path|, 4) + ToBytes(path)
  }

  /** What follows the tag of a command. */
  function Payload(c: Command): seq<byte>
    requires Sendable(c)
  {
    match c
    case Create(path, size) => NameField(path) + Int(size, 4)
    case Delete(path) => NameField(path)
    case Update(path, content) => SizeField(content) + (NameField(path) + content)
  }

  /** The commands sent one after the other, followed by `tail`. */
  function Frames(cs: seq<Command>, tail: seq<byte>): seq<byte>
    requires forall c <- cs :: Sendable(c)
  {
    if cs == [] then tail
    else
      assert cs[0] in cs;
      Frame(cs[0], Frames(cs[1..], tail))
  }

  /** Sending one command more appends its frame to the wire. */
  lemma {:induction false} FramesAppend(cs: seq<Command>, c: Command, tail: seq<byte>)
    requires (forall c' <- cs :: Sendable(c')) && Sendable(c)
    ensures forall c' <- cs + [c] :: Sendable(c')
    ensures Frames(cs + [c], tail) == Frames(cs, Frame(c, tail))
    decreases |cs|
  {
    if cs == [] {
      assert (cs + [c])[1..] == [];
    } else {
      assert cs[0] in cs;
      assert (cs + [c])[1..] == cs[1..] + [c];
      FramesAppend(cs[1..], c, tail);
    }
  }

  lemma {:induction false} FramesThen(cs: seq<Command>, tail: seq<byte>)
    requires forall c <- cs :: Sendable(c)
    ensures Frames(cs, tail) == Frames(cs, []) + tail
    decreases |cs|
  {
    if cs != [] {
      assert cs[0] in cs;
      FramesThen(cs[1..], tail);
      FrameThen(cs[0], Frames(cs[1..], []), tail);
    }
  }

  lemma FrameThen(c: Command, after: seq<byte>, tail: seq<byte>)
    requires Sendable(c)
    ensures Frame(c, after + tail) == Frame(c, after) + tail
  {
    SentTogether(Payload(c), after, tail);
    SentTogether(ToBytes(Tag(c)), Payload(c) + after, tail);
    SentTogether(Int(11, 4), ToBytes(Tag(c)) + (Payload(c) + after), tail);
  }

  /** So commands sent one after the other put on the wire what the server's parser is proved about. */
  lemma SentInTurn(cs: seq<Command>, c: Command)
    requires (forall c' <- cs :: Sendable(c')) && Sendable(c)
    ensures forall c' <- cs + [c] :: Sendable(c')
    ensures Frames(cs + [c], []) == Frames(cs, []) + Frame(c, [])
  {
    FramesAppend(cs, c, []);
    FramesThen(cs, Frame(c, []));
  }

  // ---------------------------------------------------------------------------------------
  // The client's senders: each appends one frame for a file below the base directory.

  function CreateOf(file: string, base: string, size: int): Command {
    Create(RemoveBasePath(file, base), size)
  }

  function DeleteOf(file: string, base: string): Command {
    Delete(RemoveBasePath(file, base))
  }

  function UpdateOf(file: string, base: string, content: seq<byte>): Command {
    Update(RemoveBasePath(file, base), content)
  }

  function Frame(c: Command, after: seq<byte>): seq<byte>
    requires Sendable(c)
  {
    Int(11, 4) + (ToBytes(Tag(c)) + (Payload(c) + after))
  }

  /** Sending one piece after another appends their concatenation. */
  lemma SentTogether(wire: seq<byte>, a: seq<byte>, b: seq<byte>)
    ensures (wire + a) + b == wire + (a + b)
  {
  }

  /** A header and a payload make a frame. */
  lemma Framed(c: Command)
    requires Sendable(c)
    ensures (Int(11, 4) + ToBytes(Tag(c))) + Payload(c) == Frame(c, [])
  {
    SentTogether(Int(11, 4), ToBytes(Tag(c)), Payload(c));
    assert Payload(c) + [] == Payload(c);
  }

  method SendTag(wire: seq<byte>, c: Command) returns (wire': seq<byte>)
    ensures wire' == wire + (Int(11, 4) + ToBytes(Tag(c)))
  {
    wire' := wire + Int(|Tag(c)|, 4);
    wire' := wire' + ToBytes(Tag(c));
    SentTogether(wire, Int(11, 4), ToBytes(Tag(c)));
  }

  method SendName(wire: seq<byte>, path: string) returns (wire': seq<byte>)
    requires Narrow(path) && |path| < LIMIT
    ensures wire' == wire + NameField(path)
  {
    wire' := wire + Int(|path|, 4);
    wire' := wire' + ToBytes(path);
    SentTogether(wire, Int(|path|, 4), ToBytes(path));
  }

  /** Contents go out in pieces of at most 1024 bytes. */
  method SendContent(wire: seq<byte>, content: seq<byte>) returns (wire': seq<byte>)
    ensures wire' == wire + content
  {
    wire' := wire;
    var sent := 0;
    while sent < |content|
      invariant sent <= |content|
      invariant wire' == wire + content[..sent]
    {
      var n := if |content| - sent < BUFFER_SIZE then |content| - sent else BUFFER_SIZE;
      assert content[..sent + n] == content[..sent] + content[sent..sent + n];
      SentTogether(wire, content[..sent], content[sent..sent + n]);
      wire' := wire' + content[sent..sent + n];
      sent := sent + n;
    }
    assert content[..sent] == content;
  }

  method CreatedDetected(wire: seq<byte>, file: string, base: string, size: int) returns (wire': seq<byte>)
    requires Sendable(CreateOf(file, base, size))
    ensures wire' == wire + Frame(CreateOf(file, base, size), [])
  {
    var c := CreateOf(file, base, size);
    var path := RemoveBasePath(file, base);
    var header := SendTag(wire, c);
    var named := SendName(header, path);
    wire' := named + Int(size, 4);
    SentTogether(header, NameField(path), Int(size, 4));
    SentTogether(wire, Int(11, 4) + ToBytes(Tag(c)), Payload(c));
    Framed(c);
  }

  method DeletedDetected(wire: seq<byte>, file: string, base: string) returns (wire': seq<byte>)
    requires Sendable(DeleteOf(file, base))
    ensures wire' == wire + Frame(DeleteOf(file, base), [])
  {
    var c := DeleteOf(file, base);
    var header := SendTag(wire, c);
    wire' := SendName(header, RemoveBasePath(file, base));
    SentTogether(wire, Int(11, 4) + ToBytes(Tag(c)), Payload(c));
    Framed(c);
  }

  method UpdateDetected(wire: seq<byte>, file: string, base: string, content: seq<byte>) returns (wire': seq<byte>)
    requires Sendable(UpdateOf(file, base, content))
    ensures wire' == wire + Frame(UpdateOf(file, base, content), [])
  {
    var c := UpdateOf(file, base, content);
    var path := RemoveBasePath(file, base);
    var header := SendTag(wire, c);
    var sized := header + SizeField(content);
    var named := SendName(sized, path);
    wire' := SendContent(named, content);
    SentTogether(sized, NameField(path), content);
    SentTogether(header, SizeField(content), NameField(path) + content);
    SentTogether(wire, Int(11, 4) + ToBytes(Tag(c)), Payload(c));
    Framed(c);
  }

  // ---------------------------------------------------------------------------------------
  // The server's parser.

  datatype Chunk = Chunk(data: seq<byte>, rest: seq<byte>, clock: nat, blocked: bool)

  /** Receive until exactly `n` bytes have arrived. */
  function ReceiveExactly(stream: seq<byte>, n: nat, cut: nat -> nat, clock: nat): (r: Chunk)
    ensures |r.rest| <= |stream|
    decreases n
  {
    if n == 0 then Chunk([], stream, clock, false)
    else if stream == [] then Chunk([], stream, clock, true)
    else
      var k := Delivered(cut, clock, n, |stream|);
      var r := ReceiveExactly(stream[k..], n - k, cut, clock + 1);
      r.(data := stream[..k] + r.data)
  }

  /** However the bytes trickle in, all `n` and no others are taken. */
  lemma {:induction false} ExactlyTakesPrefix(stream: seq<byte>, n: nat, cut: nat -> nat, clock: nat)
    requires n <= |stream|
    ensures var r := ReceiveExactly(stream, n, cut, clock);
            r.data == stream[..n] && r.rest == stream[n..] && !r.blocked
    decreases n
  {
    if n > 0 {
      var k := Delivered(cut, clock, n, |stream|);
      ExactlyTakesPrefix(stream[k..], n - k, cut, clock + 1);
      assert stream[k..][..n - k] == stream[k..n];
      assert stream[..n] == stream[..k] + stream[k..n];
      assert stream[k..][n - k..] == stream[n..];
    }
  }

  /** The server goes on, waits for more of the stream, or has ended. */
  datatype Status = Going | Waiting | Exited

  datatype Parsed = Parsed(event: Option<Command>, rest: seq<byte>, clock: nat, status: Status, disk: Disk)

  /** A length-prefixed name. */
  function ReceiveName(stream: seq<byte>, cut: nat -> nat, clock: nat): (r: Chunk)
    ensures |r.rest| <= |stream|
  {
    if |stream| < 4 then Chunk([], stream, clock, true)
    else
      var n := DecodeInt(stream[..4]);
      ReceiveExactly(stream[4..], if n < 0 then 0 else n, cut, clock)
  }

  /** What a command does to the server's disk. */
  function Apply(disk: Disk, base: string, c: Command): Made {
    match c
    case Create(path, _) => CreateOn(disk, ConfigurePath(path, base))
    case Delete(path) => Made(RemoveOn(disk, ConfigurePath(path, base)), true)
    case Update(path, content) => WriteOn(disk, ConfigurePath(path, base), content)
  }

  function Done(made: Made, c: Command, rest: seq<byte>, clock: nat): Parsed {
    if made.ok then Parsed(Some(c), rest, clock, Going, made.disk) else Parsed(None, rest, clock, Exited, made.disk)
  }

  /** `handle_create`. */
  function ParseCreate(disk: Disk, base: string, stream: seq<byte>, cut: nat -> nat, clock: nat): (r: Parsed)
    ensures |r.rest| <= |stream|
  {
    var name := ReceiveName(stream, cut, clock);
    if name.blocked || |name.rest| < 4 then Parsed(None, name.rest, name.clock, Waiting, disk)
    else
      var c := Create(FromBytes(name.data), DecodeInt(name.rest[..4]));
      Done(Apply(disk, base, c), c, name.rest[4..], name.clock)
  }

  /** `handle_delete`. */
  function ParseDelete(disk: Disk, base: string, stream: seq<byte>, cut: nat -> nat, clock: nat): (r: Parsed)
    ensures |r.rest| <= |stream|
  {
    var name := ReceiveName(stream, cut, clock);
    if name.blocked then Parsed(None, name.rest, name.clock, Waiting, disk)
    else
      var c := Delete(FromBytes(name.data));
      Done(Apply(disk, base, c), c, name.rest, name.clock)
  }

  /** `handle_update`: the file is opened before its contents arrive. */
  function ParseUpdate(disk: Disk, base: string, stream: seq<byte>, cut: nat -> nat, clock: nat): (r: Parsed)
    ensures |r.rest| <= |stream|
  {
    if |stream| < 8 then Parsed(None, stream, clock, Waiting, disk)
    else
      var name := ReceiveName(stream[8..], cut, clock);
      if name.blocked then Parsed(None, name.rest, name.clock, Waiting, disk)
      else
        var path := ConfigurePath(FromBytes(name.data), base);
        if !CanOpenForWriting(disk, path) then Parsed(None, name.rest, name.clock, Exited, disk)
        else
          var body := ReceiveBody(name.rest, DecodeInt(stream[..8]), cut, name.clock);
          var written := WriteOn(disk, path, body.content);
          if body.blocked then Parsed(None, body.rest, body.clock, Waiting, written.disk)
          else Done(written, Update(FromBytes(name.data), body.content), body.rest, body.clock)
  }

  /** `strncmp(buffer, tag, 11) == 0`. */
  predicate HasTag(message: seq<byte>, tag: string)
    requires Narrow(tag)
  {
    ToBytes(tag) <= message
  }

  /** What follows a message, by its tag. */
  function ParseTagged(disk: Disk, base: string, message: seq<byte>, stream: seq<byte>,
                       cut: nat -> nat, clock: nat): (r: Parsed)
    ensures |r.rest| <= |stream|
  {
    if HasTag(message, "!_UPDATE_!\n") then ParseUpdate(disk, base, stream, cut, clock)
    else if HasTag(message, "!_CREATE_!\n") then ParseCreate(disk, base, stream, cut, clock)
    else if HasTag(message, "!_DELETE_!\n") then ParseDelete(disk, base, stream, cut, clock)
    else Parsed(None, stream, clock, Going, disk)
  }

  /** One round of the server's loop: a length, a message, and the handler of its tag. */
  function ParseOne(disk: Disk, base: string, stream: seq<byte>, cut: nat -> nat, clock: nat): (r: Parsed)
    requires |stream| >= 4
    ensures |r.rest| < |stream|
  {
    var length := DecodeInt(stream[..4]);
    if length == -1 then Parsed(None, stream[4..], clock, Exited, disk)
    else if length <= 0 then Parsed(None, stream[4..], clock, Going, disk)
    else
      var message := ReceiveExactly(stream[4..], length, cut, clock);
      if message.blocked then Parsed(None, message.rest, message.clock, Waiting, disk)
      else ParseTagged(disk, base, message.data, message.rest, cut, message.clock)
  }

  /** The commands carried out, and where the server then stands. */
  datatype Served = Served(commands: seq<Command>, rest: seq<byte>, clock: nat, status: Status, disk: Disk)

  /** All commands the server carries out before it has to wait for more, or ends. */
  function ParseAll(disk: Disk, base: string, stream: seq<byte>, cut: nat -> nat, clock: nat): Served
    decreases |stream|
  {
    if |stream| < 4 then Served([], stream, clock, Waiting, disk)
    else
      var p := ParseOne(disk, base, stream, cut, clock);
      if !p.status.Going? then Served([], p.rest, p.clock, p.status, p.disk)
      else
        var r := ParseAll(p.disk, base, p.rest, cut, p.clock);
        if p.event.Some? then r.(commands := [p.event.value] + r.commands) else r
  }

  // ---------------------------------------------------------------------------------------
  // The server's loops compute the parser.

  /** The rest of a chunk, behind the bytes that have arrived. */
  ghost function ReceiveFrom(data: seq<byte>, stream: seq<byte>, n: nat, cut: nat -> nat, clock: nat): Chunk {
    var r := ReceiveExactly(stream, n, cut, clock);
    r.(data := data + r.data)
  }

  lemma ReceiveStep(data: seq<byte>, stream: seq<byte>, n: nat, cut: nat -> nat, clock: nat)
    requires n > 0
    ensures ReceiveFrom(data, stream, n, cut, clock) ==
            if stream == [] then Chunk(data, stream, clock, true)
            else
              var k := Delivered(cut, clock, n, |stream|);
              ReceiveFrom(data + stream[..k], stream[k..], n - k, cut, clock + 1)
  {
    if stream == [] {
      assert data + [] == data;
    } else {
      var k := Delivered(cut, clock, n, |stream|);
      SentTogether(data, stream[..k], ReceiveExactly(stream[k..], n - k, cut, clock + 1).data);
    }
  }

  lemma ReceiveEnds(data: seq<byte>, stream: seq<byte>, n: nat, cut: nat -> nat, clock: nat)
    ensures ReceiveFrom(data, stream, 0, cut, clock) == Chunk(data, stream, clock, false)
    ensures ReceiveFrom([], stream, n, cut, clock) == ReceiveExactly(stream, n, cut, clock)
  {
    assert data + [] == data;
  }

  method RecvExactly(socket: Socket, n: nat) returns (data: seq<byte>, blocked: bool)
    modifies socket
    ensures Chunk(data, socket.incoming, socket.clock, blocked)
            == ReceiveExactly(old(socket.incoming), n, socket.cut, old(socket.clock))
  {
    data, blocked := [], false;
    var bytesLeft: nat := n;
    ghost var all := ReceiveFrom(data, socket.incoming, n, socket.cut, socket.clock);
    ReceiveEnds(data, socket.incoming, n, socket.cut, socket.clock);
    while bytesLeft > 0
      invariant ReceiveFrom(data, socket.incoming, bytesLeft, socket.cut, socket.clock) == all
    {
      ReceiveStep(data, socket.incoming, bytesLeft, socket.cut, socket.clock);
      if socket.incoming == [] {
        blocked := true;
        return;
      }
      var more := socket.Recv(bytesLeft);
      data := data + more;
      bytesLeft := bytesLeft - |more|;
    }
    ReceiveEnds(data, socket.incoming, 0, socket.cut, socket.clock);
  }

  method RecvName(socket: Socket) returns (name: seq<byte>, blocked: bool)
    modifies socket
    ensures Chunk(name, socket.incoming, socket.clock, blocked)
            == ReceiveName(old(socket.incoming), socket.cut, old(socket.clock))
  {
    if |socket.incoming| < 4 {
      return [], true;
    }
    var n := socket.RecvInt(4);
    name, blocked := RecvExactly(socket, if n < 0 then 0 else n);
  }

  method HandleCreate(server: Server, socket: Socket) returns (event: Option<Command>, status: Status)
    modifies server, socket
    ensures Parsed(event, socket.incoming, socket.clock, status, server.disk) ==
            ParseCreate(old(server.disk), server.base, old(socket.incoming), socket.cut, old(socket.clock))
  {
    var name, dry := RecvName(socket);
    if dry || |socket.incoming| < 4 {
      return None, Waiting;
    }
    var size := socket.RecvInt(4);
    var ok := server.Create(ConfigurePath(FromBytes(name), server.base));
    event, status := if ok then Some(Create(FromBytes(name), size)) else None, if ok then Going else Exited;
  }

  method HandleDelete(server: Server, socket: Socket) returns (event: Option<Command>, status: Status)
    modifies server, socket
    ensures Parsed(event, socket.incoming, socket.clock, status, server.disk) ==
            ParseDelete(old(server.disk), server.base, old(socket.incoming), socket.cut, old(socket.clock))
  {
    var name, dry := RecvName(socket);
    if dry {
      return None, Waiting;
    }
    server.Remove(ConfigurePath(FromBytes(name), server.base));
    event, status := Some(Delete(FromBytes(name))), Going;
  }

  method HandleUpdate(server: Server, socket: Socket) returns (event: Option<Command>, status: Status)
    modifies server, socket
    ensures Parsed(event, socket.incoming, socket.clock, status, server.disk) ==
            ParseUpdate(old(server.disk), server.base, old(socket.incoming), socket.cut, old(socket.clock))
  {
    if |socket.incoming| < 8 {
      return None, Waiting;
    }
    var size := socket.RecvInt(8);
    var name, dry := RecvName(socket);
    if dry {
      return None, Waiting;
    }
    var path := ConfigurePath(FromBytes(name), server.base);
    if !CanOpenForWriting(server.disk, path) {
      return None, Exited;
    }
    var content, short := SaveBody(socket, size);
    server.disk := server.disk[Components(path) := Plain(content)];
    event, status := if short then None else Some(Update(FromBytes(name), content)), if short then Waiting else Going;
  }

  /** The handler of a message's tag. */
  method HandleMessage(server: Server, socket: Socket, message: seq<byte>)
    returns (event: Option<Command>, status: Status)
    modifies server, socket
    ensures Parsed(event, socket.incoming, socket.clock, status, server.disk) ==
            ParseTagged(old(server.disk), server.base, message, old(socket.incoming), socket.cut, old(socket.clock))
  {
    event, status := None, Going;
    if HasTag(message, "!_UPDATE_!\n") {
      event, status := HandleUpdate(server, socket);
    } else if HasTag(message, "!_CREATE_!\n") {
      event, status := HandleCreate(server, socket);
    } else if HasTag(message, "!_DELETE_!\n") {
      event, status := HandleDelete(server, socket);
    }
  }

  method ServeOne(server: Server, socket: Socket) returns (event: Option<Command>, status: Status)
    requires |socket.incoming| >= 4
    modifies server, socket
    ensures Parsed(event, socket.incoming, socket.clock, status, server.disk) ==
            ParseOne(old(server.disk), server.base, old(socket.incoming), socket.cut, old(socket.clock))
  {
    event, status := None, Going;
    var length := socket.RecvInt(4);
    if length == -1 {
      return None, Exited;
    }
    if length > 0 {
      var message, dry := RecvExactly(socket, length);
      if dry {
        return None, Waiting;
      }
      event, status := HandleMessage(server, socket, message);
    }
  }

  /** The service of the rest, after the commands already carried out. */
  ghost function ServedFrom(commands: seq<Command>, disk: Disk, base: string, stream: seq<byte>,
                            cut: nat -> nat, clock: nat): Served
  {
    var r := ParseAll(disk, base, stream, cut, clock);
    r.(commands := commands + r.commands)
  }

  lemma ParseStep(commands: seq<Command>, disk: Disk, base: string, stream: seq<byte>, cut: nat -> nat, clock: nat)
    requires |stream| >= 4
    ensures var p := ParseOne(disk, base, stream, cut, clock);
            ServedFrom(commands, disk, base, stream, cut, clock) ==
            if !p.status.Going? then Served(commands, p.rest, p.clock, p.status, p.disk)
            else ServedFrom(if p.event.Some? then commands + [p.event.value] else commands,
                            p.disk, base, p.rest, cut, p.clock)
  {
    var p := ParseOne(disk, base, stream, cut, clock);
    if !p.status.Going? {
      assert commands + [] == commands;
    } else if p.event.Some? {
      CommandAppended(commands, p.event.value, ParseAll(p.disk, base, p.rest, cut, p.clock).commands);
    }
  }

  lemma CommandAppended(a: seq<Command>, c: Command, b: seq<Command>)
    ensures a + ([c] + b) == a + [c] + b
  {
  }

  /** The command loop of `thread_function`, until it has to wait or the server ends. */
  method ServeCommands(server: Server, socket: Socket) returns (commands: seq<Command>, status: Status)
    modifies server, socket
    ensures Served(commands, socket.incoming, socket.clock, status, server.disk) ==
            ParseAll(old(server.disk), server.base, old(socket.incoming), socket.cut, old(socket.clock))
  {
    commands, status := [], Going;
    ghost var all := ParseAll(server.disk, server.base, socket.incoming, socket.cut, socket.clock);
    while |socket.incoming| >= 4
      invariant ServedFrom(commands, server.disk, server.base, socket.incoming, socket.cut, socket.clock) == all
      decreases |socket.incoming|
    {
      ParseStep(commands, server.disk, server.base, socket.incoming, socket.cut, socket.clock);
      var event, after := ServeOne(server, socket);
      if !after.Going? {
        return commands, after;
      }
      if event.Some? {
        commands := commands + [event.value];
      }
    }
    status := Waiting;
    assert commands + [] == commands;
  }

  // ---------------------------------------------------------------------------------------
  // Any sequence of commands is recovered exactly.

  predicate AllSendable(cs: seq<Command>) {
    forall c <- cs :: Sendable(c)
  }

  lemma NameReceived(path: string, after: seq<byte>, cut: nat -> nat, clock: nat)
    requires Narrow(path) && |path| < LIMIT
    ensures var r := ReceiveName(NameField(path) + after, cut, clock);
            r.data == ToBytes(path) && r.rest == after && !r.blocked
  {
    var stream := NameField(path) + after;
    assert stream[..4] == Int(|path|, 4) && stream[4..] == ToBytes(path) + after;
    ExactlyTakesPrefix(stream[4..], |path|, cut, clock);
    assert (ToBytes(path) + after)[..|path|] == ToBytes(path);
    assert (ToBytes(path) + after)[|path|..] == after;
  }

  /** A length of 0 or below is an empty name. */
  lemma EmptyName(length: int, after: seq<byte>, cut: nat -> nat, clock: nat)
    requires -LIMIT <= length <= 0
    ensures ReceiveName(Int(length, 4) + after, cut, clock) == Chunk([], after, clock, false)
  {
    var stream := Int(length, 4) + after;
    assert stream[..4] == Int(length, 4) && stream[4..] == after;
  }

  /** The clock once a name has been received. */
  function AfterName(path: string, after: seq<byte>, cut: nat -> nat, clock: nat): nat
    requires Narrow(path) && |path| < LIMIT
  {
    ReceiveName(NameField(path) + after, cut, clock).clock
  }

  lemma CreateParsed(disk: Disk, base: string, path: string, size: int, after: seq<byte>, cut: nat -> nat, clock: nat)
    requires Sendable(Create(path, size))
    ensures var c := Create(path, size);
            ParseCreate(disk, base, Payload(c) + after, cut, clock) ==
            Done(Apply(disk, base, c), c, after, AfterName(path, Int(size, 4) + after, cut, clock))
  {
    var field := Int(size, 4);
    SentTogether(NameField(path), field, after);
    NameReceived(path, field + after, cut, clock);
    BytesRoundTrip(path);
    assert (field + after)[..4] == field && (field + after)[4..] == after;
  }

  lemma DeleteParsed(disk: Disk, base: string, path: string, after: seq<byte>, cut: nat -> nat, clock: nat)
    requires Sendable(Delete(path))
    ensures var c := Delete(path);
            ParseDelete(disk, base, Payload(c) + after, cut, clock) ==
            Done(Apply(disk, base, c), c, after, AfterName(path, after, cut, clock))
  {
    NameReceived(path, after, cut, clock);
    BytesRoundTrip(path);
  }

  /** The contents' size survives the `int`, and no `recv` of them runs into the bytes behind them. */
  predicate UpdateUncrossed(path: string, content: seq<byte>, after: seq<byte>, cut: nat -> nat, clock: nat)
    requires Sendable(Update(path, content))
  {
    && |content| < LIMIT
    && BodyUncrossed(|content|, |content + after|, cut, AfterName(path, content + after, cut, clock))
  }

  /** A command has been carried out, but not the one sent: an update of the same path with other contents. */
  predicate SomethingElse(r: Parsed, c: Command) {
    r.event.Some? && r.event.value.Update? && c.Update?
    && r.event.value.path == c.path && r.event.value.content != c.content
  }

  lemma UpdateParsed(disk: Disk, base: string, path: string, content: seq<byte>, after: seq<byte>,
                     cut: nat -> nat, clock: nat)
    requires Sendable(Update(path, content))
    ensures var c := Update(path, content);
            var r := ParseUpdate(disk, base, Payload(c) + after, cut, clock);
            if !Apply(disk, base, c).ok then r.status.Exited? && r.event == None && r.disk == disk
            else if UpdateUncrossed(path, content, after, cut, clock)
            then r == Done(Apply(disk, base, c), c, after, AfterUpdate(path, content, after, cut, clock))
            else r.status.Going? && SomethingElse(r, c)
  {
    var stream := Payload(Update(path, content)) + after;
    UpdateFields(path, content, after);
    NameReceived(path, content + after, cut, clock);
    BytesRoundTrip(path);
    FirstBody(content, after, cut, AfterName(path, content + after, cut, clock));
  }

  lemma UpdateFields(path: string, content: seq<byte>, after: seq<byte>)
    requires Sendable(Update(path, content))
    ensures var stream := Payload(Update(path, content)) + after;
            && |stream| >= 8 && DecodeInt(stream[..8]) == ToInt32(|content|)
            && stream[8..] == NameField(path) + (content + after)
  {
    var size := SizeField(content);
    IntFits(ToInt32(|content|));
    DecodeEncodeInt(ToInt32(|content|), 8);
    SentTogether(size, NameField(path) + content, after);
    SentTogether(NameField(path), content, after);
    assert (size + (NameField(path) + (content + after)))[..8] == size;
  }

  /** The clock once an update has been received. */
  function AfterUpdate(path: string, content: seq<byte>, after: seq<byte>, cut: nat -> nat, clock: nat): nat
    requires Sendable(Update(path, content))
  {
    ReceiveBody(content + after, ToInt32(|content|), cut, AfterName(path, content + after, cut, clock)).clock
  }

  lemma TagsDiffer(c: Command, tag: string)
    requires tag == "!_UPDATE_!\n" || tag == "!_CREATE_!\n" || tag == "!_DELETE_!\n"
    ensures Narrow(tag) && (HasTag(ToBytes(Tag(c)), tag) <==> tag == Tag(c))
  {
    if tag != Tag(c) {
      assert ToBytes(tag)[2] != ToBytes(Tag(c))[2];
    }
  }

  /** Where the parser stands once a command's tag is in. */
  function AfterTag(c: Command, after: seq<byte>, cut: nat -> nat, clock: nat): nat
    requires Sendable(c)
  {
    ReceiveExactly(ToBytes(Tag(c)) + (Payload(c) + after), 11, cut, clock).clock
  }

  /** A command's contents, if it has any, stay clear of what follows. */
  predicate CommandUncrossed(c: Command, after: seq<byte>, cut: nat -> nat, clock: nat)
    requires Sendable(c)
  {
    c.Update? ==> UpdateUncrossed(c.path, c.content, after, cut, AfterTag(c, after, cut, clock))
  }

  /** The clock once the whole command has been received. */
  function AfterCommand(c: Command, after: seq<byte>, cut: nat -> nat, clock: nat): nat
    requires Sendable(c)
  {
    var at := AfterTag(c, after, cut, clock);
    match c
    case Create(path, size) => AfterName(path, Int(size, 4) + after, cut, at)
    case Delete(path) => AfterName(path, after, cut, at)
    case Update(path, content) => AfterUpdate(path, content, after, cut, at)
  }

  /** The handler of a command. */
  function Handle(disk: Disk, base: string, c: Command, rest: seq<byte>, cut: nat -> nat, clock: nat): Parsed {
    match c
    case Create(_, _) => ParseCreate(disk, base, rest, cut, clock)
    case Delete(_) => ParseDelete(disk, base, rest, cut, clock)
    case Update(_, _) => ParseUpdate(disk, base, rest, cut, clock)
  }

  /** A tag leads to its handler, whatever follows. */
  lemma TagThen(disk: Disk, base: string, c: Command, rest: seq<byte>, cut: nat -> nat, clock: nat)
    ensures var behind := ToBytes(Tag(c)) + rest;
            var m := ReceiveExactly(behind, 11, cut, clock);
            && m.data == ToBytes(Tag(c)) && m.rest == rest && !m.blocked
            && ParseTagged(disk, base, m.data, rest, cut, m.clock) == Handle(disk, base, c, rest, cut, m.clock)
  {
    var behind := ToBytes(Tag(c)) + rest;
    ExactlyTakesPrefix(behind, 11, cut, clock);
    assert behind[..11] == ToBytes(Tag(c)) && behind[11..] == rest;
    TagsDiffer(c, "!_UPDATE_!\n");
    TagsDiffer(c, "!_CREATE_!\n");
    TagsDiffer(c, "!_DELETE_!\n");
  }

  lemma TagRead(disk: Disk, base: string, c: Command, rest: seq<byte>, cut: nat -> nat, clock: nat)
    ensures var behind := ToBytes(Tag(c)) + rest;
            && |Int(11, 4) + behind| >= 4
            && ParseOne(disk, base, Int(11, 4) + behind, cut, clock)
               == Handle(disk, base, c, rest, cut, ReceiveExactly(behind, 11, cut, clock).clock)
  {
    var stream := Int(11, 4) + (ToBytes(Tag(c)) + rest);
    assert stream[..4] == Int(11, 4) && stream[4..] == ToBytes(Tag(c)) + rest;
    TagThen(disk, base, c, rest, cut, clock);
  }

  /** The tag of a command is read completely and leads to its own handler. */
  lemma TagParsed(disk: Disk, base: string, c: Command, after: seq<byte>, cut: nat -> nat, clock: nat)
    requires Sendable(c)
    ensures |Frame(c, after)| >= 4
    ensures ParseOne(disk, base, Frame(c, after), cut, clock)
            == Handle(disk, base, c, Payload(c) + after, cut, AfterTag(c, after, cut, clock))
  {
    TagRead(disk, base, c, Payload(c) + after, cut, clock);
  }

  /** A command the server's disk does not admit ends the server. Any other is recovered and carried out,
      and the stream left just behind it, exactly if its contents stay clear of what follows; if not, it
      is an update, and the file gets other contents. */
  lemma CommandParsed(disk: Disk, base: string, c: Command, after: seq<byte>, cut: nat -> nat, clock: nat)
    requires Sendable(c)
    ensures |Frame(c, after)| >= 4
    ensures var r, made := ParseOne(disk, base, Frame(c, after), cut, clock), Apply(disk, base, c);
            if !made.ok then r.status.Exited? && r.event == None && r.disk == made.disk
            else if CommandUncrossed(c, after, cut, clock)
            then r == Parsed(Some(c), after, AfterCommand(c, after, cut, clock), Going, made.disk)
            else r.status.Going? && SomethingElse(r, c)
  {
    TagParsed(disk, base, c, after, cut, clock);
    var at := AfterTag(c, after, cut, clock);
    match c
    case Create(path, size) => CreateParsed(disk, base, path, size, after, cut, at);
    case Delete(path) => DeleteParsed(disk, base, path, after, cut, at);
    case Update(path, content) => UpdateParsed(disk, base, path, content, after, cut, at);
  }

  /** The bytes of each command. */
  lemma WireFormat(c: Command)
    requires Sendable(c)
    ensures var path := Int(|c.path|, 4) + ToBytes(c.path);
            Frame(c, []) ==
            match c
            case Create(_, size) => Int(11, 4) + ToBytes("!_CREATE_!\n") + path + Int(size, 4)
            case Delete(_) => Int(11, 4) + ToBytes("!_DELETE_!\n") + path
            case Update(_, content) => Int(11, 4) + ToBytes("!_UPDATE_!\n") + SizeField(content) + path + content
  {
    var tag, path := ToBytes(Tag(c)), NameField(c.path);
    Framed(c);
    match c
    case Create(_, size) => SentTogether(Int(11, 4) + tag, path, Int(size, 4));
    case Delete(_) =>
    case Update(_, content) =>
      SentTogether(SizeField(content), path, content);
      SentTogether(Int(11, 4) + tag, SizeField(content) + path, content);
      SentTogether(Int(11, 4) + tag, SizeField(content), path);
  }

  // ---------------------------------------------------------------------------------------
  // A frame cut off anywhere.

  lemma {:induction false} ExactlyWaits(stream: seq<byte>, n: nat, cut: nat -> nat, clock: nat)
    requires |stream| < n
    ensures ReceiveExactly(stream, n, cut, clock).blocked
    decreases |stream|
  {
    if stream != [] {
      var k := Delivered(cut, clock, n, |stream|);
      ExactlyWaits(stream[k..], n - k, cut, clock + 1);
    }
  }

  lemma NameWaits(path: string, stream: seq<byte>, cut: nat -> nat, clock: nat)
    requires Narrow(path) && |path| < LIMIT && stream < NameField(path)
    ensures ReceiveName(stream, cut, clock).blocked
  {
    if |stream| >= 4 {
      assert stream[..4] == NameField(path)[..4] == Int(|path|, 4);
      ExactlyWaits(stream[4..], |path|, cut, clock);
    }
  }

  /** A prefix of two pieces ends in the first or in the second. */
  lemma PrefixOfTwo(stream: seq<byte>, a: seq<byte>, b: seq<byte>)
    requires stream <= a + b
    ensures if |stream| < |a| then stream < a else stream == a + b[..|stream| - |a|]
  {
  }

  /** The bytes of an update before its contents. */
  function BeforeContent(path: string): nat {
    12 + |path|
  }

  predicate Unchanged(r: Parsed, disk: Disk) {
    r.status.Waiting? && r.event == None && r.disk == disk
  }

  /** Of a command's payload `n` bytes have come: it is not carried out, and the disk is as it was, except
      that of an update whose name has arrived the file holds what has come of the contents. If that
      file cannot be opened, the server has ended already. */
  predicate CutShort(r: Parsed, disk: Disk, base: string, c: Command, n: nat) {
    && r.event == None
    && if !c.Update? || n < BeforeContent(c.path) then Unchanged(r, disk)
       else if !CanOpenForWriting(disk, ConfigurePath(c.path, base)) then r.status.Exited? && r.disk == disk
       else
         && n - BeforeContent(c.path) <= |c.content| && r.status.Waiting?
         && r.disk == disk[Components(ConfigurePath(c.path, base)) := Plain(c.content[..n - BeforeContent(c.path)])]
  }

  lemma CreateWaits(disk: Disk, base: string, path: string, size: int, stream: seq<byte>, cut: nat -> nat, clock: nat)
    requires Sendable(Create(path, size)) && stream < Payload(Create(path, size))
    ensures Unchanged(ParseCreate(disk, base, stream, cut, clock), disk)
  {
    PrefixOfTwo(stream, NameField(path), Int(size, 4));
    if |stream| < |NameField(path)| {
      NameWaits(path, stream, cut, clock);
    } else {
      NameReceived(path, Int(size, 4)[..|stream| - |NameField(path)|], cut, clock);
    }
  }

  lemma DeleteWaits(disk: Disk, base: string, path: string, stream: seq<byte>, cut: nat -> nat, clock: nat)
    requires Sendable(Delete(path)) && stream < Payload(Delete(path))
    ensures Unchanged(ParseDelete(disk, base, stream, cut, clock), disk)
  {
    NameWaits(path, stream, cut, clock);
  }

  lemma UpdateWaitsForName(disk: Disk, base: string, path: string, content: seq<byte>, stream: seq<byte>,
                           cut: nat -> nat, clock: nat)
    requires Sendable(Update(path, content)) && stream < SizeField(content) + NameField(path)
    ensures Unchanged(ParseUpdate(disk, base, stream, cut, clock), disk)
  {
    PrefixOfTwo(stream, SizeField(content), NameField(path));
    if |stream| >= 8 {
      var behind := NameField(path)[..|stream| - 8];
      assert stream[8..] == behind;
      NameWaits(path, behind, cut, clock);
    }
  }

  lemma UpdateWaitsForContent(disk: Disk, base: string, path: string, content: seq<byte>, part: seq<byte>,
                              cut: nat -> nat, clock: nat)
    requires Sendable(Update(path, content)) && |content| < LIMIT && part < content
    ensures var r := ParseUpdate(disk, base, SizeField(content) + (NameField(path) + part), cut, clock);
            var file := ConfigurePath(path, base);
            && r.event == None
            && if !CanOpenForWriting(disk, file) then r.status.Exited? && r.disk == disk
               else r.status.Waiting? && r.disk == disk[Components(file) := Plain(part)]
  {
    var size, behind := SizeField(content), NameField(path) + part;
    assert (size + behind)[..8] == size && (size + behind)[8..] == behind;
    NameReceived(path, part, cut, clock);
    BytesRoundTrip(path);
    SizeRead(content);
    BodyWaits(part, |content|, cut, AfterName(path, part, cut, clock));
  }

  lemma UpdateWaits(disk: Disk, base: string, path: string, content: seq<byte>, stream: seq<byte>,
                    cut: nat -> nat, clock: nat)
    requires Sendable(Update(path, content)) && |content| < LIMIT && stream < Payload(Update(path, content))
    ensures CutShort(ParseUpdate(disk, base, stream, cut, clock), disk, base, Update(path, content), |stream|)
  {
    UpdateSplit(path, content, stream);
    if |stream| < BeforeContent(path) {
      UpdateWaitsForName(disk, base, path, content, stream, cut, clock);
    } else {
      var part := content[..|stream| - BeforeContent(path)];
      UpdateWaitsForContent(disk, base, path, content, part, cut, clock);
      ContentCutShort(ParseUpdate(disk, base, stream, cut, clock), disk, base, path, content, |stream|, part);
    }
  }

  lemma UpdateSplit(path: string, content: seq<byte>, stream: seq<byte>)
    requires Sendable(Update(path, content)) && stream < Payload(Update(path, content))
    ensures var size, name, n := SizeField(content), NameField(path), |stream| - BeforeContent(path);
            if n < 0 then stream < size + name
            else n < |content| && stream == size + (name + content[..n])
  {
    var size, name := SizeField(content), NameField(path);
    assert size + (name + content) == size + name + content;
    PrefixOfTwo(stream, size + name, content);
    if |stream| >= BeforeContent(path) {
      SentTogether(size, name, content[..|stream| - BeforeContent(path)]);
    }
  }

  lemma ContentCutShort(r: Parsed, disk: Disk, base: string, path: string, content: seq<byte>, n: nat, part: seq<byte>)
    requires BeforeContent(path) <= n <= BeforeContent(path) + |content|
    requires part == content[..n - BeforeContent(path)] && r.event == None
    requires if !CanOpenForWriting(disk, ConfigurePath(path, base)) then r.status.Exited? && r.disk == disk
             else r.status.Waiting? && r.disk == disk[Components(ConfigurePath(path, base)) := Plain(part)]
    ensures CutShort(r, disk, base, Update(path, content), n)
  {
  }

  lemma SizeRead(content: seq<byte>)
    requires |content| < LIMIT
    ensures DecodeInt(SizeField(content)) == |content|
  {
    IntFits(|content|);
    DecodeEncodeInt(|content|, 8);
  }

  lemma PayloadWaits(disk: Disk, base: string, c: Command, part: seq<byte>, cut: nat -> nat, clock: nat)
    requires Sendable(c) && (c.Update? ==> |c.content| < LIMIT) && part < Payload(c)
    ensures CutShort(Handle(disk, base, c, part, cut, clock), disk, base, c, |part|)
  {
    match c
    case Create(path, size) => CreateWaits(disk, base, path, size, part, cut, clock);
    case Delete(path) => DeleteWaits(disk, base, path, part, cut, clock);
    case Update(path, content) => UpdateWaits(disk, base, path, content, part, cut, clock);
  }

  /** However much of a frame is missing at its end, the server waits for the rest. */
  lemma CutFrameWaits(disk: Disk, base: string, c: Command, stream: seq<byte>, cut: nat -> nat, clock: nat)
    requires Sendable(c) && (c.Update? ==> |c.content| < LIMIT) && stream < Frame(c, []) && |stream| >= 4
    ensures CutShort(ParseOne(disk, base, stream, cut, clock), disk, base, c,
                     if |stream| < 15 then 0 else |stream| - 15)
  {
    var tag, payload := ToBytes(Tag(c)), Payload(c);
    Framed(c);
    PrefixOfTwo(stream, Int(11, 4) + tag, payload);
    if |stream| < 15 {
      CutInTag(disk, base, c, stream, cut, clock);
    } else {
      var part := payload[..|stream| - 15];
      assert stream == Int(11, 4) + (tag + part);
      TagRead(disk, base, c, part, cut, clock);
      PayloadWaits(disk, base, c, part, cut, ReceiveExactly(tag + part, 11, cut, clock).clock);
    }
  }

  lemma CutInTag(disk: Disk, base: string, c: Command, stream: seq<byte>, cut: nat -> nat, clock: nat)
    requires 4 <= |stream| && stream < Int(11, 4) + ToBytes(Tag(c))
    ensures Unchanged(ParseOne(disk, base, stream, cut, clock), disk)
  {
    assert stream[..4] == (Int(11, 4) + ToBytes(Tag(c)))[..4] == Int(11, 4);
    ExactlyWaits(stream[4..], 11, cut, clock);
  }

  // ---------------------------------------------------------------------------------------
  // Messages that are no command.

  /** What stands behind a tag in its message is ignored. */
  lemma TagIsEnough(disk: Disk, base: string, c: Command, more: seq<byte>, stream: seq<byte>,
                    cut: nat -> nat, clock: nat)
    ensures ParseTagged(disk, base, ToBytes(Tag(c)) + more, stream, cut, clock)
            == ParseTagged(disk, base, ToBytes(Tag(c)), stream, cut, clock)
  {
    TagWithin(c, "!_UPDATE_!\n", more);
    TagWithin(c, "!_CREATE_!\n", more);
    TagWithin(c, "!_DELETE_!\n", more);
  }

  lemma TagWithin(c: Command, tag: string, more: seq<byte>)
    requires tag == "!_UPDATE_!\n" || tag == "!_CREATE_!\n" || tag == "!_DELETE_!\n"
    ensures Narrow(tag) && (HasTag(ToBytes(Tag(c)) + more, tag) <==> HasTag(ToBytes(Tag(c)), tag))
  {
    TagsDiffer(c, tag);
    assert (ToBytes(Tag(c)) + more)[..11] == ToBytes(Tag(c));
  }

  /** The message begins with no command's tag. */
  ghost predicate Untagged(message: seq<byte>) {
    forall c: Command {:trigger Tag(c)} :: !(ToBytes(Tag(c)) <= message)
  }

  lemma UntaggedIgnored(disk: Disk, base: string, message: seq<byte>, stream: seq<byte>, cut: nat -> nat, clock: nat)
    requires Untagged(message)
    ensures ParseTagged(disk, base, message, stream, cut, clock) == Parsed(None, stream, clock, Going, disk)
  {
    assert Tag(Update("", [])) == "!_UPDATE_!\n" && Tag(Create("", 0)) == "!_CREATE_!\n";
    assert Tag(Delete("")) == "!_DELETE_!\n";
  }

  /** Messages that are no command: a length of -1 ends the server, any other length below 1 is skipped,
      and so is a message that begins with no command's tag. The disk stays as it is. */
  lemma OtherMessages(disk: Disk, base: string, length: int, message: seq<byte>, after: seq<byte>,
                      cut: nat -> nat, clock: nat)
    requires -LIMIT <= length < LIMIT && |message| == (if length < 0 then 0 else length) && Untagged(message)
    ensures |Int(length, 4) + (message + after)| >= 4
    ensures var r := ParseOne(disk, base, Int(length, 4) + (message + after), cut, clock);
            && r.event == None && r.disk == disk && r.rest == after
            && r.status == if length == -1 then Exited else Going
  {
    var stream := Int(length, 4) + (message + after);
    assert stream[..4] == Int(length, 4) && stream[4..] == message + after;
    if length > 0 {
      ExactlyTakesPrefix(message + after, length, cut, clock);
      assert (message + after)[..length] == message && (message + after)[length..] == after;
      UntaggedIgnored(disk, base, message, after, cut, ReceiveExactly(message + after, length, cut, clock).clock);
    } else {
      assert message + after == after;
    }
  }

  predicate CommandsUncrossed(cs: seq<Command>, cut: nat -> nat, clock: nat)
    requires AllSendable(cs)
    decreases |cs|
  {
    cs == [] ||
    (assert cs[0] in cs;
     var after := Frames(cs[1..], []);
     && CommandUncrossed(cs[0], after, cut, clock)
     && CommandsUncrossed(cs[1..], cut, AfterCommand(cs[0], after, cut, clock)))
  }

  /** What the commands do one after the other, up to the first that ends the server. */
  function ApplyAll(disk: Disk, base: string, cs: seq<Command>): Made
    decreases |cs|
  {
    if cs == [] then Made(disk, true)
    else
      var made := Apply(disk, base, cs[0]);
      if made.ok then ApplyAll(made.disk, base, cs[1..]) else made
  }

  /** The first command is carried out and the others follow, or the server does something else. */
  lemma FirstCommand(disk: Disk, base: string, cs: seq<Command>, cut: nat -> nat, clock: nat)
    requires cs != [] && AllSendable(cs)
    ensures var after, all := Frames(cs[1..], []), ParseAll(disk, base, Frames(cs, []), cut, clock);
            var made := Apply(disk, base, cs[0]);
            assert cs[0] in cs;
            if CommandUncrossed(cs[0], after, cut, clock) && made.ok then
              var others := ParseAll(made.disk, base, after, cut, AfterCommand(cs[0], after, cut, clock));
              all == others.(commands := [cs[0]] + others.commands)
            else all.commands != cs
  {
    assert cs[0] in cs;
    CommandParsed(disk, base, cs[0], Frames(cs[1..], []), cut, clock);
  }

  lemma CommandsStep(c: Command, others: seq<Command>, cs: seq<Command>)
    requires cs != []
    ensures [c] + others == cs <==> c == cs[0] && others == cs[1..]
  {
    assert ([c] + others)[1..] == others;
  }

  /** However tags and names are delivered, the server carries out the very sequence of commands sent
      if and only if no update's contents run into the command behind them and its disk admits each
      of them; it then has used up the stream, and its disk is what the commands make of it. */
  lemma {:induction false} CommandsRecoveredIff(disk: Disk, base: string, cs: seq<Command>, cut: nat -> nat, clock: nat)
    requires AllSendable(cs)
    ensures var r, made := ParseAll(disk, base, Frames(cs, []), cut, clock), ApplyAll(disk, base, cs);
            && (r.commands == cs <==> CommandsUncrossed(cs, cut, clock) && made.ok)
            && (r.commands == cs ==> r.rest == [] && r.status == Waiting && r.disk == made.disk)
    decreases |cs|
  {
    if cs != [] {
      assert cs[0] in cs;
      var after, made := Frames(cs[1..], []), Apply(disk, base, cs[0]);
      FirstCommand(disk, base, cs, cut, clock);
      if CommandUncrossed(cs[0], after, cut, clock) && made.ok {
        var at := AfterCommand(cs[0], after, cut, clock);
        CommandsRecoveredIff(made.disk, base, cs[1..], cut, at);
        CommandsStep(cs[0], ParseAll(made.disk, base, after, cut, at).commands, cs);
      }
    }
  }

  /** If the commands stay apart but the server's disk does not admit one of them, the server carries out
      those before it and ends there. */
  lemma {:induction false} EndsAtFailure(disk: Disk, base: string, cs: seq<Command>, cut: nat -> nat, clock: nat)
    requires AllSendable(cs) && CommandsUncrossed(cs, cut, clock) && !ApplyAll(disk, base, cs).ok
    ensures var r := ParseAll(disk, base, Frames(cs, []), cut, clock);
            && r.commands == cs[..Admitted(disk, base, cs)] && r.status == Exited
            && r.disk == ApplyAll(disk, base, cs).disk
    decreases |cs|
  {
    assert cs[0] in cs;
    var after, made := Frames(cs[1..], []), Apply(disk, base, cs[0]);
    if made.ok {
      var at := AfterCommand(cs[0], after, cut, clock);
      FirstCommand(disk, base, cs, cut, clock);
      EndsAtFailure(made.disk, base, cs[1..], cut, at);
      FirstThenPrefix(cs, Admitted(made.disk, base, cs[1..]));
    } else {
      FirstNotAdmitted(disk, base, cs, cut, clock);
    }
  }

  lemma FirstNotAdmitted(disk: Disk, base: string, cs: seq<Command>, cut: nat -> nat, clock: nat)
    requires cs != [] && AllSendable(cs) && !Apply(disk, base, cs[0]).ok
    ensures var r := ParseAll(disk, base, Frames(cs, []), cut, clock);
            r.commands == [] && r.status == Exited && r.disk == Apply(disk, base, cs[0]).disk
  {
    assert cs[0] in cs;
    CommandParsed(disk, base, cs[0], Frames(cs[1..], []), cut, clock);
  }

  lemma FirstThenPrefix(cs: seq<Command>, n: nat)
    requires n < |cs|
    ensures [cs[0]] + cs[1..][..n] == cs[..n + 1]
  {
  }

  /** How many commands the disk admits one after the other. */
  function Admitted(disk: Disk, base: string, cs: seq<Command>): (n: nat)
    ensures n <= |cs|
    decreases |cs|
  {
    if cs == [] then 0
    else
      var made := Apply(disk, base, cs[0]);
      if made.ok then 1 + Admitted(made.disk, base, cs[1..]) else 0
  }

  /** Without updates nothing needs to be assumed about the deliveries at all. */
  lemma {:induction false} NamesAndTagsSuffice(cs: seq<Command>, cut: nat -> nat, clock: nat)
    requires AllSendable(cs) && forall c <- cs :: !c.Update?
    ensures CommandsUncrossed(cs, cut, clock)
    decreases |cs|
  {
    if cs != [] {
      assert cs[0] in cs;
      NamesAndTagsSuffice(cs[1..], cut, AfterCommand(cs[0], Frames(cs[1..], []), cut, clock));
    }
  }

  /** It can happen: a small update with anything behind it, and a network that delivers all it has. */
  lemma UpdatesCanRunOn(path: string, content: seq<byte>, c: Command, clock: nat)
    requires Sendable(Update(path, content)) && 0 < |content| < BUFFER_SIZE && Sendable(c)
    ensures AllSendable([Update(path, content), c])
    ensures !CommandsUncrossed([Update(path, content), c], _ => BUFFER_SIZE, clock)
  {
    var cs := [Update(path, content), c];
    OneFrame(c);
    assert cs[1..] == [c];
    RunsOn(content, Frame(c, []), AfterName(path, content + Frame(c, []), _ => BUFFER_SIZE,
                                            AfterTag(cs[0], Frame(c, []), _ => BUFFER_SIZE, clock)));
  }

  lemma OneFrame(c: Command)
    requires Sendable(c)
    ensures AllSendable([c]) && Frames([c], []) == Frame(c, []) && |Frame(c, [])| > 0
  {
    assert [c][1..] == [];
  }

  lemma RunsOn(content: seq<byte>, after: seq<byte>, clock: nat)
    requires 0 < |content| < BUFFER_SIZE && |after| > 0
    ensures !BodyUncrossed(|content|, |content + after|, _ => BUFFER_SIZE, clock)
  {
  }

  // ---------------------------------------------------------------------------------------
  // Where the effects land.

  /** An update of a file below the client's base gives the same file below the server's base the
      client's contents, and changes nothing else; it is possible exactly if that file's directory is
      there and the name is not a directory. */
  lemma UpdateLands(disk: Disk, clientBase: string, serverBase: string, rel: string, content: seq<byte>)
    ensures var p := Components(serverBase) + Components(rel);
            var made := Apply(disk, serverBase, UpdateOf(Under(clientBase, rel), clientBase, content));
            && (made.ok <==> ParentExists(disk, p) && (p in disk ==> disk[p].Plain?))
            && made.disk == if made.ok then disk[p := Plain(content)] else disk
  {
    PathCarriesOver(clientBase, serverBase, rel);
  }

  /** A deletion removes the same file below the server's base, or an empty directory of that name. */
  lemma DeleteLands(disk: Disk, clientBase: string, serverBase: string, rel: string)
    ensures var p := Components(serverBase) + Components(rel);
            var made, there := Apply(disk, serverBase, DeleteOf(Under(clientBase, rel), clientBase)), Get(disk, p);
            && made.ok
            && (p != [] && there.Some? && there.value.Plain? ==> made.disk == disk - {p})
            && (p != [] && there == Some(Folder) && (forall q <- disk :: !(p < q)) ==> made.disk == disk - {p})
            && (there == Some(Folder) && (exists q <- disk :: p < q) ==> made.disk == disk)
            && (p == [] || there == None ==> made.disk == disk)
  {
    PathCarriesOver(clientBase, serverBase, rel);
  }

  /** What a creation makes at `name` below the server's directory `here`. */
  ghost predicate CreatesAt(made: Made, disk: Disk, here: string, name: string) {
    var above := Components(here);
    && (made.ok <==> AllPassable(disk, above)
                     && (above + [name] in disk ==> disk[above + [name]].Plain? == ('.' in name)))
    && (made.ok ==> Becomes(made.disk, disk, above, above + [name], CreatedAs(name)))
  }

  /** A creation in the client's directory makes, in the server's, an empty file if the name has a dot,
      and a folder if it has none. */
  lemma CreateLandsAtTop(disk: Disk, clientBase: string, serverBase: string, name: string, size: int)
    requires Get(disk, []) == Some(Folder) && ValidName(name)
    ensures CreatesAt(Apply(disk, serverBase, CreateOf(Under(clientBase, name), clientBase, size)),
                      disk, serverBase, name)
  {
    PathStringCarriesOver(clientBase, serverBase, name);
    CreateMakes(disk, serverBase, name);
  }

  /** The same in a directory `dir` below. */
  lemma CreateLands(disk: Disk, clientBase: string, serverBase: string, dir: string, name: string, size: int)
    requires Get(disk, []) == Some(Folder) && ValidName(name) && dir != "" && dir[0] != '/'
    ensures CreatesAt(Apply(disk, serverBase, CreateOf(Under(clientBase, Under(dir, name)), clientBase, size)),
                      disk, Under(serverBase, dir), name)
  {
    var rel := Under(dir, name);
    PathStringCarriesOver(clientBase, serverBase, rel);
    CreateMakes(disk, Under(serverBase, dir), name);
    JoinSplit(serverBase, dir, name);
  }
}
