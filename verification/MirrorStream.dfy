/**
 The byte stream that carries the file contents from the server to the client.

 Each file is sent as an 8-byte size and its bytes. The client asks for 1024 bytes at a time,
 whatever is left of the current file, so a `recv` may run into the next file's size. `cut` says
 how many bytes the network delivers at each `recv`; integers are delivered whole.
 */
module MirrorStream {
  import opened MirrorPaths
  import opened MirrorTree

  const BUFFER_SIZE := 1024

  // ---------------------------------------------------------------------------------------
  // Integers on the wire.

  function Range(width: nat): (r: nat)
    ensures r > 0
  {
    if width == 0 then 1 else 256 * Range(width - 1)
  }

  /** Little-endian bytes. */
  function Encode(n: nat, width: nat): (bytes: seq<byte>)
    ensures |bytes| == width
  {
    if width == 0 then [] else [n % 256] + Encode(n / 256, width - 1)
  }

  function Decode(bytes: seq<byte>): (n: nat)
    ensures n < Range(|bytes|)
  {
    if bytes == [] then 0 else bytes[0] + 256 * Decode(bytes[1..])
  }

  lemma {:induction false} DecodeEncode(n: nat, width: nat)
    requires n < Range(width)
    ensures Decode(Encode(n, width)) == n
  {
    if width > 0 {
      DecodeEncode(n / 256, width - 1);
    }
  }

  /** The least significant byte comes first. */
  lemma {:induction false} LittleEndian(a: seq<byte>, b: seq<byte>)
    ensures Decode(a + b) == Decode(a) + Range(|a|) * Decode(b)
  {
    if a == [] {
      assert a + b == b;
    } else {
      assert (a + b)[1..] == a[1..] + b;
      LittleEndian(a[1..], b);
      Scaled(Decode(a[1..]), Range(|a| - 1), Decode(b));
    }
  }

  lemma Scaled(x: nat, r: nat, y: nat)
    ensures 256 * (x + r * y) == 256 * x + 256 * r * y
  {
  }

  predicate Fits(n: int, width: nat) {
    -(Range(width) as int) <= 2 * n < Range(width)
  }

  /** A signed integer of `width` bytes in two's complement. */
  function EncodeInt(n: int, width: nat): (bytes: seq<byte>)
    requires Fits(n, width)
    ensures |bytes| == width
  {
    Encode(if n < 0 then n + Range(width) else n, width)
  }

  function DecodeInt(bytes: seq<byte>): int {
    var n := Decode(bytes);
    if 2 * n < Range(|bytes|) then n else n - Range(|bytes|)
  }

  lemma DecodeEncodeInt(n: int, width: nat)
    requires Fits(n, width)
    ensures DecodeInt(EncodeInt(n, width)) == n
  {
    DecodeEncode(if n < 0 then n + Range(width) else n, width);
  }

  /** A `long` size squeezed through the `int` that `getFileSize` returns. */
  function ToInt32(n: nat): (m: int)
    ensures -0x8000_0000 <= m < 0x8000_0000
    ensures (n - m) % 0x1_0000_0000 == 0
    ensures n < 0x8000_0000 ==> m == n
  {
    var m := n % 0x1_0000_0000;
    if m < 0x8000_0000 then m else m - 0x1_0000_0000
  }

  lemma IntFits(n: int)
    requires -0x8000_0000 <= n < 0x8000_0000
    ensures Fits(n, 4) && Fits(n, 8)
  {
    assert Range(4) == 256 * (256 * (256 * (256 * Range(0))));
    assert Range(8) == 256 * (256 * (256 * (256 * Range(4))));
  }

  const LIMIT := 0x8000_0000

  /** An integer as it is sent, in 4 bytes or in 8. */
  function Int(n: int, width: nat): (bytes: seq<byte>)
    requires -LIMIT <= n < LIMIT && (width == 4 || width == 8)
    ensures |bytes| == width && DecodeInt(bytes) == n
  {
    IntFits(n);
    DecodeEncodeInt(n, width);
    EncodeInt(n, width)
  }

  // ---------------------------------------------------------------------------------------
  // Strings on the wire.

  /** Path characters are bytes. */
  predicate Narrow(s: string) {
    forall i | 0 <= i < |s| :: s[i] as int < 256
  }

  function ToBytes(s: string): (bytes: seq<byte>)
    requires Narrow(s)
    ensures |bytes| == |s|
  {
    seq<byte>(|s|, i requires 0 <= i < |s| => s[i] as int)
  }

  function FromBytes(bytes: seq<byte>): (s: string)
    ensures |s| == |bytes|
  {
    seq(|bytes|, i requires 0 <= i < |bytes| => bytes[i] as char)
  }

  lemma BytesRoundTrip(s: string)
    requires Narrow(s)
    ensures FromBytes(ToBytes(s)) == s
  {
  }

  // ---------------------------------------------------------------------------------------
  // Sending.

  /** The size field of a file. */
  function SizeField(body: seq<byte>): (bytes: seq<byte>)
    ensures |bytes| == 8
  {
    IntFits(ToInt32(|body|));
    EncodeInt(ToInt32(|body|), 8)
  }

  function Sent(bodies: seq<seq<byte>>): seq<byte> {
    if bodies == [] then [] else SizeField(bodies[0]) + bodies[0] + Sent(bodies[1..])
  }

  /** The stream from some file on: the remaining files and what is sent after them. */
  function Wire(bodies: seq<seq<byte>>, tail: seq<byte>): seq<byte> {
    if bodies == [] then tail else SizeField(bodies[0]) + (bodies[0] + Wire(bodies[1..], tail))
  }

  lemma {:induction false} WireIsSent(bodies: seq<seq<byte>>, tail: seq<byte>)
    ensures Wire(bodies, tail) == Sent(bodies) + tail
  {
    if bodies != [] {
      WireIsSent(bodies[1..], tail);
    }
  }

  lemma {:induction false} SentConcat(a: seq<seq<byte>>, b: seq<seq<byte>>)
    ensures Sent(a + b) == Sent(a) + Sent(b)
  {
    if a == [] {
      assert a + b == b;
    } else {
      assert (a + b)[1..] == a[1..] + b;
      SentConcat(a[1..], b);
    }
  }

  /** The body of `sendFile` for one file: its size, then its bytes in 1024-byte pieces. */
  method SendOne(wire: seq<byte>, body: seq<byte>) returns (wire': seq<byte>)
    ensures wire' == wire + Sent([body])
  {
    wire' := wire + SizeField(body);
    var sent := 0;
    while sent < |body|
      invariant sent <= |body|
      invariant wire' == wire + SizeField(body) + body[..sent]
    {
      var n := if |body| - sent < BUFFER_SIZE then |body| - sent else BUFFER_SIZE;
      assert body[..sent + n] == body[..sent] + body[sent..sent + n];
      wire' := wire' + body[sent..sent + n];
      sent := sent + n;
    }
    assert body[..sent] == body;
    assert [body][1..] == [] && Sent([]) == [];
  }

  /** `sendFile`: the regular files among the listed paths, in order. `content[i]` is what file
      `list[i]` holds. */
  method SendFile(list: seq<Listed>, content: seq<seq<byte>>) returns (wire: seq<byte>)
    requires |content| == |list|
    ensures wire == Sent(FileContents(list, content))
  {
    wire := [];
    for i := 0 to |list|
      invariant wire == Sent(FileContents(list[..i], content[..i]))
    {
      FileContentsStep(list, content, i);
      if list[i].isFile {
        SentConcat(FileContents(list[..i], content[..i]), [content[i]]);
        wire := SendOne(wire, content[i]);
      } else {
        assert FileContents(list[..i], content[..i]) + [] == FileContents(list[..i], content[..i]);
      }
    }
    assert list[..|list|] == list && content[..|list|] == content;
  }

  function FileContents(list: seq<Listed>, content: seq<seq<byte>>): seq<seq<byte>>
    requires |content| == |list|
  {
    if list == [] then []
    else
      FileContents(list[..|list| - 1], content[..|list| - 1])
      + if list[|list| - 1].isFile then [content[|list| - 1]] else []
  }

  lemma FileContentsStep(list: seq<Listed>, content: seq<seq<byte>>, i: nat)
    requires |content| == |list| && i < |list|
    ensures FileContents(list[..i + 1], content[..i + 1]) ==
            FileContents(list[..i], content[..i]) + if list[i].isFile then [content[i]] else []
  {
    assert list[..i + 1][..i] == list[..i] && content[..i + 1][..i] == content[..i];
  }

  // ---------------------------------------------------------------------------------------
  // Receiving.

  /** What one `recv` that asks for `asked` bytes delivers when `available` are still to come. */
  function Delivered(cut: nat -> nat, clock: nat, asked: nat, available: nat): (k: nat)
    requires asked > 0 && available > 0
    ensures 1 <= k <= available && k <= asked
  {
    var most := if available < asked then available else asked;
    if cut(clock) < 1 then 1 else if cut(clock) < most then cut(clock) else most
  }

  /** The receiving end of the connection. */
  class Socket {
    var incoming: seq<byte>
    var clock: nat
    const cut: nat -> nat

    constructor (incoming: seq<byte>, cut: nat -> nat)
      ensures this.incoming == incoming && this.cut == cut && clock == 0
    {
      this.incoming, this.cut, this.clock := incoming, cut, 0;
    }

    method Recv(asked: nat) returns (data: seq<byte>)
      requires asked > 0 && incoming != []
      modifies this
      ensures var k := Delivered(cut, old(clock), asked, |old(incoming)|);
              && data == old(incoming)[..k] && incoming == old(incoming)[k..] && clock == old(clock) + 1
    {
      var k := Delivered(cut, clock, asked, |incoming|);
      data := incoming[..k];
      incoming := incoming[k..];
      clock := clock + 1;
    }

    /** Integers are delivered whole. */
    method RecvInt(width: nat) returns (n: int)
      requires |incoming| >= width
      modifies this
      ensures n == DecodeInt(old(incoming)[..width])
      ensures incoming == old(incoming)[width..] && clock == old(clock)
    {
      n := DecodeInt(incoming[..width]);
      incoming := incoming[width..];
    }
  }

  /** One received file; `blocked` if the stream ran dry before the size was reached. */
  datatype Body = Body(content: seq<byte>, rest: seq<byte>, clock: nat, blocked: bool)

  function ReceiveBody(stream: seq<byte>, size: int, cut: nat -> nat, clock: nat): (r: Body)
    ensures |r.rest| <= |stream|
    decreases |stream|
  {
    if size <= 0 then Body([], stream, clock, false)
    else if stream == [] then Body([], stream, clock, true)
    else
      var k := Delivered(cut, clock, BUFFER_SIZE, |stream|);
      var r := ReceiveBody(stream[k..], size - k, cut, clock + 1);
      r.(content := stream[..k] + r.content)
  }

  datatype Received = Received(contents: seq<seq<byte>>, rest: seq<byte>, clock: nat, blocked: bool)

  /** Receive `n` files one after the other, until the stream runs dry. */
  function ReceiveAll(n: nat, stream: seq<byte>, cut: nat -> nat, clock: nat): Received
    decreases n
  {
    if n == 0 then Received([], stream, clock, false)
    else if |stream| < 8 then Received([], stream, clock, true)
    else
      var b := ReceiveBody(stream[8..], DecodeInt(stream[..8]), cut, clock);
      if b.blocked then Received([], b.rest, b.clock, true)
      else
        var r := ReceiveAll(n - 1, b.rest, cut, b.clock);
        r.(contents := [b.content] + r.contents)
  }

  /** The inner loop of `saveFile`. */
  method SaveBody(socket: Socket, size: int) returns (content: seq<byte>, blocked: bool)
    modifies socket
    ensures Body(content, socket.incoming, socket.clock, blocked)
            == ReceiveBody(old(socket.incoming), size, socket.cut, old(socket.clock))
  {
    content, blocked := [], false;
    var fileSize := size;
    ghost var all := ReceiveBody(socket.incoming, size, socket.cut, socket.clock);
    while fileSize > 0
      invariant var r := ReceiveBody(socket.incoming, fileSize, socket.cut, socket.clock);
                r.(content := content + r.content) == all
      decreases |socket.incoming|
    {
      if socket.incoming == [] {
        blocked := true;
        return;
      }
      ghost var before, r := content, ReceiveBody(socket.incoming, fileSize, socket.cut, socket.clock);
      var data := socket.Recv(BUFFER_SIZE);
      content := content + data;
      fileSize := fileSize - |data|;
      ghost var r' := ReceiveBody(socket.incoming, fileSize, socket.cut, socket.clock);
      assert before + (data + r'.content) == content + r'.content;
    }
  }

  // ---------------------------------------------------------------------------------------
  // When every file arrives as it was sent.

  /** No `recv` of this body takes more than is left of it. */
  predicate BodyUncrossed(size: int, available: nat, cut: nat -> nat, clock: nat)
    decreases available
  {
    size <= 0 || available == 0 ||
    (var k := Delivered(cut, clock, BUFFER_SIZE, available);
     k <= size && BodyUncrossed(size - k, available - k, cut, clock + 1))
  }

  /** No `recv` crosses from one file into the next. */
  predicate Uncrossed(bodies: seq<seq<byte>>, tail: seq<byte>, cut: nat -> nat, clock: nat)
    decreases |bodies|
  {
    bodies == [] ||
    (var after := bodies[0] + Wire(bodies[1..], tail);
     && BodyUncrossed(|bodies[0]|, |after|, cut, clock)
     && Uncrossed(bodies[1..], tail, cut, ReceiveBody(after, |bodies[0]|, cut, clock).clock))
  }

  /** A body is received exactly if no `recv` crosses its end; otherwise it comes out too long. */
  lemma {:induction false} BodyReceived(stream: seq<byte>, size: nat, cut: nat -> nat, clock: nat)
    requires size <= |stream|
    ensures var r := ReceiveBody(stream, size, cut, clock);
            if BodyUncrossed(size, |stream|, cut, clock)
            then r.content == stream[..size] && r.rest == stream[size..] && !r.blocked
            else |r.content| > size
    decreases |stream|
  {
    if size > 0 {
      var k := Delivered(cut, clock, BUFFER_SIZE, |stream|);
      if k <= size {
        BodyReceived(stream[k..], size - k, cut, clock + 1);
        SplitAfter(stream, k, size);
      }
    }
  }

  lemma SplitAfter(stream: seq<byte>, k: nat, size: nat)
    requires k <= size <= |stream|
    ensures stream[..k] + stream[k..][..size - k] == stream[..size]
    ensures stream[k..][size - k..] == stream[size..]
  {
  }

  /** No more is taken than the last `recv` can exceed the size by. */
  lemma {:induction false} TakenAtMost(stream: seq<byte>, size: int, cut: nat -> nat, clock: nat)
    ensures |ReceiveBody(stream, size, cut, clock).content| <= if size <= 0 then 0 else size + BUFFER_SIZE - 1
    decreases |stream|
  {
    if size > 0 && stream != [] {
      var k := Delivered(cut, clock, BUFFER_SIZE, |stream|);
      TakenAtMost(stream[k..], size - k, cut, clock + 1);
    }
  }

  /** With enough on the wire, a body never has to wait. */
  lemma {:induction false} NeverBlocked(stream: seq<byte>, size: int, cut: nat -> nat, clock: nat)
    requires size <= |stream|
    ensures !ReceiveBody(stream, size, cut, clock).blocked
    decreases |stream|
  {
    if size > 0 {
      var k := Delivered(cut, clock, BUFFER_SIZE, |stream|);
      NeverBlocked(stream[k..], size - k, cut, clock + 1);
    }
  }

  /** Whatever is received, no byte is lost, invented or moved. */
  lemma {:induction false} BodyConserves(stream: seq<byte>, size: int, cut: nat -> nat, clock: nat)
    ensures var r := ReceiveBody(stream, size, cut, clock); r.content + r.rest == stream
    ensures size <= 0 ==> ReceiveBody(stream, size, cut, clock) == Body([], stream, clock, false)
    decreases |stream|
  {
    if size > 0 && stream != [] {
      var k := Delivered(cut, clock, BUFFER_SIZE, |stream|);
      BodyConserves(stream[k..], size - k, cut, clock + 1);
      var r := ReceiveBody(stream[k..], size - k, cut, clock + 1);
      Recombined(stream, k, r.content, r.rest);
    }
  }

  lemma Recombined(stream: seq<byte>, k: nat, a: seq<byte>, b: seq<byte>)
    requires k <= |stream| && a + b == stream[k..]
    ensures stream[..k] + a + b == stream
  {
    assert stream[..k] + a + b == stream[..k] + (a + b);
  }

  /** With too little on the wire, all of it is taken, and the receiver waits for the rest. */
  lemma {:induction false} BodyWaits(stream: seq<byte>, size: nat, cut: nat -> nat, clock: nat)
    requires |stream| < size
    ensures var r := ReceiveBody(stream, size, cut, clock);
            r.blocked && r.content == stream && r.rest == []
    decreases |stream|
  {
    if stream != [] {
      var k := Delivered(cut, clock, BUFFER_SIZE, |stream|);
      BodyWaits(stream[k..], size - k, cut, clock + 1);
      assert stream[..k] + stream[k..] == stream;
    }
  }

  /** Receiving one body, announced with the size that is sent for it: it arrives exactly, and the
      stream is left just behind it, if its size survives the `int` and no `recv` crosses its end;
      otherwise something else arrives. */
  lemma FirstBody(body: seq<byte>, later: seq<byte>, cut: nat -> nat, clock: nat)
    ensures var r := ReceiveBody(body + later, ToInt32(|body|), cut, clock);
            if |body| < LIMIT && BodyUncrossed(|body|, |body + later|, cut, clock)
            then r.content == body && r.rest == later && !r.blocked
            else r.content != body && !r.blocked
  {
    var stream := body + later;
    NeverBlocked(stream, ToInt32(|body|), cut, clock);
    if |body| < LIMIT {
      BodyReceived(stream, |body|, cut, clock);
      assert stream[..|body|] == body && stream[|body|..] == later;
    } else {
      TakenAtMost(stream, ToInt32(|body|), cut, clock);
    }
  }

  predicate SmallFiles(bodies: seq<seq<byte>>) {
    forall b <- bodies :: |b| < LIMIT
  }

  /** Receiving the first file of a stream. */
  lemma FirstFile(bodies: seq<seq<byte>>, tail: seq<byte>, cut: nat -> nat, clock: nat)
    requires bodies != []
    ensures var b := ReceiveBody(bodies[0] + Wire(bodies[1..], tail), ToInt32(|bodies[0]|), cut, clock);
            ReceiveAll(|bodies|, Wire(bodies, tail), cut, clock) ==
            if b.blocked then Received([], b.rest, b.clock, true)
            else
              var r := ReceiveAll(|bodies| - 1, b.rest, cut, b.clock);
              r.(contents := [b.content] + r.contents)
  {
    var after, stream := bodies[0] + Wire(bodies[1..], tail), Wire(bodies, tail);
    assert stream[..8] == SizeField(bodies[0]) && stream[8..] == after;
    IntFits(ToInt32(|bodies[0]|));
    DecodeEncodeInt(ToInt32(|bodies[0]|), 8);
  }

  lemma HeadAndTail<T>(s: seq<T>)
    requires s != []
    ensures [s[0]] + s[1..] == s
  {
  }

  /** The first file arrives as it is and the others follow, or what arrives is not what was sent. */
  lemma FirstStep(bodies: seq<seq<byte>>, tail: seq<byte>, cut: nat -> nat, clock: nat)
    requires bodies != []
    ensures var later, all := Wire(bodies[1..], tail), ReceiveAll(|bodies|, Wire(bodies, tail), cut, clock);
            if |bodies[0]| < LIMIT && BodyUncrossed(|bodies[0]|, |bodies[0] + later|, cut, clock) then
              var b := ReceiveBody(bodies[0] + later, |bodies[0]|, cut, clock);
              var others := ReceiveAll(|bodies| - 1, later, cut, b.clock);
              all == others.(contents := [bodies[0]] + others.contents)
            else all.blocked || all.contents != bodies
  {
    FirstFile(bodies, tail, cut, clock);
    FirstBody(bodies[0], Wire(bodies[1..], tail), cut, clock);
  }

  lemma SmallFilesStep(bodies: seq<seq<byte>>)
    requires bodies != []
    ensures SmallFiles(bodies) <==> |bodies[0]| < LIMIT && SmallFiles(bodies[1..])
  {
    HeadAndTail(bodies);
  }

  lemma FirstThenOthers(first: seq<byte>, others: seq<seq<byte>>, bodies: seq<seq<byte>>)
    requires bodies != []
    ensures [first] + others == bodies <==> first == bodies[0] && others == bodies[1..]
  {
    assert ([first] + others)[1..] == others;
  }

  lemma {:induction false} FilesReceived(bodies: seq<seq<byte>>, tail: seq<byte>, cut: nat -> nat, clock: nat)
    ensures var r := ReceiveAll(|bodies|, Wire(bodies, tail), cut, clock);
            if SmallFiles(bodies) && Uncrossed(bodies, tail, cut, clock)
            then r.contents == bodies && !r.blocked && r.rest == tail
            else r.blocked || r.contents != bodies
    decreases |bodies|
  {
    if bodies != [] {
      var later := Wire(bodies[1..], tail);
      FirstStep(bodies, tail, cut, clock);
      SmallFilesStep(bodies);
      if |bodies[0]| < LIMIT && BodyUncrossed(|bodies[0]|, |bodies[0] + later|, cut, clock) {
        var at := ReceiveBody(bodies[0] + later, |bodies[0]|, cut, clock).clock;
        FilesReceived(bodies[1..], tail, cut, at);
        FirstThenOthers(bodies[0], ReceiveAll(|bodies| - 1, later, cut, at).contents, bodies);
      }
    }
  }

  /** All files arrive byte for byte if and only if each is smaller than 2^31 bytes and no `recv`
      crosses a file boundary; the stream is then left just behind them. */
  lemma FilesArriveIffUncrossed(bodies: seq<seq<byte>>, tail: seq<byte>, cut: nat -> nat, clock: nat)
    ensures var r := ReceiveAll(|bodies|, Sent(bodies) + tail, cut, clock);
            && (r.contents == bodies && !r.blocked <==> SmallFiles(bodies) && Uncrossed(bodies, tail, cut, clock))
            && (SmallFiles(bodies) && Uncrossed(bodies, tail, cut, clock) ==> r.rest == tail)
  {
    WireIsSent(bodies, tail);
    FilesReceived(bodies, tail, cut, clock);
  }

  /** Two files sent back to back, and a network that delivers all it has: the first file swallows
      the second one's size. */
  lemma BackToBackFilesCanMix()
    ensures !Uncrossed([[1], [2]], [], _ => BUFFER_SIZE, 0)
  {
    var bodies: seq<seq<byte>> := [[1], [2]];
    assert |Wire(bodies[1..], [])| == 9 by {
      assert bodies[1..] == [[2]] && bodies[1..][1..] == [];
    }
  }
}
