/**
 The list of paths on the wire: a count and one fixed-size record per path. The client reads every
 record with a single `read` into memory it has just allocated. A record that arrives in pieces is
 completed from whatever that memory held, and everything behind it is read out of step.
 */
module MirrorListing {
  import opened MirrorPaths
  import opened MirrorTree
  import opened MirrorStream

  const PATH_LENGTH := 1024
  const RECORD := 1028

  /** The path fits into its field with a terminator, and has none inside. */
  predicate Storable(l: Listed) {
    && Narrow(l.path) && |l.path| < PATH_LENGTH
    && forall i | 0 <= i < |l.path| :: l.path[i] != '\0'
  }

  function Record(l: Listed): (bytes: seq<byte>)
    requires Storable(l)
    ensures |bytes| == RECORD
  {
    ToBytes(l.path) + seq(PATH_LENGTH - |l.path|, _ => 0 as byte) + Int(if l.isFile then 1 else 0, 4)
  }

  /** The bytes of a field up to its terminator. */
  function Terminated(bytes: seq<byte>): (name: seq<byte>)
    ensures name <= bytes && 0 !in name
    ensures |name| < |bytes| ==> bytes[|name|] == 0
  {
    if bytes == [] || bytes[0] == 0 then [] else [bytes[0]] + Terminated(bytes[1..])
  }

  function ReadRecord(bytes: seq<byte>): Listed
    requires |bytes| == RECORD
  {
    Listed(FromBytes(Terminated(bytes[..PATH_LENGTH])), DecodeInt(bytes[PATH_LENGTH..]) != 0)
  }

  lemma {:induction false} TerminatedAt(name: seq<byte>, rest: seq<byte>)
    requires (forall i | 0 <= i < |name| :: name[i] != 0) && rest != [] && rest[0] == 0
    ensures Terminated(name + rest) == name
    decreases |name|
  {
    if name == [] {
      assert name + rest == rest;
    } else {
      assert (name + rest)[1..] == name[1..] + rest;
      TerminatedAt(name[1..], rest);
    }
  }

  lemma RecordRoundTrip(l: Listed)
    requires Storable(l)
    ensures ReadRecord(Record(l)) == l
  {
    var name, zeros := ToBytes(l.path), seq(PATH_LENGTH - |l.path|, _ => 0 as byte);
    var flag := Int(if l.isFile then 1 else 0, 4);
    assert Record(l)[..PATH_LENGTH] == name + zeros && Record(l)[PATH_LENGTH..] == flag;
    TerminatedAt(name, zeros);
    BytesRoundTrip(l.path);
  }

  function Records(list: seq<Listed>, tail: seq<byte>): seq<byte>
    requires forall l <- list :: Storable(l)
  {
    if list == [] then tail
    else
      assert list[0] in list;
      Record(list[0]) + Records(list[1..], tail)
  }

  predicate SendableList(list: seq<Listed>) {
    |list| < LIMIT && forall l <- list :: Storable(l)
  }

  /** The whole list, followed by `tail`. */
  function ListWire(list: seq<Listed>, tail: seq<byte>): seq<byte>
    requires SendableList(list)
  {
    Int(|list|, 4) + Records(list, tail)
  }

  /** `sendDirectoryContents`. */
  method SendDirectoryContents(list: seq<Listed>) returns (wire: seq<byte>)
    requires SendableList(list)
    ensures wire == ListWire(list, [])
  {
    wire := Int(|list|, 4);
    var i := 0;
    while i < |list|
      invariant i <= |list|
      invariant wire + Records(list[i..], []) == ListWire(list, [])
    {
      assert list[i] in list;
      assert list[i..][0] == list[i] && list[i..][1..] == list[i + 1..];
      Appended(wire, Record(list[i]), Records(list[i + 1..], []));
      wire := wire + Record(list[i]);
      i := i + 1;
    }
    assert wire + [] == wire;
  }

  lemma Appended(a: seq<byte>, b: seq<byte>, c: seq<byte>)
    ensures a + (b + c) == a + b + c
  {
  }

  type Block = b: seq<byte> | |b| == RECORD witness seq(RECORD, _ => 0)

  /** What the client has read; `blocked` if the stream ran dry before the last record. */
  datatype Listing = Listing(list: seq<Listed>, rest: seq<byte>, clock: nat, blocked: bool)

  /** Record number `i` and the `n - 1` behind it, each by one `read`; `memory` is what the array of
      records held before. */
  function ReceiveRecords(n: nat, stream: seq<byte>, memory: nat -> Block, i: nat, cut: nat -> nat, clock: nat): Listing
    decreases n
  {
    if n == 0 then Listing([], stream, clock, false)
    else if stream == [] then Listing([], stream, clock, true)
    else
      var k := Delivered(cut, clock, RECORD, |stream|);
      var r := ReceiveRecords(n - 1, stream[k..], memory, i + 1, cut, clock + 1);
      r.(list := [ReadRecord(stream[..k] + memory(i)[k..])] + r.list)
  }

  function ReceiveList(stream: seq<byte>, memory: nat -> Block, cut: nat -> nat, clock: nat): Listing {
    if |stream| < 4 then Listing([], stream, clock, true)
    else
      var n := DecodeInt(stream[..4]);
      ReceiveRecords(if n < 0 then 0 else n, stream[4..], memory, 0, cut, clock)
  }

  /** `receiveDirectoryContents`. */
  method ReceiveDirectoryContents(socket: Socket, memory: nat -> Block) returns (list: seq<Listed>, blocked: bool)
    modifies socket
    ensures Listing(list, socket.incoming, socket.clock, blocked)
            == ReceiveList(old(socket.incoming), memory, socket.cut, old(socket.clock))
  {
    list, blocked := [], false;
    if |socket.incoming| < 4 {
      return [], true;
    }
    var count := socket.RecvInt(4);
    list, blocked := ReadRecords(socket, if count < 0 then 0 else count, memory);
  }

  /** The loop of `receiveDirectoryContents`. */
  method ReadRecords(socket: Socket, count: nat, memory: nat -> Block) returns (list: seq<Listed>, blocked: bool)
    modifies socket
    ensures Listing(list, socket.incoming, socket.clock, blocked)
            == ReceiveRecords(count, old(socket.incoming), memory, 0, socket.cut, old(socket.clock))
  {
    list, blocked := [], false;
    ghost var all := ReceiveRecords(count, socket.incoming, memory, 0, socket.cut, socket.clock);
    var i := 0;
    while i < count
      invariant i <= count
      invariant ReadFrom(list, count - i, socket.incoming, memory, i, socket.cut, socket.clock) == all
    {
      ReadStep(list, count - i, socket.incoming, memory, i, socket.cut, socket.clock);
      if socket.incoming == [] {
        blocked := true;
        return;
      }
      var entry := ReadOne(socket, memory(i));
      list := list + [entry];
      i := i + 1;
    }
    ReadAll(list, socket.incoming, memory, i, socket.cut, socket.clock);
  }

  /** The rest of the records, behind those already read. */
  ghost function ReadFrom(list: seq<Listed>, n: nat, stream: seq<byte>, memory: nat -> Block, i: nat,
                          cut: nat -> nat, clock: nat): Listing
  {
    var r := ReceiveRecords(n, stream, memory, i, cut, clock);
    r.(list := list + r.list)
  }

  lemma ReadStep(list: seq<Listed>, n: nat, stream: seq<byte>, memory: nat -> Block, i: nat,
                 cut: nat -> nat, clock: nat)
    requires n > 0
    ensures ReadFrom(list, n, stream, memory, i, cut, clock) ==
            if stream == [] then Listing(list, stream, clock, true)
            else
              var k := Delivered(cut, clock, RECORD, |stream|);
              var entry := ReadRecord(stream[..k] + memory(i)[k..]);
              ReadFrom(list + [entry], n - 1, stream[k..], memory, i + 1, cut, clock + 1)
  {
    if stream == [] {
      assert list + [] == list;
    } else {
      var k := Delivered(cut, clock, RECORD, |stream|);
      RecordAppended(list, ReadRecord(stream[..k] + memory(i)[k..]),
                     ReceiveRecords(n - 1, stream[k..], memory, i + 1, cut, clock + 1).list);
    }
  }

  lemma ReadAll(list: seq<Listed>, stream: seq<byte>, memory: nat -> Block, i: nat, cut: nat -> nat, clock: nat)
    ensures ReadFrom(list, 0, stream, memory, i, cut, clock) == Listing(list, stream, clock, false)
  {
    assert list + [] == list;
  }

  /** One `read` on top of a block of memory. */
  method ReadOne(socket: Socket, block: Block) returns (entry: Listed)
    requires socket.incoming != []
    modifies socket
    ensures var stream := old(socket.incoming);
            var k := Delivered(socket.cut, old(socket.clock), RECORD, |stream|);
            && entry == ReadRecord(stream[..k] + block[k..])
            && socket.incoming == stream[k..] && socket.clock == old(socket.clock) + 1
  {
    var data := socket.Recv(RECORD);
    entry := ReadRecord(data + block[|data|..]);
  }

  lemma RecordAppended(a: seq<Listed>, b: Listed, c: seq<Listed>)
    ensures a + ([b] + c) == a + [b] + c
  {
  }

  /** Every one of the next `n` reads delivers a whole record. */
  predicate WholeReads(n: nat, cut: nat -> nat, clock: nat) {
    n == 0 || (cut(clock) >= RECORD && WholeReads(n - 1, cut, clock + 1))
  }

  /** Whatever the stream and the memory: `n` reads use up `n` records' worth of bytes if and only if
      each is whole, and otherwise leave more. */
  lemma {:induction false} BytesUsed(n: nat, stream: seq<byte>, memory: nat -> Block, i: nat,
                                     cut: nat -> nat, clock: nat)
    requires |stream| >= n * RECORD
    ensures var r := ReceiveRecords(n, stream, memory, i, cut, clock);
            && !r.blocked && |r.list| == n && |r.rest| >= |stream| - n * RECORD
            && (|r.rest| == |stream| - n * RECORD <==> WholeReads(n, cut, clock))
    decreases n
  {
    if n > 0 {
      var k := Delivered(cut, clock, RECORD, |stream|);
      BytesUsed(n - 1, stream[k..], memory, i + 1, cut, clock + 1);
    }
  }

  lemma {:induction false} RecordsLength(list: seq<Listed>, tail: seq<byte>)
    requires forall l <- list :: Storable(l)
    ensures |Records(list, tail)| == |list| * RECORD + |tail|
  {
    if list != [] {
      RecordsLength(list[1..], tail);
    }
  }

  lemma {:induction false} WholeRecordsArrive(list: seq<Listed>, tail: seq<byte>, memory: nat -> Block, i: nat,
                                              cut: nat -> nat, clock: nat)
    requires (forall l <- list :: Storable(l)) && WholeReads(|list|, cut, clock)
    ensures ReceiveRecords(|list|, Records(list, tail), memory, i, cut, clock)
            == Listing(list, tail, clock + |list|, false)
    decreases |list|
  {
    if list != [] {
      assert list[0] in list;
      var record, later := Record(list[0]), Records(list[1..], tail);
      var stream := Records(list, tail);
      assert stream[..RECORD] == record && stream[RECORD..] == later;
      assert record + memory(i)[RECORD..] == record;
      RecordRoundTrip(list[0]);
      WholeRecordsArrive(list[1..], tail, memory, i + 1, cut, clock + 1);
      HeadAndTail(list);
    }
  }

  /** Whatever the memory held, the stream is left just behind the list if and only if every record is
      delivered in one piece, and then the client has the server's list. */
  lemma ListInStepIffWhole(list: seq<Listed>, tail: seq<byte>, memory: nat -> Block, cut: nat -> nat, clock: nat)
    requires SendableList(list)
    ensures var r := ReceiveList(ListWire(list, tail), memory, cut, clock);
            && !r.blocked && |r.list| == |list|
            && (r.rest == tail <==> WholeReads(|list|, cut, clock))
            && (WholeReads(|list|, cut, clock) ==> r.list == list && r.clock == clock + |list|)
  {
    var stream := ListWire(list, tail);
    assert stream[..4] == Int(|list|, 4) && stream[4..] == Records(list, tail);
    RecordsLength(list, tail);
    BytesUsed(|list|, Records(list, tail), memory, 0, cut, clock);
    if WholeReads(|list|, cut, clock) {
      WholeRecordsArrive(list, tail, memory, 0, cut, clock);
    }
  }

  /** A record cut just before its flag: the path is right, the flag is whatever the memory held, and
      the record's own flag is still on the wire. So the list itself may even come out right. */
  lemma TornRecord(l: Listed, tail: seq<byte>, memory: nat -> Block)
    requires Storable(l)
    ensures var r := ReceiveList(ListWire([l], tail), memory, _ => PATH_LENGTH, 0);
            && r.list == [Listed(l.path, DecodeInt(memory(0)[PATH_LENGTH..]) != 0)]
            && r.rest == Int(if l.isFile then 1 else 0, 4) + tail
  {
    var stream := Record(l) + tail;
    OnlyRecord(l, tail);
    OneCutRecord(stream, memory);
    CutBeforeFlag(l, tail, memory(0));
  }

  /** A count of 0 or below is an empty list, and without a whole count the client waits. */
  lemma EmptyList(count: int, tail: seq<byte>, memory: nat -> Block, cut: nat -> nat, clock: nat)
    requires -LIMIT <= count <= 0
    ensures ReceiveList(Int(count, 4) + tail, memory, cut, clock) == Listing([], tail, clock, false)
    ensures |tail| < 4 ==> ReceiveList(tail, memory, cut, clock) == Listing([], tail, clock, true)
  {
    var stream := Int(count, 4) + tail;
    assert stream[..4] == Int(count, 4) && stream[4..] == tail;
  }

  lemma OnlyRecord(l: Listed, tail: seq<byte>)
    requires Storable(l)
    ensures ListWire([l], tail)[..4] == Int(1, 4) && ListWire([l], tail)[4..] == Record(l) + tail
  {
    assert [l][1..] == [] && Records([l][1..], tail) == tail;
  }

  lemma CutBeforeFlag(l: Listed, tail: seq<byte>, block: Block)
    requires Storable(l)
    ensures var stream := Record(l) + tail;
            && stream[PATH_LENGTH..] == Int(if l.isFile then 1 else 0, 4) + tail
            && ReadRecord(stream[..PATH_LENGTH] + block[PATH_LENGTH..])
               == Listed(l.path, DecodeInt(block[PATH_LENGTH..]) != 0)
  {
    var stream := Record(l) + tail;
    var torn := stream[..PATH_LENGTH] + block[PATH_LENGTH..];
    assert torn[..PATH_LENGTH] == Record(l)[..PATH_LENGTH] && torn[PATH_LENGTH..] == block[PATH_LENGTH..];
    RecordRoundTrip(l);
  }

  lemma OneCutRecord(stream: seq<byte>, memory: nat -> Block)
    requires |stream| >= PATH_LENGTH
    ensures ReceiveRecords(1, stream, memory, 0, _ => PATH_LENGTH, 0)
            == Listing([ReadRecord(stream[..PATH_LENGTH] + memory(0)[PATH_LENGTH..])], stream[PATH_LENGTH..], 1, false)
  {
    var cut: nat -> nat := _ => PATH_LENGTH;
    assert Delivered(cut, 0, RECORD, |stream|) == PATH_LENGTH;
    assert ReceiveRecords(0, stream[PATH_LENGTH..], memory, 1, cut, 1) == Listing([], stream[PATH_LENGTH..], 1, false);
  }
}
