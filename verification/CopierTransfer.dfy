/**
 The byte-copy loop of the directory copier: read a chunk, write it, count what was written.
 */
module CopierTransfer {
  import opened CopierTree

  datatype Message = WriteFailed | ReadFailed

  /** An open source file: the reads still to come. */
  class Source {
    const script: Script
    var position: nat

    ghost predicate Valid() reads this {
      position <= |script.transfers|
    }

    constructor (script: Script)
      ensures this.script == script && position == 0
    {
      this.script := script;
      position := 0;
    }

    /** `read`: the next chunk, 0 at the end of the file, or -1. */
    method Read() returns (bytesRead: int, chunk: Exchange)
      requires Valid()
      modifies this
      ensures Valid()
      ensures if old(position) < |script.transfers| then
                && position == old(position) + 1
                && chunk == script.transfers[old(position)]
                && bytesRead == |chunk.data| > 0
              else
                position == old(position) && bytesRead == if script.readFails then -1 else 0
    {
      if position < |script.transfers| {
        chunk := script.transfers[position];
        bytesRead := |chunk.data|;
        position := position + 1;
      } else {
        chunk := Exchange([], 0);
        bytesRead := if script.readFails then -1 else 0;
      }
    }
  }

  /** An open destination file. */
  class Destination {
    var data: seq<bv8>

    constructor ()
      ensures data == []
    {
      data := [];
    }

    /** `write`: take the first `wrote` bytes, or fail and take none. */
    method Write(buf: seq<bv8>, wrote: int) returns (bytesWritten: int)
      requires -1 <= wrote <= |buf|
      modifies this
      ensures bytesWritten == wrote
      ensures data == old(data) + buf[..if wrote < 0 then 0 else wrote]
    {
      if wrote > 0 {
        data := data + buf[..wrote];
      }
      bytesWritten := wrote;
    }
  }

  class Statistics {
    var bytesCopied: nat
    var messages: seq<Message>

    constructor ()
      ensures bytesCopied == 0 && messages == []
    {
      bytesCopied, messages := 0, [];
    }
  }

  /** The complaint a copy ends with, if any: a failed write stops it before the end is read. */
  function Complaint(script: Script): seq<Message> {
    if exists t <- script.transfers :: t.wrote < 0 then [WriteFailed]
    else if script.readFails then [ReadFailed]
    else []
  }

  /** There is at most one complaint about a file. */
  lemma OneComplaint(script: Script)
    ensures |Complaint(script)| == Complaints(script, 0)
  {
    var ts := script.transfers;
    if t :| t in ts && t.wrote < 0 {
      var i :| 0 <= i < |ts| && ts[i] == t;
      assert Breaks(ts, 0);
    }
    if i :| 0 <= i < |ts| && ts[i].wrote < 0 {
      assert ts[i] in ts;
    }
  }

  lemma {:induction false} WrittenUpTo(ts: seq<Transfer>, k: nat)
    requires k < |ts| && forall i | 0 <= i <= k :: ts[i].wrote >= 0
    ensures Written(ts[..k + 1]) == Written(ts[..k]) + ts[k].data[..ts[k].wrote]
  {
    if k == 0 {
      assert ts[..1][1..] == [] == ts[..0];
    } else {
      assert ts[1..][..k] == ts[..k + 1][1..];
      assert ts[1..][..k - 1] == ts[..k][1..];
      WrittenUpTo(ts[1..], k - 1);
    }
  }

  lemma {:induction false} WrittenStopsAtFailure(ts: seq<Transfer>, k: nat)
    requires k < |ts| && ts[k].wrote < 0
    requires forall i | 0 <= i < k :: ts[i].wrote >= 0
    ensures Written(ts) == Written(ts[..k])
  {
    if k > 0 {
      WrittenStopsAtFailure(ts[1..], k - 1);
      assert ts[1..][..k - 1] == ts[..k][1..];
    }
  }

  /** `copy_fd` moves to the destination exactly the accepted prefixes up to the first failed
      write, adds their length to `bytes_copied`, and complains once per failed file. */
  method CopyFd(source: Source, destination: Destination, stats: Statistics)
    requires source.Valid() && source.position == 0
    modifies source, destination, stats
    ensures destination.data == old(destination.data) + Written(source.script.transfers)
    ensures stats.bytesCopied == old(stats.bytesCopied) + |Written(source.script.transfers)|
    ensures stats.messages == old(stats.messages) + Complaint(source.script)
    ensures (exists t <- source.script.transfers :: t.wrote < 0) ==>
              stats.messages == old(stats.messages) + [WriteFailed]
    ensures (forall t <- source.script.transfers :: t.wrote >= 0) && source.script.readFails ==>
              stats.messages == old(stats.messages) + [ReadFailed]
    ensures (forall t <- source.script.transfers :: t.wrote >= 0) && !source.script.readFails ==>
              stats.messages == old(stats.messages)
  {
    ghost var ts := source.script.transfers;
    var bytesRead, chunk := source.Read();
    ghost var done := 0;
    var broken := false;
    while bytesRead > 0 && !broken
      invariant source.Valid() && done <= |ts|
      invariant forall i | 0 <= i < done :: ts[i].wrote >= 0
      invariant destination.data == old(destination.data) + Written(ts[..done])
      invariant stats.bytesCopied == old(stats.bytesCopied) + |Written(ts[..done])|
      invariant broken ==> done < |ts| && ts[done].wrote < 0 && bytesRead > 0
      invariant stats.messages == old(stats.messages) + if broken then [WriteFailed] else []
      invariant !broken && done < |ts| ==>
                  source.position == done + 1 && chunk == ts[done] && bytesRead == |chunk.data|
      invariant !broken && done == |ts| ==>
                  source.position == done && bytesRead == if source.script.readFails then -1 else 0
      decreases !broken, |ts| - done
    {
      var bytesWritten := destination.Write(chunk.data, chunk.wrote);
      if bytesWritten < 0 {
        stats.messages := stats.messages + [WriteFailed];
        broken := true;
      } else {
        WrittenUpTo(ts, done);
        stats.bytesCopied := stats.bytesCopied + bytesWritten;
        done := done + 1;
        bytesRead, chunk := source.Read();
      }
    }
    if broken {
      WrittenStopsAtFailure(ts, done);
      assert ts[done] in ts;
    } else {
      assert ts[..done] == ts;
    }
    if bytesRead < 0 {
      stats.messages := stats.messages + [ReadFailed];
    }
  }
}
