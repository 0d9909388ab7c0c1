/**
 The array queue of waiting clients. Positions are used once: a slot given up at the front is not
 reused before the queue has run empty.
 */
module AdmissionQueue {

  const MAX_SIZE := 1024

  /** What the array holds, oldest first, and the position of the youngest, -1 if there is none. */
  datatype Waiting = Waiting(clients: seq<int>, rear: int) {
    predicate Valid() {
      && (clients == [] <==> rear == -1)
      && |clients| <= rear + 1 <= MAX_SIZE
    }
  }

  const NOBODY := Waiting([], -1)

  function Put(q: Waiting, client: int): (r: Waiting)
    requires q.Valid()
    ensures r.Valid()
  {
    if q.rear == MAX_SIZE - 1 then q else Waiting(q.clients + [client], q.rear + 1)
  }

  function Take(q: Waiting): (r: Waiting)
    requires q.Valid()
    ensures r.Valid()
  {
    if |q.clients| <= 1 then NOBODY else Waiting(q.clients[1..], q.rear)
  }

  class Queue {
    const items: array<int>
    var front: int
    var rear: int

    ghost predicate Valid()
      reads this
    {
      items.Length == MAX_SIZE && (front == rear == -1 || 0 <= front <= rear < MAX_SIZE)
    }

    ghost function View(): (q: Waiting)
      requires Valid()
      reads this, items
      ensures q.Valid()
    {
      if front == -1 then NOBODY else Waiting(items[front..rear + 1], rear)
    }

    constructor ()
      ensures Valid() && fresh(items) && View() == NOBODY
    {
      items := new int[MAX_SIZE];
      front, rear := -1, -1;
    }

    predicate IsFull()
      requires Valid()
      reads this
    {
      rear == MAX_SIZE - 1
    }

    predicate IsEmpty()
      requires Valid()
      reads this, items
      ensures IsEmpty() <==> View().clients == []
    {
      front == -1 && rear == -1
    }

    method Enqueue(data: int) returns (accepted: bool)
      requires Valid()
      modifies this, items
      ensures Valid() && View() == Put(old(View()), data)
      ensures accepted <==> View() != old(View())
    {
      if IsFull() {
        return false;
      }
      ghost var before := View().clients;
      if IsEmpty() {
        front, rear := 0, 0;
      } else {
        rear := rear + 1;
      }
      items[rear] := data;
      accepted := true;
      assert items[front..rear + 1] == before + [data];
    }

    method Dequeue() returns (data: int)
      requires Valid()
      modifies this
      ensures Valid() && View() == Take(old(View()))
      ensures data == if old(View()).clients == [] then -1 else old(View()).clients[0]
    {
      if IsEmpty() {
        return -1;
      }
      data := items[front];
      if front == rear {
        front, rear := -1, -1;
      } else {
        front := front + 1;
      }
    }
  }

  // ---------------------------------------------------------------------------------------
  // Against a queue without limits.

  datatype Operation = Enqueue(client: int) | Dequeue

  function Perform(q: Waiting, op: Operation): (r: Waiting)
    requires q.Valid()
    ensures r.Valid()
  {
    match op
    case Enqueue(client) => Put(q, client)
    case Dequeue => Take(q)
  }

  function PerformAll(ops: seq<Operation>): (r: Waiting)
    ensures r.Valid()
    decreases |ops|
  {
    if ops == [] then NOBODY else Perform(PerformAll(ops[..|ops| - 1]), ops[|ops| - 1])
  }

  /** A queue that never refuses. */
  function Fifo(ops: seq<Operation>): seq<int>
    decreases |ops|
  {
    if ops == [] then []
    else
      var before := Fifo(ops[..|ops| - 1]);
      match ops[|ops| - 1]
      case Enqueue(client) => before + [client]
      case Dequeue => if before == [] then [] else before[1..]
  }

  /** Clients enqueued since the unlimited queue was last empty. */
  function SinceEmpty(ops: seq<Operation>): nat
    decreases |ops|
  {
    if ops == [] || Fifo(ops) == [] then 0
    else SinceEmpty(ops[..|ops| - 1]) + if ops[|ops| - 1].Enqueue? then 1 else 0
  }

  /** At no time have more than 1024 clients been enqueued since the queue was last empty. */
  predicate Fits(ops: seq<Operation>)
    decreases |ops|
  {
    ops == [] || (Fits(ops[..|ops| - 1]) && SinceEmpty(ops) <= MAX_SIZE)
  }

  /** As long as no busy period sees more than 1024 clients, the array is an unlimited queue. */
  lemma {:induction false} FitsThenFifo(ops: seq<Operation>)
    requires Fits(ops)
    ensures PerformAll(ops).clients == Fifo(ops)
    ensures Fifo(ops) != [] ==> PerformAll(ops).rear + 1 == SinceEmpty(ops)
    decreases |ops|
  {
    if ops != [] {
      FitsThenFifo(ops[..|ops| - 1]);
    }
  }

  /** The first client too many is lost, no matter how many of the others have left already. */
  lemma FirstMisfit(ops: seq<Operation>)
    requires ops != [] && Fits(ops[..|ops| - 1]) && !Fits(ops)
    ensures ops[|ops| - 1].Enqueue?
    ensures PerformAll(ops) == PerformAll(ops[..|ops| - 1])
    ensures |PerformAll(ops).clients| + 1 == |Fifo(ops)|
  {
    var before := ops[..|ops| - 1];
    FitsThenFifo(before);
    if before != [] {
      assert SinceEmpty(before) <= MAX_SIZE;
    }
  }

  ghost predicate AlwaysFifo(ops: seq<Operation>) {
    forall k | 0 <= k <= |ops| :: PerformAll(ops[..k]).clients == Fifo(ops[..k])
  }

  /** The array refines the unlimited queue exactly when no busy period is too long for it. */
  lemma {:induction false} AlwaysFifoIffFits(ops: seq<Operation>)
    ensures AlwaysFifo(ops) <==> Fits(ops)
    decreases |ops|
  {
    assert ops[..|ops|] == ops;
    if ops == [] {
      assert AlwaysFifo(ops);
    } else {
      var before := ops[..|ops| - 1];
      AlwaysFifoIffFits(before);
      assert forall k | 0 <= k <= |before| :: before[..k] == ops[..k];
      if Fits(ops) {
        FitsThenFifo(ops);
      } else if Fits(before) {
        FirstMisfit(ops);
      }
    }
  }

  /** The next client fits exactly if the last position has not been used. */
  lemma FitsUnlessFull(ops: seq<Operation>, client: int)
    requires Fits(ops)
    ensures Fits(ops + [Operation.Enqueue(client)]) <==> PerformAll(ops).rear != MAX_SIZE - 1
  {
    var more := ops + [Operation.Enqueue(client)];
    assert more[..|more| - 1] == ops && more[|more| - 1] == Operation.Enqueue(client);
    FitsThenFifo(ops);
    assert Fifo(more) == Fifo(ops) + [client];
    assert SinceEmpty(more) == SinceEmpty(ops) + 1;
    assert PerformAll(ops).rear + 1 == SinceEmpty(ops);
  }

  /** A client that leaves never makes a difference. */
  lemma FitsAfterDequeue(ops: seq<Operation>)
    ensures Fits(ops + [Dequeue]) <==> Fits(ops)
  {
    var more := ops + [Dequeue];
    assert more[..|more| - 1] == ops;
    if Fits(ops) && ops != [] {
      assert SinceEmpty(ops) <= MAX_SIZE;
    }
  }

  function Enqueues(n: nat): seq<Operation> {
    seq(n, _ => Operation.Enqueue(7))
  }

  function Dequeues(n: nat): seq<Operation> {
    seq(n, _ => Dequeue)
  }

  lemma {:induction false} AfterEnqueues(n: nat)
    requires n <= MAX_SIZE
    ensures PerformAll(Enqueues(n)).rear == n - 1 && |PerformAll(Enqueues(n)).clients| == n
  {
    if n > 0 {
      AfterEnqueues(n - 1);
      assert Enqueues(n)[..n - 1] == Enqueues(n - 1);
    }
  }

  lemma {:induction false} AfterDequeues(n: nat)
    requires n < MAX_SIZE
    ensures var q := PerformAll(Enqueues(MAX_SIZE) + Dequeues(n));
            q.rear == MAX_SIZE - 1 && |q.clients| == MAX_SIZE - n
  {
    var ops := Enqueues(MAX_SIZE) + Dequeues(n);
    if n == 0 {
      AfterEnqueues(MAX_SIZE);
      assert ops == Enqueues(MAX_SIZE);
    } else {
      AfterDequeues(n - 1);
      assert ops[..|ops| - 1] == Enqueues(MAX_SIZE) + Dequeues(n - 1);
    }
  }

  /** Any number of clients from 1 to 1024 may be waiting when the next one is refused. */
  lemma RefusedWith(waiting: nat, client: int)
    requires 1 <= waiting <= MAX_SIZE
    ensures var q := PerformAll(Enqueues(MAX_SIZE) + Dequeues(MAX_SIZE - waiting));
            |q.clients| == waiting && Put(q, client) == q
  {
    AfterDequeues(MAX_SIZE - waiting);
  }
}
