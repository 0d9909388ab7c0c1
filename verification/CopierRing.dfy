/**
 The task ring of the directory copier: a buffer of `buffer_size` slots with an index to
 write at and an index to read from. One slot always stays free, so that equal indices
 mean "empty".
 */
module CopierRing {

  datatype Ring<T> = Ring(slots: seq<T>, bufferIn: nat, bufferOut: nat)

  predicate ValidRing<T>(r: Ring<T>) {
    r.bufferIn < |r.slots| && r.bufferOut < |r.slots|
  }

  predicate IsEmpty<T>(r: Ring<T>) {
    r.bufferIn == r.bufferOut
  }

  predicate IsFull<T>(r: Ring<T>)
    requires ValidRing(r)
  {
    (r.bufferIn + 1) % |r.slots| == r.bufferOut
  }

  /** The queued elements, oldest first. */
  function Contents<T>(r: Ring<T>): seq<T>
    requires ValidRing(r)
  {
    if r.bufferOut <= r.bufferIn then r.slots[r.bufferOut..r.bufferIn]
    else r.slots[r.bufferOut..] + r.slots[..r.bufferIn]
  }

  function Put<T>(r: Ring<T>, x: T): Ring<T>
    requires ValidRing(r)
  {
    Ring(r.slots[r.bufferIn := x], (r.bufferIn + 1) % |r.slots|, r.bufferOut)
  }

  function Front<T>(r: Ring<T>): T
    requires ValidRing(r)
  {
    r.slots[r.bufferOut]
  }

  function Drop<T>(r: Ring<T>): Ring<T>
    requires ValidRing(r)
  {
    r.(bufferOut := (r.bufferOut + 1) % |r.slots|)
  }

  lemma NextIndex(i: nat, n: nat)
    requires i < n
    ensures (i + 1) % n == if i + 1 == n then 0 else i + 1
  {
    if i + 1 < n {
      SmallMod(i + 1, n);
    }
  }

  lemma SmallMod(k: nat, n: nat)
    requires k < n
    ensures k % n == k
  {
  }

  /** The two index tests tell exactly whether the queue is empty or holds all it can. */
  lemma IndexTests<T>(r: Ring<T>)
    requires ValidRing(r)
    ensures IsEmpty(r) <==> Contents(r) == []
    ensures IsFull(r) <==> |Contents(r)| == |r.slots| - 1
    ensures |Contents(r)| <= |r.slots| - 1
  {
    NextIndex(r.bufferIn, |r.slots|);
  }

  /** Adding to a ring that is not full appends, and overwrites no queued element. */
  lemma PutAppends<T>(r: Ring<T>, x: T)
    requires ValidRing(r) && !IsFull(r)
    ensures ValidRing(Put(r, x))
    ensures Contents(Put(r, x)) == Contents(r) + [x]
  {
    NextIndex(r.bufferIn, |r.slots|);
  }

  /** Taking from a ring that is not empty removes the oldest element. */
  lemma DropRemovesFront<T>(r: Ring<T>)
    requires ValidRing(r) && !IsEmpty(r)
    ensures ValidRing(Drop(r))
    ensures Contents(r) == [Front(r)] + Contents(Drop(r))
  {
    NextIndex(r.bufferOut, |r.slots|);
    ContentsFrom(r, (r.bufferOut + 1) % |r.slots|);
  }

  /** The contents are the element at the read index, and what is queued behind it. */
  lemma ContentsFrom<T>(r: Ring<T>, next: nat)
    requires ValidRing(r) && !IsEmpty(r)
    requires next == if r.bufferOut + 1 == |r.slots| then 0 else r.bufferOut + 1
    ensures Contents(r) == [Front(r)] + Contents(r.(bufferOut := next))
  {
    if r.bufferOut <= r.bufferIn {
      SliceFront(r.slots, r.bufferOut, r.bufferIn);
    } else {
      SliceFront(r.slots, r.bufferOut, |r.slots|);
      FrontThenBoth(Front(r), r.slots[r.bufferOut + 1..], r.slots[..r.bufferIn]);
    }
  }

  lemma SliceFront<T>(s: seq<T>, i: nat, j: nat)
    requires i < j <= |s|
    ensures s[i..j] == [s[i]] + s[i + 1..j]
  {
  }

  lemma FrontThenBoth<T>(x: T, a: seq<T>, b: seq<T>)
    ensures [x] + a + b == [x] + (a + b)
    ensures a == [] ==> a + b == b
  {
  }

  /** A ring accepts a task in some state exactly when it has at least two slots. */
  lemma OneSlotIsAlwaysFull<T>(slots: seq<T>)
    requires slots != []
    ensures (exists r: Ring<T> :: r.slots == slots && ValidRing(r) && !IsFull(r)) <==> |slots| >= 2
  {
    if |slots| >= 2 {
      var r := Ring(slots, 0, 0);
      NextIndex(0, |slots|);
      assert ValidRing(r) && !IsFull(r);
    } else {
      forall r: Ring<T> | r.slots == slots && ValidRing(r) ensures IsFull(r) {
        NextIndex(r.bufferIn, |r.slots|);
      }
    }
  }

  /** The shared ring as the program keeps it: one array and two indices. */
  class TaskBuffer<T(0)> {
    var buffer: array<T>
    var bufferIn: nat
    var bufferOut: nat

    ghost function View(): Ring<T>
      reads this, buffer
    {
      Ring(buffer[..], bufferIn, bufferOut)
    }

    ghost predicate Valid()
      reads this, buffer
    {
      ValidRing(View())
    }

    constructor (size: nat)
      requires size >= 1
      ensures Valid() && fresh(buffer) && buffer.Length == size && Contents(View()) == []
    {
      buffer := new T[size];
      bufferIn, bufferOut := 0, 0;
    }

    method Full() returns (full: bool)
      requires Valid()
      ensures full == (|Contents(View())| == buffer.Length - 1)
    {
      IndexTests(View());
      full := (bufferIn + 1) % buffer.Length == bufferOut;
    }

    method Empty() returns (empty: bool)
      requires Valid()
      ensures empty == (Contents(View()) == [])
    {
      IndexTests(View());
      empty := bufferIn == bufferOut;
    }

    /** Store a task once the wait for a free slot is over. */
    method AddTask(task: T)
      requires Valid() && |Contents(View())| < buffer.Length - 1
      modifies this`bufferIn, buffer
      ensures Valid() && buffer == old(buffer)
      ensures View() == Put(old(View()), task)
      ensures Contents(View()) == old(Contents(View())) + [task]
    {
      IndexTests(View());
      PutAppends(View(), task);
      buffer[bufferIn] := task;
      bufferIn := (bufferIn + 1) % buffer.Length;
    }

    /** Fetch the oldest task once the wait for one is over. */
    method TakeTask() returns (task: T)
      requires Valid() && Contents(View()) != []
      modifies this`bufferOut
      ensures Valid() && buffer == old(buffer)
      ensures task == Front(old(View())) && View() == Drop(old(View()))
      ensures old(Contents(View())) == [task] + Contents(View())
    {
      IndexTests(View());
      DropRemovesFront(View());
      task := buffer[bufferOut];
      bufferOut := (bufferOut + 1) % buffer.Length;
    }
  }
}
