/**
 The chained hash table in which the copier counts file kinds.
 */
module CopierHistogram {
  import opened Wrappers

  const TABLE_SIZE := 10
  const UINT_RANGE := 0x1_0000_0000

  /** A `char` read as the signed number it is promoted to. */
  function SignedChar(c: char): (n: int)
    ensures -128 <= n < 128 && (c as int - n) % 256 == 0
  {
    if c as int % 256 < 128 then c as int % 256 else c as int % 256 - 256
  }

  /** The 32-bit unsigned accumulator after the whole key. */
  function Accumulate(key: string): (h: nat)
    ensures h < UINT_RANGE
  {
    if key == "" then 0
    else (Accumulate(key[..|key| - 1]) * 31 + SignedChar(key[|key| - 1])) % UINT_RANGE
  }

  function Power31(k: nat): nat {
    if k == 0 then 1 else 31 * Power31(k - 1)
  }

  /** The characters as digits of base 31, the first one the most significant. */
  function Digits(key: string): int {
    if key == "" then 0 else SignedChar(key[0]) * Power31(|key| - 1) + Digits(key[1..])
  }

  lemma {:induction false} DigitsAppend(key: string)
    requires key != ""
    ensures Digits(key) == 31 * Digits(key[..|key| - 1]) + SignedChar(key[|key| - 1])
  {
    var n := |key|;
    if n > 1 {
      DigitsAppend(key[1..]);
      assert key[1..][..n - 2] == key[..n - 1][1..] && key[1..][n - 2] == key[n - 1];
      OneDigitUp(SignedChar(key[0]), Power31(n - 2), Digits(key[1..][..n - 2]), SignedChar(key[n - 1]));
    }
  }

  lemma OneDigitUp(first: int, power: int, middle: int, last: int)
    ensures first * (31 * power) + (31 * middle + last) == 31 * (first * power + middle) + last
  {
  }

  /** The hash is the signed characters times the powers of 31, modulo 2^32. */
  lemma {:induction false} AccumulateIsSum(key: string)
    ensures Accumulate(key) == Digits(key) % UINT_RANGE
  {
    if key != "" {
      var before := key[..|key| - 1];
      AccumulateIsSum(before);
      DigitsAppend(key);
      ReducedBefore(Digits(before), SignedChar(key[|key| - 1]));
    }
  }

  lemma ReducedBefore(n: int, c: int)
    ensures (n % UINT_RANGE * 31 + c) % UINT_RANGE == (31 * n + c) % UINT_RANGE
  {
    var q := n / UINT_RANGE;
    assert 31 * n + c == n % UINT_RANGE * 31 + c + 31 * q * UINT_RANGE;
    assert (n % UINT_RANGE * 31 + c + 31 * q * UINT_RANGE) % UINT_RANGE == (n % UINT_RANGE * 31 + c) % UINT_RANGE;
  }

  function Bucket(key: string, size: nat): (b: nat)
    requires size > 0
    ensures b < size
  {
    Accumulate(key) % size
  }

  method Hash(key: string, size: nat) returns (index: nat)
    requires size > 0
    ensures index == Bucket(key, size)
  {
    var hash := 0;
    for i := 0 to |key|
      invariant hash == Accumulate(key[..i])
    {
      assert key[..i + 1][..i] == key[..i];
      hash := (hash * 31 + SignedChar(key[i])) % UINT_RANGE;
    }
    assert key[..|key|] == key;
    index := hash % size;
  }

  class Node {
    const key: string
    var value: int
    var next: Node?
    ghost const home: nat

    constructor (key: string, value: int, next: Node?, ghost home: nat)
      ensures this.key == key && this.value == value && this.next == next && this.home == home
    {
      this.key, this.value, this.next, this.home := key, value, next, home;
    }
  }

  // The table as a value: one row of keys and counts per bucket.
  datatype Cell = Cell(key: string, value: int)
  type Rows = seq<seq<Cell>>

  /** What a walk along one row finds for a key. */
  function Walk(row: seq<Cell>, key: string): Option<int> {
    if row == [] then None else if row[0].key == key then Some(row[0].value) else Walk(row[1..], key)
  }

  /** The count of a key: what the walk along its own row finds. */
  function CountOf(rows: Rows, key: string): Option<int>
    requires |rows| > 0
  {
    Walk(rows[Bucket(key, |rows|)], key)
  }

  /** Every key sits in its own bucket's row, and once. */
  ghost predicate Tidy(rows: Rows) {
    forall b | 0 <= b < |rows| :: TidyRow(rows[b], b, |rows|)
  }

  predicate TidyRow(row: seq<Cell>, b: nat, size: nat)
    requires size > 0
  {
    row == [] ||
    (Bucket(row[0].key, size) == b && Walk(row[1..], row[0].key) == None && TidyRow(row[1..], b, size))
  }

  function Cells(rows: Rows): nat {
    if rows == [] then 0 else Cells(rows[..|rows| - 1]) + |rows[|rows| - 1]|
  }

  lemma {:induction false} WalkFinds(row: seq<Cell>, j: nat)
    requires j < |row| && forall i | 0 <= i < j :: row[i].key != row[j].key
    ensures Walk(row, row[j].key) == Some(row[j].value)
  {
    if j > 0 {
      assert row[0].key != row[j].key;
      WalkFinds(row[1..], j - 1);
    }
  }

  lemma {:induction false} WalkMisses(row: seq<Cell>, key: string)
    requires forall i | 0 <= i < |row| :: row[i].key != key
    ensures Walk(row, key) == None
  {
    if row != [] {
      WalkMisses(row[1..], key);
    }
  }

  /** Counting one more at the first cell of a key changes the walk for that key only. */
  lemma {:induction false} WalkAfterHit(row: seq<Cell>, j: nat, key: string)
    requires j < |row| && forall i | 0 <= i < j :: row[i].key != row[j].key
    ensures Walk(row[j := Cell(row[j].key, row[j].value + 1)], key) ==
            if key == row[j].key then Some(row[j].value + 1) else Walk(row, key)
  {
    var after := row[j := Cell(row[j].key, row[j].value + 1)];
    if j > 0 {
      assert row[0].key != row[j].key;
      assert after[1..] == row[1..][j - 1 := after[j]];
      WalkAfterHit(row[1..], j - 1, key);
    } else {
      assert after[1..] == row[1..];
    }
  }

  lemma {:induction false} TidyAfterHit(row: seq<Cell>, j: nat, b: nat, size: nat)
    requires size > 0 && j < |row| && TidyRow(row, b, size)
    ensures TidyRow(row[j := Cell(row[j].key, row[j].value + 1)], b, size)
    ensures forall k :: Walk(row, k) == None ==> Walk(row[j := Cell(row[j].key, row[j].value + 1)], k) == None
  {
    var after := row[j := Cell(row[j].key, row[j].value + 1)];
    if j > 0 {
      assert after[1..] == row[1..][j - 1 := after[j]];
      TidyAfterHit(row[1..], j - 1, b, size);
    } else {
      assert after[1..] == row[1..];
    }
  }

  lemma {:induction false} CellsAfter(rows: Rows, b: nat, row: seq<Cell>)
    requires b < |rows|
    ensures Cells(rows[b := row]) == Cells(rows) - |rows[b]| + |row|
  {
    var n := |rows| - 1;
    if b < n {
      CellsAfter(rows[..n], b, row);
      assert rows[b := row][..n] == rows[..n][b := row];
    } else {
      assert rows[b := row][..n] == rows[..n];
    }
  }

  /** What one counted entry does to the table's rows. */
  ghost predicate Counts(before: Rows, after: Rows, key: string, value: int)
    requires |before| == |after| > 0
  {
    forall k :: CountOf(after, k) == if k == key then Some(value) else CountOf(before, k)
  }

  /** The value a key has after `insert`. */
  function Inserted(present: Option<int>, value: int): int {
    match present
    case Some(n) => n + 1
    case None => value
  }

  /** The rows after the j-th cell of row `b` has counted one more. */
  function Hit(rows: Rows, b: nat, j: nat): Rows
    requires b < |rows| && j < |rows[b]|
  {
    rows[b := rows[b][j := Cell(rows[b][j].key, rows[b][j].value + 1)]]
  }

  /** The rows after a new cell has been put in front of row `b`. */
  function Missed(rows: Rows, b: nat, key: string, value: int): Rows
    requires b < |rows|
  {
    rows[b := [Cell(key, value)] + rows[b]]
  }

  /** The j-th cell of row `b` is the first of its key, and the row is that key's bucket. */
  ghost predicate IsFirst(rows: Rows, b: nat, j: nat) {
    && b < |rows| && j < |rows[b]| && Bucket(rows[b][j].key, |rows|) == b
    && forall i | 0 <= i < j :: rows[b][i].key != rows[b][j].key
  }

  lemma HitCounts(rows: Rows, b: nat, j: nat)
    requires Tidy(rows) && IsFirst(rows, b, j)
    ensures Counts(rows, Hit(rows, b, j), rows[b][j].key, rows[b][j].value + 1)
    ensures Tidy(Hit(rows, b, j)) && Cells(Hit(rows, b, j)) == Cells(rows)
  {
    HitCounted(rows, b, j);
    HitIsTidy(rows, b, j);
    CellsAfter(rows, b, Hit(rows, b, j)[b]);
  }

  lemma HitCounted(rows: Rows, b: nat, j: nat)
    requires IsFirst(rows, b, j)
    ensures Counts(rows, Hit(rows, b, j), rows[b][j].key, rows[b][j].value + 1)
  {
    var c, after := rows[b][j], Hit(rows, b, j);
    forall k ensures CountOf(after, k) == if k == c.key then Some(c.value + 1) else CountOf(rows, k) {
      WalkAfterHit(rows[b], j, k);
      if Bucket(k, |rows|) != b {
        assert after[Bucket(k, |rows|)] == rows[Bucket(k, |rows|)];
      }
    }
  }

  lemma HitIsTidy(rows: Rows, b: nat, j: nat)
    requires Tidy(rows) && IsFirst(rows, b, j)
    ensures Tidy(Hit(rows, b, j))
  {
    TidyAfterHit(rows[b], j, b, |rows|);
  }

  lemma MissCounts(rows: Rows, b: nat, key: string, value: int)
    requires |rows| > 0 && Tidy(rows) && CountOf(rows, key) == None && b == Bucket(key, |rows|)
    ensures Counts(rows, Missed(rows, b, key, value), key, value)
    ensures Tidy(Missed(rows, b, key, value)) && Cells(Missed(rows, b, key, value)) == Cells(rows) + 1
  {
    var row := [Cell(key, value)] + rows[b];
    assert row[1..] == rows[b];
    CellsAfter(rows, b, row);
  }

  /** Where a walk finds a key. */
  function FirstAt(row: seq<Cell>, key: string): (j: nat)
    requires Walk(row, key).Some?
    ensures j < |row| && row[j].key == key && forall i | 0 <= i < j :: row[i].key != key
  {
    if row[0].key == key then 0 else FirstAt(row[1..], key) + 1
  }

  /** The rows after `insert`. */
  function Entered(rows: Rows, key: string, value: int): (after: Rows)
    requires |rows| > 0
    ensures |after| == |rows|
  {
    var b := Bucket(key, |rows|);
    if CountOf(rows, key).Some? then Hit(rows, b, FirstAt(rows[b], key)) else Missed(rows, b, key, value)
  }

  lemma FirstIsEntered(rows: Rows, b: nat, j: nat, value: int)
    requires IsFirst(rows, b, j)
    ensures Entered(rows, rows[b][j].key, value) == Hit(rows, b, j)
  {
    WalkFinds(rows[b], j);
    assert FirstAt(rows[b], rows[b][j].key) == j;
  }

  /** `insert` changes the count of its key only, and keeps keys unique and in their bucket. */
  lemma EnteredCounts(rows: Rows, key: string, value: int)
    requires |rows| > 0 && Tidy(rows)
    ensures Counts(rows, Entered(rows, key, value), key, Inserted(CountOf(rows, key), value))
    ensures Tidy(Entered(rows, key, value))
  {
    var b := Bucket(key, |rows|);
    if CountOf(rows, key).Some? {
      var j := FirstAt(rows[b], key);
      WalkFinds(rows[b], j);
      HitCounts(rows, b, j);
    } else {
      MissCounts(rows, b, key, value);
    }
  }

  /** One bucket: the head of its linked list, with the list and its contents as ghosts. */
  class Chain {
    ghost const index: nat
    var head: Node?
    ghost var list: seq<Node>
    ghost var row: seq<Cell>

    ghost predicate Valid()
      reads this, list
    {
      && |list| == |row|
      && head == (if list == [] then null else list[0])
      && (forall j {:trigger list[j].next} | 0 <= j < |list| ::
            list[j].next == if j + 1 < |list| then list[j + 1] else null)
      && (forall j | 0 <= j < |list| :: list[j].key == row[j].key && list[j].value == row[j].value)
      && (forall i, j | 0 <= i < j < |list| :: list[i] != list[j])
      && (forall j | 0 <= j < |list| :: list[j].home == index)
    }

    constructor (ghost index: nat)
      ensures Valid() && list == [] && row == [] && this.index == index
    {
      this.index := index;
      head, list, row := null, [], [];
    }

    /** Walk the list for a key. */
    method Find(key: string) returns (found: Node?, ghost j: nat)
      requires Valid()
      ensures found != null ==>
                && j < |list| && found == list[j] && row[j].key == key
                && (forall i | 0 <= i < j :: row[i].key != key)
      ensures Walk(row, key) == if found != null then Some(found.value) else None
    {
      j := 0;
      found := head;
      while found != null
        invariant j <= |list|
        invariant found == if j < |list| then list[j] else null
        invariant forall i | 0 <= i < j :: row[i].key != key
        decreases |list| - j
      {
        if found.key == key {
          assert row[j].key == key;
          WalkFinds(row, j);
          return;
        }
        assert list[j].next == found.next;
        found := found.next;
        j := j + 1;
      }
      WalkMisses(row, key);
    }

    method Increment(node: Node, ghost j: nat)
      requires Valid() && j < |list| && node == list[j]
      modifies this`row, node`value
      ensures Valid() && list == old(list)
      ensures row == old(row)[j := Cell(old(row)[j].key, old(row)[j].value + 1)]
    {
      row := row[j := Cell(row[j].key, row[j].value + 1)];
      node.value := node.value + 1;
    }

    method Prepend(key: string, value: int)
      requires Valid()
      modifies this
      ensures Valid() && |list| > 0 && fresh(list[0]) && list == [list[0]] + old(list)
      ensures row == [Cell(key, value)] + old(row)
    {
      var node := new Node(key, value, head, index);
      head := node;
      list := [node] + list;
      row := [Cell(key, value)] + row;
    }
  }

  class Hashtable {
    const buckets: seq<Chain>
    var count: nat
    ghost var rows: Rows
    ghost var nodes: set<Node>

    /** The buckets are separate lists, and hold the rows. */
    ghost predicate Linked()
      reads this, buckets, nodes
    {
      && |buckets| == |rows| > 0
      && (forall b | 0 <= b < |buckets| :: (forall n <- buckets[b].list :: n in nodes))
      && (forall b | 0 <= b < |buckets| :: buckets[b].Valid() && buckets[b].row == rows[b])
      && (forall b | 0 <= b < |buckets| :: buckets[b].index == b)
    }

    ghost predicate Valid()
      reads this, buckets, nodes
    {
      Linked() && Tidy(rows) && count == Cells(rows)
    }

    constructor ()
      ensures Valid() && fresh(buckets) && nodes == {} && |buckets| == 10 && count == 0
      ensures Tallies(rows, multiset{})
      ensures rows == seq(TABLE_SIZE, _ => [])
    {
      var made: seq<Chain> := [];
      for i := 0 to TABLE_SIZE
        invariant |made| == i && fresh(made)
        invariant forall b | 0 <= b < i ::
                    made[b].Valid() && made[b].list == [] && made[b].row == [] && made[b].index == b
      {
        var chain := new Chain(i);
        made := made + [chain];
      }
      EmptyRows();
      buckets, count := made, 0;
      rows, nodes := seq(TABLE_SIZE, _ => []), {};
    }

    /** `node` is the first node of `key`: the j-th of its own bucket. */
    ghost predicate IsNodeOf(key: string, index: nat, node: Node, j: nat)
      requires Valid()
      reads this, buckets, nodes
    {
      && IsFirst(rows, index, j) && node in nodes
      && j < |buckets[index].list| && node == buckets[index].list[j]
      && rows[index][j].key == key && CountOf(rows, key) == Some(rows[index][j].value)
    }

    /** The walk that `get` and `insert` share: the first node of a key in its own bucket. */
    method Locate(key: string) returns (index: nat, found: Node?, ghost j: nat)
      requires Valid()
      ensures index == Bucket(key, |rows|) < |buckets|
      ensures CountOf(rows, key) == if found == null then None else Some(found.value)
      ensures found != null ==> IsNodeOf(key, index, found, j)
    {
      index := Hash(key, |buckets|);
      found, j := buckets[index].Find(key);
      assert rows[index] == buckets[index].row;
    }

    /** `get`: the value of a key, 0 if it has none. */
    method Get(key: string) returns (value: int)
      requires Valid()
      ensures value == if CountOf(rows, key).Some? then CountOf(rows, key).value else 0
    {
      var index, found, j := Locate(key);
      value := if found == null then 0 else found.value;
    }

    /** `insert`: a present key counts one more, whatever `value` is; an absent one gets `value`
        and a node of its own. */
    method Insert(key: string, value: int)
      requires Valid()
      modifies this, buckets, nodes
      ensures Valid() && fresh(nodes - old(nodes)) && |rows| == |old(rows)|
      ensures rows == Entered(old(rows), key, value)
      ensures Counts(old(rows), rows, key, Inserted(CountOf(old(rows), key), value))
      ensures count == old(count) + if CountOf(old(rows), key).Some? then 0 else 1
    {
      var index, found, j := Locate(key);
      if found != null {
        Increment(index, found, j, key, value);
      } else {
        Prepend(index, key, value);
      }
    }

    method Increment(index: nat, node: Node, ghost j: nat, ghost key: string, ghost value: int)
      requires Valid() && IsNodeOf(key, index, node, j)
      modifies this`rows, buckets, nodes
      ensures Valid() && |rows| == |old(rows)|
      ensures Counts(old(rows), rows, key, Inserted(CountOf(old(rows), key), value))
      ensures CountOf(old(rows), key).Some? && nodes == old(nodes)
      ensures rows == Entered(old(rows), key, value)
    {
      HitCounts(rows, index, j);
      assert Counts(rows, Hit(rows, index, j), key, Inserted(CountOf(rows, key), value));
      FirstIsEntered(rows, index, j, value);
      Bump(index, node, j);
    }

    method Bump(index: nat, node: Node, ghost j: nat)
      requires Linked() && index < |rows| && node in nodes
      requires j < |buckets[index].list| && node == buckets[index].list[j]
      modifies this`rows, buckets[index], node`value
      ensures Linked() && rows == Hit(old(rows), index, j)
    {
      buckets[index].Increment(node, j);
      rows := rows[index := buckets[index].row];
    }

    method Prepend(index: nat, key: string, value: int)
      requires Valid() && index == Bucket(key, |rows|) && CountOf(rows, key) == None
      modifies this, buckets, nodes
      ensures Valid() && fresh(nodes - old(nodes)) && |rows| == |old(rows)|
      ensures Counts(old(rows), rows, key, Inserted(CountOf(old(rows), key), value))
      ensures CountOf(old(rows), key) == None && count == old(count) + 1
      ensures rows == Entered(old(rows), key, value)
    {
      MissCounts(rows, index, key, value);
      Link(index, key, value);
      count := count + 1;
    }

    method Link(index: nat, key: string, value: int)
      requires Linked() && index < |rows|
      modifies this`rows, this`nodes, buckets[index]
      ensures Linked() && fresh(nodes - old(nodes)) && rows == Missed(old(rows), index, key, value)
    {
      buckets[index].Prepend(key, value);
      nodes := nodes + {buckets[index].list[0]};
      rows := rows[index := buckets[index].row];
    }

    /** The only way the program uses the table: record one more entry of a kind. */
    method Record(key: string)
      requires Valid()
      modifies this, buckets, nodes
      ensures Valid() && fresh(nodes - old(nodes)) && |rows| == |old(rows)|
      ensures rows == Recorded(old(rows), key)
      ensures var c := CountOf(old(rows), key);
              Counts(old(rows), rows, key, (if c.Some? then c.value else 0) + 1)
      ensures forall keys :: Tallies(old(rows), keys) ==> Tallies(rows, keys + multiset{key})
    {
      ghost var before := rows;
      var n := Get(key);
      Insert(key, n + 1);
      forall keys | Tallies(before, keys) ensures Tallies(rows, keys + multiset{key}) {
        RecordTallies(before, rows, keys, key);
      }
    }
  }

  // ---------------------------------------------------------------------------------------
  // The table as a tally of recorded keys.

  /** The table has exactly the recorded keys, each with the number of times it was recorded. */
  ghost predicate Tallies(rows: Rows, keys: multiset<string>) {
    |rows| > 0 && forall k :: CountOf(rows, k) == if k in keys then Some(keys[k]) else None
  }

  /** The rows after one more recording of a key. */
  function Recorded(rows: Rows, key: string): (after: Rows)
    requires |rows| > 0
    ensures |after| == |rows|
  {
    var c := CountOf(rows, key);
    Entered(rows, key, (if c.Some? then c.value else 0) + 1)
  }

  /** The rows of the new table after the keys have been recorded in order. */
  function RecordAll(keys: seq<string>): (rows: Rows)
    ensures |rows| == TABLE_SIZE
  {
    if keys == [] then seq(TABLE_SIZE, _ => []) else Recorded(RecordAll(keys[..|keys| - 1]), keys[|keys| - 1])
  }

  /** They have every key, with the number of times it was recorded. */
  lemma {:induction false} RecordAllTallies(keys: seq<string>)
    ensures Tidy(RecordAll(keys)) && Tallies(RecordAll(keys), multiset(keys))
  {
    if keys == [] {
      EmptyRows();
    } else {
      var before, key := keys[..|keys| - 1], keys[|keys| - 1];
      RecordAllTallies(before);
      var rows := RecordAll(before);
      EnteredCounts(rows, key, (if CountOf(rows, key).Some? then CountOf(rows, key).value else 0) + 1);
      RecordTallies(rows, Recorded(rows, key), multiset(before), key);
      assert keys == before + [key];
    }
  }

  lemma EmptyRows()
    ensures var rows: Rows := seq(TABLE_SIZE, _ => []);
            Tidy(rows) && Cells(rows) == 0 && Tallies(rows, multiset{})
  {
    NoCells(seq(TABLE_SIZE, _ => []));
  }

  /** `Record` keeps the tally: its effect on the counts is one more entry of its key. */
  lemma RecordTallies(before: Rows, after: Rows, keys: multiset<string>, key: string)
    requires Tallies(before, keys) && |after| == |before|
    requires var c := CountOf(before, key);
             Counts(before, after, key, (if c.Some? then c.value else 0) + 1)
    ensures Tallies(after, keys + multiset{key})
  {
    forall k ensures CountOf(after, k) ==
                     if k in keys + multiset{key} then Some((keys + multiset{key})[k]) else None
    {
      assert CountOf(before, k) == if k in keys then Some(keys[k]) else None;
    }
  }

  function RowSum(row: seq<Cell>): int {
    if row == [] then 0 else row[0].value + RowSum(row[1..])
  }

  /** The sum of all printed counts. */
  function SumOfCounts(rows: Rows): int {
    if rows == [] then 0 else SumOfCounts(rows[..|rows| - 1]) + RowSum(rows[|rows| - 1])
  }

  lemma {:induction false} SumAfter(rows: Rows, b: nat, row: seq<Cell>)
    requires b < |rows|
    ensures SumOfCounts(rows[b := row]) == SumOfCounts(rows) - RowSum(rows[b]) + RowSum(row)
  {
    var n := |rows| - 1;
    if b < n {
      SumAfter(rows[..n], b, row);
      assert rows[b := row][..n] == rows[..n][b := row];
    } else {
      assert rows[b := row][..n] == rows[..n];
    }
  }

  lemma {:induction false} NoCells(rows: Rows)
    requires forall b | 0 <= b < |rows| :: rows[b] == []
    ensures Cells(rows) == 0 && SumOfCounts(rows) == 0
  {
    if rows != [] {
      NoCells(rows[..|rows| - 1]);
    }
  }

  /** The table without the first cell of row `b`, and the entries without that cell's key. */
  lemma CellRemoved(rows: Rows, keys: multiset<string>, b: nat)
    requires Tidy(rows) && Tallies(rows, keys) && b < |rows| && rows[b] != []
    ensures var c, rest := rows[b][0], rows[b := rows[b][1..]];
            && Tidy(rest) && Cells(rest) + 1 == Cells(rows) && SumOfCounts(rest) + c.value == SumOfCounts(rows)
            && c.key in keys && keys[c.key] == c.value && Tallies(rest, keys[c.key := 0])
  {
    var c, rest := rows[b][0], rows[b := rows[b][1..]];
    CellsAfter(rows, b, rows[b][1..]);
    SumAfter(rows, b, rows[b][1..]);
    assert CountOf(rows, c.key) == Some(c.value);
    forall k ensures CountOf(rest, k) ==
                     if k in keys[c.key := 0] then Some(keys[c.key := 0][k]) else None
    {
      assert CountOf(rows, k) == if k in keys then Some(keys[k]) else None;
    }
  }

  function Kinds(keys: multiset<string>): set<string> {
    set k | k in keys
  }

  /** The table has one node per distinct kind, and the printed counts add up to the number of
      recorded entries. */
  lemma {:induction false} CountsAddUp(rows: Rows, keys: multiset<string>)
    requires Tidy(rows) && Tallies(rows, keys)
    ensures Cells(rows) == |Kinds(keys)|
    ensures SumOfCounts(rows) == |keys|
    decreases Cells(rows)
  {
    if b: nat :| b < |rows| && rows[b] != [] {
      var c := rows[b][0];
      CellRemoved(rows, keys, b);
      CountsAddUp(rows[b := rows[b][1..]], keys[c.key := 0]);
      OneKeyLess(keys, c.key);
    } else {
      NoCells(rows);
      forall k ensures k !in keys {
        assert CountOf(rows, k) == None;
      }
      assert keys == multiset{};
    }
  }

  lemma OneKeyLess(keys: multiset<string>, key: string)
    requires key in keys
    ensures |keys| == |keys[key := 0]| + keys[key]
    ensures |Kinds(keys)| == |Kinds(keys[key := 0])| + 1
  {
    var others := keys[key := 0];
    assert keys == others[key := keys[key]];
    assert Kinds(keys) == Kinds(others) + {key};
  }
}
