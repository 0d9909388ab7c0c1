/**
 The client's change detector: it scans its directory into a table of at most 100 files and
 compares the scan with the previous one.
 */
module MirrorDiff {
  import opened Wrappers
  import opened MirrorPaths

  const MAX_FILES := 100

  /** A directory entry other than `.` and `..`, as the scan finds it. */
  datatype Item =
    | Folder(name: string, opens: bool, items: seq<Item>)
    | Plain(name: string, modified: int)
    | Unreadable(name: string)

  datatype Info = Info(path: string, modified: int)

  // ---------------------------------------------------------------------------------------
  // The scan.

  /** Every file below a directory, depth first. */
  function AllFiles(dir: string, items: seq<Item>): seq<Info>
    decreases items
  {
    if items == [] then [] else FilesOf(dir, items[0]) + AllFiles(dir, items[1..])
  }

  function FilesOf(dir: string, item: Item): seq<Info>
    decreases item
  {
    match item
    case Folder(name, opens, items) => if opens then AllFiles(Under(dir, name), items) else []
    case Plain(name, modified) => [Info(Under(dir, name), modified)]
    case Unreadable(_) => []
  }

  /** The scan as it is done: a full table ends only the listing of the directory at hand. */
  function Scan(table: seq<Info>, dir: string, items: seq<Item>): seq<Info>
    decreases items
  {
    if items == [] then table
    else
      match items[0]
      case Folder(name, opens, below) =>
        Scan(if opens then Scan(table, Under(dir, name), below) else table, dir, items[1..])
      case Plain(name, modified) =>
        if |table| >= MAX_FILES then table
        else Scan(table + [Info(Under(dir, name), modified)], dir, items[1..])
      case Unreadable(_) => Scan(table, dir, items[1..])
  }

  function AtMost(n: nat, s: seq<Info>): seq<Info> {
    if |s| <= n then s else s[..n]
  }

  /** A scan into an empty table yields the first 100 files of the depth-first order, although a
      full table is only ever noticed in the innermost directory. */
  lemma {:induction false} ScanIsPrefix(table: seq<Info>, dir: string, items: seq<Item>)
    requires |table| <= MAX_FILES
    ensures Scan(table, dir, items) == AtMost(100, table + AllFiles(dir, items))
    decreases items
  {
    if items == [] {
      assert table + [] == table;
    } else {
      var here, rest := FilesOf(dir, items[0]), AllFiles(dir, items[1..]);
      assert table + (here + rest) == table + here + rest;
      match items[0]
      case Folder(name, opens, below) =>
        if opens {
          ScanIsPrefix(table, Under(dir, name), below);
        } else {
          assert table + [] == table;
        }
        var scanned := AtMost(MAX_FILES, table + here);
        ScanIsPrefix(scanned, dir, items[1..]);
        assert AtMost(MAX_FILES, scanned + rest) == AtMost(MAX_FILES, table + here + rest);
      case Plain(name, modified) =>
        if |table| < MAX_FILES {
          ScanIsPrefix(table + here, dir, items[1..]);
        }
      case Unreadable(_) =>
        assert table + [] == table;
        ScanIsPrefix(table, dir, items[1..]);
    }
  }

  /** What stands at a relative path, below directories that could be opened. */
  function ItemAt(items: seq<Item>, q: Path): Option<Item>
    decreases items, |q|
  {
    if items == [] || q == [] then None
    else if items[0].name == q[0] then
      if |q| == 1 then Some(items[0])
      else if items[0].Folder? && items[0].opens then ItemAt(items[0].items, q[1..]) else None
    else ItemAt(items[1..], q)
  }

  /** The path string of a relative path. */
  function Join(dir: string, q: Path): string
    decreases |q|
  {
    if q == [] then dir else Join(Under(dir, q[0]), q[1..])
  }

  /** A file that stands at `q`, last modified at some time. */
  predicate FileAt(items: seq<Item>, q: Path, modified: int) {
    var item := ItemAt(items, q);
    item.Some? && item.value.Plain? && item.value.modified == modified
  }

  /** Every file in the directory or below is listed. */
  lemma {:induction false} FileIsListed(dir: string, items: seq<Item>, q: Path)
    requires ItemAt(items, q).Some? && ItemAt(items, q).value.Plain?
    ensures Info(Join(dir, q), ItemAt(items, q).value.modified) in AllFiles(dir, items)
    decreases items, |q|
  {
    if items[0].name != q[0] {
      FileIsListed(dir, items[1..], q);
    } else if |q| > 1 {
      FileIsListed(Under(dir, q[0]), items[0].items, q[1..]);
    } else {
      assert q[1..] == [];
    }
  }

  /** Nothing else is listed. */
  lemma {:induction false} ListedIsFile(dir: string, items: seq<Item>, info: Info) returns (q: Path)
    requires ValidItems(items) && info in AllFiles(dir, items)
    ensures info.path == Join(dir, q) && FileAt(items, q, info.modified)
    decreases items, 1
  {
    var rest := items[1..];
    if info in FilesOf(dir, items[0]) {
      q := ListedIsFileOf(dir, items[0], info);
      assert ItemAt([items[0]], q) == ItemAt(items, q) by {
        assert ItemAt([items[0]][1..], q) == None;
      }
    } else {
      TailValid(items);
      q := ListedIsFile(dir, rest, info);
      ItemIsNamed(rest, q);
      var i :| 0 <= i < |rest| && rest[i].name == q[0];
      assert items[i + 1].name != items[0].name;
    }
  }

  lemma {:induction false} ListedIsFileOf(dir: string, item: Item, info: Info) returns (q: Path)
    requires (item.Folder? ==> ValidItems(item.items)) && info in FilesOf(dir, item)
    ensures info.path == Join(dir, q) && FileAt([item], q, info.modified)
    decreases item, 0
  {
    if item.Folder? {
      var below := ListedIsFile(Under(dir, item.name), item.items, info);
      q := [item.name] + below;
      assert q[1..] == below && below != [];
    } else {
      q := [item.name];
      assert q[1..] == [];
    }
  }

  lemma {:induction false} ItemIsNamed(items: seq<Item>, q: Path)
    requires ItemAt(items, q).Some?
    ensures q != [] && exists i | 0 <= i < |items| :: items[i].name == q[0]
  {
    if items[0].name != q[0] {
      var rest := items[1..];
      ItemIsNamed(rest, q);
      var i :| 0 <= i < |rest| && rest[i].name == q[0];
      assert items[i + 1].name == q[0];
    }
  }

  /** A table of file modification times and the number of entries in use. */
  class FileTable {
    const files: array<Info>
    var count: nat

    ghost predicate Valid()
      reads this
    {
      files.Length == MAX_FILES && count <= MAX_FILES
    }

    ghost function Contents(): seq<Info>
      requires Valid()
      reads this, files
    {
      files[..count]
    }

    constructor ()
      ensures Valid() && fresh(files) && Contents() == []
    {
      files := new Info[MAX_FILES](_ => Info("", 0));
      count := 0;
    }

    method Append(info: Info)
      requires Valid() && count < MAX_FILES
      modifies this, files
      ensures Valid() && Contents() == old(Contents()) + [info]
    {
      files[count] := info;
      count := count + 1;
    }

    /** `saveFileModificationTimes` on a directory that may fail to open. */
    method Save(dir: string, opens: bool, items: seq<Item>)
      requires Valid()
      modifies this, files
      ensures Valid()
      ensures Contents() == if opens then Scan(old(Contents()), dir, items) else old(Contents())
      decreases items
    {
      if !opens {
        return;
      }
      ghost var result := Scan(Contents(), dir, items);
      var i := 0;
      while i < |items|
        invariant i <= |items| && Valid()
        invariant Scan(Contents(), dir, items[i..]) == result
      {
        assert items[i..][0] == items[i] && items[i..][1..] == items[i + 1..];
        var path := Under(dir, items[i].name);
        if items[i].Folder? {
          Save(path, items[i].opens, items[i].items);
        } else if items[i].Plain? {
          if count >= MAX_FILES {
            break;
          }
          Append(Info(path, items[i].modified));
        }
        i := i + 1;
      }
    }
  }

  // ---------------------------------------------------------------------------------------
  // The comparison.

  predicate Has(table: seq<Info>, path: string) {
    exists i | 0 <= i < |table| :: table[i].path == path
  }

  /** Position of the first entry of `a` whose path is not in `b`. */
  function FirstMissing(a: seq<Info>, b: seq<Info>): (k: nat)
    ensures k <= |a|
    ensures k < |a| ==> !Has(b, a[k].path)
    ensures forall i | 0 <= i < k :: Has(b, a[i].path)
  {
    if a == [] || !Has(b, a[0].path) then 0 else 1 + FirstMissing(a[1..], b)
  }

  /** What is reported when `longer` is compared with `shorter`, if anything. */
  function Detected(longer: seq<Info>, shorter: seq<Info>): Option<string> {
    var k := FirstMissing(longer, shorter);
    if |longer| <= |shorter| || k == |longer| then None else Some(longer[k].path)
  }

  /** The nested loops that look for the first entry of `a` missing from `b`. */
  method FindMissing(a: FileTable, b: FileTable) returns (k: nat)
    requires a.Valid() && b.Valid()
    ensures k == FirstMissing(a.Contents(), b.Contents()) <= a.count
  {
    k := 0;
    while k < a.count
      invariant k <= a.count
      invariant forall i | 0 <= i < k :: Has(b.Contents(), a.Contents()[i].path)
    {
      var path, found, j := a.files[k].path, false, 0;
      while j < b.count && !found
        invariant j <= b.count
        invariant found ==> Has(b.Contents(), path)
        invariant !found ==> forall i | 0 <= i < j :: b.files[i].path != path
        decreases b.count - j, !found
      {
        if b.files[j].path == path {
          assert b.Contents()[j].path == path;
          found := true;
        } else {
          j := j + 1;
        }
      }
      if !found {
        return;
      }
      k := k + 1;
    }
  }

  /** The detection half of `check_delete`; the report is what `deletedDetected` is given. */
  method CheckDelete(snapshot: FileTable, dir: string, items: seq<Item>) returns (report: Option<string>)
    requires snapshot.Valid()
    ensures report == Detected(snapshot.Contents(), Scan([], dir, items))
  {
    var temp := new FileTable();
    temp.Save(dir, true, items);
    assert snapshot.Contents() == old(snapshot.Contents());
    if temp.count >= snapshot.count {
      return None;
    }
    var k := FindMissing(snapshot, temp);
    report := if k < snapshot.count then Some(snapshot.files[k].path) else None;
  }

  /** The detection half of `check_create`. */
  method CheckCreate(snapshot: FileTable, dir: string, items: seq<Item>) returns (report: Option<string>)
    requires snapshot.Valid()
    ensures report == Detected(Scan([], dir, items), snapshot.Contents())
  {
    var temp := new FileTable();
    temp.Save(dir, true, items);
    assert snapshot.Contents() == old(snapshot.Contents());
    if temp.count <= snapshot.count {
      return None;
    }
    var k := FindMissing(temp, snapshot);
    report := if k < temp.count then Some(temp.files[k].path) else None;
  }

  // ---------------------------------------------------------------------------------------
  // The paths of a scan are distinct.

  /** Names are names, and no two entries of a directory share one. */
  predicate ValidItems(items: seq<Item>)
    decreases items
  {
    && (forall i, j | 0 <= i < j < |items| :: items[i].name != items[j].name)
    && (forall i | 0 <= i < |items| ::
          ValidName(items[i].name) && (items[i].Folder? ==> ValidItems(items[i].items)))
  }

  predicate Distinct(table: seq<Info>) {
    forall i, j | 0 <= i < j < |table| :: table[i].path != table[j].path
  }

  /** The path of the entry `name` of `dir`, or of something below it. */
  predicate Within(dir: string, name: string, path: string) {
    path == Under(dir, name) || Under(dir, name) + "/" <= path
  }

  /** A path leads through one entry of a directory only. */
  lemma OneWay(dir: string, name: string, name': string, path: string)
    requires '/' !in name && '/' !in name'
    requires Within(dir, name, path) && Within(dir, name', path)
    ensures name == name'
  {
    var tail := path[|dir| + 1..];
    CutOf(dir, name, path);
    CutOf(dir, name', path);
    assert name == tail[..|name|] && name' == tail[..|name'|];
  }

  lemma CutOf(dir: string, name: string, path: string)
    requires '/' !in name && Within(dir, name, path)
    ensures |path| >= |dir| + 1 + |name| && Cut(path[|dir| + 1..]) == |name|
    ensures path[|dir| + 1..][..|name|] == name
  {
    var tail := path[|dir| + 1..];
    if path == Under(dir, name) {
      assert tail == name;
      CutAt(name, "");
    } else {
      var prefix := Under(dir, name) + "/";
      var rest := path[|prefix|..];
      assert path == prefix + rest;
      assert tail == name + "/" + rest;
      CutAt(name, rest);
    }
  }

  /** Everything listed for a directory's entry lies within that entry. */
  lemma {:induction false} FilesWithin(dir: string, item: Item)
    ensures forall f <- FilesOf(dir, item) :: Within(dir, item.name, f.path)
    decreases item
  {
    if item.Folder? && item.opens {
      ListedWithin(Under(dir, item.name), item.items);
    }
  }

  lemma {:induction false} ListedWithin(dir: string, items: seq<Item>)
    ensures forall f <- AllFiles(dir, items) :: exists i | 0 <= i < |items| :: Within(dir, items[i].name, f.path)
    ensures forall f <- AllFiles(dir, items) :: dir + "/" <= f.path
    decreases items
  {
    if items != [] {
      var rest := items[1..];
      FilesWithin(dir, items[0]);
      ListedWithin(dir, rest);
      forall f <- AllFiles(dir, items)
        ensures exists i | 0 <= i < |items| :: Within(dir, items[i].name, f.path)
      {
        if f in FilesOf(dir, items[0]) {
          assert Within(dir, items[0].name, f.path);
        } else {
          assert f in AllFiles(dir, rest);
          var i :| 0 <= i < |rest| && Within(dir, rest[i].name, f.path);
          assert Within(dir, items[i + 1].name, f.path);
        }
      }
    }
  }

  lemma {:induction false} PathsDistinct(dir: string, items: seq<Item>)
    requires ValidItems(items)
    ensures Distinct(AllFiles(dir, items))
    decreases items
  {
    if items != [] {
      var others := items[1..];
      var here, rest := FilesOf(dir, items[0]), AllFiles(dir, others);
      assert ValidName(items[0].name);
      if items[0].Folder? && items[0].opens {
        PathsDistinct(Under(dir, items[0].name), items[0].items);
      }
      TailValid(items);
      PathsDistinct(dir, others);
      FilesWithin(dir, items[0]);
      ListedWithin(dir, others);
      forall f <- here, g <- rest
        ensures f.path != g.path
      {
        assert g in AllFiles(dir, others);
        var i :| 0 <= i < |others| && Within(dir, others[i].name, g.path);
        assert others[i] == items[i + 1] && ValidName(items[i + 1].name);
        if f.path == g.path {
          OneWay(dir, items[0].name, items[i + 1].name, f.path);
        }
      }
    }
  }

  lemma TailValid(items: seq<Item>)
    requires items != [] && ValidItems(items)
    ensures ValidItems(items[1..])
  {
    forall i | 0 <= i < |items[1..]|
      ensures ValidName(items[1..][i].name) && (items[1..][i].Folder? ==> ValidItems(items[1..][i].items))
    {
      assert items[1..][i] == items[i + 1];
    }
  }

  // ---------------------------------------------------------------------------------------
  // A changed number of files is always explained by one report.

  lemma HasCons(table: seq<Info>)
    requires table != []
    ensures forall p :: Has(table, p) <==> p == table[0].path || Has(table[1..], p)
  {
    forall p
      ensures Has(table, p) <==> p == table[0].path || Has(table[1..], p)
    {
      if i :| 0 <= i < |table[1..]| && table[1..][i].path == p {
        assert table[i + 1].path == p;
      }
      if i :| 0 < i < |table| && table[i].path == p {
        assert table[1..][i - 1].path == p;
      }
    }
  }

  function Paths(table: seq<Info>): (paths: set<string>)
    ensures forall p :: p in paths <==> Has(table, p)
    ensures |paths| <= |table|
    ensures Distinct(table) ==> |paths| == |table|
  {
    if table == [] then {}
    else
      var rest := Paths(table[1..]);
      HasCons(table);
      {table[0].path} + rest
  }

  lemma SubsetsCount(small: set<string>, large: set<string>)
    requires small <= large
    ensures |small| <= |large|
    decreases small
  {
    if p :| p in small {
      SubsetsCount(small - {p}, large - {p});
    }
  }

  /** Pigeonhole: something is reported if and only if the number of files went the right way, and
      it is the first path of the longer list that the shorter one lacks. */
  lemma DetectedIff(longer: seq<Info>, shorter: seq<Info>)
    requires Distinct(longer)
    ensures Detected(longer, shorter).Some? <==> |longer| > |shorter|
    ensures var k := FirstMissing(longer, shorter);
            Detected(longer, shorter).Some? ==> k < |longer| && Detected(longer, shorter) == Some(longer[k].path)
  {
    var k := FirstMissing(longer, shorter);
    if k == |longer| {
      forall p | p in Paths(longer)
        ensures p in Paths(shorter)
      {
        assert Has(longer, p);
      }
      SubsetsCount(Paths(longer), Paths(shorter));
    }
  }

  /** A file of the directory, or of an opened directory below it, has this path. */
  ghost predicate IsFile(dir: string, items: seq<Item>, path: string) {
    exists q: Path, modified :: Join(dir, q) == path && FileAt(items, q, modified)
  }

  /** If a later scan holds fewer files than the snapshot, the path reported by `check_delete` was a
      file before and is none now, wherever the table's limit fell. */
  lemma DeletionIsReal(dir: string, before: seq<Item>, after: seq<Item>)
    requires ValidItems(before)
    ensures var was, now := Scan([], dir, before), Scan([], dir, after);
            if |now| < |was|
            then
              && Detected(was, now).Some?
              && IsFile(dir, before, Detected(was, now).value)
              && !IsFile(dir, after, Detected(was, now).value)
            else Detected(was, now) == None
  {
    var was, now := Scan([], dir, before), Scan([], dir, after);
    ScanOfTree(dir, before);
    ScanOfTree(dir, after);
    PathsDistinct(dir, before);
    DetectedIff(was, now);
    if |now| < |was| {
      var k := FirstMissing(was, now);
      var reported := AllFiles(dir, before)[k];
      assert reported.path == Detected(was, now).value;
      var q := ListedIsFile(dir, before, reported);
      if IsFile(dir, after, reported.path) {
        FilesAreListed(dir, after, reported.path);
      }
    }
  }

  lemma FilesAreListed(dir: string, items: seq<Item>, path: string)
    requires IsFile(dir, items, path)
    ensures Has(AllFiles(dir, items), path)
  {
    var q: Path, modified :| Join(dir, q) == path && FileAt(items, q, modified);
    FileIsListed(dir, items, q);
    var i :| 0 <= i < |AllFiles(dir, items)| && AllFiles(dir, items)[i] == Info(path, modified);
  }

  /** If a later scan holds more files, the path reported by `check_create` is a file now and was none
      before. */
  lemma CreationIsReal(dir: string, before: seq<Item>, after: seq<Item>)
    requires ValidItems(after)
    ensures var was, now := Scan([], dir, before), Scan([], dir, after);
            if |now| > |was|
            then
              && Detected(now, was).Some?
              && IsFile(dir, after, Detected(now, was).value)
              && !IsFile(dir, before, Detected(now, was).value)
            else Detected(now, was) == None
  {
    DeletionIsReal(dir, after, before);
  }

  lemma ScanOfTree(dir: string, items: seq<Item>)
    ensures Scan([], dir, items) == AtMost(MAX_FILES, AllFiles(dir, items))
  {
    ScanIsPrefix([], dir, items);
    assert [] + AllFiles(dir, items) == AllFiles(dir, items);
  }
}
