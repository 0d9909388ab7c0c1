/**
 Path strings of the mirroring client and server, and what the operating system reads in them.
 */
module MirrorPaths {

  type Path = seq<string>
  type byte = b: int | 0 <= b < 256

  /** A directory entry's name: not empty and without a separator. */
  predicate ValidName(name: string) {
    name != "" && '/' !in name
  }

  /** `"%s/%s"`. */
  function Under(dir: string, name: string): string {
    dir + "/" + name
  }

  /** Position of the first separator, or the length of the string. */
  function Cut(s: string): (k: nat)
    ensures k <= |s| && '/' !in s[..k]
    ensures k < |s| ==> s[k] == '/'
  {
    if s == "" || s[0] == '/' then 0 else 1 + Cut(s[1..])
  }

  /** The components of a path; empty ones do not count. */
  function Components(s: string): Path
    decreases |s|
  {
    if s == "" then []
    else
      var k := Cut(s);
      (if k == 0 then [] else [s[..k]]) + (if k < |s| then Components(s[k + 1..]) else [])
  }

  lemma {:induction false} CutAt(name: string, rest: string)
    requires '/' !in name
    ensures Cut(name + "/" + rest) == |name|
    ensures Cut(name) == |name|
  {
    var s := name + "/" + rest;
    if name != "" {
      assert s[1..] == name[1..] + "/" + rest;
      CutAt(name[1..], rest);
    }
  }

  function Head(name: string): Path {
    if name == "" then [] else [name]
  }

  lemma ComponentsStep(name: string, rest: string)
    requires '/' !in name
    ensures Components(name + "/" + rest) == Head(name) + Components(rest)
  {
    var s := name + "/" + rest;
    CutAt(name, rest);
    assert s[..|name|] == name && s[|name| + 1..] == rest;
  }

  lemma ComponentsOfName(name: string)
    requires '/' !in name
    ensures Components(name) == Head(name)
  {
    CutAt(name, "");
    assert name[..|name|] == name;
  }

  lemma JoinSplit(name: string, tail: string, rel: string)
    ensures (name + "/" + tail) + "/" + rel == name + "/" + (tail + "/" + rel)
  {
  }

  lemma JoinPaths(a: Path, b: Path, c: Path)
    ensures a + (b + c) == (a + b) + c
  {
  }

  /** A path below a directory has the directory's components first. */
  lemma {:induction false} ComponentsJoin(dir: string, rel: string)
    ensures Components(dir + "/" + rel) == Components(dir) + Components(rel)
    decreases |dir|
  {
    var k := Cut(dir);
    if k < |dir| {
      var name, tail := dir[..k], dir[k + 1..];
      assert dir == name + "/" + tail;
      JoinSplit(name, tail, rel);
      ComponentsStep(name, tail + "/" + rel);
      ComponentsStep(name, tail);
      ComponentsJoin(tail, rel);
      JoinPaths(Head(name), Components(tail), Components(rel));
    } else {
      assert dir[..k] == dir;
      ComponentsStep(dir, rel);
      ComponentsOfName(dir);
    }
  }

  lemma NameIsComponent(name: string)
    requires ValidName(name)
    ensures Components(name) == [name]
  {
    ComponentsOfName(name);
  }

  /** The name of an entry adds exactly one component. */
  lemma UnderAddsName(dir: string, name: string)
    requires ValidName(name)
    ensures Components(Under(dir, name)) == Components(dir) + [name]
  {
    ComponentsJoin(dir, name);
    NameIsComponent(name);
  }

  // ---------------------------------------------------------------------------------------
  // Between the two base directories.

  /** The in-place edit at the end of `remove_base_path`: shift right and put a separator first. */
  function WithLeadingSlash(s: string): string {
    if s != "" && s[0] == '/' then s else "/" + s
  }

  /** What `remove_base_path` leaves of a path. */
  function RemoveBasePath(path: string, base: string): string {
    if base <= path then
      var remaining := path[|base|..];
      WithLeadingSlash(if remaining != "" && (remaining[0] == '/' || remaining[0] == '\\')
                       then remaining[1..] else remaining)
    else WithLeadingSlash(path)
  }

  /** `strcpy`. */
  method CopyInto(s: string, buffer: array<char>)
    requires |s| <= buffer.Length
    modifies buffer
    ensures buffer[..|s|] == s
  {
    for i := 0 to |s|
      invariant buffer[..i] == s[..i]
    {
      buffer[i] := s[i];
    }
  }

  /** `memmove` by one and a separator in front. */
  method ShiftRight(buffer: array<char>, length: nat)
    requires length < buffer.Length
    modifies buffer
    ensures buffer[..length + 1] == "/" + old(buffer[..length])
  {
    var i := length;
    while i > 0
      invariant 0 <= i <= length
      invariant forall j | 0 <= j < i :: buffer[j] == old(buffer[j])
      invariant forall j | i < j <= length :: buffer[j] == old(buffer[j - 1])
    {
      buffer[i] := buffer[i - 1];
      i := i - 1;
    }
    buffer[0] := '/';
  }

  /** `remove_base_path`, into the caller's buffer. */
  method RemoveBasePathInto(path: string, base: string, newPath: array<char>) returns (length: nat)
    requires |path| < newPath.Length
    modifies newPath
    ensures length <= newPath.Length && newPath[..length] == RemoveBasePath(path, base)
  {
    var remaining := path;
    if |path| >= |base| && path[..|base|] == base {
      remaining := path[|base|..];
      if remaining != "" && (remaining[0] == '/' || remaining[0] == '\\') {
        remaining := remaining[1..];
      }
    }
    CopyInto(remaining, newPath);
    length := |remaining|;
    assert length > 0 ==> newPath[0] == newPath[..length][0];
    if length == 0 || newPath[0] != '/' {
      ShiftRight(newPath, length);
      length := length + 1;
    }
  }

  /** `configure_path`. */
  function ConfigurePath(path: string, base: string): string {
    base + path
  }

  lemma BaseRemoved(base: string, rel: string)
    ensures RemoveBasePath(Under(base, rel), base) == WithLeadingSlash(rel)
  {
    assert Under(base, rel) == base + ("/" + rel);
    assert Under(base, rel)[|base|..] == "/" + rel;
    assert ("/" + rel)[1..] == rel;
  }

  /** Below the base, one separator of either kind behind it is dropped and one put in front, unless the
      rest brings its own; any other path only gets the separator in front. */
  lemma RelativePath(base: string, rest: string)
    ensures rest == "" || (rest[0] != '/' && rest[0] != '\\') ==> RemoveBasePath(base + rest, base) == "/" + rest
    ensures (rest == "" || rest[0] != '/') ==>
              RemoveBasePath(base + "/" + rest, base) == RemoveBasePath(base + "\\" + rest, base) == "/" + rest
    ensures rest != "" && rest[0] == '/' ==>
              RemoveBasePath(base + "/" + rest, base) == RemoveBasePath(base + "\\" + rest, base) == rest
    ensures !(base <= rest) ==>
              RemoveBasePath(rest, base) == if rest != "" && rest[0] == '/' then rest else "/" + rest
  {
    assert (base + rest)[|base|..] == rest;
    BehindSeparator(base, "/", rest);
    BehindSeparator(base, "\\", rest);
  }

  lemma BehindSeparator(base: string, separator: string, rest: string)
    requires separator == "/" || separator == "\\"
    ensures RemoveBasePath(base + separator + rest, base) == WithLeadingSlash(rest)
  {
    var path := base + separator + rest;
    assert path == base + (separator + rest);
    assert path[|base|..] == separator + rest && (separator + rest)[1..] == rest;
  }

  lemma SlashKeepsComponents(tail: string)
    ensures Components("/" + tail) == Components(tail)
  {
    assert ("/" + tail)[1..] == tail;
  }

  lemma Reassociate(dir: string, tail: string)
    ensures dir + ("/" + tail) == dir + "/" + tail
  {
  }

  /** A path below the client's base names the same file below the server's base. */
  lemma PathCarriesOver(clientBase: string, serverBase: string, rel: string)
    ensures Components(ConfigurePath(RemoveBasePath(Under(clientBase, rel), clientBase), serverBase))
            == Components(serverBase) + Components(rel)
  {
    BaseRemoved(clientBase, rel);
    var sent := WithLeadingSlash(rel);
    var tail := sent[1..];
    assert sent == "/" + tail;
    Reassociate(serverBase, tail);
    ComponentsJoin(serverBase, tail);
    if sent == rel {
      SlashKeepsComponents(tail);
    }
  }

  /** The strings agree as well, unless the relative part itself starts with a separator. */
  lemma PathStringCarriesOver(clientBase: string, serverBase: string, rel: string)
    ensures ConfigurePath(RemoveBasePath(Under(clientBase, rel), clientBase), serverBase) == Under(serverBase, rel)
            <==> !(rel != "" && rel[0] == '/')
  {
    BaseRemoved(clientBase, rel);
    if rel != "" && rel[0] == '/' {
      assert |serverBase + rel| != |Under(serverBase, rel)|;
    } else {
      Reassociate(serverBase, rel);
    }
  }
}
