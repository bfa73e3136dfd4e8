/** The recursive directory walk that both writers' ArchiveDir perform
    (internal/archive/ziparchiver.go and internal/archive/tararchiver.go), stated
    once as the sequence of ArchiveFile calls it makes. */
module Walk {
  import opened Wrappers
  import opened Errors
  import opened Paths
  import opened FileSystem
  import opened Resolve

  /** One ArchiveFile(src, dst) call. */
  datatype Call = Call(src: string, dst: string)

  /** The entry name ArchiveDir gives the file at `path`: the suffix of `path`
      from the first occurrence of `dst`, or all of `path` when `dst` does not
      occur in it. */
  function DestName(path: string, dst: string): (r: string)
    ensures |r| <= |path| && r == path[|path| - |r|..]
  {
    var i := Index(path, dst);
    if i == -1 then path else path[i..]
  }

  /** The destination rewrite keeps `path` whole when `dst` does not occur in
      it, and otherwise cuts it at the first occurrence of `dst`, so that the
      name starts with `dst`. */
  lemma DestNameFirstOccurrence(path: string, dst: string)
    ensures (forall j {:trigger OccursAt(path, dst, j)} :: !OccursAt(path, dst, j)) ==> DestName(path, dst) == path
    ensures (exists j {:trigger OccursAt(path, dst, j)} :: OccursAt(path, dst, j)) ==>
              var k := |path| - |DestName(path, dst)|;
              OccursAt(path, dst, k) && DestName(path, dst)[..|dst|] == dst &&
              forall j {:trigger OccursAt(path, dst, j)} :: 0 <= j < k ==> !OccursAt(path, dst, j)
  {
  }

  /** An upper bound on the length of every key of a map. */
  ghost function MaxKeyLen(keys: set<string>): (n: nat)
    ensures forall k :: k in keys ==> |k| <= n
    decreases keys
  {
    if keys == {} then 0
    else
      var k :| k in keys;
      var m := MaxKeyLen(keys - {k});
      if |k| > m then |k| else m
  }

  /** The termination measure of the walk: a directory key ranks below every
      shorter directory key; any other path ranks above all of them. */
  ghost function Rank(fs: FS, p: string): nat {
    var bound := MaxKeyLen(fs.nodes.Keys);
    if IsDirAt(fs, p) then bound - |p| else bound + 1
  }

  lemma ChildRanksLower(fs: FS, dir: string, name: Name)
    requires IsDirAt(fs, Join(dir, name))
    ensures Rank(fs, Join(dir, name)) < Rank(fs, dir)
  {
    var p := Join(dir, name);
    assert p in fs.nodes.Keys;
    if IsDirAt(fs, dir) {
      assert dir in fs.nodes.Keys;
    }
  }

  /** ArchiveDir(src, dst) as the calls it makes: an error when the (optionally
      resolved) root cannot be resolved or listed; otherwise the calls for its
      entries, in listing order. */
  function WalkDir(fs: FS, lib: PathLib, symLink: bool, src: string, dst: string): Result<seq<Call>, Error>
    decreases Rank(fs, src), 1, 0
  {
    var root := if symLink then EvaluateSymLink(fs, lib, src) else Ok(src);
    if root.Err? then Err(root.error)
    else
      match ReadDir(fs, lib, root.value)
      case Err(e) => Err(e)
      case Ok(names) =>
        assert Rank(fs, root.value) <= Rank(fs, src);
        Ok(WalkEntries(fs, lib, symLink, root.value, names, dst))
  }

  /** The calls made for the entries `names` of the directory `dir`. */
  function WalkEntries(fs: FS, lib: PathLib, symLink: bool, dir: string, names: seq<Name>, dst: string): seq<Call>
    decreases Rank(fs, dir), 0, |names|
  {
    if |names| == 0 then []
    else WalkEntries(fs, lib, symLink, dir, names[..|names| - 1], dst) +
         EntryCalls(fs, lib, symLink, dir, names[|names| - 1], dst)
  }

  /** The calls made for one entry: a non-directory becomes one call named by
      DestName; a subdirectory is walked with the same `dst`, and a failure to
      walk it contributes nothing. */
  function EntryCalls(fs: FS, lib: PathLib, symLink: bool, dir: string, name: Name, dst: string): seq<Call>
    decreases Rank(fs, dir), 0, 0
  {
    var p := Join(dir, name);
    if !IsDirAt(fs, p) then [Call(p, DestName(p, dst))]
    else
      ChildRanksLower(fs, dir, name);
      match WalkDir(fs, lib, symLink, p, dst)
      case Ok(calls) => calls
      case Err(_) => []
  }

  /** The error ArchiveDir returns: only the root's resolution or listing fails
      it; a subdirectory or file that cannot be read never does. */
  function DirError(fs: FS, lib: PathLib, symLink: bool, src: string, dst: string): (r: Option<Error>)
    ensures var root := if symLink then EvaluateSymLink(fs, lib, src) else Ok(src);
            r.None? <==> root.Ok? && ReadDir(fs, lib, root.value).Ok?
    ensures var root := if symLink then EvaluateSymLink(fs, lib, src) else Ok(src);
            r.Some? ==> r.value == (if root.Err? then root.error else ReadDir(fs, lib, root.value).error)
    ensures r.None? <==> WalkDir(fs, lib, symLink, src, dst).Ok?
    ensures r.Some? ==> r.value == WalkDir(fs, lib, symLink, src, dst).error
  {
    match WalkDir(fs, lib, symLink, src, dst)
    case Ok(_) => None
    case Err(e) => Some(e)
  }

  /** The concatenation, in call order, of what `effect` appends for each call. */
  function Flatten<T>(calls: seq<Call>, effect: Call -> seq<T>): seq<T>
    decreases |calls|
  {
    if |calls| == 0 then []
    else Flatten(calls[..|calls| - 1], effect) + effect(calls[|calls| - 1])
  }

  lemma {:induction false} FlattenAppend<T>(a: seq<Call>, b: seq<Call>, effect: Call -> seq<T>)
    ensures Flatten(a + b, effect) == Flatten(a, effect) + Flatten(b, effect)
    decreases |b|
  {
    if |b| == 0 {
      assert a + b == a;
    } else {
      var n := |b| - 1;
      assert (a + b)[..|a + b| - 1] == a + b[..n];
      assert (a + b)[|a + b| - 1] == b[n];
      FlattenAppend(a, b[..n], effect);
    }
  }

  lemma AppendAssoc<T>(a: seq<T>, b: seq<T>, c: seq<T>)
    ensures a + b + c == a + (b + c)
  {
  }

  /** Walking one more entry of a directory appends that entry's contribution. */
  lemma FlattenWalkStep<T>(fs: FS, lib: PathLib, symLink: bool, dir: string, names: seq<Name>, i: nat, dst: string,
                           effect: Call -> seq<T>)
    requires i < |names|
    ensures Flatten(WalkEntries(fs, lib, symLink, dir, names[..i + 1], dst), effect) ==
            Flatten(WalkEntries(fs, lib, symLink, dir, names[..i], dst), effect) +
            Flatten(EntryCalls(fs, lib, symLink, dir, names[i], dst), effect)
  {
    assert names[..i + 1][..i] == names[..i];
    FlattenAppend(WalkEntries(fs, lib, symLink, dir, names[..i], dst), EntryCalls(fs, lib, symLink, dir, names[i], dst), effect);
  }

  /** Every call names its entry by DestName and targets a path that is not
      itself a directory. */
  predicate NamedCalls(fs: FS, calls: seq<Call>, dst: string) {
    forall c :: c in calls ==> c.dst == DestName(c.src, dst) && !IsDirAt(fs, c.src)
  }

  /** ArchiveDir calls ArchiveFile only on non-directories, however deep, and
      names each entry by the destination rewrite with the unchanged `dst`. */
  lemma {:induction false} WalkDirNamed(fs: FS, lib: PathLib, symLink: bool, src: string, dst: string)
    ensures WalkDir(fs, lib, symLink, src, dst).Ok? ==> NamedCalls(fs, WalkDir(fs, lib, symLink, src, dst).value, dst)
    decreases Rank(fs, src), 1, 0
  {
    var root := if symLink then EvaluateSymLink(fs, lib, src) else Ok(src);
    if root.Ok? && ReadDir(fs, lib, root.value).Ok? {
      assert Rank(fs, root.value) <= Rank(fs, src);
      WalkEntriesNamed(fs, lib, symLink, root.value, ReadDir(fs, lib, root.value).value, dst);
    }
  }

  lemma {:induction false} WalkEntriesNamed(fs: FS, lib: PathLib, symLink: bool, dir: string, names: seq<Name>, dst: string)
    ensures NamedCalls(fs, WalkEntries(fs, lib, symLink, dir, names, dst), dst)
    decreases Rank(fs, dir), 0, |names|
  {
    if |names| > 0 {
      WalkEntriesNamed(fs, lib, symLink, dir, names[..|names| - 1], dst);
      EntryCallsNamed(fs, lib, symLink, dir, names[|names| - 1], dst);
    }
  }

  lemma {:induction false} EntryCallsNamed(fs: FS, lib: PathLib, symLink: bool, dir: string, name: Name, dst: string)
    ensures NamedCalls(fs, EntryCalls(fs, lib, symLink, dir, name, dst), dst)
    decreases Rank(fs, dir), 0, 0
  {
    var p := Join(dir, name);
    if IsDirAt(fs, p) {
      ChildRanksLower(fs, dir, name);
      WalkDirNamed(fs, lib, symLink, p, dst);
    }
  }
}
