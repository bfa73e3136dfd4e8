/** Directory trees present in the abstract filesystem, and what the walk
    does on them: an independent description of the files a tree holds,
    against which ArchiveDir's calls are proved. */
module Tree {
  import opened Wrappers
  import opened Errors
  import opened Paths
  import opened FileSystem
  import opened Resolve
  import opened Walk

  datatype Tree =
    | FileNode(name: Name, data: seq<byte>, perm: FileMode)
    | DirNode(name: Name, kids: seq<Tree>, perm: FileMode)
      /** A regular file or directory that is present but cannot be read. */
    | Unreadable(name: Name, node: Node)

  function Names(kids: seq<Tree>): (r: seq<Name>)
    ensures |r| == |kids| && forall i :: 0 <= i < |kids| ==> r[i] == kids[i].name
  {
    if |kids| == 0 then [] else Names(kids[..|kids| - 1]) + [kids[|kids| - 1].name]
  }

  /** The tree `t` is in the filesystem at path `p`: every node of it is there
      with its content, each readable directory lists its children in order,
      and exactly the Unreadable nodes are the faulty paths. */
  predicate InFS(fs: FS, t: Tree, p: string)
    decreases t, 1
  {
    p in fs.nodes &&
    match t
    case FileNode(_, data, perm) => p !in fs.faulty && fs.nodes[p] == File(data, perm)
    case DirNode(_, kids, perm) => p !in fs.faulty && fs.nodes[p] == Dir(Names(kids), perm) && KidsInFS(fs, kids, p)
    case Unreadable(_, node) => p in fs.faulty && !node.Symlink? && fs.nodes[p] == node
  }

  predicate KidsInFS(fs: FS, kids: seq<Tree>, dir: string)
    decreases kids, 0
  {
    forall i :: 0 <= i < |kids| ==> InFS(fs, kids[i], Join(dir, kids[i].name))
  }

  /** The regular files of `t` placed at `p`, readable or not, in the order a
      walk lists them; nothing below an unreadable directory is listed. */
  function TreeFiles(t: Tree, p: string): seq<string>
    decreases t, 1
  {
    match t
    case FileNode(_, _, _) => [p]
    case DirNode(_, kids, _) => KidsFiles(kids, p)
    case Unreadable(_, node) => if node.Dir? then [] else [p]
  }

  function KidsFiles(kids: seq<Tree>, dir: string): seq<string>
    decreases kids, 0
  {
    if |kids| == 0 then []
    else KidsFiles(kids[..|kids| - 1], dir) + TreeFiles(kids[|kids| - 1], Join(dir, kids[|kids| - 1].name))
  }

  /** The number of regular files a tree lists, readable or not. */
  function CountFiles(t: Tree): nat
    decreases t, 1
  {
    match t
    case FileNode(_, _, _) => 1
    case DirNode(_, kids, _) => CountAll(kids)
    case Unreadable(_, node) => if node.Dir? then 0 else 1
  }

  function CountAll(kids: seq<Tree>): nat
    decreases kids, 0
  {
    if |kids| == 0 then 0 else CountAll(kids[..|kids| - 1]) + CountFiles(kids[|kids| - 1])
  }

  /** The number of readable regular files in a tree. */
  function CountReadable(t: Tree): nat
    decreases t, 1
  {
    match t
    case FileNode(_, _, _) => 1
    case DirNode(_, kids, _) => CountReadableAll(kids)
    case Unreadable(_, _) => 0
  }

  function CountReadableAll(kids: seq<Tree>): nat
    decreases kids, 0
  {
    if |kids| == 0 then 0 else CountReadableAll(kids[..|kids| - 1]) + CountReadable(kids[|kids| - 1])
  }

  /** A tree without unreadable nodes. */
  predicate AllReadable(t: Tree)
    decreases t, 1
  {
    match t
    case FileNode(_, _, _) => true
    case DirNode(_, kids, _) => forall i :: 0 <= i < |kids| ==> AllReadable(kids[i])
    case Unreadable(_, _) => false
  }

  /** The paths of `paths` that can be read, in order. */
  function Readable(fs: FS, paths: seq<string>): (r: seq<string>)
    ensures |r| <= |paths|
    ensures forall i :: 0 <= i < |r| ==> r[i] in paths && r[i] !in fs.faulty
  {
    if |paths| == 0 then []
    else
      var n := |paths| - 1;
      assert paths == paths[..n] + [paths[n]];
      Readable(fs, paths[..n]) + (if paths[n] in fs.faulty then [] else [paths[n]])
  }

  lemma {:induction false} ReadableAppend(fs: FS, a: seq<string>, b: seq<string>)
    ensures Readable(fs, a + b) == Readable(fs, a) + Readable(fs, b)
    decreases |b|
  {
    if |b| == 0 {
      assert a + b == a;
    } else {
      var n := |b| - 1;
      var c := a + b;
      assert c[..|c| - 1] == a + b[..n] && c[|c| - 1] == b[n];
      var tail := if b[n] in fs.faulty then [] else [b[n]];
      assert Readable(fs, c) == Readable(fs, a + b[..n]) + tail;
      assert Readable(fs, b) == Readable(fs, b[..n]) + tail;
      ReadableAppend(fs, a, b[..n]);
    }
  }

  /** Filtering keeps every path when none is faulty. */
  lemma {:induction false} ReadableAll(fs: FS, paths: seq<string>)
    requires forall i :: 0 <= i < |paths| ==> paths[i] !in fs.faulty
    ensures Readable(fs, paths) == paths
    decreases |paths|
  {
    if |paths| > 0 {
      var n := |paths| - 1;
      ReadableAll(fs, paths[..n]);
      assert paths == paths[..n] + [paths[n]];
    }
  }

  /** The ArchiveFile calls a walk with destination `dst` makes for `paths`. */
  function CallsFor(paths: seq<string>, dst: string): (r: seq<Call>)
    ensures |r| == |paths|
    ensures forall i :: 0 <= i < |paths| ==> r[i] == Call(paths[i], DestName(paths[i], dst))
  {
    seq(|paths|, i requires 0 <= i < |paths| => Call(paths[i], DestName(paths[i], dst)))
  }

  lemma CallsForAppend(a: seq<string>, b: seq<string>, dst: string)
    ensures CallsFor(a + b, dst) == CallsFor(a, dst) + CallsFor(b, dst)
  {
  }

  /** Walking a directory tree that is present in the filesystem makes exactly
      one ArchiveFile call per regular file of the tree, in listing order, each
      named by the destination rewrite, and does not fail. */
  lemma {:induction false} WalkTree(fs: FS, lib: PathLib, symLink: bool, t: Tree, p: string, dst: string)
    requires t.DirNode? && InFS(fs, t, p)
    ensures WalkDir(fs, lib, symLink, p, dst) == Ok(CallsFor(TreeFiles(t, p), dst))
    decreases t, 1
  {
    assert ReadDir(fs, lib, p) == Ok(Names(t.kids));
    WalkKids(fs, lib, symLink, t.kids, p, dst);
  }

  lemma {:induction false} WalkKids(fs: FS, lib: PathLib, symLink: bool, kids: seq<Tree>, dir: string, dst: string)
    requires KidsInFS(fs, kids, dir)
    ensures WalkEntries(fs, lib, symLink, dir, Names(kids), dst) == CallsFor(KidsFiles(kids, dir), dst)
    decreases kids, 0
  {
    if |kids| > 0 {
      var n := |kids| - 1;
      KidsPrefixInFS(fs, kids, dir);
      WalkKids(fs, lib, symLink, kids[..n], dir, dst);
      EntryTree(fs, lib, symLink, kids[n], dir, dst);
      KidsStep(fs, lib, symLink, kids, dir, dst);
    }
  }

  lemma {:induction false} EntryTree(fs: FS, lib: PathLib, symLink: bool, t: Tree, dir: string, dst: string)
    requires InFS(fs, t, Join(dir, t.name))
    ensures EntryCalls(fs, lib, symLink, dir, t.name, dst) == CallsFor(TreeFiles(t, Join(dir, t.name)), dst)
    decreases t, 2
  {
    var p := Join(dir, t.name);
    match t
    case FileNode(_, _, _) =>
    case DirNode(_, _, _) =>
      WalkTree(fs, lib, symLink, t, p, dst);
    case Unreadable(_, node) =>
      if node.Dir? {
        assert WalkDir(fs, lib, symLink, p, dst) == Err(Permission(p));
      }
  }

  lemma KidsPrefixInFS(fs: FS, kids: seq<Tree>, dir: string)
    requires |kids| > 0 && KidsInFS(fs, kids, dir)
    ensures KidsInFS(fs, kids[..|kids| - 1], dir)
    ensures InFS(fs, kids[|kids| - 1], Join(dir, kids[|kids| - 1].name))
  {
    var n := |kids| - 1;
    forall i | 0 <= i < n
      ensures InFS(fs, kids[..n][i], Join(dir, kids[..n][i].name))
    {
      assert kids[..n][i] == kids[i];
    }
  }

  /** Walking the entries of `kids` is walking all but the last, then the last. */
  lemma WalkEntriesSnoc(fs: FS, lib: PathLib, symLink: bool, kids: seq<Tree>, dir: string, dst: string)
    requires |kids| > 0
    ensures WalkEntries(fs, lib, symLink, dir, Names(kids), dst) ==
            WalkEntries(fs, lib, symLink, dir, Names(kids[..|kids| - 1]), dst) +
            EntryCalls(fs, lib, symLink, dir, kids[|kids| - 1].name, dst)
  {
    var n := |kids| - 1;
    var names := Names(kids);
    assert names[..n] == Names(kids[..n]);
  }

  /** The induction step of WalkKids: the claim for all siblings but the last
      and the claim for the last one give the claim for all. */
  lemma KidsStep(fs: FS, lib: PathLib, symLink: bool, kids: seq<Tree>, dir: string, dst: string)
    requires |kids| > 0
    requires WalkEntries(fs, lib, symLink, dir, Names(kids[..|kids| - 1]), dst) ==
             CallsFor(KidsFiles(kids[..|kids| - 1], dir), dst)
    requires EntryCalls(fs, lib, symLink, dir, kids[|kids| - 1].name, dst) ==
             CallsFor(TreeFiles(kids[|kids| - 1], Join(dir, kids[|kids| - 1].name)), dst)
    ensures WalkEntries(fs, lib, symLink, dir, Names(kids), dst) == CallsFor(KidsFiles(kids, dir), dst)
  {
    var n := |kids| - 1;
    WalkEntriesSnoc(fs, lib, symLink, kids, dir, dst);
    CallsForAppend(KidsFiles(kids[..n], dir), TreeFiles(kids[n], Join(dir, kids[n].name)), dst);
  }

  /** The readable files a tree present in the filesystem lists are as many
      as the readable regular files it holds. */
  lemma {:induction false} ReadableFilesCount(fs: FS, t: Tree, p: string)
    requires InFS(fs, t, p)
    ensures |Readable(fs, TreeFiles(t, p))| == CountReadable(t)
    decreases t, 1
  {
    match t
    case FileNode(_, _, _) =>
      assert [p][..0] == [];
    case DirNode(_, kids, _) => KidsReadableCount(fs, kids, p);
    case Unreadable(_, node) =>
      if !node.Dir? {
        assert [p][..0] == [];
      }
  }

  lemma {:induction false} KidsReadableCount(fs: FS, kids: seq<Tree>, dir: string)
    requires KidsInFS(fs, kids, dir)
    ensures |Readable(fs, KidsFiles(kids, dir))| == CountReadableAll(kids)
    decreases kids, 0
  {
    if |kids| > 0 {
      var n := |kids| - 1;
      var q := Join(dir, kids[n].name);
      KidsPrefixInFS(fs, kids, dir);
      KidsReadableCount(fs, kids[..n], dir);
      ReadableFilesCount(fs, kids[n], q);
      ReadableAppend(fs, KidsFiles(kids[..n], dir), TreeFiles(kids[n], q));
    }
  }

  /** In a tree without unreadable nodes every listed file is readable, so the
      readable files are all the files. */
  lemma ReadableTree(fs: FS, t: Tree, p: string)
    requires InFS(fs, t, p) && AllReadable(t)
    ensures Readable(fs, TreeFiles(t, p)) == TreeFiles(t, p)
    ensures CountReadable(t) == CountFiles(t)
  {
    TreeFilesAreFiles(fs, t, p);
    ReadableAll(fs, TreeFiles(t, p));
    ReadableFilesCount(fs, t, p);
    TreeFilesCount(t, p);
  }

  /** A directory "/d" whose first entry "a" is a subdirectory that cannot be
      read and whose second entry "b" is a readable file. */
  const MixedFS: FS := FS(map["/d" := Dir(["a", "b"], 0x1ED), "/d/a" := Dir([], 0x1ED), "/d/b" := File([5], 0x1A4)], {"/d/a"})

  const MixedTree: Tree := DirNode("d", [Unreadable("a", Dir([], 0x1ED)), FileNode("b", [5], 0x1A4)], 0x1ED)

  lemma MixedTreeInFS()
    ensures InFS(MixedFS, MixedTree, "/d")
  {
    assert Join("/d", "a") == "/d/a" && Join("/d", "b") == "/d/b";
    assert Names(MixedTree.kids) == ["a", "b"];
  }

  /** The tree lists the file "/d/b" alone, which is readable and archived as "d/b". */
  lemma MixedTreeFiles()
    ensures InFS(MixedFS, MixedTree, "/d")
    ensures TreeFiles(MixedTree, "/d") == ["/d/b"] && Readable(MixedFS, ["/d/b"]) == ["/d/b"]
    ensures DestName("/d/b", "d") == "d/b"
  {
    MixedTreeInFS();
    var kids := MixedTree.kids;
    assert KidsFiles(kids[..1], "/d") == [] by {
      assert kids[..1][..0] == [];
      assert kids[..1][0] == Unreadable("a", Dir([], 0x1ED));
    }
    assert TreeFiles(kids[1], Join("/d", "b")) == ["/d/b"];
    assert ["/d/b"][..0] == [];
    MixedDestName();
  }

  lemma MixedDestName()
    ensures DestName("/d/b", "d") == "d/b"
  {
    var path := "/d/b";
    assert path[1..2] == "d" && path[0..1][0] == '/';
    assert OccursAt(path, "d", 1) && !OccursAt(path, "d", 0);
    assert path[1..] == "d/b";
  }

  /** The walk of that directory makes the one call for "/d/b" and does not fail,
      whether or not links are resolved. */
  lemma WalkSkipsUnreadableSubdir(lib: PathLib, symLink: bool)
    ensures WalkDir(MixedFS, lib, symLink, "/d", "d") == Ok([Call("/d/b", "d/b")])
  {
    MixedTreeFiles();
    WalkTree(MixedFS, lib, symLink, MixedTree, "/d", "d");
    assert CallsFor(["/d/b"], "d") == [Call("/d/b", "d/b")];
  }

  /** A tree lists as many files as it holds. */
  lemma {:induction false} TreeFilesCount(t: Tree, p: string)
    ensures |TreeFiles(t, p)| == CountFiles(t)
    decreases t, 1
  {
    match t
    case FileNode(_, _, _) =>
    case DirNode(_, kids, _) => KidsFilesCount(kids, p);
    case Unreadable(_, _) =>
  }

  lemma {:induction false} KidsFilesCount(kids: seq<Tree>, dir: string)
    ensures |KidsFiles(kids, dir)| == CountAll(kids)
    decreases kids, 0
  {
    if |kids| > 0 {
      KidsFilesCount(kids[..|kids| - 1], dir);
      TreeFilesCount(kids[|kids| - 1], Join(dir, kids[|kids| - 1].name));
    }
  }

  /** Every path a tree present in the filesystem lists is a regular file, and
      a readable one when the tree has no unreadable node. */
  lemma {:induction false} TreeFilesAreFiles(fs: FS, t: Tree, p: string)
    requires InFS(fs, t, p)
    ensures forall f :: f in TreeFiles(t, p) ==> f in fs.nodes && fs.nodes[f].File?
    ensures AllReadable(t) ==> forall f :: f in TreeFiles(t, p) ==> f !in fs.faulty
    decreases t, 1
  {
    match t
    case FileNode(_, _, _) =>
    case DirNode(_, kids, _) => KidsFilesAreFiles(fs, kids, p);
    case Unreadable(_, _) =>
  }

  lemma {:induction false} KidsFilesAreFiles(fs: FS, kids: seq<Tree>, dir: string)
    requires KidsInFS(fs, kids, dir)
    ensures forall f :: f in KidsFiles(kids, dir) ==> f in fs.nodes && fs.nodes[f].File?
    ensures (forall i :: 0 <= i < |kids| ==> AllReadable(kids[i])) ==>
              forall f :: f in KidsFiles(kids, dir) ==> f !in fs.faulty
    decreases kids, 0
  {
    if |kids| > 0 {
      var n := |kids| - 1;
      KidsPrefixInFS(fs, kids, dir);
      KidsFilesAreFiles(fs, kids[..n], dir);
      TreeFilesAreFiles(fs, kids[n], Join(dir, kids[n].name));
    }
  }
}
