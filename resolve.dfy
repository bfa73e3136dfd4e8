/** Symbolic-link and exclude-list resolution (internal/archive/archiver.go). */
module Resolve {
  import opened Wrappers
  import opened Errors
  import opened Paths
  import opened FileSystem

  /** evaluateSymLink: a link is replaced by the absolute form of its target, read
      one level deep; any other existing path is returned unchanged. */
  function EvaluateSymLink(fs: FS, lib: PathLib, link: string): (r: Result<string, Error>)
    ensures link !in fs.nodes ==> r == Err(NotExist(link))
    ensures link in fs.nodes && !fs.nodes[link].Symlink? ==> r == Ok(link)
    ensures link in fs.nodes && fs.nodes[link].Symlink? && link in fs.faulty ==> r == Err(Permission(link))
    ensures link in fs.nodes && fs.nodes[link].Symlink? && link !in fs.faulty ==>
              r == Abs(lib, fs.nodes[link].target)
  {
    match Lstat(fs, link)
    case Err(e) => Err(e)
    case Ok(node) =>
      if node.Symlink? then
        match Readlink(fs, link)
        case Err(e) => Err(e)
        case Ok(orgPath) => Abs(lib, orgPath)
      else Ok(link)
  }

  /** A relative link target is made absolute against the working directory, not
      against the link's directory as the kernel reads it, and a link to a link
      is followed one level only. */
  lemma RelativeTargetReadAgainstCwd(lib: PathLib)
    requires lib.cwd == Some("/work")
    requires lib.clean("/work/file") == "/work/file" && lib.clean("/data/file") == "/data/file"
    ensures var fs := FS(map["/data/link" := Symlink("file"), "/data/file" := File([1], 0x1A4)], {});
            EvaluateSymLink(fs, lib, "/data/link") == Ok("/work/file") &&
            Open(fs, lib, "/data/link") == Ok("/data/file")
  {
    var fs := FS(map["/data/link" := Symlink("file"), "/data/file" := File([1], 0x1A4)], {});
    ParentOfDataLink();
    assert "/work" + "/" + "file" == "/work/file";
    assert Abs(lib, "file") == Ok("/work/file");
    assert LinkTarget(lib, "/data/link", "file") == "/data/file";
    assert Follow(fs, lib, "/data/file", MaxSymlinkHops - 1) == Ok("/data/file");
  }

  lemma ParentOfDataLink()
    ensures Parent("/data/link") + "/" + "file" == "/data/file"
  {
    assert "/data/link"[..9] == "/data/lin" && "/data/lin"[..8] == "/data/li";
    assert "/data/li"[..7] == "/data/l" && "/data/l"[..6] == "/data/" && "/data/"[..5] == "/data";
    assert Parent("/data/") == "/data";
    assert Parent("/data/l") == Parent("/data/");
    assert Parent("/data/li") == Parent("/data/l");
    assert Parent("/data/lin") == Parent("/data/li");
    assert Parent("/data/link") == Parent("/data/lin");
  }

  /** Every element of `list` can be made absolute. */
  predicate AllAbsolute(lib: PathLib, list: seq<string>) {
    forall i :: 0 <= i < |list| ==> Abs(lib, list[i]).Ok?
  }

  /** `resolved` is `list` with each element made absolute, in the same order. */
  predicate ResolvedFrom(lib: PathLib, list: seq<string>, resolved: seq<string>) {
    |resolved| == |list| &&
    forall i :: 0 <= i < |list| ==> Abs(lib, list[i]) == Ok(resolved[i])
  }

  /** resolveExcludeList: the absolute form of every element, in order; the
      first element that cannot be made absolute fails the whole call. */
  method ResolveExcludeList(lib: PathLib, list: seq<string>) returns (r: Result<seq<string>, Error>)
    ensures r.Ok? <==> AllAbsolute(lib, list)
    ensures r.Ok? ==> ResolvedFrom(lib, list, r.value)
    ensures r.Err? ==> r.error == NoWorkingDir
  {
    var newExcludeList: seq<string> := [];
    var i := 0;
    while i < |list|
      invariant 0 <= i <= |list|
      invariant ResolvedFrom(lib, list[..i], newExcludeList)
    {
      var abs := Abs(lib, list[i]);
      if abs.Err? {
        return Err(abs.error);
      }
      newExcludeList := newExcludeList + [abs.value];
      i := i + 1;
    }
    assert list[..i] == list;
    return Ok(newExcludeList);
  }

  /** slices.Contains on a possibly nil list. */
  predicate Contains(list: Option<seq<string>>, x: string) {
    list.Some? && x in list.value
  }
}
