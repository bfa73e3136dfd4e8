/** The parts of Go's `path/filepath` and `strings` packages the archiver relies on.
    `filepath.Clean` is a library routine and is taken as a given function. */
module Paths {
  import opened Wrappers
  import opened Errors

  /** The process context that path resolution depends on: the working directory
      (None when os.Getwd fails) and the lexical cleaning function. */
  datatype PathLib = PathLib(cwd: Option<string>, clean: string -> string)

  /** A directory-entry name: non-empty and without a separator. */
  type Name = s: string | |s| > 0 && '/' !in s witness "a"

  predicate IsAbs(p: string) {
    |p| > 0 && p[0] == '/'
  }

  /** filepath.Abs: an absolute path is only cleaned; a relative one is joined to
      the working directory first, which is the only way Abs can fail. */
  function Abs(lib: PathLib, p: string): (r: Result<string, Error>)
    ensures r.Err? <==> !IsAbs(p) && lib.cwd.None?
    ensures r.Err? ==> r.error == NoWorkingDir
    ensures IsAbs(p) ==> r == Ok(lib.clean(p))
  {
    if IsAbs(p) then Ok(lib.clean(p))
    else if lib.cwd.None? then Err(NoWorkingDir)
    else Ok(lib.clean(lib.cwd.value + "/" + p))
  }

  predicate EndsWithSlash(p: string) {
    |p| > 0 && p[|p| - 1] == '/'
  }

  /** filepath.Join of a directory and one entry name, as plain concatenation
      with one separator: no Clean is applied to the result. It agrees with
      filepath.Join only when `dir` is already clean (or ends in a separator)
      and `name` is a single component other than "." and "..". Names read
      from a directory listing are such components; a root directory given in
      unclean form (such as "a/./b", "a//b" or "") is joined verbatim here,
      where Go would clean the joined path. */
  function Join(dir: string, name: Name): (r: string)
    ensures |dir| + |name| <= |r| <= |dir| + |name| + 1
    ensures r[..|dir|] == dir
    ensures r[|r| - |name|..] == name
  {
    if EndsWithSlash(dir) then dir + name else dir + "/" + name
  }

  /** The part of a path before its last separator, or "." when it has none:
      the directory against which a relative symlink target is read. */
  function Parent(p: string): (r: string)
    ensures r == "." || (|r| < |p| && p[|r|] == '/' && r == p[..|r|] && '/' !in p[|r| + 1..])
  {
    if |p| == 0 then "."
    else if p[|p| - 1] == '/' then p[..|p| - 1]
    else Parent(p[..|p| - 1])
  }

  predicate OccursAt(s: string, sub: string, j: int) {
    0 <= j && j + |sub| <= |s| && s[j..j + |sub|] == sub
  }

  /** The first occurrence of `sub` in `s` at or after `k`, or -1. */
  function IndexFrom(s: string, sub: string, k: nat): (i: int)
    ensures i == -1 || (k <= i && OccursAt(s, sub, i))
    ensures forall j {:trigger OccursAt(s, sub, j)} ::
              k <= j && (i == -1 || j < i) ==> !OccursAt(s, sub, j)
    decreases |s| + 1 - k
  {
    if k + |sub| > |s| then -1
    else if s[k..k + |sub|] == sub then k
    else IndexFrom(s, sub, k + 1)
  }

  /** strings.Index: the first index at which `sub` occurs in `s`, -1 if none. */
  function Index(s: string, sub: string): (i: int)
    ensures i == -1 || OccursAt(s, sub, i)
    ensures forall j {:trigger OccursAt(s, sub, j)} ::
              0 <= j && (i == -1 || j < i) ==> !OccursAt(s, sub, j)
  {
    IndexFrom(s, sub, 0)
  }
}
