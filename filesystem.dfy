/** The abstract filesystem the archiver reads: a finite map from path to node.
    os.Lstat, os.Readlink, os.Open and os.ReadDir become lookups in this map. */
module FileSystem {
  import opened Wrappers
  import opened Errors
  import opened Paths

  type byte = b: int | 0 <= b < 256

  /** Go's os.FileMode, an unsigned 32-bit word. */
  type FileMode = m: int | 0 <= m < 0x1_0000_0000

  /** A directory lists its entry names in the order os.ReadDir returns them
      (sorted by name). */
  datatype Node =
    | File(data: seq<byte>, perm: FileMode)
    | Dir(children: seq<Name>, perm: FileMode)
    | Symlink(target: string)

  /** `faulty` holds the paths that exist but whose reads fail (permissions, I/O):
      Readlink, Open and ReadDir of them fail, Lstat of them succeeds. */
  datatype FS = FS(nodes: map<string, Node>, faulty: set<string>)

  /** How many symbolic links the kernel follows before giving up (Linux MAXSYMLINKS). */
  const MaxSymlinkHops: nat := 40

  /** os.Lstat: the node at `p` itself, links not followed. */
  function Lstat(fs: FS, p: string): (r: Result<Node, Error>)
    ensures r.Ok? <==> p in fs.nodes
    ensures r.Ok? ==> r.value == fs.nodes[p]
    ensures r.Err? ==> r.error == NotExist(p)
  {
    if p in fs.nodes then Ok(fs.nodes[p]) else Err(NotExist(p))
  }

  /** os.Readlink: the target text stored in the link at `p`. */
  function Readlink(fs: FS, p: string): (r: Result<string, Error>)
    ensures r.Ok? <==> p in fs.nodes && fs.nodes[p].Symlink? && p !in fs.faulty
    ensures r.Ok? ==> r.value == fs.nodes[p].target
  {
    if p !in fs.nodes then Err(NotExist(p))
    else if p in fs.faulty then Err(Permission(p))
    else if !fs.nodes[p].Symlink? then Err(InvalidArgument(p))
    else Ok(fs.nodes[p].target)
  }

  /** Where the kernel looks for the target of the link at `link`: a relative
      target is read against the link's own directory. */
  function LinkTarget(lib: PathLib, link: string, target: string): string {
    if IsAbs(target) then lib.clean(target) else lib.clean(Parent(link) + "/" + target)
  }

  /** The path the kernel reaches when it opens `p`, following at most `hops`
      symbolic links in the last component. */
  function Follow(fs: FS, lib: PathLib, p: string, hops: nat): (r: Result<string, Error>)
    ensures r.Ok? ==> r.value in fs.nodes && !fs.nodes[r.value].Symlink? && r.value !in fs.faulty
    ensures p in fs.nodes && !fs.nodes[p].Symlink? && p !in fs.faulty ==> r == Ok(p)
    ensures p !in fs.nodes ==> r == Err(NotExist(p))
    decreases hops
  {
    if p !in fs.nodes then Err(NotExist(p))
    else if p in fs.faulty then Err(Permission(p))
    else match fs.nodes[p]
      case Symlink(t) =>
        if hops == 0 then Err(TooManyLinks(p))
        else Follow(fs, lib, LinkTarget(lib, p, t), hops - 1)
      case _ => Ok(p)
  }

  /** os.Open: succeeds on a file or a directory, after following links. */
  function Open(fs: FS, lib: PathLib, p: string): (r: Result<string, Error>)
    ensures r.Ok? ==> r.value in fs.nodes && !fs.nodes[r.value].Symlink?
    ensures p in fs.nodes && !fs.nodes[p].Symlink? && p !in fs.faulty ==> r == Ok(p)
  {
    Follow(fs, lib, p, MaxSymlinkHops)
  }

  /** os.ReadDir: the entry names of the directory `p` leads to. */
  function ReadDir(fs: FS, lib: PathLib, p: string): (r: Result<seq<Name>, Error>)
    ensures IsDirAt(fs, p) && p !in fs.faulty ==> r == Ok(fs.nodes[p].children)
    ensures p !in fs.nodes ==> r.Err?
  {
    match Open(fs, lib, p)
    case Err(e) => Err(e)
    case Ok(q) => if fs.nodes[q].Dir? then Ok(fs.nodes[q].children) else Err(NotDirectory(p))
  }

  /** DirEntry.IsDir for the entry at `p`: the entry itself is a directory (a link
      to a directory is not). */
  predicate IsDirAt(fs: FS, p: string) {
    p in fs.nodes && fs.nodes[p].Dir?
  }

  /** os.OpenFile(p, O_TRUNC|O_CREATE|O_RDWR, mode) succeeds unless `p` is a
      directory or a path that cannot be written. */
  predicate CanCreate(fs: FS, p: string) {
    !IsDirAt(fs, p) && p !in fs.faulty
  }

  /** FileMode.Perm: the nine permission bits. */
  function Perm(m: FileMode): (r: int)
    ensures 0 <= r < 0x200 && (m < 0x200 ==> r == m)
  {
    m % 0x200
  }
}
