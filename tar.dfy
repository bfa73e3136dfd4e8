/** The tar.gz writer of internal/archive/tararchiver.go: the same state
    machine as the zip writer, over a stream of tar entries. The gzip layer
    only matters to Close. */
module TarWriter {
  import opened Wrappers
  import opened Errors
  import opened Paths
  import opened FileSystem
  import opened Settings
  import opened Resolve
  import opened Walk
  import opened Tree

  datatype TypeFlag = TypeReg | TypeDir

  /** The header fields the model keeps; ModTime and the owner fields are not modelled. */
  datatype TarHeader = TarHeader(name: string, size: int, mode: int, typeflag: TypeFlag)

  datatype TarEntry = TarEntry(header: TarHeader, data: seq<byte>)

  /** The mode ArchiveContent writes: the decimal literal 770 (octal 1402), not 0770. */
  const ContentMode: int := 770

  /** The os.FileMode bits for setuid, setgid and sticky (1<<23, 1<<22, 1<<20). */
  const ModeSetuid: int := 0x80_0000
  const ModeSetgid: int := 0x40_0000
  const ModeSticky: int := 0x10_0000

  /** Whether the single-bit flag `bit` is set in `m`. */
  predicate HasMode(m: FileMode, bit: int)
    requires bit > 0
  {
    (m / bit) % 2 == 1
  }

  /** The Header.Mode that tar.FileInfoHeader derives from a FileMode: the
      nine permission bits, plus c_ISUID (04000), c_ISGID (02000) and c_ISVTX
      (01000) for the setuid, setgid and sticky flags. */
  function HeaderMode(m: FileMode): (r: int)
    ensures 0 <= r < 0x1000 && r % 0x200 == Perm(m)
    ensures (r / 0x800) % 2 == 1 <==> HasMode(m, ModeSetuid)
    ensures (r / 0x400) % 2 == 1 <==> HasMode(m, ModeSetgid)
    ensures (r / 0x200) % 2 == 1 <==> HasMode(m, ModeSticky)
    ensures m < 0x200 ==> r == m
  {
    Perm(m) + (if HasMode(m, ModeSetuid) then 0x800 else 0)
            + (if HasMode(m, ModeSetgid) then 0x400 else 0)
            + (if HasMode(m, ModeSticky) then 0x200 else 0)
  }

  /** tar.FileInfoHeader for the node a path was opened on, renamed to `dst`:
      a regular file keeps its size and mode; a directory has size 0. */
  function HeaderFor(node: Node, dst: string): (h: TarHeader)
    requires !node.Symlink?
    ensures h.name == dst
    ensures node.File? ==> h == TarHeader(dst, |node.data|, HeaderMode(node.perm), TypeReg)
    ensures node.Dir? ==> h == TarHeader(dst, 0, HeaderMode(node.perm), TypeDir)
  {
    match node
    case File(data, perm) => TarHeader(dst, |data|, HeaderMode(perm), TypeReg)
    case Dir(_, perm) => TarHeader(dst, 0, HeaderMode(perm), TypeDir)
  }

  /** writeToTar(src, dst): open `src` (following links), write the header
      built from its stat info under the name `dst`, copy the content. For a
      directory the header is written before the copy fails; a closed writer
      refuses the header. */
  function WriteToTarEffect(fs: FS, lib: PathLib, closed: bool, src: string, dst: string): (r: Outcome<TarEntry>)
    ensures |r.appended| <= 1 && forall e :: e in r.appended ==> e.header.name == dst
    ensures Open(fs, lib, src).Err? ==> r == Outcome([], Some(Open(fs, lib, src).error))
    ensures Open(fs, lib, src).Ok? && closed ==> r == Outcome([], Some(WriteAfterClose))
    ensures r.err.None? <==> Open(fs, lib, src).Ok? && !closed && fs.nodes[Open(fs, lib, src).value].File?
    ensures r.err.None? ==>
              var node := fs.nodes[Open(fs, lib, src).value];
              r.appended == [TarEntry(TarHeader(dst, |node.data|, HeaderMode(node.perm), TypeReg), node.data)]
    ensures Open(fs, lib, src).Ok? && !closed && fs.nodes[Open(fs, lib, src).value].Dir? ==>
              var node := fs.nodes[Open(fs, lib, src).value];
              r == Outcome([TarEntry(TarHeader(dst, 0, HeaderMode(node.perm), TypeDir), [])],
                           Some(IsDirectory(Open(fs, lib, src).value)))
  {
    match Open(fs, lib, src)
    case Err(e) => Outcome([], Some(e))
    case Ok(q) =>
      if closed then Outcome([], Some(WriteAfterClose))
      else
        var header := HeaderFor(fs.nodes[q], dst);
        match fs.nodes[q]
        case File(data, _) => Outcome([TarEntry(header, data)], None)
        case _ => Outcome([TarEntry(header, [])], Some(IsDirectory(q)))
  }

  /** ArchiveFile(src, dst) under the settings `s`: the exclusion test on the
      unresolved `src` comes first, then the optional link resolution. */
  function ArchiveFileEffect(fs: FS, lib: PathLib, s: SettingsValue, closed: bool, src: string, dst: string): (r: Outcome<TarEntry>)
    ensures |r.appended| <= 1 && forall e :: e in r.appended ==> e.header.name == dst
    ensures Contains(s.excludeList, src) ==> r == Outcome([], None)
    ensures !Contains(s.excludeList, src) && s.symLink && EvaluateSymLink(fs, lib, src).Err? ==>
              r == Outcome([], Some(EvaluateSymLink(fs, lib, src).error))
    ensures !Contains(s.excludeList, src) && s.symLink && EvaluateSymLink(fs, lib, src).Ok? ==>
              r == WriteToTarEffect(fs, lib, closed, EvaluateSymLink(fs, lib, src).value, dst)
    ensures !Contains(s.excludeList, src) && !s.symLink ==> r == WriteToTarEffect(fs, lib, closed, src, dst)
  {
    if Contains(s.excludeList, src) then Outcome([], None)
    else
      var resolved := if s.symLink then EvaluateSymLink(fs, lib, src) else Ok(src);
      if resolved.Err? then Outcome([], Some(resolved.error))
      else WriteToTarEffect(fs, lib, closed, resolved.value, dst)
  }

  /** What one ArchiveFile call appends, errors discarded. */
  function TarFileStep(fs: FS, lib: PathLib, s: SettingsValue, closed: bool): Call -> seq<TarEntry> {
    (c: Call) => ArchiveFileEffect(fs, lib, s, closed, c.src, c.dst).appended
  }

  /** The entries ArchiveDir(src, dst) appends: those of the calls its walk
      makes, or none when the root cannot be resolved or listed. */
  function TarDirEntries(fs: FS, lib: PathLib, s: SettingsValue, closed: bool, src: string, dst: string): seq<TarEntry> {
    match WalkDir(fs, lib, s.symLink, src, dst)
    case Ok(calls) => Flatten(calls, TarFileStep(fs, lib, s, closed))
    case Err(_) => []
  }

  /** The entries one walk entry contributes: a file's ArchiveFile call under
      the rewritten name, or everything the subdirectory's walk appends. */
  lemma EntryTarEntries(fs: FS, lib: PathLib, s: SettingsValue, closed: bool, dir: string, name: Name, dst: string)
    ensures var p := Join(dir, name);
            Flatten(EntryCalls(fs, lib, s.symLink, dir, name, dst), TarFileStep(fs, lib, s, closed)) ==
            if !IsDirAt(fs, p) then ArchiveFileEffect(fs, lib, s, closed, p, DestName(p, dst)).appended
            else TarDirEntries(fs, lib, s, closed, p, dst)
  {
    var p := Join(dir, name);
    if !IsDirAt(fs, p) {
      assert [Call(p, DestName(p, dst))][..0] == [];
    }
  }

  /** The tar entry a readable regular file becomes under the name `dst`. */
  function FileEntry(fs: FS, f: string, dst: string): (e: TarEntry)
    requires f in fs.nodes && fs.nodes[f].File?
    ensures e.data == fs.nodes[f].data
    ensures e.header == TarHeader(dst, |e.data|, HeaderMode(fs.nodes[f].perm), TypeReg)
  {
    TarEntry(TarHeader(dst, |fs.nodes[f].data|, HeaderMode(fs.nodes[f].perm), TypeReg), fs.nodes[f].data)
  }

  /** One call on a regular, readable, non-excluded file appends exactly its entry. */
  lemma TarSingleFile(fs: FS, lib: PathLib, s: SettingsValue, f: string, dst: string)
    requires f in fs.nodes && fs.nodes[f].File? && f !in fs.faulty && !Contains(s.excludeList, f)
    ensures Flatten(CallsFor([f], dst), TarFileStep(fs, lib, s, false)) == [FileEntry(fs, f, DestName(f, dst))]
  {
    var calls := CallsFor([f], dst);
    assert calls[..0] == [];
  }

  /** A regular file that cannot be read is not archived: its ArchiveFile
      call fails with the read error before any header is written. */
  lemma TarUnreadableFile(fs: FS, lib: PathLib, s: SettingsValue, f: string, dst: string)
    requires f in fs.nodes && fs.nodes[f].File? && f in fs.faulty && !Contains(s.excludeList, f)
    ensures ArchiveFileEffect(fs, lib, s, false, f, dst) == Outcome([], Some(Permission(f)))
    ensures Flatten(CallsFor([f], dst), TarFileStep(fs, lib, s, false)) == []
  {
    var calls := CallsFor([f], dst);
    assert calls[..0] == [];
  }

  /** Every path names a regular file, readable or not, that is not excluded. */
  predicate ArchivableFiles(fs: FS, s: SettingsValue, paths: seq<string>) {
    forall f :: f in paths ==> f in fs.nodes && fs.nodes[f].File? && !Contains(s.excludeList, f)
  }

  /** The entries regular files `paths` are expected to give, in order:
      one per file, under the name the destination rewrite gives it. */
  function FileEntries(fs: FS, paths: seq<string>, dst: string): (r: seq<TarEntry>)
    requires forall i :: 0 <= i < |paths| ==> paths[i] in fs.nodes && fs.nodes[paths[i]].File?
    ensures |r| == |paths|
    ensures forall i :: 0 <= i < |paths| ==> r[i] == FileEntry(fs, paths[i], DestName(paths[i], dst))
  {
    seq(|paths|, i requires 0 <= i < |paths| => FileEntry(fs, paths[i], DestName(paths[i], dst)))
  }

  /** A sequence of calls on regular files appends exactly the expected
      entries of the readable ones, in order; the unreadable ones add nothing. */
  lemma {:induction false} TarFilesEntries(fs: FS, lib: PathLib, s: SettingsValue, paths: seq<string>, dst: string)
    requires ArchivableFiles(fs, s, paths)
    ensures Flatten(CallsFor(paths, dst), TarFileStep(fs, lib, s, false)) == FileEntries(fs, Readable(fs, paths), dst)
    decreases |paths|
  {
    if |paths| > 0 {
      var n := |paths| - 1;
      var prefix := paths[..n];
      var last := paths[n];
      var step := TarFileStep(fs, lib, s, false);
      assert paths == prefix + [last];
      assert Flatten(CallsFor(paths, dst), step) == Flatten(CallsFor(prefix, dst), step) + Flatten(CallsFor([last], dst), step) by {
        CallsForAppend(prefix, [last], dst);
        FlattenAppend(CallsFor(prefix, dst), CallsFor([last], dst), step);
      }
      assert ArchivableFiles(fs, s, prefix);
      TarFilesEntries(fs, lib, s, prefix, dst);
      var before := Readable(fs, prefix);
      if last in fs.faulty {
        TarUnreadableFile(fs, lib, s, last, dst);
        assert Readable(fs, paths) == before;
      } else {
        TarSingleFile(fs, lib, s, last, dst);
        assert Readable(fs, paths) == before + [last];
        assert FileEntries(fs, before + [last], dst) == FileEntries(fs, before, dst) + [FileEntry(fs, last, DestName(last, dst))];
      }
    }
  }

  /** ArchiveDir on a directory tree present in the filesystem, none of whose
      files is excluded, appends one regular-file entry per readable file of
      the tree, named by the destination rewrite, in walk order, and returns
      nil: unreadable files and subdirectories are skipped. */
  lemma TarDirTree(fs: FS, lib: PathLib, s: SettingsValue, t: Tree, p: string, dst: string)
    requires t.DirNode? && InFS(fs, t, p)
    requires forall f :: f in TreeFiles(t, p) ==> !Contains(s.excludeList, f)
    ensures var es := TarDirEntries(fs, lib, s, false, p, dst);
            var files := Readable(fs, TreeFiles(t, p));
            |es| == CountReadable(t) && |es| == |files| &&
            (forall i :: 0 <= i < |files| ==> files[i] in fs.nodes && fs.nodes[files[i]].File? && files[i] !in fs.faulty) &&
            forall i :: 0 <= i < |files| ==> es[i] == FileEntry(fs, files[i], DestName(files[i], dst))
    ensures DirError(fs, lib, s.symLink, p, dst).None?
  {
    WalkTree(fs, lib, s.symLink, t, p, dst);
    TreeFilesAreFiles(fs, t, p);
    ReadableFilesCount(fs, t, p);
    assert ArchivableFiles(fs, s, TreeFiles(t, p));
    TarFilesEntries(fs, lib, s, TreeFiles(t, p), dst);
  }

  /** Best effort: in a directory whose first entry is a subdirectory that
      cannot be read, the file after it is still archived, and ArchiveDir
      returns no error. */
  lemma TarSkipsUnreadableSubdir(lib: PathLib, s: SettingsValue)
    requires s.excludeList == None
    ensures TarDirEntries(MixedFS, lib, s, false, "/d", "d") == [TarEntry(TarHeader("d/b", 1, 0x1A4, TypeReg), [5])]
    ensures DirError(MixedFS, lib, s.symLink, "/d", "d").None?
  {
    MixedTreeFiles();
    TarDirTree(MixedFS, lib, s, MixedTree, "/d", "d");
  }

  /** The settings TarArchiver.Open starts from before applying its options. */
  const InitialSettings: SettingsValue := SettingsValue(None, DefaultArchiveMode, false)

  /** The writer state. The tarFile/gzipWriter/tarWriter fields of the Go
      struct become `entries` (the stream written so far) and `closed`;
      `isOpen` records that Open has set them. */
  class TarArchiver {
    var isOpen: bool
    var fileName: string
    var settings: ArchiveSettings?
    var entries: seq<TarEntry>
    var closed: bool

    predicate Ready()
      reads this
    {
      isOpen && settings != null
    }

    /** The zero value `&TarArchiver{}`. */
    constructor ()
      ensures !isOpen && fileName == "" && settings == null && entries == [] && !closed
    {
      isOpen := false;
      fileName := "";
      settings := null;
      entries := [];
      closed := false;
    }

    method WriteToTar(fs: FS, lib: PathLib, src: string, dst: string) returns (err: Option<Error>)
      requires Ready()
      modifies this
      ensures isOpen == old(isOpen) && fileName == old(fileName) && settings == old(settings) && closed == old(closed)
      ensures entries == old(entries) + WriteToTarEffect(fs, lib, closed, src, dst).appended
      ensures err == WriteToTarEffect(fs, lib, closed, src, dst).err
    {
      var found := FileSystem.Open(fs, lib, src);
      if found.Err? {
        return Some(found.error);
      }
      if closed {
        return Some(WriteAfterClose);
      }
      var node := fs.nodes[found.value];
      var header := HeaderFor(node, dst);
      if node.File? {
        entries := entries + [TarEntry(header, node.data)];
        return None;
      }
      entries := entries + [TarEntry(header, [])];
      return Some(IsDirectory(found.value));
    }

    method ArchiveFile(fs: FS, lib: PathLib, src: string, dst: string) returns (err: Option<Error>)
      requires Ready()
      modifies this
      ensures isOpen == old(isOpen) && fileName == old(fileName) && settings == old(settings) && closed == old(closed)
      ensures entries == old(entries) + ArchiveFileEffect(fs, lib, settings.Value(), closed, src, dst).appended
      ensures err == ArchiveFileEffect(fs, lib, settings.Value(), closed, src, dst).err
    {
      if Contains(settings.excludeList, src) {
        return None;
      }
      var path := src;
      if settings.symLink {
        var resolved := EvaluateSymLink(fs, lib, src);
        if resolved.Err? {
          return Some(resolved.error);
        }
        path := resolved.value;
      }
      err := WriteToTar(fs, lib, path, dst);
    }

    method ArchiveDir(fs: FS, lib: PathLib, src: string, dst: string) returns (err: Option<Error>)
      requires Ready()
      modifies this
      ensures isOpen == old(isOpen) && fileName == old(fileName) && settings == old(settings) && closed == old(closed)
      ensures entries == old(entries) + TarDirEntries(fs, lib, settings.Value(), closed, src, dst)
      ensures err == DirError(fs, lib, settings.symLink, src, dst)
      decreases Rank(fs, src), 1
    {
      var root := src;
      if settings.symLink {
        var resolved := EvaluateSymLink(fs, lib, src);
        if resolved.Err? {
          return Some(resolved.error);
        }
        root := resolved.value;
      }
      var listing := ReadDir(fs, lib, root);
      if listing.Err? {
        return Some(listing.error);
      }
      var names := listing.value;
      assert Rank(fs, root) <= Rank(fs, src);
      var s := settings.Value();
      ghost var step := TarFileStep(fs, lib, s, closed);
      var i := 0;
      while i < |names|
        invariant 0 <= i <= |names|
        invariant isOpen == old(isOpen) && fileName == old(fileName) && settings == old(settings) && closed == old(closed)
        invariant settings.Value() == s && step == TarFileStep(fs, lib, s, closed)
        invariant entries == old(entries) + Flatten(WalkEntries(fs, lib, s.symLink, root, names[..i], dst), step)
      {
        ghost var done := Flatten(WalkEntries(fs, lib, s.symLink, root, names[..i], dst), step);
        ghost var before := entries;
        ArchiveEntry(fs, lib, root, names[i], dst);
        assert settings.symLink == s.symLink;
        ghost var added := Flatten(EntryCalls(fs, lib, s.symLink, root, names[i], dst), step);
        assert entries == before + added;
        FlattenWalkStep(fs, lib, s.symLink, root, names, i, dst, step);
        AppendAssoc(old(entries), done, added);
        ghost var next := Flatten(WalkEntries(fs, lib, s.symLink, root, names[..i + 1], dst), step);
        assert entries == old(entries) + next;
        i := i + 1;
        assert next == Flatten(WalkEntries(fs, lib, s.symLink, root, names[..i], dst), step);
      }
      assert names[..i] == names;
      return None;
    }

    /** One iteration of ArchiveDir's loop over the entries of `dir`: a
        non-directory goes to ArchiveFile under the rewritten name, a
        subdirectory to ArchiveDir with the same `dst`; errors are only logged. */
    method ArchiveEntry(fs: FS, lib: PathLib, dir: string, name: Name, dst: string)
      requires Ready()
      modifies this
      ensures isOpen == old(isOpen) && fileName == old(fileName) && settings == old(settings) && closed == old(closed)
      ensures entries == old(entries) +
                Flatten(EntryCalls(fs, lib, settings.symLink, dir, name, dst), TarFileStep(fs, lib, settings.Value(), closed))
      decreases Rank(fs, dir), 0
    {
      var tmpPath := Join(dir, name);
      EntryTarEntries(fs, lib, settings.Value(), closed, dir, name, dst);
      if !IsDirAt(fs, tmpPath) {
        var relPathIndex := Index(tmpPath, dst);
        var fPath := tmpPath;
        if relPathIndex != -1 {
          fPath := tmpPath[relPathIndex..];
        }
        assert fPath == DestName(tmpPath, dst);
        var _ := ArchiveFile(fs, lib, tmpPath, fPath);
      } else {
        ChildRanksLower(fs, dir, name);
        var _ := ArchiveDir(fs, lib, tmpPath, dst);
      }
    }

    /** ArchiveContent(src, dst): a regular-file header of size |src| and mode
        770 named `dst`, then `src`; no filesystem access. */
    method ArchiveContent(src: seq<byte>, dst: string) returns (err: Option<Error>)
      requires Ready()
      modifies this
      ensures isOpen == old(isOpen) && fileName == old(fileName) && settings == old(settings) && closed == old(closed)
      ensures err.None? <==> !closed
      ensures err.Some? ==> err.value == WriteAfterClose
      ensures entries == old(entries) +
                (if closed then [] else [TarEntry(TarHeader(dst, |src|, ContentMode, TypeReg), src)])
    {
      if closed {
        return Some(WriteAfterClose);
      }
      entries := entries + [TarEntry(TarHeader(dst, |src|, ContentMode, TypeReg), src)];
      return None;
    }

    /** Open(tarName, opts...): fresh settings at DefaultArchiveMode, the
        options applied in order, the output created or truncated, and a
        non-nil exclude list replaced by its absolute form; when that fails
        the list becomes nil and the error is returned. */
    method Open(fs: FS, lib: PathLib, tarName: string, opts: seq<Options>) returns (err: Option<Error>)
      modifies this
      ensures !CanCreate(fs, tarName) ==> err == Some(CannotCreate(tarName)) && unchanged(this)
      ensures CanCreate(fs, tarName) ==>
                isOpen && fileName == tarName && entries == [] && !closed && settings != null && fresh(settings) &&
                settings.fileMode == FoldOptions(InitialSettings, opts).fileMode &&
                settings.symLink == FoldOptions(InitialSettings, opts).symLink
      ensures CanCreate(fs, tarName) && FoldOptions(InitialSettings, opts).excludeList.None? ==>
                err.None? && settings.excludeList.None?
      ensures CanCreate(fs, tarName) && FoldOptions(InitialSettings, opts).excludeList.Some? ==>
                var list := FoldOptions(InitialSettings, opts).excludeList.value;
                (err.None? <==> AllAbsolute(lib, list)) &&
                (err.None? ==> settings.excludeList.Some? && ResolvedFrom(lib, list, settings.excludeList.value)) &&
                (err.Some? ==> err == Some(NoWorkingDir) && settings.excludeList.None?)
    {
      var archiveSettings := new ArchiveSettings(InitialSettings.excludeList, InitialSettings.fileMode, InitialSettings.symLink);
      var i := 0;
      while i < |opts|
        invariant 0 <= i <= |opts|
        invariant archiveSettings.Value() == FoldOptions(InitialSettings, opts[..i])
        modifies archiveSettings
      {
        archiveSettings.Apply(opts[i]);
        assert opts[..i + 1][..i] == opts[..i];
        i := i + 1;
      }
      assert opts[..i] == opts;
      if !CanCreate(fs, tarName) {
        return Some(CannotCreate(tarName));
      }
      isOpen := true;
      fileName := tarName;
      entries := [];
      closed := false;
      settings := archiveSettings;
      if archiveSettings.excludeList.Some? {
        var resolved := ResolveExcludeList(lib, archiveSettings.excludeList.value);
        if resolved.Err? {
          archiveSettings.excludeList := None;
          return Some(resolved.error);
        }
        archiveSettings.excludeList := Some(resolved.value);
      }
      return None;
    }

    /** Close: errors.Join of closing the tar writer, the gzip writer and the
        file, in that order. A closed tar writer closes again without error, a
        gzip writer reports the error it holds, a closed file always fails. */
    method Close(tarFails: bool, gzipFails: bool, fileFails: bool) returns (err: Option<Error>)
      requires Ready()
      modifies this
      ensures isOpen == old(isOpen) && fileName == old(fileName) && settings == old(settings)
      ensures closed && entries == old(entries)
      ensures err.None? <==> (old(closed) || !tarFails) && !gzipFails && !old(closed) && !fileFails
      ensures err.Some? ==> err.value == CloseFailed(
                (if !old(closed) && tarFails then [TarWriterLayer] else []) +
                (if gzipFails then [GzipWriterLayer] else []) +
                (if old(closed) || fileFails then [FileLayer] else []))
    {
      var failed: seq<Layer> := [];
      if !closed && tarFails {
        failed := failed + [TarWriterLayer];
      }
      if gzipFails {
        failed := failed + [GzipWriterLayer];
      }
      if closed || fileFails {
        failed := failed + [FileLayer];
      }
      closed := true;
      err := if failed == [] then None else Some(CloseFailed(failed));
    }
  }
}
