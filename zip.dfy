/** The zip writer of internal/archive/ziparchiver.go: a small state machine
    whose Archive* methods append entries to an abstract zip stream. */
module ZipWriter {
  import opened Wrappers
  import opened Errors
  import opened Paths
  import opened FileSystem
  import opened Settings
  import opened Resolve
  import opened Walk
  import opened Tree

  /** One file of the zip stream: its name as given to zip.Writer.Create, and
      the bytes written to it. */
  datatype ZipEntry = ZipEntry(name: string, data: seq<byte>)

  /** writeToZip(src, dst): open `src` (following links), create the entry
      `dst`, copy the content. Opening a directory succeeds, so its entry is
      created before the copy fails. Once the writer is closed its central
      directory is written: zip.Writer.Create still succeeds, but nothing
      reaches the archive. */
  function WriteToZipEffect(fs: FS, lib: PathLib, closed: bool, src: string, dst: string): (r: Outcome<ZipEntry>)
    ensures |r.appended| <= 1 && forall e :: e in r.appended ==> e.name == dst
    ensures closed ==> r.appended == []
    ensures Open(fs, lib, src).Err? ==> r == Outcome([], Some(Open(fs, lib, src).error))
    ensures r.err.None? <==> Open(fs, lib, src).Ok? && fs.nodes[Open(fs, lib, src).value].File?
    ensures r.err.None? && !closed ==> r.appended == [ZipEntry(dst, fs.nodes[Open(fs, lib, src).value].data)]
    ensures Open(fs, lib, src).Ok? && fs.nodes[Open(fs, lib, src).value].Dir? ==>
              r.err == Some(IsDirectory(Open(fs, lib, src).value)) &&
              (!closed ==> r.appended == [ZipEntry(dst, [])])
  {
    match Open(fs, lib, src)
    case Err(e) => Outcome([], Some(e))
    case Ok(q) =>
      match fs.nodes[q]
      case File(data, _) => Outcome(if closed then [] else [ZipEntry(dst, data)], None)
      case _ => Outcome(if closed then [] else [ZipEntry(dst, [])], Some(IsDirectory(q)))
  }

  /** ArchiveFile(src, dst) under the settings `s`: an excluded `src` (compared
      before any link is resolved) is skipped without error; with SymLink set
      the path written is evaluateSymLink(src), and its failure is returned. */
  function ArchiveFileEffect(fs: FS, lib: PathLib, s: SettingsValue, closed: bool, src: string, dst: string): (r: Outcome<ZipEntry>)
    ensures |r.appended| <= 1 && forall e :: e in r.appended ==> e.name == dst
    ensures Contains(s.excludeList, src) ==> r == Outcome([], None)
    ensures !Contains(s.excludeList, src) && s.symLink && EvaluateSymLink(fs, lib, src).Err? ==>
              r == Outcome([], Some(EvaluateSymLink(fs, lib, src).error))
    ensures !Contains(s.excludeList, src) && s.symLink && EvaluateSymLink(fs, lib, src).Ok? ==>
              r == WriteToZipEffect(fs, lib, closed, EvaluateSymLink(fs, lib, src).value, dst)
    ensures !Contains(s.excludeList, src) && !s.symLink ==> r == WriteToZipEffect(fs, lib, closed, src, dst)
  {
    if Contains(s.excludeList, src) then Outcome([], None)
    else
      var resolved := if s.symLink then EvaluateSymLink(fs, lib, src) else Ok(src);
      if resolved.Err? then Outcome([], Some(resolved.error))
      else WriteToZipEffect(fs, lib, closed, resolved.value, dst)
  }

  /** What one ArchiveFile call appends, errors discarded. */
  function ZipFileStep(fs: FS, lib: PathLib, s: SettingsValue, closed: bool): Call -> seq<ZipEntry> {
    (c: Call) => ArchiveFileEffect(fs, lib, s, closed, c.src, c.dst).appended
  }

  /** The entries ArchiveDir(src, dst) appends: those of the calls its walk
      makes, or none when the root cannot be resolved or listed. */
  function ZipDirEntries(fs: FS, lib: PathLib, s: SettingsValue, closed: bool, src: string, dst: string): seq<ZipEntry> {
    match WalkDir(fs, lib, s.symLink, src, dst)
    case Ok(calls) => Flatten(calls, ZipFileStep(fs, lib, s, closed))
    case Err(_) => []
  }

  /** The entries one walk entry contributes: a file's ArchiveFile call under
      the rewritten name, or everything the subdirectory's walk appends. */
  lemma EntryZipEntries(fs: FS, lib: PathLib, s: SettingsValue, closed: bool, dir: string, name: Name, dst: string)
    ensures var p := Join(dir, name);
            Flatten(EntryCalls(fs, lib, s.symLink, dir, name, dst), ZipFileStep(fs, lib, s, closed)) ==
            if !IsDirAt(fs, p) then ArchiveFileEffect(fs, lib, s, closed, p, DestName(p, dst)).appended
            else ZipDirEntries(fs, lib, s, closed, p, dst)
  {
    var p := Join(dir, name);
    if !IsDirAt(fs, p) {
      assert [Call(p, DestName(p, dst))][..0] == [];
    }
  }

  /** A regular, readable, non-excluded file is archived as one entry holding
      exactly its bytes under the name `dst`, whether or not links are resolved. */
  lemma ZipRegularFile(fs: FS, lib: PathLib, s: SettingsValue, src: string, dst: string)
    requires src in fs.nodes && fs.nodes[src].File? && src !in fs.faulty
    requires !Contains(s.excludeList, src)
    ensures ArchiveFileEffect(fs, lib, s, false, src, dst) == Outcome([ZipEntry(dst, fs.nodes[src].data)], None)
  {
  }

  /** One call on a regular file appends exactly that file's entry. */
  lemma ZipSingleFile(fs: FS, lib: PathLib, s: SettingsValue, f: string, dst: string)
    requires f in fs.nodes && fs.nodes[f].File? && f !in fs.faulty && !Contains(s.excludeList, f)
    ensures Flatten(CallsFor([f], dst), ZipFileStep(fs, lib, s, false)) == [ZipEntry(DestName(f, dst), fs.nodes[f].data)]
  {
    var calls := CallsFor([f], dst);
    assert calls[..0] == [];
    ZipRegularFile(fs, lib, s, f, DestName(f, dst));
  }

  /** A regular file that cannot be read is not archived: its ArchiveFile
      call fails with the read error, which the walk logs and skips. */
  lemma ZipUnreadableFile(fs: FS, lib: PathLib, s: SettingsValue, f: string, dst: string)
    requires f in fs.nodes && fs.nodes[f].File? && f in fs.faulty && !Contains(s.excludeList, f)
    ensures ArchiveFileEffect(fs, lib, s, false, f, dst) == Outcome([], Some(Permission(f)))
    ensures Flatten(CallsFor([f], dst), ZipFileStep(fs, lib, s, false)) == []
  {
    var calls := CallsFor([f], dst);
    assert calls[..0] == [];
  }

  /** Every path names a regular file, readable or not, that is not excluded. */
  predicate ArchivableFiles(fs: FS, s: SettingsValue, paths: seq<string>) {
    forall f :: f in paths ==> f in fs.nodes && fs.nodes[f].File? && !Contains(s.excludeList, f)
  }

  /** The entries regular files `paths` are expected to give, in order:
      one per file, under the name the destination rewrite gives it. */
  function FileEntries(fs: FS, paths: seq<string>, dst: string): (r: seq<ZipEntry>)
    requires forall i :: 0 <= i < |paths| ==> paths[i] in fs.nodes && fs.nodes[paths[i]].File?
    ensures |r| == |paths|
    ensures forall i :: 0 <= i < |paths| ==> r[i] == ZipEntry(DestName(paths[i], dst), fs.nodes[paths[i]].data)
  {
    if |paths| == 0 then []
    else
      var n := |paths| - 1;
      assert forall i :: 0 <= i < n ==> paths[..n][i] == paths[i];
      FileEntries(fs, paths[..n], dst) + [ZipEntry(DestName(paths[n], dst), fs.nodes[paths[n]].data)]
  }

  /** A sequence of calls on regular files appends exactly the expected
      entries of the readable ones, in order; the unreadable ones add nothing. */
  lemma {:induction false} ZipFilesEntries(fs: FS, lib: PathLib, s: SettingsValue, paths: seq<string>, dst: string)
    requires ArchivableFiles(fs, s, paths)
    ensures Flatten(CallsFor(paths, dst), ZipFileStep(fs, lib, s, false)) == FileEntries(fs, Readable(fs, paths), dst)
    decreases |paths|
  {
    if |paths| > 0 {
      var n := |paths| - 1;
      var prefix := paths[..n];
      var last := paths[n];
      var step := ZipFileStep(fs, lib, s, false);
      assert paths == prefix + [last];
      assert Flatten(CallsFor(paths, dst), step) == Flatten(CallsFor(prefix, dst), step) + Flatten(CallsFor([last], dst), step) by {
        CallsForAppend(prefix, [last], dst);
        FlattenAppend(CallsFor(prefix, dst), CallsFor([last], dst), step);
      }
      assert ArchivableFiles(fs, s, prefix);
      ZipFilesEntries(fs, lib, s, prefix, dst);
      var before := Readable(fs, prefix);
      if last in fs.faulty {
        ZipUnreadableFile(fs, lib, s, last, dst);
        assert Readable(fs, paths) == before;
      } else {
        ZipSingleFile(fs, lib, s, last, dst);
        assert Readable(fs, paths) == before + [last];
        assert (before + [last])[..|before|] == before;
      }
    }
  }

  /** ArchiveDir on a directory tree present in the filesystem, none of whose
      files is excluded, appends one entry per readable regular file of the
      tree: the file's bytes, named by the destination rewrite, in walk order.
      Unreadable files and subdirectories are skipped and do not make it fail. */
  lemma ZipDirTree(fs: FS, lib: PathLib, s: SettingsValue, t: Tree, p: string, dst: string)
    requires t.DirNode? && InFS(fs, t, p)
    requires forall f :: f in TreeFiles(t, p) ==> !Contains(s.excludeList, f)
    ensures var es := ZipDirEntries(fs, lib, s, false, p, dst);
            var files := Readable(fs, TreeFiles(t, p));
            |es| == CountReadable(t) && |es| == |files| &&
            (forall i :: 0 <= i < |files| ==> files[i] in fs.nodes && fs.nodes[files[i]].File? && files[i] !in fs.faulty) &&
            forall i :: 0 <= i < |files| ==> es[i] == ZipEntry(DestName(files[i], dst), fs.nodes[files[i]].data)
    ensures DirError(fs, lib, s.symLink, p, dst).None?
  {
    WalkTree(fs, lib, s.symLink, t, p, dst);
    TreeFilesAreFiles(fs, t, p);
    ReadableFilesCount(fs, t, p);
    assert ArchivableFiles(fs, s, TreeFiles(t, p));
    ZipFilesEntries(fs, lib, s, TreeFiles(t, p), dst);
  }

  /** Best effort: in a directory whose first entry is a subdirectory that
      cannot be read, the file after it is still archived, and ArchiveDir
      returns no error. */
  lemma ZipSkipsUnreadableSubdir(lib: PathLib, s: SettingsValue)
    requires s.excludeList == None
    ensures ZipDirEntries(MixedFS, lib, s, false, "/d", "d") == [ZipEntry("d/b", [5])]
    ensures DirError(MixedFS, lib, s.symLink, "/d", "d").None?
  {
    MixedTreeFiles();
    ZipDirTree(MixedFS, lib, s, MixedTree, "/d", "d");
  }

  /** Exclusion compares the path as given, before any link is resolved: with
      SymLink set, a link to an excluded file is archived with the file's bytes. */
  lemma ExclusionBeforeResolution(lib: PathLib)
    requires lib.clean("/data/secret") == "/data/secret"
    ensures var fs := FS(map["/data/link" := Symlink("/data/secret"), "/data/secret" := File([7], 0x1A4)], {});
            var s := SettingsValue(Some(["/data/secret"]), DefaultArchiveMode, true);
            ArchiveFileEffect(fs, lib, s, false, "/data/secret", "secret") == Outcome([], None) &&
            ArchiveFileEffect(fs, lib, s, false, "/data/link", "link") == Outcome([ZipEntry("link", [7])], None)
  {
    var fs := FS(map["/data/link" := Symlink("/data/secret"), "/data/secret" := File([7], 0x1A4)], {});
    assert "/data/link" !in ["/data/secret"];
    assert EvaluateSymLink(fs, lib, "/data/link") == Ok("/data/secret");
  }

  /** The writer state. The fields zipFile/zipWriter of the Go struct become
      `entries` (the stream written so far) and `closed`; `isOpen` records that
      Open has set them, which every Archive* and Close needs. */
  class ZipArchive {
    var isOpen: bool
    var fileName: string
    var settings: ArchiveSettings?
    var entries: seq<ZipEntry>
    var closed: bool

    predicate Ready()
      reads this
    {
      isOpen && settings != null
    }

    /** The zero value `&ZipArchive{}`. */
    constructor ()
      ensures !isOpen && fileName == "" && settings == null && entries == [] && !closed
    {
      isOpen := false;
      fileName := "";
      settings := null;
      entries := [];
      closed := false;
    }

    method WriteToZip(fs: FS, lib: PathLib, src: string, dst: string) returns (err: Option<Error>)
      requires Ready()
      modifies this
      ensures isOpen == old(isOpen) && fileName == old(fileName) && settings == old(settings) && closed == old(closed)
      ensures entries == old(entries) + WriteToZipEffect(fs, lib, closed, src, dst).appended
      ensures err == WriteToZipEffect(fs, lib, closed, src, dst).err
    {
      var r := WriteToZipEffect(fs, lib, closed, src, dst);
      entries := entries + r.appended;
      err := r.err;
    }

    method ArchiveFile(fs: FS, lib: PathLib, src: string, dst: string) returns (err: Option<Error>)
      requires Ready()
      modifies this
      ensures isOpen == old(isOpen) && fileName == old(fileName) && settings == old(settings) && closed == old(closed)
      ensures entries == old(entries) + ArchiveFileEffect(fs, lib, settings.Value(), closed, src, dst).appended
      ensures err == ArchiveFileEffect(fs, lib, settings.Value(), closed, src, dst).err
    {
      if Contains(settings.excludeList, src) {
        return None;
      }
      var path := src;
      if settings.symLink {
        var resolved := EvaluateSymLink(fs, lib, src);
        if resolved.Err? {
          return Some(resolved.error);
        }
        path := resolved.value;
      }
      err := WriteToZip(fs, lib, path, dst);
    }

    method ArchiveDir(fs: FS, lib: PathLib, src: string, dst: string) returns (err: Option<Error>)
      requires Ready()
      modifies this
      ensures isOpen == old(isOpen) && fileName == old(fileName) && settings == old(settings) && closed == old(closed)
      ensures entries == old(entries) + ZipDirEntries(fs, lib, settings.Value(), closed, src, dst)
      ensures err == DirError(fs, lib, settings.symLink, src, dst)
      decreases Rank(fs, src), 1
    {
      var root := src;
      if settings.symLink {
        var resolved := EvaluateSymLink(fs, lib, src);
        if resolved.Err? {
          return Some(resolved.error);
        }
        root := resolved.value;
      }
      var listing := ReadDir(fs, lib, root);
      if listing.Err? {
        return Some(listing.error);
      }
      var names := listing.value;
      assert Rank(fs, root) <= Rank(fs, src);
      var s := settings.Value();
      ghost var step := ZipFileStep(fs, lib, s, closed);
      var i := 0;
      while i < |names|
        invariant 0 <= i <= |names|
        invariant isOpen == old(isOpen) && fileName == old(fileName) && settings == old(settings) && closed == old(closed)
        invariant settings.Value() == s && step == ZipFileStep(fs, lib, s, closed)
        invariant entries == old(entries) + Flatten(WalkEntries(fs, lib, s.symLink, root, names[..i], dst), step)
      {
        ghost var done := Flatten(WalkEntries(fs, lib, s.symLink, root, names[..i], dst), step);
        ghost var before := entries;
        ArchiveEntry(fs, lib, root, names[i], dst);
        assert settings.symLink == s.symLink;
        ghost var added := Flatten(EntryCalls(fs, lib, s.symLink, root, names[i], dst), step);
        assert entries == before + added;
        FlattenWalkStep(fs, lib, s.symLink, root, names, i, dst, step);
        AppendAssoc(old(entries), done, added);
        ghost var next := Flatten(WalkEntries(fs, lib, s.symLink, root, names[..i + 1], dst), step);
        assert entries == old(entries) + next;
        i := i + 1;
        assert next == Flatten(WalkEntries(fs, lib, s.symLink, root, names[..i], dst), step);
      }
      assert names[..i] == names;
      return None;
    }

    /** One iteration of ArchiveDir's loop over the entries of `dir`: a
        non-directory goes to ArchiveFile under the rewritten name, a
        subdirectory to ArchiveDir with the same `dst`; errors are only logged. */
    method ArchiveEntry(fs: FS, lib: PathLib, dir: string, name: Name, dst: string)
      requires Ready()
      modifies this
      ensures isOpen == old(isOpen) && fileName == old(fileName) && settings == old(settings) && closed == old(closed)
      ensures entries == old(entries) +
                Flatten(EntryCalls(fs, lib, settings.symLink, dir, name, dst), ZipFileStep(fs, lib, settings.Value(), closed))
      decreases Rank(fs, dir), 0
    {
      var tmpPath := Join(dir, name);
      EntryZipEntries(fs, lib, settings.Value(), closed, dir, name, dst);
      if !IsDirAt(fs, tmpPath) {
        var relPathIndex := Index(tmpPath, dst);
        var fPath := tmpPath;
        if relPathIndex != -1 {
          fPath := tmpPath[relPathIndex..];
        }
        assert fPath == DestName(tmpPath, dst);
        var _ := ArchiveFile(fs, lib, tmpPath, fPath);
      } else {
        ChildRanksLower(fs, dir, name);
        var _ := ArchiveDir(fs, lib, tmpPath, dst);
      }
    }

    /** ArchiveContent(src, dst): one entry `dst` holding exactly `src`; no
        filesystem access. */
    method ArchiveContent(src: seq<byte>, dst: string) returns (err: Option<Error>)
      requires Ready()
      modifies this
      ensures isOpen == old(isOpen) && fileName == old(fileName) && settings == old(settings) && closed == old(closed)
      ensures err.None?
      ensures entries == old(entries) + (if closed then [] else [ZipEntry(dst, src)])
    {
      if !closed {
        entries := entries + [ZipEntry(dst, src)];
      }
      return None;
    }

    /** Open(zipName, archiveSettings): create or truncate the output, keep a
        reference to the caller's settings and absolutise its exclude list in
        place. A failed absolutisation leaves the list as it was. */
    method Open(fs: FS, lib: PathLib, zipName: string, archiveSettings: ArchiveSettings) returns (err: Option<Error>)
      modifies this, archiveSettings
      ensures !CanCreate(fs, zipName) ==>
                err == Some(CannotCreate(zipName)) && unchanged(this) && unchanged(archiveSettings)
      ensures CanCreate(fs, zipName) ==>
                isOpen && fileName == zipName && settings == archiveSettings && entries == [] && !closed &&
                archiveSettings.fileMode == old(archiveSettings.fileMode) &&
                archiveSettings.symLink == old(archiveSettings.symLink)
      ensures CanCreate(fs, zipName) && old(archiveSettings.excludeList).None? ==>
                err.None? && archiveSettings.excludeList.None?
      ensures CanCreate(fs, zipName) && old(archiveSettings.excludeList).Some? ==>
                (err.None? <==> AllAbsolute(lib, old(archiveSettings.excludeList).value)) &&
                (err.None? ==> archiveSettings.excludeList.Some? &&
                               ResolvedFrom(lib, old(archiveSettings.excludeList).value, archiveSettings.excludeList.value)) &&
                (err.Some? ==> err == Some(NoWorkingDir) && archiveSettings.excludeList == old(archiveSettings.excludeList))
    {
      if !CanCreate(fs, zipName) {
        return Some(CannotCreate(zipName));
      }
      isOpen := true;
      fileName := zipName;
      entries := [];
      closed := false;
      settings := archiveSettings;
      if archiveSettings.excludeList.Some? {
        var resolved := ResolveExcludeList(lib, archiveSettings.excludeList.value);
        if resolved.Err? {
          return Some(resolved.error);
        }
        archiveSettings.excludeList := Some(resolved.value);
      }
      return None;
    }

    /** Close: errors.Join of closing the zip writer, then the file. Each layer
        fails when its flag says so or when it was already closed. */
    method Close(writerFails: bool, fileFails: bool) returns (err: Option<Error>)
      requires Ready()
      modifies this
      ensures err.None? <==> !old(closed) && !writerFails && !fileFails
      ensures err.Some? ==> err.value == CloseFailed(
                (if old(closed) || writerFails then [ZipWriterLayer] else []) +
                (if old(closed) || fileFails then [FileLayer] else []))
      ensures closed && entries == old(entries)
      ensures isOpen == old(isOpen) && fileName == old(fileName) && settings == old(settings)
    {
      var failed: seq<Layer> := [];
      if closed || writerFails {
        failed := failed + [ZipWriterLayer];
      }
      if closed || fileFails {
        failed := failed + [FileLayer];
      }
      closed := true;
      err := if failed == [] then None else Some(CloseFailed(failed));
    }
  }
}
