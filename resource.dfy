/** The archive resource's use of the writers (internal/archive/resource.go):
    destination sanitisation, the append loops that drive a writer and skip
    failing items, and the Create sequence up to closing the archive. */
module Resource {
  import opened Wrappers
  import opened Errors
  import opened Paths
  import opened FileSystem
  import opened Settings
  import opened Resolve
  import opened Walk
  import opened Base64
  import opened ModeParse
  import opened Registry
  import ZipWriter
  import TarWriter

  predicate StartsWithParent(p: string) {
    |p| >= 3 && p[..3] == "../"
  }

  /** The loop that trims leading "../" from a cleaned path, one at a time. */
  function StripParentDirs(p: string): (r: string)
    ensures !StartsWithParent(r)
    ensures |r| <= |p|
    decreases |p|
  {
    if StartsWithParent(p) then StripParentDirs(p[3..]) else p
  }

  /** `s` is a run of "../" segments. */
  predicate ParentRun(s: string)
    decreases |s|
  {
    |s| == 0 || (StartsWithParent(s) && ParentRun(s[3..]))
  }

  /** The stripped path is what remains of `p` after a run of "../": nothing
      else is removed. */
  lemma {:induction false} StripRemovesParentRun(p: string)
    ensures var r := StripParentDirs(p);
            r == p[|p| - |r|..] && ParentRun(p[..|p| - |r|])
    decreases |p|
  {
    var r := StripParentDirs(p);
    if StartsWithParent(p) {
      StripRemovesParentRun(p[3..]);
      var k := |p| - |r|;
      assert p[..k][..3] == "../";
      assert p[..k][3..] == p[3..][..|p[3..]| - |r|];
      assert p[3..][|p[3..]| - |r|..] == p[k..];
    } else {
      assert p[..|p| - |r|] == [];
    }
  }

  /** Stripping twice strips nothing more. */
  lemma StripIdempotent(p: string)
    ensures StripParentDirs(StripParentDirs(p)) == StripParentDirs(p)
  {
  }

  /** A bare ".." has no trailing slash and stays; so does the ".." left after
      stripping "../..". */
  lemma BareParentKept()
    ensures StripParentDirs("..") == ".."
    ensures StripParentDirs("../..") == ".."
    ensures StripParentDirs("../../a/b") == "a/b"
  {
    var up2 := "../..";
    assert StartsWithParent(up2) && up2[3..] == "..";
    var deep := "../../a/b";
    assert StartsWithParent(deep) && deep[3..] == "../a/b";
    var deep1 := "../a/b";
    assert StartsWithParent(deep1) && deep1[3..] == "a/b";
    var leaf := "a/b";
    assert leaf[..3][0] == 'a';
  }

  /** What cleanPath returns: the absolute source and the archive-relative name. */
  datatype Cleaned = Cleaned(abs: string, rel: string)

  /** cleanPath(path): Abs(path), and Clean(path) without its leading "../"
      segments. It fails only when Abs fails. */
  function CleanPath(lib: PathLib, path: string): (r: Result<Cleaned, Error>)
    ensures r.Err? <==> Abs(lib, path).Err?
    ensures r.Err? ==> r.error == Abs(lib, path).error
    ensures r.Ok? ==> r.value.abs == Abs(lib, path).value
    ensures r.Ok? ==> r.value.rel == StripParentDirs(lib.clean(path)) && !StartsWithParent(r.value.rel)
  {
    var absPath :- Abs(lib, path);
    Ok(Cleaned(absPath, StripParentDirs(lib.clean(path))))
  }

  /** The archive-relative name is the cleaned path minus a leading run of
      "../" segments, and never itself starts with "../". */
  lemma CleanPathRelative(lib: PathLib, path: string)
    requires CleanPath(lib, path).Ok?
    ensures var rel := CleanPath(lib, path).value.rel;
            var cleaned := lib.clean(path);
            !StartsWithParent(rel) && |rel| <= |cleaned| &&
            cleaned == cleaned[..|cleaned| - |rel|] + rel && ParentRun(cleaned[..|cleaned| - |rel|])
  {
    var cleaned := lib.clean(path);
    StripRemovesParentRun(cleaned);
    var rel := StripParentDirs(cleaned);
    assert cleaned == cleaned[..|cleaned| - |rel|] + cleaned[|cleaned| - |rel|..];
  }

  /** The call one item of a file or dir block leads to: none when its path
      cannot be absolutised. */
  function ItemCall(lib: PathLib, path: string): (r: seq<Call>)
    ensures |r| <= 1
  {
    match CleanPath(lib, path)
    case Ok(c) => [Call(c.abs, c.rel)]
    case Err(_) => []
  }

  /** The calls appendFiles and appendDirs make, in item order. */
  function ItemCalls(lib: PathLib, paths: seq<string>): (r: seq<Call>)
    ensures |r| <= |paths|
    decreases |paths|
  {
    if |paths| == 0 then [] else ItemCalls(lib, paths[..|paths| - 1]) + ItemCall(lib, paths[|paths| - 1])
  }

  /** With a known working directory (or absolute paths only) no item is
      skipped: the i-th call is made for the i-th item. */
  lemma {:induction false} NoItemSkipped(lib: PathLib, paths: seq<string>)
    requires forall i :: 0 <= i < |paths| ==> Abs(lib, paths[i]).Ok?
    ensures |ItemCalls(lib, paths)| == |paths|
    ensures forall i :: 0 <= i < |paths| ==>
              ItemCalls(lib, paths)[i] == Call(Abs(lib, paths[i]).value, StripParentDirs(lib.clean(paths[i])))
    decreases |paths|
  {
    if |paths| > 0 {
      var n := |paths| - 1;
      NoItemSkipped(lib, paths[..n]);
      var calls := ItemCalls(lib, paths);
      forall i | 0 <= i < |paths|
        ensures calls[i] == Call(Abs(lib, paths[i]).value, StripParentDirs(lib.clean(paths[i])))
      {
        if i < n {
          assert paths[..n][i] == paths[i];
        }
      }
    }
  }

  lemma FlattenItemStep<T>(lib: PathLib, paths: seq<string>, i: nat, effect: Call -> seq<T>)
    requires i < |paths|
    ensures Flatten(ItemCalls(lib, paths[..i + 1]), effect) ==
            Flatten(ItemCalls(lib, paths[..i]), effect) + Flatten(ItemCall(lib, paths[i]), effect)
  {
    assert paths[..i + 1][..i] == paths[..i];
    FlattenAppend(ItemCalls(lib, paths[..i]), ItemCall(lib, paths[i]), effect);
  }

  lemma FlattenOne<T>(c: Call, effect: Call -> seq<T>)
    ensures Flatten([c], effect) == effect(c)
  {
    assert [c][..0] == [];
  }

  /** What ArchiveDir appends for one dir-block call. */
  function ZipDirStep(fs: FS, lib: PathLib, s: SettingsValue, closed: bool): Call -> seq<ZipWriter.ZipEntry> {
    (c: Call) => ZipWriter.ZipDirEntries(fs, lib, s, closed, c.src, c.dst)
  }

  function TarDirStep(fs: FS, lib: PathLib, s: SettingsValue, closed: bool): Call -> seq<TarWriter.TarEntry> {
    (c: Call) => TarWriter.TarDirEntries(fs, lib, s, closed, c.src, c.dst)
  }

  /** A content block: base64 `src` and the archive path `file_path`. */
  datatype Content = Content(src: string, filePath: string)

  /** The bytes ArchiveContent receives: whatever DecodeString returned,
      error or not. */
  function ContentBytes(c: Content): seq<byte> {
    DecodeString(c.src).bytes
  }

  /** The destination: Clean(file_path) without leading "../" segments. */
  function ContentDst(lib: PathLib, c: Content): string {
    StripParentDirs(lib.clean(c.filePath))
  }

  /** The zip entries appendContents adds: one per block, or none on a closed writer. */
  function ZipContents(lib: PathLib, contents: seq<Content>, closed: bool): (r: seq<ZipWriter.ZipEntry>)
    decreases |contents|
  {
    if |contents| == 0 || closed then []
    else
      var c := contents[|contents| - 1];
      ZipContents(lib, contents[..|contents| - 1], closed) + [ZipWriter.ZipEntry(ContentDst(lib, c), ContentBytes(c))]
  }

  /** The tar entries appendContents adds: one regular file of mode 770 per block. */
  function TarContents(lib: PathLib, contents: seq<Content>, closed: bool): (r: seq<TarWriter.TarEntry>)
    decreases |contents|
  {
    if |contents| == 0 || closed then []
    else
      var c := contents[|contents| - 1];
      var b := ContentBytes(c);
      TarContents(lib, contents[..|contents| - 1], closed) +
      [TarWriter.TarEntry(TarWriter.TarHeader(ContentDst(lib, c), |b|, TarWriter.ContentMode, TarWriter.TypeReg), b)]
  }

  /** An open zip writer appends one entry per content block, in order,
      named by the sanitised path and holding the decoded bytes. */
  lemma {:induction false} ZipContentsEntries(lib: PathLib, contents: seq<Content>)
    ensures var es := ZipContents(lib, contents, false);
            |es| == |contents| &&
            forall i :: 0 <= i < |contents| ==> es[i] == ZipWriter.ZipEntry(ContentDst(lib, contents[i]), ContentBytes(contents[i]))
    decreases |contents|
  {
    if |contents| > 0 {
      var n := |contents| - 1;
      ZipContentsEntries(lib, contents[..n]);
      var es := ZipContents(lib, contents, false);
      forall i | 0 <= i < |contents|
        ensures es[i] == ZipWriter.ZipEntry(ContentDst(lib, contents[i]), ContentBytes(contents[i]))
      {
        if i < n {
          assert contents[..n][i] == contents[i];
        }
      }
    }
  }

  /** An open tar writer appends one regular-file entry of mode 770 per
      content block, in order, sized by the decoded bytes it holds. */
  lemma {:induction false} TarContentsEntries(lib: PathLib, contents: seq<Content>)
    ensures var es := TarContents(lib, contents, false);
            |es| == |contents| &&
            forall i :: 0 <= i < |contents| ==>
              es[i].data == ContentBytes(contents[i]) &&
              es[i].header == TarWriter.TarHeader(ContentDst(lib, contents[i]), |ContentBytes(contents[i])|, 770, TarWriter.TypeReg)
    decreases |contents|
  {
    if |contents| > 0 {
      var n := |contents| - 1;
      TarContentsEntries(lib, contents[..n]);
      var es := TarContents(lib, contents, false);
      forall i | 0 <= i < |contents|
        ensures es[i].data == ContentBytes(contents[i])
        ensures es[i].header == TarWriter.TarHeader(ContentDst(lib, contents[i]), |ContentBytes(contents[i])|, 770, TarWriter.TypeReg)
      {
        if i < n {
          assert contents[..n][i] == contents[i];
        }
      }
    }
  }

  /** A content block holding the encoding of `b` puts exactly `b` in the archive. */
  lemma EncodedContent(b: seq<byte>, filePath: string)
    ensures ContentBytes(Content(Encode(b), filePath)) == b
  {
    DecodeEncode(b);
  }

  /** A decoding error does not stop the block: the bytes decoded before the
      fault are still archived. */
  lemma MalformedContentKeepsPrefix(b: seq<byte>, filePath: string)
    ensures ContentBytes(Content(Encode(b) + "!", filePath)) == b
  {
    PartialOutputOnError(b, '!', []);
    assert Encode(b) + (['!'] + []) == Encode(b) + "!";
  }

  /** Everything but the entries of a zip writer is as it was. */
  twostate predicate ZipKept(z: ZipWriter.ZipArchive)
    reads z
  {
    z.isOpen == old(z.isOpen) && z.fileName == old(z.fileName) && z.settings == old(z.settings) &&
    z.closed == old(z.closed)
  }

  /** Everything but the entries of a tar writer is as it was. */
  twostate predicate TarKept(t: TarWriter.TarArchiver)
    reads t
  {
    t.isOpen == old(t.isOpen) && t.fileName == old(t.fileName) && t.settings == old(t.settings) &&
    t.closed == old(t.closed)
  }

  /** One iteration of appendFiles: the block is skipped when its path cannot
      be made absolute, otherwise ArchiveFile(absPath, relPath) runs and its
      error is dropped. */
  method AppendFile(w: Writer, fs: FS, lib: PathLib, path: string)
    requires w.Ready()
    modifies w.Obj()
    ensures w.ZipW? ==> (ZipKept(w.zip) &&
              w.zip.entries == old(w.zip.entries) +
                Flatten(ItemCall(lib, path), ZipWriter.ZipFileStep(fs, lib, w.zip.settings.Value(), w.zip.closed)))
    ensures w.TarW? ==> (TarKept(w.tar) &&
              w.tar.entries == old(w.tar.entries) +
                Flatten(ItemCall(lib, path), TarWriter.TarFileStep(fs, lib, w.tar.settings.Value(), w.tar.closed)))
  {
    var item := CleanPath(lib, path);
    if item.Ok? {
      var call := Call(item.value.abs, item.value.rel);
      if w.ZipW? {
        FlattenOne(call, ZipWriter.ZipFileStep(fs, lib, w.zip.settings.Value(), w.zip.closed));
        var _ := w.zip.ArchiveFile(fs, lib, item.value.abs, item.value.rel);
      } else {
        FlattenOne(call, TarWriter.TarFileStep(fs, lib, w.tar.settings.Value(), w.tar.closed));
        var _ := w.tar.ArchiveFile(fs, lib, item.value.abs, item.value.rel);
      }
    }
  }

  /** One iteration of appendDirs: the block is skipped when its path cannot
      be made absolute, otherwise ArchiveDir(absPath, relPath) runs and its
      error is dropped. */
  method AppendDir(w: Writer, fs: FS, lib: PathLib, path: string)
    requires w.Ready()
    modifies w.Obj()
    ensures w.ZipW? ==> (ZipKept(w.zip) &&
              w.zip.entries == old(w.zip.entries) +
                Flatten(ItemCall(lib, path), ZipDirStep(fs, lib, w.zip.settings.Value(), w.zip.closed)))
    ensures w.TarW? ==> (TarKept(w.tar) &&
              w.tar.entries == old(w.tar.entries) +
                Flatten(ItemCall(lib, path), TarDirStep(fs, lib, w.tar.settings.Value(), w.tar.closed)))
  {
    var item := CleanPath(lib, path);
    if item.Ok? {
      var call := Call(item.value.abs, item.value.rel);
      if w.ZipW? {
        FlattenOne(call, ZipDirStep(fs, lib, w.zip.settings.Value(), w.zip.closed));
        var _ := w.zip.ArchiveDir(fs, lib, item.value.abs, item.value.rel);
      } else {
        FlattenOne(call, TarDirStep(fs, lib, w.tar.settings.Value(), w.tar.closed));
        var _ := w.tar.ArchiveDir(fs, lib, item.value.abs, item.value.rel);
      }
    }
  }

  /** appendFiles on a zip writer: every file block in order, skipped when
      its path cannot be made absolute, otherwise ArchiveFile(absPath,
      relPath) with its error dropped; the loop never stops early. */
  method AppendFilesZip(w: ZipWriter.ZipArchive, fs: FS, lib: PathLib, paths: seq<string>)
    requires w.Ready()
    modifies w
    ensures ZipKept(w)
    ensures w.entries == old(w.entries) + Flatten(ItemCalls(lib, paths), ZipWriter.ZipFileStep(fs, lib, w.settings.Value(), w.closed))
  {
    ghost var step := ZipWriter.ZipFileStep(fs, lib, w.settings.Value(), w.closed);
    var i := 0;
    while i < |paths|
      invariant 0 <= i <= |paths|
      invariant w.Ready()
      invariant ZipKept(w) && step == ZipWriter.ZipFileStep(fs, lib, w.settings.Value(), w.closed)
      invariant w.entries == old(w.entries) + Flatten(ItemCalls(lib, paths[..i]), step)
    {
      FlattenItemStep(lib, paths, i, step);
      AppendFile(ZipW(w), fs, lib, paths[i]);
      AppendAssoc(old(w.entries), Flatten(ItemCalls(lib, paths[..i]), step), Flatten(ItemCall(lib, paths[i]), step));
      i := i + 1;
    }
    assert paths[..i] == paths;
  }

  /** appendFiles on a tar writer, as for zip. */
  method AppendFilesTar(w: TarWriter.TarArchiver, fs: FS, lib: PathLib, paths: seq<string>)
    requires w.Ready()
    modifies w
    ensures TarKept(w)
    ensures w.entries == old(w.entries) + Flatten(ItemCalls(lib, paths), TarWriter.TarFileStep(fs, lib, w.settings.Value(), w.closed))
  {
    ghost var step := TarWriter.TarFileStep(fs, lib, w.settings.Value(), w.closed);
    var i := 0;
    while i < |paths|
      invariant 0 <= i <= |paths|
      invariant w.Ready()
      invariant TarKept(w) && step == TarWriter.TarFileStep(fs, lib, w.settings.Value(), w.closed)
      invariant w.entries == old(w.entries) + Flatten(ItemCalls(lib, paths[..i]), step)
    {
      FlattenItemStep(lib, paths, i, step);
      AppendFile(TarW(w), fs, lib, paths[i]);
      AppendAssoc(old(w.entries), Flatten(ItemCalls(lib, paths[..i]), step), Flatten(ItemCall(lib, paths[i]), step));
      i := i + 1;
    }
    assert paths[..i] == paths;
  }

  /** appendDirs on a zip writer: every dir block in order, skipped when its
      path cannot be made absolute, otherwise ArchiveDir(absPath, relPath)
      with its error dropped. */
  method AppendDirsZip(w: ZipWriter.ZipArchive, fs: FS, lib: PathLib, paths: seq<string>)
    requires w.Ready()
    modifies w
    ensures ZipKept(w)
    ensures w.entries == old(w.entries) + Flatten(ItemCalls(lib, paths), ZipDirStep(fs, lib, w.settings.Value(), w.closed))
  {
    ghost var step := ZipDirStep(fs, lib, w.settings.Value(), w.closed);
    var i := 0;
    while i < |paths|
      invariant 0 <= i <= |paths|
      invariant w.Ready()
      invariant ZipKept(w) && step == ZipDirStep(fs, lib, w.settings.Value(), w.closed)
      invariant w.entries == old(w.entries) + Flatten(ItemCalls(lib, paths[..i]), step)
    {
      FlattenItemStep(lib, paths, i, step);
      AppendDir(ZipW(w), fs, lib, paths[i]);
      AppendAssoc(old(w.entries), Flatten(ItemCalls(lib, paths[..i]), step), Flatten(ItemCall(lib, paths[i]), step));
      i := i + 1;
    }
    assert paths[..i] == paths;
  }

  /** appendDirs on a tar writer, as for zip. */
  method AppendDirsTar(w: TarWriter.TarArchiver, fs: FS, lib: PathLib, paths: seq<string>)
    requires w.Ready()
    modifies w
    ensures TarKept(w)
    ensures w.entries == old(w.entries) + Flatten(ItemCalls(lib, paths), TarDirStep(fs, lib, w.settings.Value(), w.closed))
  {
    ghost var step := TarDirStep(fs, lib, w.settings.Value(), w.closed);
    var i := 0;
    while i < |paths|
      invariant 0 <= i <= |paths|
      invariant w.Ready()
      invariant TarKept(w) && step == TarDirStep(fs, lib, w.settings.Value(), w.closed)
      invariant w.entries == old(w.entries) + Flatten(ItemCalls(lib, paths[..i]), step)
    {
      FlattenItemStep(lib, paths, i, step);
      AppendDir(TarW(w), fs, lib, paths[i]);
      AppendAssoc(old(w.entries), Flatten(ItemCalls(lib, paths[..i]), step), Flatten(ItemCall(lib, paths[i]), step));
      i := i + 1;
    }
    assert paths[..i] == paths;
  }

  /** appendFiles, through whichever archiver the resource's type selected. */
  method AppendFiles(w: Writer, fs: FS, lib: PathLib, files: seq<string>)
    requires w.Ready()
    modifies w.Obj()
    ensures w.ZipW? ==> (ZipKept(w.zip) &&
              w.zip.entries == old(w.zip.entries) +
                Flatten(ItemCalls(lib, files), ZipWriter.ZipFileStep(fs, lib, w.zip.settings.Value(), w.zip.closed)))
    ensures w.TarW? ==> (TarKept(w.tar) &&
              w.tar.entries == old(w.tar.entries) +
                Flatten(ItemCalls(lib, files), TarWriter.TarFileStep(fs, lib, w.tar.settings.Value(), w.tar.closed)))
  {
    if w.ZipW? {
      AppendFilesZip(w.zip, fs, lib, files);
    } else {
      AppendFilesTar(w.tar, fs, lib, files);
    }
  }

  /** appendDirs, through whichever archiver the resource's type selected. */
  method AppendDirs(w: Writer, fs: FS, lib: PathLib, dirs: seq<string>)
    requires w.Ready()
    modifies w.Obj()
    ensures w.ZipW? ==> (ZipKept(w.zip) &&
              w.zip.entries == old(w.zip.entries) +
                Flatten(ItemCalls(lib, dirs), ZipDirStep(fs, lib, w.zip.settings.Value(), w.zip.closed)))
    ensures w.TarW? ==> (TarKept(w.tar) &&
              w.tar.entries == old(w.tar.entries) +
                Flatten(ItemCalls(lib, dirs), TarDirStep(fs, lib, w.tar.settings.Value(), w.tar.closed)))
  {
    if w.ZipW? {
      AppendDirsZip(w.zip, fs, lib, dirs);
    } else {
      AppendDirsTar(w.tar, fs, lib, dirs);
    }
  }

  /** appendContents: for each content block in order, the decoded bytes
      (even when decoding reported an error) go to ArchiveContent under the
      sanitised path. */
  method AppendContents(w: Writer, lib: PathLib, contents: seq<Content>)
    requires w.Ready()
    modifies w.Obj()
    ensures w.ZipW? ==> (ZipKept(w.zip) && w.zip.entries == old(w.zip.entries) + ZipContents(lib, contents, w.zip.closed))
    ensures w.TarW? ==> (TarKept(w.tar) && w.tar.entries == old(w.tar.entries) + TarContents(lib, contents, w.tar.closed))
  {
    var i := 0;
    while i < |contents|
      invariant 0 <= i <= |contents|
      invariant w.ZipW? ==> (ZipKept(w.zip) && w.zip.entries == old(w.zip.entries) + ZipContents(lib, contents[..i], w.zip.closed))
      invariant w.TarW? ==> (TarKept(w.tar) && w.tar.entries == old(w.tar.entries) + TarContents(lib, contents[..i], w.tar.closed))
    {
      var decoded := DecodeString(contents[i].src);
      var relPath := StripParentDirs(lib.clean(contents[i].filePath));
      assert contents[..i + 1][..i] == contents[..i];
      if w.ZipW? {
        var _ := w.zip.ArchiveContent(decoded.bytes, relPath);
      } else {
        var _ := w.tar.ArchiveContent(decoded.bytes, relPath);
      }
      i := i + 1;
    }
    assert contents[..i] == contents;
  }

  /** The fields of the resource's plan that Create reads. A null out_mode
      or resolve_symlink is None; a null exclude list reads as empty. */
  datatype Plan = Plan(
    archType: string,
    name: string,
    outMode: Option<string>,
    resolveSymLink: Option<bool>,
    excludeList: seq<string>,
    files: seq<string>,
    dirs: seq<string>,
    contents: seq<Content>)

  /** The diagnostics Create adds; only ModeWarning is a warning. */
  datatype Diagnostic =
    | UnsupportedType(archType: string)
    | ModeWarning(outMode: string)
    | PathUnresolved(name: string)
    | OpenFailed(name: string, cause: Error)
    | CloseError(name: string, cause: Error)

  /** Which layers fail when the writer is closed; the file system decides
      this, so it is an input here. The gzip flag is ignored for zip. */
  datatype CloseFaults = CloseFaults(writer: bool, gzip: bool, file: bool)

  /** The warning a malformed out_mode raises, if any. */
  function ModeDiags(outMode: Option<string>): (r: seq<Diagnostic>)
    ensures r == [] || (outMode.Some? && r == [ModeWarning(outMode.value)])
    ensures r != [] <==> outMode.Some? && ParseInt(outMode.value).err.Some?
  {
    if ModeForCreate(outMode).warning then [ModeWarning(outMode.value)] else []
  }

  /** The options Create passes to Open, in order. */
  function CreateOptions(plan: Plan): seq<Options> {
    [WithFileMode(ModeForCreate(plan.outMode).mode),
     WithSymLink(plan.resolveSymLink.Some? && plan.resolveSymLink.value),
     WithExcludeList(Some(plan.excludeList))]
  }

  /** The settings those options produce, whatever the writer held before:
      each option sets its own field and all three are given. */
  lemma CreateOptionsSettings(plan: Plan, s: SettingsValue)
    ensures FoldOptions(s, CreateOptions(plan)) ==
            SettingsValue(Some(plan.excludeList), ModeForCreate(plan.outMode).mode,
                          plan.resolveSymLink.Some? && plan.resolveSymLink.value)
  {
    var opts := CreateOptions(plan);
    assert opts[..1][..0] == [];
    assert opts[..2][..1] == opts[..1];
    assert opts[..3][..2] == opts[..2];
    assert FoldOptions(s, opts[..1]) == ApplyOption(s, opts[0]);
    assert FoldOptions(s, opts[..2]) == ApplyOption(FoldOptions(s, opts[..1]), opts[1]);
    assert opts[..3] == opts;
  }

  /** The zip entries a Create writes after Open: the file blocks, the dir
      blocks, then the content blocks. */
  function ZipBody(fs: FS, lib: PathLib, s: SettingsValue, plan: Plan): seq<ZipWriter.ZipEntry> {
    Flatten(ItemCalls(lib, plan.files), ZipWriter.ZipFileStep(fs, lib, s, false)) +
    Flatten(ItemCalls(lib, plan.dirs), ZipDirStep(fs, lib, s, false)) +
    ZipContents(lib, plan.contents, false)
  }

  /** The tar entries a Create writes after Open, in the same order. */
  function TarBody(fs: FS, lib: PathLib, s: SettingsValue, plan: Plan): seq<TarWriter.TarEntry> {
    Flatten(ItemCalls(lib, plan.files), TarWriter.TarFileStep(fs, lib, s, false)) +
    Flatten(ItemCalls(lib, plan.dirs), TarDirStep(fs, lib, s, false)) +
    TarContents(lib, plan.contents, false)
  }

  /** The error Close reports on a zip writer that was open and not closed. */
  function ZipCloseDiags(name: string, f: CloseFaults): seq<Diagnostic> {
    if f.writer || f.file then
      [CloseError(name, CloseFailed((if f.writer then [ZipWriterLayer] else []) + (if f.file then [FileLayer] else [])))]
    else []
  }

  /** The error Close reports on a tar writer that was open and not closed. */
  function TarCloseDiags(name: string, f: CloseFaults): seq<Diagnostic> {
    if f.writer || f.gzip || f.file then
      [CloseError(name, CloseFailed((if f.writer then [TarWriterLayer] else []) +
                                    (if f.gzip then [GzipWriterLayer] else []) +
                                    (if f.file then [FileLayer] else [])))]
    else []
  }

  /** The part of Create after a successful Open of the zip writer: the
      file, dir and content blocks in that order, then Close. */
  method FillZip(z: ZipWriter.ZipArchive, fs: FS, lib: PathLib, plan: Plan, faults: CloseFaults) returns (errs: seq<Diagnostic>)
    requires z.Ready() && z.entries == [] && !z.closed
    modifies z
    ensures z.isOpen && z.closed && z.fileName == old(z.fileName) && z.settings == old(z.settings)
    ensures z.entries == ZipBody(fs, lib, z.settings.Value(), plan)
    ensures errs == ZipCloseDiags(plan.name, faults)
  {
    ghost var s := z.settings.Value();
    ghost var files := Flatten(ItemCalls(lib, plan.files), ZipWriter.ZipFileStep(fs, lib, s, false));
    ghost var dirs := Flatten(ItemCalls(lib, plan.dirs), ZipDirStep(fs, lib, s, false));
    var w := ZipW(z);
    AppendFiles(w, fs, lib, plan.files);
    assert z.entries == files;
    AppendDirs(w, fs, lib, plan.dirs);
    assert z.entries == files + dirs;
    AppendContents(w, lib, plan.contents);
    assert z.entries == files + dirs + ZipContents(lib, plan.contents, false);
    var closeErr := z.Close(faults.writer, faults.file);
    errs := if closeErr.Some? then [CloseError(plan.name, closeErr.value)] else [];
  }

  /** The rest of Create on the zip writer, once the archive name is
      absolute: Open with the three options, the file, dir and content blocks
      in that order, then Close. Open discards whatever the shared writer
      held before. */
  method CreateZip(z: ZipWriter.ZipArchive, fs: FS, lib: PathLib, archName: string, plan: Plan, faults: CloseFaults)
    returns (errs: seq<Diagnostic>)
    modifies z
    ensures !CanCreate(fs, archName) ==> errs == [OpenFailed(plan.name, CannotCreate(archName))] && unchanged(z)
    ensures CanCreate(fs, archName) && !AllAbsolute(lib, plan.excludeList) ==>
              errs == [OpenFailed(plan.name, NoWorkingDir)]
    ensures CanCreate(fs, archName) && AllAbsolute(lib, plan.excludeList) ==>
              z.settings != null && z.isOpen && z.closed && z.fileName == archName &&
              z.settings.fileMode == ModeForCreate(plan.outMode).mode &&
              z.settings.symLink == (plan.resolveSymLink.Some? && plan.resolveSymLink.value) &&
              z.settings.excludeList.Some? && ResolvedFrom(lib, plan.excludeList, z.settings.excludeList.value) &&
              z.entries == ZipBody(fs, lib, z.settings.Value(), plan) &&
              errs == ZipCloseDiags(plan.name, faults)
  {
    var archiveSettings := new ArchiveSettings(Some(plan.excludeList), ModeForCreate(plan.outMode).mode,
                                               plan.resolveSymLink.Some? && plan.resolveSymLink.value);
    var openErr := z.Open(fs, lib, archName, archiveSettings);
    if openErr.Some? {
      return [OpenFailed(plan.name, openErr.value)];
    }
    errs := FillZip(z, fs, lib, plan, faults);
  }

  /** The part of Create after a successful Open of the tar writer: the
      file, dir and content blocks in that order, then Close. */
  method FillTar(t: TarWriter.TarArchiver, fs: FS, lib: PathLib, plan: Plan, faults: CloseFaults) returns (errs: seq<Diagnostic>)
    requires t.Ready() && t.entries == [] && !t.closed
    modifies t
    ensures t.isOpen && t.closed && t.fileName == old(t.fileName) && t.settings == old(t.settings)
    ensures t.entries == TarBody(fs, lib, t.settings.Value(), plan)
    ensures errs == TarCloseDiags(plan.name, faults)
  {
    ghost var s := t.settings.Value();
    ghost var files := Flatten(ItemCalls(lib, plan.files), TarWriter.TarFileStep(fs, lib, s, false));
    ghost var dirs := Flatten(ItemCalls(lib, plan.dirs), TarDirStep(fs, lib, s, false));
    var w := TarW(t);
    AppendFiles(w, fs, lib, plan.files);
    assert t.entries == files;
    AppendDirs(w, fs, lib, plan.dirs);
    assert t.entries == files + dirs;
    AppendContents(w, lib, plan.contents);
    assert t.entries == files + dirs + TarContents(lib, plan.contents, false);
    var closeErr := t.Close(faults.writer, faults.gzip, faults.file);
    errs := if closeErr.Some? then [CloseError(plan.name, closeErr.value)] else [];
  }

  /** The rest of Create on the tar writer, as for zip. */
  method CreateTar(t: TarWriter.TarArchiver, fs: FS, lib: PathLib, archName: string, plan: Plan, faults: CloseFaults)
    returns (errs: seq<Diagnostic>)
    modifies t
    ensures !CanCreate(fs, archName) ==> errs == [OpenFailed(plan.name, CannotCreate(archName))] && unchanged(t)
    ensures CanCreate(fs, archName) && !AllAbsolute(lib, plan.excludeList) ==>
              errs == [OpenFailed(plan.name, NoWorkingDir)]
    ensures CanCreate(fs, archName) && AllAbsolute(lib, plan.excludeList) ==>
              t.settings != null && t.isOpen && t.closed && t.fileName == archName &&
              t.settings.fileMode == ModeForCreate(plan.outMode).mode &&
              t.settings.symLink == (plan.resolveSymLink.Some? && plan.resolveSymLink.value) &&
              t.settings.excludeList.Some? && ResolvedFrom(lib, plan.excludeList, t.settings.excludeList.value) &&
              t.entries == TarBody(fs, lib, t.settings.Value(), plan) &&
              errs == TarCloseDiags(plan.name, faults)
  {
    CreateOptionsSettings(plan, TarWriter.InitialSettings);
    var openErr := t.Open(fs, lib, archName, CreateOptions(plan));
    if openErr.Some? {
      return [OpenFailed(plan.name, openErr.value)];
    }
    errs := FillTar(t, fs, lib, plan, faults);
  }

  /** Create, from GetArchiver to Close: an unknown type stops before any
      writer is touched; a malformed out_mode only adds a warning; a name that
      cannot be made absolute or an Open that fails stops it with an error;
      otherwise the shared writer is reopened from scratch, gets every file,
      dir and content block in that order, and is closed. */
  method Create(reg: Archivers, fs: FS, lib: PathLib, plan: Plan, faults: CloseFaults)
    returns (diags: seq<Diagnostic>)
    modifies reg.zip, reg.tar
    ensures plan.archType !in Formats ==>
              diags == [UnsupportedType(plan.archType)] && unchanged(reg.zip) && unchanged(reg.tar)
    ensures plan.archType in Formats && Abs(lib, plan.name).Err? ==>
              diags == ModeDiags(plan.outMode) + [PathUnresolved(plan.name)] &&
              unchanged(reg.zip) && unchanged(reg.tar)
    ensures plan.archType in Formats && Abs(lib, plan.name).Ok? && !CanCreate(fs, Abs(lib, plan.name).value) ==>
              diags == ModeDiags(plan.outMode) + [OpenFailed(plan.name, CannotCreate(Abs(lib, plan.name).value))] &&
              unchanged(reg.zip) && unchanged(reg.tar)
    ensures plan.archType in Formats && Abs(lib, plan.name).Ok? && CanCreate(fs, Abs(lib, plan.name).value) &&
            !AllAbsolute(lib, plan.excludeList) ==>
              diags == ModeDiags(plan.outMode) + [OpenFailed(plan.name, NoWorkingDir)]
    ensures plan.archType == "zip" && Abs(lib, plan.name).Ok? && CanCreate(fs, Abs(lib, plan.name).value) &&
            AllAbsolute(lib, plan.excludeList) ==>
              reg.zip.settings != null && reg.zip.isOpen && reg.zip.closed &&
              reg.zip.fileName == Abs(lib, plan.name).value &&
              reg.zip.settings.fileMode == ModeForCreate(plan.outMode).mode &&
              reg.zip.settings.symLink == (plan.resolveSymLink.Some? && plan.resolveSymLink.value) &&
              reg.zip.settings.excludeList.Some? &&
              ResolvedFrom(lib, plan.excludeList, reg.zip.settings.excludeList.value) &&
              reg.zip.entries == ZipBody(fs, lib, reg.zip.settings.Value(), plan) &&
              diags == ModeDiags(plan.outMode) + ZipCloseDiags(plan.name, faults) &&
              unchanged(reg.tar)
    ensures plan.archType == "tar.gz" && Abs(lib, plan.name).Ok? && CanCreate(fs, Abs(lib, plan.name).value) &&
            AllAbsolute(lib, plan.excludeList) ==>
              reg.tar.settings != null && reg.tar.isOpen && reg.tar.closed &&
              reg.tar.fileName == Abs(lib, plan.name).value &&
              reg.tar.settings.fileMode == ModeForCreate(plan.outMode).mode &&
              reg.tar.settings.symLink == (plan.resolveSymLink.Some? && plan.resolveSymLink.value) &&
              reg.tar.settings.excludeList.Some? &&
              ResolvedFrom(lib, plan.excludeList, reg.tar.settings.excludeList.value) &&
              reg.tar.entries == TarBody(fs, lib, reg.tar.settings.Value(), plan) &&
              diags == ModeDiags(plan.outMode) + TarCloseDiags(plan.name, faults) &&
              unchanged(reg.zip)
  {
    var archiver := reg.GetArchiver(plan.archType);
    if archiver.None? {
      return [UnsupportedType(plan.archType)];
    }
    diags := ModeDiags(plan.outMode);
    var archName := Abs(lib, plan.name);
    if archName.Err? {
      return diags + [PathUnresolved(plan.name)];
    }
    var errs;
    match archiver.value {
      case ZipW(z) =>
        errs := CreateZip(z, fs, lib, archName.value, plan, faults);
      case TarW(t) =>
        errs := CreateTar(t, fs, lib, archName.value, plan, faults);
    }
    diags := diags + errs;
  }
}
