# terraform-provider-archiver: the archive-building core in Dafny

This project models the part of terraform-provider-archiver that builds an
archive, found in `internal/archive`:

- The archivers registry: `GetArchiver`, and the `archivers` map with one shared writer per format.
- `ArchiveSettings` and the option closures `WithExcludeList`, `WithFileMode` and `WithSymLink`.
- The zip writer: `writeToZip`, `ArchiveFile`, `ArchiveDir`, `ArchiveContent`, `Open` and `Close`.
- The tar.gz writer: the same operations, with `writeToTar` in place of `writeToZip`.
- `evaluateSymLink` and `resolveExcludeList`.
- The resource helpers `cleanPath`, `appendFiles`, `appendDirs` and `appendContents`.
- The archive-building part of `Create`, from the type check to the `Close` call.
- The `out_mode` handling of `Create` and of `Update`.

The host is abstract. A filesystem is a map from paths to nodes (regular file,
directory, symbolic link) plus a set of paths that cannot be read or written.
An archive is the sequence of entries its writer has appended. A tar entry
carries the header fields the code sets: name, size, mode (the permission
bits plus the setuid, setgid and sticky bits) and type flag. `filepath.Clean` is a given function, and the working directory is a
value that may be unknown. The only way `filepath.Abs` fails is when the
working directory is unknown.

Modules, one per file:

- `Wrappers`: Option and Result.
- `Errors`: error causes, and what one write appended.
- `Paths`: `Abs`, `Join`, `strings.Index`.
- `FileSystem`: Lstat, Readlink, Open with symlink following, ReadDir.
- `Settings`: `ArchiveSettings` and the option closures.
- `Resolve`: `evaluateSymLink` and `resolveExcludeList`.
- `Walk`: the recursive directory walk as the sequence of `ArchiveFile` calls it makes.
- `Tree`: directory trees present in the filesystem, some of whose files and subdirectories may be unreadable, an independent description of the files a walk must find.
- `ZipWriter` and `TarWriter`: the two writers. Each is a class whose fields are the writer's state.
- `Registry`: the archivers map.
- `ModeParse`: `strconv.ParseInt(s, 8, 32)`, `os.FileMode` conversion, `%d` rendering.
- `Base64`: `base64.StdEncoding.DecodeString` and its inverse.
- `Resource`: `cleanPath`, the append loops and `Create`.

Each writer method states its effect in two parts:

- The entries it appends, as a function of the filesystem, the settings and the arguments.
- What it leaves unchanged.

The lemmas beside the methods relate those functions to independent
descriptions: the files of a directory tree, the decoded bytes of a base64
string, the octal value of a mode string.

The model follows the code as written, including these points:

- The zip writer's methods are declared on `ZipArchive`, and its `Open` takes an
  `*ArchiveSettings` pointer. `types.go` declares `ZipArchiver` and an
  interface `Open(name, opts ...Options)`. The model's zip `Open` takes the
  settings object and updates it in place, as the code does. For zip,
  `Create` builds that object directly from the plan's mode, symlink flag and
  exclude list, the values the three options would set.
- After `Open` fails to resolve the exclude list, the two writers differ:
  - zip keeps the old exclude list;
  - tar.gz sets it to nil, because of the two-value assignment.
- `Create` applies `os.FileMode(m)` even when `ParseInt` fails. A malformed
  `out_mode` therefore gives mode 0 and a warning, not the default mode.
- `ArchiveDir` returns nil once the root directory has been listed, whatever
  happens below it.
- The tar `ArchiveContent` header uses the decimal literal `770`.

## Model

| member | source | states |
|---|---|---|
| Paths.Abs | internal/archive/archiver.go:64-68 | filepath.Abs cleans an absolute path unchanged and fails, with no working directory, exactly on a relative path |
| Paths.Join | internal/archive/ziparchiver.go:81 | the joined path starts with the directory, ends with the entry name, and adds at most one separator |
| Paths.Index | internal/archive/ziparchiver.go:84 | strings.Index returns the first position where `dst` occurs, or -1 when it occurs nowhere |
| FileSystem.Readlink | internal/archive/archiver.go:58-62 | Readlink succeeds exactly on readable symbolic links and returns their stored target |
| FileSystem.Follow | internal/archive/ziparchiver.go:18-21 | the path os.Open reaches is a present, readable non-link; a readable non-link is reached as itself; an absent path fails with NotExist |
| FileSystem.Open | internal/archive/ziparchiver.go:18-21 | os.Open of a readable non-link opens that path, and any success ends on a non-link |
| FileSystem.ReadDir | internal/archive/ziparchiver.go:75-78 | a readable directory lists its children in stored order, and an absent path fails |
| Settings.ApplyOption | internal/archive/archiver.go:28-44 | each option closure replaces exactly its own field and keeps the other two |
| Settings.LaterOptionWins | internal/archive/tararchiver.go:143-145 | applying options in order, the last option that sets a field decides its value |
| Settings.UnsetFieldsKept | internal/archive/tararchiver.go:139-145 | a field no option sets keeps its initial value |
| Settings.ArchiveSettings.constructor | internal/archive/types.go:18-25 | a struct literal holds the three given field values |
| Settings.ArchiveSettings.Apply | internal/archive/types.go:27 | calling an option closure on the struct updates it in place as ApplyOption says |
| Resolve.EvaluateSymLink | internal/archive/archiver.go:48-72 | an absent path fails; a non-link is returned as given; an unreadable link fails; a readable link gives Abs of its target |
| Resolve.RelativeTargetReadAgainstCwd | internal/archive/archiver.go:64 | a relative link target is made absolute against the working directory, not the link's directory, so evaluateSymLink and os.Open can reach different files |
| Resolve.ResolveExcludeList | internal/archive/archiver.go:76-88 | the call succeeds exactly when every element can be made absolute; the result is the absolute form of each element, in order; failure is NoWorkingDir |
| Walk.DestName | internal/archive/ziparchiver.go:84-89 | the entry name is a suffix of the walked path |
| Walk.DestNameFirstOccurrence | internal/archive/ziparchiver.go:84-89 | without an occurrence of `dst` the name is the whole path; otherwise it starts at the first occurrence and begins with `dst` |
| Walk.DirError | internal/archive/ziparchiver.go:65-102 | ArchiveDir returns an error exactly when the optional link resolution of the root fails or os.ReadDir of the resolved root fails, and it is the first of those errors; unreadable entries below the root never make it fail |
| Walk.WalkDirNamed | internal/archive/ziparchiver.go:80-99 | at every depth the walk calls ArchiveFile only on non-directories, each named by the rewrite of its path with the unchanged `dst` |
| Tree.WalkTree | internal/archive/ziparchiver.go:65-102 | walking a directory tree present in the filesystem calls ArchiveFile once per regular file of the tree, readable or not, in listing order, skips the contents of unreadable subdirectories, and does not fail |
| Tree.TreeFilesCount | internal/archive/ziparchiver.go:80-99 | a tree lists as many files as it holds |
| Tree.ReadableFilesCount | internal/archive/ziparchiver.go:80-99 | the readable files a present tree lists are as many as the readable regular files it holds |
| Tree.ReadableTree | internal/archive/ziparchiver.go:80-99 | in a tree without unreadable nodes every listed file is readable |
| Tree.WalkSkipsUnreadableSubdir | internal/archive/ziparchiver.go:94-98 | a directory whose unreadable subdirectory comes before a readable file is walked into the one call for that file, without error |
| Tree.TreeFilesAreFiles | internal/archive/ziparchiver.go:83 | every path a present tree lists is a regular file, and a readable one when the tree has no unreadable node |
| ZipWriter.WriteToZipEffect | internal/archive/ziparchiver.go:17-35 | at most one entry named `dst`: a readable file gives its bytes; an opened directory gives an empty entry and IsDirectory; an open failure appends nothing; a closed writer appends nothing |
| ZipWriter.ArchiveFileEffect | internal/archive/ziparchiver.go:40-59 | an excluded source appends nothing and succeeds; with SymLink the source is resolved first and a resolution error is returned; otherwise writeToZip's effect |
| ZipWriter.ExclusionBeforeResolution | internal/archive/ziparchiver.go:43-52 | exclusion is checked on the path before symlink resolution, so a link to an excluded file is still archived |
| ZipWriter.ZipRegularFile | internal/archive/ziparchiver.go:40-59 | a readable, non-excluded regular file gives exactly one entry with its bytes and no error |
| ZipWriter.ZipUnreadableFile | internal/archive/ziparchiver.go:91-93 | an unreadable regular file fails its ArchiveFile call with the read error and appends nothing |
| ZipWriter.ZipFilesEntries | internal/archive/ziparchiver.go:80-99 | ArchiveFile calls on non-excluded regular files append one entry per readable file, in order, each with the file's bytes under the rewritten name; unreadable files append nothing |
| ZipWriter.ZipDirTree | internal/archive/ziparchiver.go:65-102 | archiving a present tree with nothing excluded appends exactly one entry per readable regular file, in walk order, with its bytes under the rewritten name, skips unreadable files and subdirectories, and returns no error |
| ZipWriter.ZipSkipsUnreadableSubdir | internal/archive/ziparchiver.go:91-97 | a readable file after an unreadable subdirectory is still archived, and ArchiveDir returns no error |
| ZipWriter.ZipArchive.WriteToZip | internal/archive/ziparchiver.go:17-35 | appends WriteToZipEffect's entries, returns its error, and changes no other field |
| ZipWriter.ZipArchive.ArchiveFile | internal/archive/ziparchiver.go:40-59 | appends ArchiveFileEffect's entries under the writer's settings, returns its error, and changes no other field |
| ZipWriter.ZipArchive.ArchiveDir | internal/archive/ziparchiver.go:65-102 | appends the entries of every ArchiveFile call of the walk, in order, and returns DirError |
| ZipWriter.ZipArchive.ArchiveEntry | internal/archive/ziparchiver.go:81-98 | one loop iteration appends the entries of that directory entry's calls |
| ZipWriter.ZipArchive.ArchiveContent | internal/archive/ziparchiver.go:106-118 | appends one entry with the given bytes under `dst`, or nothing on a closed writer, and never reports an error |
| ZipWriter.ZipArchive.Open | internal/archive/ziparchiver.go:120-149 | an uncreatable path fails with nothing changed; otherwise the writer is open and empty with the caller's settings object; a nil list stays nil; a list is made absolute in order; on failure the list is left as it was |
| ZipWriter.ZipArchive.Close | internal/archive/ziparchiver.go:151-158 | the writer ends closed with its entries kept; the error joins the failed layers in order, writer then file; closing twice fails both layers |
| TarWriter.HeaderMode | internal/archive/tararchiver.go:32 | the header mode FileInfoHeader derives holds the nine permission bits, and its 04000, 02000 and 01000 bits are set exactly when the file mode has setuid, setgid and sticky set |
| TarWriter.WriteToTarEffect | internal/archive/tararchiver.go:19-49 | at most one entry named `dst`: a readable file gives its header and bytes; a directory gives a directory header and IsDirectory; a closed writer fails with WriteAfterClose |
| TarWriter.ArchiveFileEffect | internal/archive/tararchiver.go:54-73 | exclusion before symlink resolution, then writeToTar's effect, as for zip |
| TarWriter.TarUnreadableFile | internal/archive/tararchiver.go:20-22 | an unreadable regular file fails its ArchiveFile call at os.Open, before any header, and appends nothing |
| TarWriter.TarFilesEntries | internal/archive/tararchiver.go:94-112 | ArchiveFile calls on non-excluded regular files append one entry per readable file, in order, with a regular-file header and the file's bytes; unreadable files append nothing |
| TarWriter.TarDirTree | internal/archive/tararchiver.go:79-116 | archiving a present tree with nothing excluded appends one entry per readable regular file, in walk order, skips unreadable files and subdirectories, and returns no error |
| TarWriter.TarSkipsUnreadableSubdir | internal/archive/tararchiver.go:105-111 | a readable file after an unreadable subdirectory is still archived with its header, and ArchiveDir returns no error |
| TarWriter.TarArchiver.WriteToTar | internal/archive/tararchiver.go:19-49 | appends WriteToTarEffect's entries, returns its error, and changes no other field |
| TarWriter.TarArchiver.ArchiveFile | internal/archive/tararchiver.go:54-73 | appends ArchiveFileEffect's entries under the writer's settings and returns its error |
| TarWriter.TarArchiver.ArchiveDir | internal/archive/tararchiver.go:79-116 | appends the entries of every ArchiveFile call of the walk, in order, and returns DirError |
| TarWriter.TarArchiver.ArchiveEntry | internal/archive/tararchiver.go:95-112 | one loop iteration appends the entries of that directory entry's calls |
| TarWriter.TarArchiver.ArchiveContent | internal/archive/tararchiver.go:118-136 | appends one regular entry of the given bytes with mode 770, or fails with WriteAfterClose on a closed writer |
| TarWriter.TarArchiver.Open | internal/archive/tararchiver.go:138-166 | an uncreatable path fails with nothing changed; otherwise fresh settings start from mode 0666 with the options applied in order; a list is made absolute; on failure the list becomes nil |
| TarWriter.TarArchiver.Close | internal/archive/tararchiver.go:168-177 | the writer ends closed with its entries kept; the error joins the failed layers, tar, gzip, file, in that order |
| Registry.Archivers.GetArchiver | internal/archive/archiver.go:19-26 | a writer is returned exactly for "zip" and "tar.gz", and always the same shared writer of that format |
| ModeParse.ParseInt | internal/archive/resource.go:209 | the value stays in int32 range; a syntax error gives 0; a range error gives the clamped bound |
| ModeParse.ParseIntAccepts | internal/archive/resource.go:209 | ParseInt accepts exactly an optional sign and a non-empty octal digit string within int32 range, and returns its signed value |
| ModeParse.ParseIntRoundTrip | internal/archive/resource.go:209 | every int32 is parsed back from its octal spelling |
| ModeParse.RangeErrorBeforeSyntaxError | internal/archive/resource.go:209 | digits that overflow before a bad character report a range error with the clamped value |
| ModeParse.ToFileMode | internal/archive/resource.go:215 | os.FileMode keeps an in-range value and wraps a negative one modulo 2^32 |
| ModeParse.ModeForCreate | internal/archive/resource.go:202-216 | a null out_mode gives 0666 and no warning; otherwise the converted parse value, with a warning exactly on a parse error |
| ModeParse.MalformedModeIsZero | internal/archive/resource.go:208-216 | a malformed or empty out_mode gives mode 0 with a warning |
| ModeParse.NegativeModeWraps | internal/archive/resource.go:215 | out_mode "-1" gives mode 0xFFFFFFFF without a warning |
| ModeParse.UpdateOutMode | internal/archive/resource.go:412-425 | a null out_mode is left alone; an unparsable one warns and is kept; a parsable one is applied with chmod, warns exactly when chmod fails, and is rewritten in decimal either way |
| ModeParse.UpdateAgreesWithCreate | internal/archive/resource.go:412-425 | the mode Update applies is the mode Create would have given for the same out_mode |
| ModeParse.UpdateWritesDecimal | internal/archive/resource.go:424 | the text written back reads in decimal as the number the octal out_mode denoted |
| ModeParse.Mode777Becomes511 | internal/archive/resource.go:412-425 | out_mode "777" is applied as 0o777 and written back as "511", whether chmod fails or not |
| ModeParse.DecimalStateDiffersFromPlan | internal/archive/resource.go:412-425 | with chmod succeeding and no warning, a configured "777" is applied as Create would apply it but stored as a different text, "511" |
| ModeParse.UpdateOutModeKept | internal/archive/resource.go:412-425 | the corrected Update: the same chmod and the same warnings as the written one, with out_mode stored as configured |
| ModeParse.KeptUpdateMatchesPlan | internal/archive/resource.go:412-425 | with the corrected Update, every parsable out_mode is stored as given and applied as the mode Create gives it |
| ModeParse.Kept777 | internal/archive/resource.go:412-425 | with the corrected Update, "777" is stored as "777" and applied as 0o777 |
| Base64.DecodeEncode | internal/archive/resource.go:544 | decoding the standard encoding of any byte string gives back those bytes with no error |
| Base64.PartialOutputOnError | internal/archive/resource.go:544-551 | a bad character after valid quanta yields an error along with the bytes decoded before it |
| Base64.TruncatedQuantum | internal/archive/resource.go:544-551 | an unpadded two-character tail is an error, and the bytes before it are still returned |
| Base64.DecodePadded | internal/archive/resource.go:544 | a padded final quantum ends decoding: success exactly when only newlines follow |
| Resource.StripParentDirs | internal/archive/resource.go:467-469 | the result no longer starts with "../" and is no longer than the input |
| Resource.StripRemovesParentRun | internal/archive/resource.go:467-469 | the loop removes exactly a leading run of "../" segments and keeps the rest of the path unchanged |
| Resource.StripIdempotent | internal/archive/resource.go:467-469 | trimming an already trimmed path changes nothing |
| Resource.CleanPath | internal/archive/resource.go:459-472 | fails exactly when Abs fails, with its error; otherwise the absolute path and the cleaned path without leading "../" |
| Resource.CleanPathRelative | internal/archive/resource.go:459-472 | the relative path is the cleaned path with only a run of "../" segments removed from its front |
| Resource.NoItemSkipped | internal/archive/resource.go:490-514 | when every path can be made absolute, every item gives one call, in order, with its absolute and relative paths |
| Resource.AppendFile | internal/archive/resource.go:494-513 | one iteration of appendFiles appends the entries of ArchiveFile on the cleaned paths, or nothing when cleanPath fails |
| Resource.AppendFilesZip | internal/archive/resource.go:490-514 | appendFiles on a zip writer appends, in order, the entries of ArchiveFile for every item whose path can be cleaned, and keeps the other fields |
| Resource.AppendFilesTar | internal/archive/resource.go:490-514 | the same for a tar.gz writer |
| Resource.AppendFiles | internal/archive/resource.go:490-514 | through the interface value, whichever writer it holds |
| Resource.AppendDir | internal/archive/resource.go:520-539 | one iteration of appendDirs appends the entries of ArchiveDir on the cleaned paths, or nothing when cleanPath fails |
| Resource.AppendDirsZip | internal/archive/resource.go:516-540 | appendDirs on a zip writer appends, in order, the entries of ArchiveDir for every item whose path can be cleaned |
| Resource.AppendDirsTar | internal/archive/resource.go:516-540 | the same for a tar.gz writer |
| Resource.AppendDirs | internal/archive/resource.go:516-540 | through the interface value, whichever writer it holds |
| Resource.AppendContents | internal/archive/resource.go:542-570 | every content block, its decoding error included, appends the entry of its decoded bytes under its trimmed file_path; a closed writer gets none |
| Resource.ZipContentsEntries | internal/archive/resource.go:542-570 | on an open zip writer there is one entry per block, in order, with the block's decoded bytes and trimmed path |
| Resource.TarContentsEntries | internal/archive/resource.go:542-570 | on an open tar.gz writer there is one entry per block, in order, with a regular header of its size and mode 770 |
| Resource.EncodedContent | internal/archive/resource.go:544 | a block holding the standard encoding of some bytes contributes exactly those bytes |
| Resource.MalformedContentKeepsPrefix | internal/archive/resource.go:544-551 | a block with trailing garbage still contributes the bytes decoded before it |
| Resource.ModeDiags | internal/archive/resource.go:208-213 | Create warns exactly when out_mode is set and does not parse |
| Resource.CreateOptionsSettings | internal/archive/resource.go:239-242 | the three options Create passes give settings with its mode, its symlink flag and its exclude list, an empty list for a null exclude_list |
| Resource.FillZip | internal/archive/resource.go:251-282 | after a successful Open, the zip holds the file, dir and content entries in that order, and Close's errors become diagnostics |
| Resource.FillTar | internal/archive/resource.go:251-282 | the same for tar.gz |
| Resource.CreateZip | internal/archive/resource.go:229-282 | an uncreatable output fails before anything is written; an unresolvable exclude list fails Open; otherwise the archive body as FillZip states |
| Resource.CreateTar | internal/archive/resource.go:229-282 | the same for tar.gz, with the settings built by the options |
| Resource.Create | internal/archive/resource.go:178-282 | an unsupported type only reports it and touches no writer; mode warning, path and Open failures, and the full archive contents in each format |

## Findings

| source | as written | input that shows it | evidently intended | confidence | as-written member | corrected member |
|---|---|---|---|---|---|---|
| internal/archive/resource.go:424 | Update writes the parsed mode back into the stored out_mode with `%d`, while the configuration holds the octal text it parsed | configured out_mode "777": chmod 0o777 succeeds and the stored out_mode becomes "511", which differs from the planned "777", an inconsistent result after apply for a non-computed attribute | store out_mode as configured, as Create does, and only apply the parsed mode | not executed | ModeParse.DecimalStateDiffersFromPlan | ModeParse.KeptUpdateMatchesPlan |

## Left out

- I/O is not modelled: logging (`tflog`, `log.Printf`), contexts, timestamps and error message texts. Errors are reduced to their cause.
- The checksum, size and file-reading helpers (MD5, SHA256, `checksums`) are not part of this model.
- `Read`, `Delete`, `Schema`, `ValidateConfig` and the rename part of `Update` are not part of this model. From `Update`, only its out_mode handling is modelled.
- Decoding the Terraform plan is not modelled (`req.Plan.Get`, `ElementsAs`). The model receives the plan already decoded. A plan decoding error never happens in the model.
- Everything `Create` does after `Close` is not modelled: checksums, size and state.
- `filepath.Clean` is a given function. Its normalisation rules are not restated.
- Paths.Join concatenates with one separator and does not apply `filepath.Clean`. It agrees with `filepath.Join` only for a clean directory and a single-component entry name; a root given in unclean form (`a/./b`, `a//b`) is joined verbatim.
- The trees of the `Tree` module hold regular files and directories, readable or not, but no symbolic links. A walk over links inside a directory is described only by `Walk.WalkDir` itself.
- Symbolic links are followed only in the last path component. A link in a directory component of a path is not resolved. The consequence for ArchiveDir: take a dir block whose path is a symbolic link to a directory, with resolve_symlink false. ReadDir follows the link and lists the target's children. But every joined path `link/name` is absent from the filesystem map, so the model archives nothing under it, where Go archives every file under the target. With resolve_symlink true, the root link is resolved first and the walk is exact.
- The output archive is not placed in the filesystem. Its permission bits are not modelled beyond the mode value given to `os.OpenFile`.
- The tar header's ModTime, owner and other `FileInfoHeader` fields are not modelled, beyond name, size, mode and type.
- `DefaultArchiveMode` is taken as 0666. Its definition is not part of this model.
- Failures of the zip, gzip and tar encoders while writing an entry are not modelled. Only closed writers, open and read failures, and `Close` failures are modelled.
- The append loops go through one method per format (AppendFilesZip, AppendFilesTar, AppendDirsZip, AppendDirsTar). AppendFiles and AppendDirs dispatch to them on the interface value.
- The effect of `os.Chmod` on the archive is not modelled. Its outcome is the `chmodFails` input of ModeParse.UpdateOutMode, which decides the warning.
- A null exclude_list reaches the model as an empty list. In Go it most likely reaches Open as a nil slice, which skips resolution. Both leave nothing excluded.
- Resource.CreateZip builds the zip settings object directly from the plan. It does not run the three option closures, because the zip `Open` takes a settings pointer, not options. Resource.CreateOptionsSettings proves that the closures would give the same value.
- Concurrency is not modelled. The registry hands out one shared writer per format, and concurrent Creates on it are not modelled.
