/** The archivers registry and GetArchiver (internal/archive/types.go and
    internal/archive/archiver.go): a map from format name to one shared
    writer per format, built once and never changed. */
module Registry {
  import opened Wrappers
  import opened ZipWriter
  import opened TarWriter

  /** A value of the Archiver interface: one of the two writers. */
  datatype Writer = ZipW(zip: ZipArchive) | TarW(tar: TarArchiver) {
    /** The writer object the interface value points to. */
    function Obj(): object {
      if ZipW? then zip else tar
    }

    /** Open has been called on the writer, so its streams exist. */
    predicate Ready()
      reads Obj()
    {
      if ZipW? then zip.Ready() else tar.Ready()
    }
  }

  /** The registry's keys. */
  const Formats: set<string> := {"zip", "tar.gz"}

  /** The archivers map. Its two entries are fixed when it is built. */
  class Archivers {
    const zip: ZipArchive
    const tar: TarArchiver

    /** The package-level initialisation: a zero-value writer per format. */
    constructor ()
      ensures fresh(zip) && fresh(tar)
      ensures !zip.isOpen && zip.entries == [] && !tar.isOpen && tar.entries == []
    {
      zip := new ZipArchive();
      tar := new TarArchiver();
    }

    /** GetArchiver(archType): the registered writer, or nil for a name the
        registry does not hold. Every call with the same name hands out the
        same writer object. */
    function GetArchiver(archType: string): (r: Option<Writer>)
      ensures r.Some? <==> archType in Formats
      ensures archType == "zip" ==> r == Some(ZipW(zip))
      ensures archType == "tar.gz" ==> r == Some(TarW(tar))
    {
      if archType == "zip" then Some(ZipW(zip))
      else if archType == "tar.gz" then Some(TarW(tar))
      else None
    }
  }
}
