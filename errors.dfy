/** The failures the modelled operations can report. Go's wrapped `error`
    values are reduced to their cause; message texts are not modelled. */
module Errors {
  import opened Wrappers

  /** One of the layered writers that `Close` shuts down. */
  datatype Layer = ZipWriterLayer | TarWriterLayer | GzipWriterLayer | FileLayer

  datatype Error =
    | NotExist(path: string)          // Lstat/Open/ReadDir of an absent path
    | Permission(path: string)        // the path exists but cannot be read
    | TooManyLinks(path: string)      // a symlink chain longer than the OS allows
    | NotDirectory(path: string)      // ReadDir of something that is not a directory
    | InvalidArgument(path: string)   // Readlink of something that is not a link
    | IsDirectory(path: string)       // copying the content of an opened directory
    | NoWorkingDir                    // filepath.Abs could not read the working directory
    | CannotCreate(path: string)      // os.OpenFile of the output failed
    | WriteAfterClose                 // a write to a writer that was closed
    | CloseFailed(failed: seq<Layer>) // errors.Join of every layer that failed, in order

  /** What one write to an archive stream did: the entries it appended, in
      order, and the error it returned (None for Go's nil). */
  datatype Outcome<T> = Outcome(appended: seq<T>, err: Option<Error>)
}
