/**
 * The execution log: one `CommandLog` per command run, each naming the files it
 * read and wrote by path and content digest.
 */
module CommandLogs {

  import opened Wrappers

  /** A file path in its posix spelling (what `pathlib.Path.as_posix()` returns). */
  type Path = string

  /** A content digest: the md5 hex digest of a file, or "" when the file could not be hashed. */
  type Digest = string

  /** One byte of a stream. */
  type byte = x: int | 0 <= x < 256

  /** A file as recorded in the log: its path and the md5 of its contents. */
  datatype FileLog = FileLog(path: Path, md5: Digest)

  /** One recorded command invocation; the exit code is None where Python's is None. */
  datatype CommandLog = CommandLog(
    command: seq<string>,
    exitCode: Option<int>,
    inFiles: seq<FileLog>,
    outFiles: seq<FileLog>,
    stdin: seq<byte>,
    stdout: seq<byte>,
    stderr: seq<byte>)

  /** The prefix that marks the standard streams. */
  const DevPrefix: string := "/dev/"

  /** `path.as_posix().startswith('/dev/')`. */
  predicate IsDevPath(p: Path) {
    DevPrefix <= p
  }

  /** The paths and filesystem operations the model treats as given. */
  datatype PathOps = PathOps(
    /** `p.relative_to(base)`: the relative path, or None where pathlib raises ValueError. */
    relativeTo: (Path, Path) -> Option<Path>,
    /** `p.resolve()`. */
    resolve: Path -> Path)
}
