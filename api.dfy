/**
 * The types of the `api` package that the seal and codec code exchange.
 * The package itself is not part of this model; these are the fields the
 * core reads and writes.
 */
module Api {
  import opened Wrappers

  /** api.Priority, restricted to the two levels the core uses. */
  datatype Priority = Info | Error

  /** A Go error value: its Error() text, and whether os.IsExist holds of it. */
  datatype Failure = Failure(text: string, isExist: bool)

  /** api.FileInfo: the path, the path relative to its root, the root
      (what FileInfo.Root() returns) and the size in bytes. */
  datatype FileInfo = FileInfo(path: string, relaPath: string, root: string, size: int)

  /** The zero FileInfo. */
  const NoFile := FileInfo("", "", "", 0)

  /** api.BasicResult */
  datatype BasicResult = BasicResult(finfo: FileInfo, msg: string, prio: Priority, err: Option<Failure>)
}
