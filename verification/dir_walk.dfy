/** `CpioBuilder::add_dir`: what a walk over a directory tree yields, and the entries made of it. */
module DirWalk {
  import opened Bytes
  import opened Wrappers
  import opened Cpio
  import opened TarStream

  /** What is read for a file of its type may be unreadable; sockets and the like have no place in an archive. */
  datatype FileType = SymlinkFile(target: Option<Bytes>) | DirectoryFile | RegularFile(content: Option<Bytes>)
                    | CharFile | BlockFile | FifoFile | OtherFile

  datatype FileMeta = FileMeta(mode: U32, fileType: FileType, rdev: nat)

  /** The path relative to the root; the metadata may be missing. */
  datatype WalkItem = WalkItem(path: Bytes, meta: Option<FileMeta>)

  /** `None` is an entry the walk failed on. */
  type Walk = seq<Option<WalkItem>>

  datatype WalkError = WalkFailed | NoMetadata | Unreadable

  /** The entry for one file; `None` for what is skipped. */
  function FileEntry(meta: FileMeta, name: Bytes): Result<Option<Entry>, WalkError> {
    match meta.fileType
    case SymlinkFile(target) =>
      if target.None? then Err(Unreadable) else Ok(Some(NewEntry(name, S_IFLNK + 0x1FF, 1, target.value)))
    case DirectoryFile => Ok(Some(NewEntry(name, Mode(S_IFDIR, meta.mode), 2, [])))
    case RegularFile(content) =>
      if content.None? then Err(Unreadable) else Ok(Some(NewEntry(name, Mode(S_IFREG, meta.mode), 1, content.value)))
    case CharFile => Ok(Some(DevEntry(name, Mode(S_IFCHR, meta.mode), meta.rdev)))
    case BlockFile => Ok(Some(DevEntry(name, Mode(S_IFBLK, meta.mode), meta.rdev)))
    case FifoFile => Ok(Some(NewEntry(name, Mode(S_IFIFO, meta.mode), 1, [])))
    case OtherFile => Ok(None)
  }

  /** The entries so far; `error` is set at the first failure and ends the fold. */
  datatype Walked = Walked(entries: map<Bytes, Entry>, error: Option<WalkError>)

  function Visit(s: Walked, item: Option<WalkItem>): Walked {
    if s.error.Some? then s
    else if item.None? then s.(error := Some(WalkFailed))
    else
      match Normalize(item.value.path)
      case None => s
      case Some(name) =>
        if item.value.meta.None? then s.(error := Some(NoMetadata))
        else
          match FileEntry(item.value.meta.value, name)
          case Err(e) => s.(error := Some(e))
          case Ok(None) => s
          case Ok(Some(entry)) => Walked(s.entries[name := entry], None)
  }

  /** The state after the first `n` items. */
  function WalkTo(walk: Walk, n: nat, entries: map<Bytes, Entry>): Walked
    requires n <= |walk|
    decreases n, 1
  {
    WalkStep(walk, n, entries)
  }

  function WalkStep(walk: Walk, n: nat, entries: map<Bytes, Entry>): Walked
    requires n <= |walk|
    decreases n, 0
  {
    if n == 0 then Walked(entries, None) else Visit(WalkTo(walk, n - 1, entries), walk[n - 1])
  }

  lemma {:induction false} StaysStopped(walk: Walk, m: nat, n: nat, entries: map<Bytes, Entry>)
    requires m <= n <= |walk| && WalkTo(walk, m, entries).error.Some?
    ensures WalkTo(walk, n, entries) == WalkTo(walk, m, entries)
    decreases n
  {
    if m < n {
      assert WalkTo(walk, n, entries) == WalkStep(walk, n, entries);
      StaysStopped(walk, m, n - 1, entries);
    }
  }
}
