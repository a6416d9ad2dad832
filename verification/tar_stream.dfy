/** Tar ingestion as a fold over the stream: path normalisation, entry construction, hardlinks. */
module TarStream {
  import opened Bytes
  import opened Wrappers
  import opened Cpio

  // ---- Paths ----

  const SLASH: Byte := 0x2F
  const DOT: Byte := 0x2E

  predicate StartsDotSlash(p: Bytes) {
    |p| >= 2 && p[0] == DOT && p[1] == SLASH
  }

  predicate StartsSlash(p: Bytes) {
    p != [] && p[0] == SLASH
  }

  /** `trim_start_matches("./")` */
  function TrimDotSlashes(p: Bytes): Bytes {
    if StartsDotSlash(p) then TrimDotSlashes(p[2..]) else p
  }

  /** `trim_start_matches('/')` */
  function TrimSlashes(p: Bytes): Bytes {
    if StartsSlash(p) then TrimSlashes(p[1..]) else p
  }

  /** `trim_end_matches('/')` */
  function TrimEndSlashes(p: Bytes): Bytes {
    if p != [] && p[|p| - 1] == SLASH then TrimEndSlashes(p[..|p| - 1]) else p
  }

  function Normalize(path: Bytes): Option<Bytes> {
    var p := TrimEndSlashes(TrimSlashes(TrimDotSlashes(path)));
    if p == [] || p == [DOT] then None else Some(p)
  }

  lemma {:induction false} TrimsMeaning(p: Bytes)
    ensures !StartsDotSlash(TrimDotSlashes(p))
    decreases |p|
  {
    if StartsDotSlash(p) {
      TrimsMeaning(p[2..]);
    }
  }

  lemma {:induction false} TrimSlashesMeaning(p: Bytes)
    ensures !StartsSlash(TrimSlashes(p))
  {
    if StartsSlash(p) {
      TrimSlashesMeaning(p[1..]);
    }
  }

  /** Trimming the end leaves a prefix that does not end in a slash. */
  lemma {:induction false} TrimEndMeaning(p: Bytes)
    ensures TrimEndSlashes(p) <= p
    ensures TrimEndSlashes(p) != [] ==> TrimEndSlashes(p)[|TrimEndSlashes(p)| - 1] != SLASH
    ensures forall i :: |TrimEndSlashes(p)| <= i < |p| ==> p[i] == SLASH
  {
    if p != [] && p[|p| - 1] == SLASH {
      TrimEndMeaning(p[..|p| - 1]);
    }
  }

  lemma {:induction false} TrimEndFixed(p: Bytes)
    requires p == [] || p[|p| - 1] != SLASH
    ensures TrimEndSlashes(p) == p
  {}

  function Repeated(b: Bytes, n: nat): Bytes {
    if n == 0 then [] else b + Repeated(b, n - 1)
  }

  /** Any number of `./`, then at least one slash, then `./` again: the slashes go, the last `./` stays. */
  ghost predicate HidesDotSlash(path: Bytes) {
    exists m, n, rest :: IsHidden(path, m, n, rest)
  }

  predicate IsHidden(path: Bytes, m: nat, n: nat, rest: Bytes) {
    n > 0 && StartsDotSlash(rest) && path == Repeated([DOT, SLASH], m) + (Repeated([SLASH], n) + rest)
  }

  lemma {:induction false} TrimsRepeatedDots(m: nat, p: Bytes)
    requires !StartsDotSlash(p)
    ensures TrimDotSlashes(Repeated([DOT, SLASH], m) + p) == p
  {
    var path := Repeated([DOT, SLASH], m) + p;
    if m > 0 {
      TrimsRepeatedDots(m - 1, p);
      assert path[2..] == Repeated([DOT, SLASH], m - 1) + p;
    } else {
      assert path == p;
    }
  }

  lemma {:induction false} TrimsRepeatedSlashes(n: nat, p: Bytes)
    requires !StartsSlash(p)
    ensures TrimSlashes(Repeated([SLASH], n) + p) == p
  {
    var path := Repeated([SLASH], n) + p;
    if n > 0 {
      TrimsRepeatedSlashes(n - 1, p);
      assert path[1..] == Repeated([SLASH], n - 1) + p;
    } else {
      assert path == p;
    }
  }

  lemma {:induction false} DotsTrimmed(path: Bytes) returns (m: nat)
    ensures path == Repeated([DOT, SLASH], m) + TrimDotSlashes(path)
    decreases |path|
  {
    if StartsDotSlash(path) {
      var k := DotsTrimmed(path[2..]);
      m := k + 1;
      assert path == [DOT, SLASH] + path[2..];
    } else {
      m := 0;
    }
  }

  lemma {:induction false} SlashesTrimmed(path: Bytes) returns (n: nat)
    ensures path == Repeated([SLASH], n) + TrimSlashes(path)
  {
    if StartsSlash(path) {
      var k := SlashesTrimmed(path[1..]);
      n := k + 1;
      assert path == [SLASH] + path[1..];
    } else {
      n := 0;
    }
  }

  /** What the trimming leaves starts with `./` exactly when the path hid one. */
  lemma {:induction false} HiddenIff(path: Bytes)
    ensures HidesDotSlash(path) <==> StartsDotSlash(TrimSlashes(TrimDotSlashes(path)))
  {
    if HidesDotSlash(path) {
      var m, n, rest :| IsHidden(path, m, n, rest);
      assert Repeated([SLASH], n)[0] == SLASH;
      TrimsRepeatedDots(m, Repeated([SLASH], n) + rest);
      TrimsRepeatedSlashes(n, rest);
    }
    if StartsDotSlash(TrimSlashes(TrimDotSlashes(path))) {
      TrimsMeaning(path);
      var m := DotsTrimmed(path);
      var n := SlashesTrimmed(TrimDotSlashes(path));
      assert n == 0 ==> TrimSlashes(TrimDotSlashes(path)) == TrimDotSlashes(path);
      assert IsHidden(path, m, n, TrimSlashes(TrimDotSlashes(path)));
    }
  }

  /** What is always true of a normalised name: not empty, not ".", no slash at either end. */
  lemma NormalizedShape(path: Bytes, name: Bytes)
    requires Normalize(path) == Some(name)
    ensures name != [] && name != [DOT]
    ensures !StartsSlash(name) && name[|name| - 1] != SLASH
  {
    var q := TrimSlashes(TrimDotSlashes(path));
    TrimSlashesMeaning(TrimDotSlashes(path));
    TrimEndMeaning(q);
  }

  /** The documented shape (no leading `./`) and idempotence hold exactly when no `./` was hidden behind slashes. */
  lemma NormalizeCleanIff(path: Bytes, name: Bytes)
    requires Normalize(path) == Some(name)
    ensures StartsDotSlash(name) <==> HidesDotSlash(path)
    ensures Normalize(name) == Some(name) <==> !HidesDotSlash(path)
  {
    NormalizedShape(path, name);
    HiddenIff(path);
    var q := TrimSlashes(TrimDotSlashes(path));
    TrimEndMeaning(q);
    assert name == q[..|name|];
    if StartsDotSlash(q) {
      assert name[0] == DOT && name != [DOT];
      assert |name| > 2;
      assert StartsDotSlash(name);
      TrimmedShorter(name[2..]);
    } else {
      assert !StartsDotSlash(name);
      assert TrimDotSlashes(name) == name && TrimSlashes(name) == name;
      TrimEndFixed(name);
    }
  }

  lemma {:induction false} TrimmedShorter(p: Bytes)
    ensures |TrimEndSlashes(TrimSlashes(TrimDotSlashes(p)))| <= |p|
  {
    DotSlashesShorter(p);
    SlashesShorter(TrimDotSlashes(p));
    TrimEndMeaning(TrimSlashes(TrimDotSlashes(p)));
  }

  lemma {:induction false} DotSlashesShorter(p: Bytes)
    ensures |TrimDotSlashes(p)| <= |p|
    decreases |p|
  {
    if StartsDotSlash(p) {
      DotSlashesShorter(p[2..]);
    }
  }

  lemma {:induction false} SlashesShorter(p: Bytes)
    ensures |TrimSlashes(p)| <= |p|
  {
    if StartsSlash(p) {
      SlashesShorter(p[1..]);
    }
  }

  /** "/./a" keeps its "./". */
  lemma NormalizeNotClean()
    ensures Normalize([SLASH, DOT, SLASH, 0x61]) == Some([DOT, SLASH, 0x61])
  {
    var path: Bytes := [SLASH, DOT, SLASH, 0x61];
    assert path[1..] == [DOT, SLASH, 0x61];
    assert TrimSlashes(path) == TrimSlashes(path[1..]) == [DOT, SLASH, 0x61];
  }

  // ---- The stream ----

  /** Regular stands for regular and continuous files; Other for the entry types that are skipped. */
  datatype Kind = Directory | Symlink | Link | Char | Block | Fifo | Regular | Other

  /** A header field that may be unreadable, missing, or present. */
  datatype Field<+T> = Bad | Missing | Present(value: T)

  datatype TarItem = TarItem(
    path: Bytes, mode: Option<U32>, kind: Kind, link: Field<Bytes>, major: Field<U32>, minor: Field<U32>,
    content: Option<Bytes>)

  datatype TarError = ReadFailed | BadMode | BadLink | NoTarget | BadDevice

  /** `None` is an entry the reader failed on. */
  type Stream = seq<Option<TarItem>>

  type FileData = map<Bytes, Bytes>

  /** `S_IFxxx | perms`; the permission bits never overlap the type bits. */
  function Mode(kind: U32, mode: U32): U32
    requires kind <= 0xF000
  {
    kind + mode % 0x1000
  }

  function LinkTarget(target: Bytes): Bytes {
    match Normalize(target)
    case Some(n) => n
    case None => target
  }

  function Lookup(files: FileData, name: Bytes): Bytes {
    if name in files then files[name] else []
  }

  function DevOr0(f: Field<U32>): U32
    requires !f.Bad?
  {
    if f.Present? then f.value else 0
  }

  /** The entry for one item, given the data a hardlink to its target would copy; `None` for skipped types. */
  function Built(item: TarItem, name: Bytes, files: FileData): Result<Option<Entry>, TarError> {
    match item.mode
    case None => Err(BadMode)
    case Some(mode) =>
      match item.kind
      case Directory => Ok(Some(NewEntry(name, Mode(S_IFDIR, mode), 2, [])))
      case Symlink =>
        if item.link.Bad? then Err(BadLink)
        else if item.link.Missing? then Err(NoTarget)
        else Ok(Some(NewEntry(name, S_IFLNK + 0x1FF, 1, item.link.value)))
      case Link =>
        if item.link.Bad? then Err(BadLink)
        else if item.link.Missing? then Err(NoTarget)
        else Ok(Some(NewEntry(name, Mode(S_IFREG, mode), 1, Lookup(files, LinkTarget(item.link.value)))))
      case Char => BuiltDevice(item, name, Mode(S_IFCHR, mode))
      case Block => BuiltDevice(item, name, Mode(S_IFBLK, mode))
      case Fifo => Ok(Some(NewEntry(name, Mode(S_IFIFO, mode), 1, [])))
      case Regular =>
        if item.content.None? then Err(ReadFailed)
        else Ok(Some(NewEntry(name, Mode(S_IFREG, mode), 1, item.content.value)))
      case Other => Ok(None)
  }

  function BuiltDevice(item: TarItem, name: Bytes, mode: U32): Result<Option<Entry>, TarError> {
    if item.major.Bad? || item.minor.Bad? then Err(BadDevice)
    else Ok(Some(DevSplitEntry(name, mode, DevOr0(item.major), DevOr0(item.minor))))
  }

  /** Entries and remembered file contents; `error` is set at the first failure and ends the fold. */
  datatype Ingest = Ingest(entries: map<Bytes, Entry>, files: FileData, error: Option<TarError>)

  function Consume(s: Ingest, item: Option<TarItem>): Ingest {
    if s.error.Some? then s
    else if item.None? then s.(error := Some(ReadFailed))
    else
      match Normalize(item.value.path)
      case None => s
      case Some(name) =>
        match Built(item.value, name, s.files)
        case Err(e) => s.(error := Some(e))
        case Ok(None) => s
        case Ok(Some(entry)) =>
          Ingest(s.entries[name := entry],
                 if item.value.kind.Regular? then s.files[name := entry.data] else s.files,
                 None)
  }

  /** The state after the first `n` items. */
  function IngestTo(stream: Stream, n: nat, entries: map<Bytes, Entry>): Ingest
    requires n <= |stream|
    decreases n, 1
  {
    IngestStep(stream, n, entries)
  }

  function IngestStep(stream: Stream, n: nat, entries: map<Bytes, Entry>): Ingest
    requires n <= |stream|
    decreases n, 0
  {
    if n == 0 then Ingest(entries, map[], None) else Consume(IngestTo(stream, n - 1, entries), stream[n - 1])
  }
}
