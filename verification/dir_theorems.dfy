/** A directory tree and a tar stream of it make the same layer. */
module DirTheorems {
  import opened Bytes
  import opened Wrappers
  import opened Cpio
  import opened TarStream
  import opened TarTheorems
  import opened DirWalk

  // ---- The tar stream of a walk ----

  function KindOf(t: FileType): Kind {
    match t
    case SymlinkFile(_) => Symlink
    case DirectoryFile => Directory
    case RegularFile(_) => Regular
    case CharFile => Char
    case BlockFile => Block
    case FifoFile => Fifo
    case OtherFile => Other
  }

  /** The tar item that describes a file: its device number split, its target or its content as they were read. */
  function ItemOf(path: Bytes, meta: FileMeta): TarItem {
    var link := if meta.fileType.SymlinkFile? && meta.fileType.target.Some? then Present(meta.fileType.target.value)
                else Bad;
    var content := if meta.fileType.RegularFile? then meta.fileType.content else None;
    TarItem(path, Some(meta.mode), KindOf(meta.fileType), link, Present(DevMajor(meta.rdev)),
            Present(DevMinor(meta.rdev)), content)
  }

  function TarItemOf(item: WalkItem): TarItem {
    if item.meta.Some? then ItemOf(item.path, item.meta.value)
    else TarItem(item.path, None, Other, Missing, Missing, Missing, None)
  }

  function TarOf(walk: Walk): (stream: Stream)
    ensures |stream| == |walk|
    ensures forall i :: 0 <= i < |walk| ==> stream[i] == TarSlot(walk[i])
  {
    seq(|walk|, i requires 0 <= i < |walk| => TarSlot(walk[i]))
  }

  function TarSlot(item: Option<WalkItem>): Option<TarItem> {
    if item.None? then None else Some(TarItemOf(item.value))
  }

  /** Both ways of filing one file agree, whatever a tar stream remembers for hardlinks. */
  lemma SameFiling(item: WalkItem, name: Bytes, files: FileData)
    ensures var built := Built(TarItemOf(item), name, files);
      && (item.meta.None? ==> built.Err?)
      && (item.meta.Some? ==> (built.Err? <==> FileEntry(item.meta.value, name).Err?))
      && (item.meta.Some? && built.Ok? ==> built.value == FileEntry(item.meta.value, name).value)
  {}

  predicate SameState(w: Walked, s: Ingest) {
    w.entries == s.entries && (w.error.Some? <==> s.error.Some?)
  }

  lemma SameVisit(w: Walked, s: Ingest, item: Option<WalkItem>)
    requires SameState(w, s)
    ensures SameState(Visit(w, item), Consume(s, TarSlot(item)))
  {
    if item.Some? && Normalize(item.value.path).Some? {
      SameFiling(item.value, Normalize(item.value.path).value, s.files);
    }
  }

  /** Walking a tree takes in the same entries as reading the tar stream of it, and fails for the same items. */
  lemma {:induction false} DirIsTar(walk: Walk, n: nat, entries: map<Bytes, Entry>)
    requires n <= |walk|
    ensures SameState(WalkTo(walk, n, entries), IngestTo(TarOf(walk), n, entries))
  {
    assert WalkTo(walk, n, entries) == WalkStep(walk, n, entries);
    assert IngestTo(TarOf(walk), n, entries) == IngestStep(TarOf(walk), n, entries);
    if n > 0 {
      DirIsTar(walk, n - 1, entries);
      SameVisit(WalkTo(walk, n - 1, entries), IngestTo(TarOf(walk), n - 1, entries), walk[n - 1]);
    }
  }

  // ---- What a walk leaves ----

  /** `entry` is what the file describes: name, content, link count, type and permissions, device number. */
  predicate DescribesFile(item: WalkItem, entry: Entry) {
    && Normalize(item.path) == Some(entry.name) && item.meta.Some?
    && var meta := item.meta.value;
    && entry.nlink == (if meta.fileType.DirectoryFile? then 2 else 1)
    && entry.data == (match meta.fileType
                      case RegularFile(Some(content)) => content
                      case SymlinkFile(Some(target)) => target
                      case _ => [])
    && entry.mode / 0x1000 == (match meta.fileType
                               case DirectoryFile => 4
                               case SymlinkFile(_) => 10
                               case CharFile => 2
                               case BlockFile => 6
                               case FifoFile => 1
                               case _ => 8)
    && entry.mode % 0x1000 == (if meta.fileType.SymlinkFile? then 0x1FF else meta.mode % 0x1000)
    && (if meta.fileType.CharFile? || meta.fileType.BlockFile?
        then meta.rdev < 0x1_0000_0000_0000_0000 ==> MakeDev(entry.rdevmajor, entry.rdevminor) == meta.rdev
        else entry.rdevmajor == 0 && entry.rdevminor == 0)
  }

  lemma FileDescribed(item: WalkItem, name: Bytes)
    requires Normalize(item.path) == Some(name) && item.meta.Some?
    requires FileEntry(item.meta.value, name).Ok? && FileEntry(item.meta.value, name).value.Some?
    ensures DescribesFile(item, FileEntry(item.meta.value, name).value.value)
  {
    var meta := item.meta.value;
    BuiltModes(meta.mode);
    if meta.rdev < 0x1_0000_0000_0000_0000 {
      DeviceNumbersRecompose(name, Mode(S_IFCHR, meta.mode), meta.rdev);
      DeviceNumbersRecompose(name, Mode(S_IFBLK, meta.mode), meta.rdev);
    }
  }

  /** Item `i` of the walk is filed under `name`. */
  predicate FiledAs(walk: Walk, i: nat, name: Bytes)
    requires i < |walk|
  {
    && walk[i].Some? && walk[i].value.meta.Some? && !walk[i].value.meta.value.fileType.OtherFile?
    && Normalize(walk[i].value.path) == Some(name)
  }

  /** The last item below `n` that is filed under `name`, if there is one. */
  predicate LastFiled(walk: Walk, i: nat, n: nat, name: Bytes)
    requires i < n <= |walk|
  {
    FiledAs(walk, i, name) && forall j :: i < j < n ==> !FiledAs(walk, j, name)
  }

  /** After a walk without error each name holds what the last file of that name is; other names keep what they had. */
  lemma {:induction false} WalkLeaves(walk: Walk, n: nat, entries: map<Bytes, Entry>, name: Bytes)
    requires n <= |walk| && WalkTo(walk, n, entries).error.None?
    ensures var after := WalkTo(walk, n, entries).entries;
      && (forall i :: 0 <= i < n && LastFiled(walk, i, n, name) ==>
        name in after && DescribesFile(walk[i].value, after[name]))
      && ((forall i :: 0 <= i < n ==> !FiledAs(walk, i, name)) ==>
        (name in after <==> name in entries) && (name in after ==> after[name] == entries[name]))
  {
    assert WalkTo(walk, n, entries) == WalkStep(walk, n, entries);
    if n > 0 {
      WalkLeaves(walk, n - 1, entries, name);
      VisitLeaves(WalkTo(walk, n - 1, entries), walk[n - 1], walk, n - 1, name);
      forall i | 0 <= i < n - 1 && LastFiled(walk, i, n, name) ensures LastFiled(walk, i, n - 1, name) {
      }
    }
  }

  lemma VisitLeaves(s: Walked, item: Option<WalkItem>, walk: Walk, i: nat, name: Bytes)
    requires i < |walk| && item == walk[i] && s.error.None? && Visit(s, item).error.None?
    ensures var before, after := s.entries, Visit(s, item).entries;
      if FiledAs(walk, i, name) then name in after && DescribesFile(item.value, after[name])
      else (name in after <==> name in before) && (name in after ==> after[name] == before[name])
  {
    if FiledAs(walk, i, name) {
      FileDescribed(item.value, name);
    }
  }

  // ---- The order of the walk ----

  lemma OneMore<T>(a: seq<T>, x: T, b: seq<T>)
    ensures multiset(a + [x] + b) == multiset(a + b) + multiset{x}
  {
    assert a + [x] + b == a + ([x] + b);
  }

  lemma Rejoined<T>(s: seq<T>, t: seq<T>, i: nat)
    requires s != [] && i < |t| && t[i] == s[0]
    ensures s == [s[0]] + s[1..] && t == t[..i] + [s[0]] + t[i + 1..]
  {}

  lemma Cancel<T>(a: multiset<T>, b: multiset<T>, x: T)
    requires a + multiset{x} == b + multiset{x}
    ensures a == b
  {
    assert a == (a + multiset{x}) - multiset{x};
    assert b == (b + multiset{x}) - multiset{x};
  }

  /** One item taken out of both leaves permutations. */
  lemma RestPermutes<T>(s: seq<T>, t: seq<T>, i: nat)
    requires multiset(s) == multiset(t) && s != [] && i < |t| && t[i] == s[0]
    ensures multiset(s[1..]) == multiset(t[..i] + t[i + 1..])
  {
    Rejoined(s, t, i);
    OneMore([], s[0], s[1..]);
    OneMore(t[..i], s[0], t[i + 1..]);
    assert [] + [s[0]] + s[1..] == s && [] + s[1..] == s[1..];
    Cancel(multiset(s[1..]), multiset(t[..i] + t[i + 1..]), s[0]);
  }

  lemma TarOfSplit(a: Walk, item: Option<WalkItem>, b: Walk)
    ensures TarOf(a + [item] + b) == TarOf(a) + [TarSlot(item)] + TarOf(b)
    ensures TarOf(a + b) == TarOf(a) + TarOf(b)
  {}

  lemma TarOfOneMore(a: Walk, item: Option<WalkItem>, b: Walk)
    ensures multiset(TarOf(a + [item] + b)) == multiset(TarOf(a + b)) + multiset{TarSlot(item)}
  {
    TarOfSplit(a, item, b);
    OneMore(TarOf(a), TarSlot(item), TarOf(b));
  }

  lemma {:induction false} TarOfPermutes(s: Walk, t: Walk)
    requires multiset(s) == multiset(t)
    ensures multiset(TarOf(s)) == multiset(TarOf(t))
    decreases |s|
  {
    assert |s| == |multiset(s)| == |multiset(t)| == |t|;
    if s != [] {
      assert s[0] in multiset(t);
      var i :| 0 <= i < |t| && t[i] == s[0];
      RestPermutes(s, t, i);
      TarOfPermutes(s[1..], t[..i] + t[i + 1..]);
      Rejoined(s, t, i);
      TarOfOneMore([], s[0], s[1..]);
      TarOfOneMore(t[..i], s[0], t[i + 1..]);
      assert [] + [s[0]] + s[1..] == s && [] + s[1..] == s[1..];
    }
  }

  /** The files of the walk are filed under distinct names. */
  predicate DistinctFiles(walk: Walk) {
    DistinctNames(TarOf(walk))
  }

  lemma NoLinks(walk: Walk)
    ensures NoHardlinks(TarOf(walk))
  {}

  /** The order in which a tree is walked decides neither whether it is taken in nor what of it is. */
  lemma {:induction false} WalkOrderIndependent(s: Walk, t: Walk, entries: map<Bytes, Entry>)
    requires multiset(s) == multiset(t) && DistinctFiles(s)
    ensures WalkTo(s, |s|, entries).error.None? <==> WalkTo(t, |t|, entries).error.None?
    ensures WalkTo(s, |s|, entries).error.None? ==>
      WalkTo(s, |s|, entries).entries == WalkTo(t, |t|, entries).entries
  {
    DirIsTar(s, |s|, entries);
    DirIsTar(t, |t|, entries);
    TarOfPermutes(s, t);
    NoLinks(s);
    SameStreams(TarOf(s), TarOf(t), entries);
  }

  lemma {:induction false} SameStreams(x: Stream, y: Stream, entries: map<Bytes, Entry>)
    requires multiset(x) == multiset(y) && DistinctNames(x) && NoHardlinks(x)
    ensures IngestTo(x, |x|, entries).error.None? <==> IngestTo(y, |y|, entries).error.None?
    ensures IngestTo(x, |x|, entries).error.None? ==>
      IngestTo(x, |x|, entries).entries == IngestTo(y, |y|, entries).entries
  {
    OrderIndependent(x, y, entries);
  }
}
