/** What a tar stream leaves in the builder, whatever its order and duplicates. */
module TarTheorems {
  import opened Bytes
  import opened Wrappers
  import opened NameOrder
  import opened Cpio
  import opened TarStream
  import opened Builder

  // ---- Names and indices ----

  /** The normalised name under which item `i` is filed, if it is filed at all. */
  function NameAt(stream: Stream, i: nat): Option<Bytes>
    requires i < |stream|
  {
    if stream[i].None? || stream[i].value.kind.Other? then None else Normalize(stream[i].value.path)
  }

  /** The last index below `m` filed under `name`. */
  function LastIndex(stream: Stream, m: nat, name: Bytes): (r: Option<nat>)
    requires m <= |stream|
    ensures r.Some? ==> r.value < m && NameAt(stream, r.value) == Some(name)
    ensures r.Some? ==> forall i :: r.value < i < m ==> NameAt(stream, i) != Some(name)
    ensures r.None? ==> forall i :: 0 <= i < m ==> NameAt(stream, i) != Some(name)
  {
    if m == 0 then None
    else if NameAt(stream, m - 1) == Some(name) then Some(m - 1)
    else LastIndex(stream, m - 1, name)
  }

  predicate IsRegular(stream: Stream, i: nat, name: Bytes)
    requires i < |stream|
  {
    NameAt(stream, i) == Some(name) && stream[i].value.kind.Regular?
  }

  /** The contents of the latest regular item below `m` filed under `name`, empty if there is none. */
  function RegularData(stream: Stream, m: nat, name: Bytes): Bytes
    requires m <= |stream|
  {
    if m == 0 then []
    else if IsRegular(stream, m - 1, name) && stream[m - 1].value.content.Some? then stream[m - 1].value.content.value
    else RegularData(stream, m - 1, name)
  }

  // ---- The fold, described without the fold ----

  predicate Clean(stream: Stream, m: nat, entries: map<Bytes, Entry>)
    requires m <= |stream|
  {
    IngestTo(stream, m, entries).error.None?
  }

  lemma CleanBefore(stream: Stream, m: nat, n: nat, entries: map<Bytes, Entry>)
    requires m <= n <= |stream| && Clean(stream, n, entries)
    ensures Clean(stream, m, entries)
  {
    if !Clean(stream, m, entries) {
      StaysFailed(stream, m, n, entries);
    }
  }

  /** The remembered files are the latest regular items. */
  lemma {:induction false} FilesMeaning(stream: Stream, m: nat, entries: map<Bytes, Entry>, name: Bytes)
    requires m <= |stream| && Clean(stream, m, entries)
    ensures Lookup(IngestTo(stream, m, entries).files, name) == RegularData(stream, m, name)
  {
    assert IngestTo(stream, m, entries) == IngestStep(stream, m, entries);
    if m > 0 {
      CleanBefore(stream, m - 1, m, entries);
      FilesMeaning(stream, m - 1, entries, name);
      ConsumedData(IngestTo(stream, m - 1, entries), stream[m - 1], name);
    }
  }

  /** A regular item is remembered under its name; any other leaves what is remembered alone. */
  lemma ConsumedData(s: Ingest, item: Option<TarItem>, name: Bytes)
    requires s.error.None? && Consume(s, item).error.None?
    ensures item.Some?
    ensures var here := item.value.kind.Regular? && Normalize(item.value.path) == Some(name);
      && (here ==> item.value.content.Some? && Lookup(Consume(s, item).files, name) == item.value.content.value)
      && (!here ==> Lookup(Consume(s, item).files, name) == Lookup(s.files, name))
  {}

  /** The name a hardlink's target is looked up under: normalised, unless nothing of it would be left. */
  function TargetName(target: Bytes): Bytes {
    if Normalize(target).Some? then Normalize(target).value else target
  }

  /** The data item `i` contributes: its own, its symlink target, or a copy of what it is a hardlink to. */
  function DataAt(stream: Stream, i: nat): Bytes
    requires i < |stream| && stream[i].Some?
  {
    var item := stream[i].value;
    match item.kind
    case Regular => if item.content.Some? then item.content.value else []
    case Symlink => if item.link.Present? then item.link.value else []
    case Link => if item.link.Present? then RegularData(stream, i, TargetName(item.link.value)) else []
    case _ => []
  }

  /** `entry` is what item `i` describes. */
  predicate Describes(stream: Stream, i: nat, entry: Entry)
    requires i < |stream| && NameAt(stream, i).Some?
  {
    var item := stream[i].value;
    && entry.name == NameAt(stream, i).value
    && entry.data == DataAt(stream, i)
    && item.mode.Some?
    && HasMode(entry.mode, item.kind, item.mode.value)
    && entry.nlink == (if item.kind.Directory? then 2 else 1)
    && entry.rdevmajor == (if (item.kind.Char? || item.kind.Block?) && item.major.Present? then item.major.value else 0)
    && entry.rdevminor == (if (item.kind.Char? || item.kind.Block?) && item.minor.Present? then item.minor.value else 0)
  }

  /** The file type in the bits above the lowest twelve, and in these the item's own, but 0777 for a symlink. */
  predicate HasMode(mode: U32, kind: Kind, given: U32) {
    && mode / 0x1000 == TypeBits(kind)
    && mode % 0x1000 == if kind.Symlink? then 0x1FF else given % 0x1000
  }

  /** S_IFDIR, S_IFLNK, S_IFCHR, S_IFBLK, S_IFIFO and S_IFREG without their low bits; a hardlink is regular. */
  function TypeBits(kind: Kind): nat {
    match kind
    case Directory => 4
    case Symlink => 10
    case Char => 2
    case Block => 6
    case Fifo => 1
    case _ => 8
  }

  lemma ModeBits(kind: U32, t: nat, mode: U32)
    requires kind == 0x1000 * t && t <= 15
    ensures Mode(kind, mode) / 0x1000 == t && Mode(kind, mode) % 0x1000 == mode % 0x1000
  {}

  /** The modes that are built. */
  lemma BuiltModes(mode: U32)
    ensures HasMode(Mode(S_IFDIR, mode), Directory, mode) && HasMode(Mode(S_IFREG, mode), Regular, mode)
    ensures HasMode(Mode(S_IFCHR, mode), Char, mode) && HasMode(Mode(S_IFBLK, mode), Block, mode)
    ensures HasMode(Mode(S_IFIFO, mode), Fifo, mode) && HasMode(Mode(S_IFREG, mode), Link, mode)
    ensures HasMode(S_IFLNK + 0x1FF, Symlink, mode)
  {
    ModeBits(S_IFDIR, 4, mode);
    ModeBits(S_IFREG, 8, mode);
    ModeBits(S_IFCHR, 2, mode);
    ModeBits(S_IFBLK, 6, mode);
    ModeBits(S_IFIFO, 1, mode);
  }

  /** One step of the fold: a filed item replaces what its name held, anything else changes nothing. */
  lemma OneItem(stream: Stream, m: nat, entries: map<Bytes, Entry>) returns (e: Option<Entry>)
    requires m < |stream| && Clean(stream, m + 1, entries)
    ensures var before, after := IngestTo(stream, m, entries).entries, IngestTo(stream, m + 1, entries).entries;
      match NameAt(stream, m)
      case None => after == before
      case Some(name) => e.Some? && Describes(stream, m, e.value) && after == before[name := e.value]
  {
    CleanBefore(stream, m, m + 1, entries);
    assert IngestTo(stream, m + 1, entries) == IngestStep(stream, m + 1, entries);
    e := None;
    if NameAt(stream, m).Some? {
      var item := stream[m].value;
      if item.kind.Link? && item.link.Present? {
        FilesMeaning(stream, m, entries, LinkTarget(item.link.value));
      }
      e := Built(item, NameAt(stream, m).value, IngestTo(stream, m, entries).files).value;
      BuiltModes(item.mode.value);
    }
  }

  /**
    Each normalised name holds the last item filed under it, with a hardlink's data taken from the
    latest earlier regular item of its target; names no item is filed under keep what they had.
   */
  lemma {:induction false} LastItemWins(stream: Stream, m: nat, entries: map<Bytes, Entry>, name: Bytes)
    requires m <= |stream| && Clean(stream, m, entries)
    ensures var after := IngestTo(stream, m, entries).entries;
      match LastIndex(stream, m, name)
      case None => (name in after <==> name in entries) && (name in entries ==> after[name] == entries[name])
      case Some(i) => name in after && Describes(stream, i, after[name])
  {
    if m == 0 {
      assert IngestTo(stream, 0, entries) == IngestStep(stream, 0, entries);
    } else {
      CleanBefore(stream, m - 1, m, entries);
      LastItemWins(stream, m - 1, entries, name);
      var _ := OneItem(stream, m - 1, entries);
    }
  }

  lemma {:induction false} IngestKeepsKeys(stream: Stream, m: nat, entries: map<Bytes, Entry>)
    requires m <= |stream| && KeyedByName(entries)
    ensures KeyedByName(IngestTo(stream, m, entries).entries)
  {
    assert IngestTo(stream, m, entries) == IngestStep(stream, m, entries);
    if m > 0 {
      IngestKeepsKeys(stream, m - 1, entries);
    }
  }

  // ---- When a stream is taken in ----

  /** The item can be filed by itself: it is readable, and skipped or well-formed. */
  predicate Wellformed(item: Option<TarItem>) {
    item.Some? &&
    match Normalize(item.value.path)
    case None => true
    case Some(name) => Built(item.value, name, map[]).Ok?
  }

  /** Whether an item is an error does not depend on the contents remembered for hardlinks. */
  lemma ErrorsAreLocal(item: TarItem, name: Bytes, files: FileData)
    ensures Built(item, name, files).Ok? <==> Built(item, name, map[]).Ok?
  {}

  /** A stream is taken in without error exactly when each of its items could be. */
  lemma {:induction false} CleanIff(stream: Stream, m: nat, entries: map<Bytes, Entry>)
    requires m <= |stream|
    ensures Clean(stream, m, entries) <==> forall i :: 0 <= i < m ==> Wellformed(stream[i])
  {
    assert IngestTo(stream, m, entries) == IngestStep(stream, m, entries);
    if m > 0 {
      CleanIff(stream, m - 1, entries);
      var item := stream[m - 1];
      if item.Some? && Normalize(item.value.path).Some? {
        ErrorsAreLocal(item.value, Normalize(item.value.path).value, IngestTo(stream, m - 1, entries).files);
      }
    }
  }

  lemma CleanInAnyOrder(s: Stream, t: Stream, entries: map<Bytes, Entry>)
    requires multiset(s) == multiset(t) && Clean(s, |s|, entries)
    ensures Clean(t, |t|, entries)
  {
    CleanIff(s, |s|, entries);
    CleanIff(t, |t|, entries);
    forall i | 0 <= i < |t| ensures Wellformed(t[i]) {
      var p := FindItem(s, t, i);
      assert Wellformed(s[p]);
    }
  }

  // ---- Order independence ----

  predicate DistinctNames(stream: Stream) {
    forall i, j :: 0 <= i < j < |stream| && NameAt(stream, i).Some? ==> NameAt(stream, i) != NameAt(stream, j)
  }

  predicate NoHardlinks(stream: Stream) {
    forall i :: 0 <= i < |stream| && stream[i].Some? ==> !stream[i].value.kind.Link?
  }

  lemma {:induction false} OccursTwice<T>(s: seq<T>, x: T) returns (i: nat, j: nat)
    requires multiset(s)[x] >= 2
    ensures i < j < |s| && s[i] == x && s[j] == x
  {
    var n := |s| - 1;
    assert s == s[..n] + [s[n]];
    if s[n] == x && multiset(s[..n])[x] == 1 {
      i :| 0 <= i < n && s[..n][i] == x;
      j := n;
    } else {
      i, j := OccursTwice(s[..n], x);
    }
  }

  lemma TwiceOccurs<T>(s: seq<T>, i: nat, j: nat)
    requires i < j < |s| && s[i] == s[j]
    ensures multiset(s)[s[i]] >= 2
  {
    assert s == s[..j] + [s[j]] + s[j + 1..];
    assert s[..j][i] == s[i];
  }

  lemma NoRepeats(s: Stream, i: nat, j: nat)
    requires DistinctNames(s) && i < j < |s| && s[i] == s[j]
    ensures NameAt(s, i).None?
  {
    assert NameAt(s, i) == NameAt(s, j);
  }

  /** Being filed under distinct names does not depend on the order. */
  lemma DistinctInAnyOrder(s: Stream, t: Stream)
    requires multiset(s) == multiset(t) && DistinctNames(s)
    ensures DistinctNames(t)
  {
    forall i, j | 0 <= i < j < |t| && NameAt(t, i).Some?
      ensures NameAt(t, i) != NameAt(t, j)
    {
      if t[i] == t[j] {
        TwiceOccurs(t, i, j);
        var p, q := OccursTwice(s, t[i]);
        NoRepeats(s, p, q);
      } else {
        var p, q := FindItem(s, t, i), FindItem(s, t, j);
        assert NameAt(s, p) != NameAt(s, q);
      }
    }
  }

  lemma {:induction false} FiledInBoth(s: Stream, t: Stream, name: Bytes)
    requires multiset(s) == multiset(t)
    ensures LastIndex(t, |t|, name).Some? ==> LastIndex(s, |s|, name).Some?
  {
    if LastIndex(t, |t|, name).Some? {
      var p := FindItem(s, t, LastIndex(t, |t|, name).value);
      assert NameAt(s, p) == Some(name);
    }
  }

  ghost function FindItem(s: Stream, t: Stream, i: nat): (p: nat)
    requires multiset(s) == multiset(t) && i < |t|
    ensures p < |s| && s[p] == t[i]
  {
    assert t[i] in multiset(s);
    var p :| 0 <= p < |s| && s[p] == t[i];
    p
  }

  lemma {:induction false} SameEntry(s: Stream, t: Stream, entries: map<Bytes, Entry>, name: Bytes)
    requires multiset(s) == multiset(t) && DistinctNames(s) && DistinctNames(t) && NoHardlinks(s)
    requires Clean(s, |s|, entries) && Clean(t, |t|, entries)
    ensures var a, b := IngestTo(s, |s|, entries).entries, IngestTo(t, |t|, entries).entries;
      (name in a <==> name in b) && (name in a ==> a[name] == b[name])
  {
    LastItemWins(s, |s|, entries, name);
    LastItemWins(t, |t|, entries, name);
    FiledInBoth(s, t, name);
    if LastIndex(s, |s|, name).Some? {
      var q := FindItem(t, s, LastIndex(s, |s|, name).value);
      assert NameAt(t, q) == Some(name);
      assert LastIndex(t, |t|, name) == Some(q);
    }
  }

  /**
    Without hardlinks and with distinct names, any order of the stream is taken in or none is, and all of
    them render the same bytes.
   */
  lemma OrderIndependent(s: Stream, t: Stream, entries: map<Bytes, Entry>)
    requires multiset(s) == multiset(t) && DistinctNames(s) && NoHardlinks(s)
    ensures Clean(s, |s|, entries) <==> Clean(t, |t|, entries)
    ensures Clean(s, |s|, entries) ==> SameIngest(s, t, entries)
  {
    if Clean(t, |t|, entries) {
      CleanInAnyOrder(t, s, entries);
    }
    if Clean(s, |s|, entries) {
      CleanInAnyOrder(s, t, entries);
      SameEntries(s, t, entries);
    }
  }

  ghost predicate SameIngest(s: Stream, t: Stream, entries: map<Bytes, Entry>) {
    var a, b := IngestTo(s, |s|, entries).entries, IngestTo(t, |t|, entries).entries;
    a == b && Archive(Sorted(a)) == Archive(Sorted(b))
  }

  lemma {:induction false} SameEntries(s: Stream, t: Stream, entries: map<Bytes, Entry>)
    requires multiset(s) == multiset(t) && DistinctNames(s) && NoHardlinks(s)
    requires Clean(s, |s|, entries) && Clean(t, |t|, entries)
    ensures IngestTo(s, |s|, entries).entries == IngestTo(t, |t|, entries).entries
  {
    DistinctInAnyOrder(s, t);
    forall name: Bytes
      ensures var a, b := IngestTo(s, |s|, entries).entries, IngestTo(t, |t|, entries).entries;
        (name in a <==> name in b) && (name in a ==> a[name] == b[name])
    {
      SameEntry(s, t, entries, name);
    }
  }

  // ---- Archive order ----

  lemma SortedNames(entries: map<Bytes, Entry>)
    requires KeyedByName(entries)
    ensures forall i, j :: 0 <= i < j < |Sorted(entries)| ==> Below(Sorted(entries)[i].name, Sorted(entries)[j].name)
    ensures forall e :: e in Sorted(entries) <==> e.name in entries && entries[e.name] == e
  {
    InOrderSorted(entries.Keys);
    var names := InOrder(entries.Keys);
    assert forall i :: 0 <= i < |names| ==> names[i] in names;
    forall e
      ensures e in Sorted(entries) <==> e.name in entries && entries[e.name] == e
    {
      if e.name in entries && entries[e.name] == e {
        var i :| 0 <= i < |names| && names[i] == e.name;
        assert Sorted(entries)[i] == e;
      }
    }
  }

  /** In the archive a directory always stands before everything inside it. */
  lemma DirectoryFirst(entries: map<Bytes, Entry>, i: nat, j: nat, rest: Bytes)
    requires KeyedByName(entries) && i < |Sorted(entries)| && j < |Sorted(entries)|
    requires Sorted(entries)[j].name == Sorted(entries)[i].name + [SLASH] + rest
    ensures i < j
  {
    SortedNames(entries);
    var dir := Sorted(entries)[i].name;
    assert dir + [SLASH] + rest == dir + ([SLASH] + rest);
    PrefixBelow(dir, [SLASH] + rest);
    if j < i {
      BelowTransitive(dir, Sorted(entries)[j].name, dir);
      BelowIrreflexive(dir);
    }
  }
}
