/** Which failure taking in a tar stream or walking a tree reports: that of the first item that has one. */
module TarFaults {
  import opened Bytes
  import opened Wrappers
  import opened Cpio
  import opened TarStream
  import opened TarTheorems
  import opened Builder
  import opened DirWalk

  // ---- Tar streams ----

  /** What is wrong with an item that is to be filed. */
  predicate HasFault(item: TarItem, e: TarError) {
    if item.mode.None? then e == BadMode
    else match e
         case BadMode => false
         case BadLink => (item.kind.Symlink? || item.kind.Link?) && item.link.Bad?
         case NoTarget => (item.kind.Symlink? || item.kind.Link?) && item.link.Missing?
         case BadDevice => (item.kind.Char? || item.kind.Block?) && (item.major.Bad? || item.minor.Bad?)
         case ReadFailed => item.kind.Regular? && item.content.None?
  }

  /** An item that could not be read, or one with a name and a fault. */
  predicate IsFaulty(item: Option<TarItem>, e: TarError) {
    match item
    case None => e == ReadFailed
    case Some(it) => Normalize(it.path).Some? && HasFault(it, e)
  }

  /** The first item of the stream with a fault is number `i`, and has this one. */
  predicate FirstFault(stream: Stream, n: nat, i: nat, e: TarError)
    requires n <= |stream|
  {
    i < n && IsFaulty(stream[i], e) && forall j :: 0 <= j < i ==> !AnyFault(stream[j])
  }

  predicate AnyFault(item: Option<TarItem>) {
    exists e: TarError :: IsFaulty(item, e)
  }

  lemma FaultStops(s: Ingest, item: Option<TarItem>, e: TarError)
    requires s.error.None?
    ensures Consume(s, item).error == Some(e) <==> IsFaulty(item, e)
  {}

  lemma {:induction false} NoFaultBefore(stream: Stream, n: nat, entries: map<Bytes, Entry>)
    requires n <= |stream| && IngestTo(stream, n, entries).error.None?
    ensures forall j :: 0 <= j < n ==> !AnyFault(stream[j])
  {
    assert IngestTo(stream, n, entries) == IngestStep(stream, n, entries);
    if n > 0 {
      NoFaultBefore(stream, n - 1, entries);
      if AnyFault(stream[n - 1]) {
        var e: TarError :| IsFaulty(stream[n - 1], e);
        FaultStops(IngestTo(stream, n - 1, entries), stream[n - 1], e);
      }
    }
  }

  lemma {:induction false} FaultBefore(stream: Stream, n: nat, entries: map<Bytes, Entry>) returns (i: nat)
    requires n <= |stream| && IngestTo(stream, n, entries).error.Some?
    ensures i < n && FirstFault(stream, n, i, IngestTo(stream, n, entries).error.value)
  {
    assert IngestTo(stream, n, entries) == IngestStep(stream, n, entries);
    var s := IngestTo(stream, n - 1, entries);
    if s.error.None? {
      NoFaultBefore(stream, n - 1, entries);
      FaultStops(s, stream[n - 1], IngestTo(stream, n, entries).error.value);
      i := n - 1;
    } else {
      i := FaultBefore(stream, n - 1, entries);
    }
  }

  /** `AddTar` fails exactly if some item has a fault, and with that of the first such item. */
  lemma {:induction false} StreamFailsIff(stream: Stream, n: nat, entries: map<Bytes, Entry>, e: TarError)
    requires n <= |stream|
    ensures IngestTo(stream, n, entries).error == Some(e) <==> exists i :: FirstFault(stream, n, i, e)
  {
    if IngestTo(stream, n, entries).error.None? {
      NoFaultBefore(stream, n, entries);
    } else {
      var i := FaultBefore(stream, n, entries);
      var error := IngestTo(stream, n, entries).error.value;
      assert AnyFault(stream[i]);
      forall k: nat | FirstFault(stream, n, k, e) ensures k == i && e == error {
        assert AnyFault(stream[k]);
      }
    }
  }

  // ---- Walks ----

  /** An entry the walk failed on, one without metadata, or one whose target or content could not be read. */
  predicate IsUnfiled(item: Option<WalkItem>, e: WalkError) {
    match item
    case None => e == WalkFailed
    case Some(it) =>
      Normalize(it.path).Some? &&
      match it.meta
      case None => e == NoMetadata
      case Some(meta) =>
        && e == Unreadable
        && (meta.fileType == SymlinkFile(None) || meta.fileType == RegularFile(None))
  }

  predicate AnyUnfiled(item: Option<WalkItem>) {
    exists e: WalkError :: IsUnfiled(item, e)
  }

  predicate FirstUnfiled(walk: Walk, n: nat, i: nat, e: WalkError)
    requires n <= |walk|
  {
    i < n && IsUnfiled(walk[i], e) && forall j :: 0 <= j < i ==> !AnyUnfiled(walk[j])
  }

  lemma UnfiledStops(s: Walked, item: Option<WalkItem>, e: WalkError)
    requires s.error.None?
    ensures Visit(s, item).error == Some(e) <==> IsUnfiled(item, e)
  {}

  lemma {:induction false} NoneUnfiledBefore(walk: Walk, n: nat, entries: map<Bytes, Entry>)
    requires n <= |walk| && WalkTo(walk, n, entries).error.None?
    ensures forall j :: 0 <= j < n ==> !AnyUnfiled(walk[j])
  {
    assert WalkTo(walk, n, entries) == WalkStep(walk, n, entries);
    if n > 0 {
      NoneUnfiledBefore(walk, n - 1, entries);
      if AnyUnfiled(walk[n - 1]) {
        var e: WalkError :| IsUnfiled(walk[n - 1], e);
        UnfiledStops(WalkTo(walk, n - 1, entries), walk[n - 1], e);
      }
    }
  }

  lemma {:induction false} UnfiledBefore(walk: Walk, n: nat, entries: map<Bytes, Entry>) returns (i: nat)
    requires n <= |walk| && WalkTo(walk, n, entries).error.Some?
    ensures i < n && FirstUnfiled(walk, n, i, WalkTo(walk, n, entries).error.value)
  {
    assert WalkTo(walk, n, entries) == WalkStep(walk, n, entries);
    var s := WalkTo(walk, n - 1, entries);
    if s.error.None? {
      NoneUnfiledBefore(walk, n - 1, entries);
      UnfiledStops(s, walk[n - 1], WalkTo(walk, n, entries).error.value);
      i := n - 1;
    } else {
      i := UnfiledBefore(walk, n - 1, entries);
    }
  }

  /** `AddDir` fails exactly if some item cannot be filed, and with what is wrong with the first such item. */
  lemma {:induction false} WalkFailsIff(walk: Walk, n: nat, entries: map<Bytes, Entry>, e: WalkError)
    requires n <= |walk|
    ensures WalkTo(walk, n, entries).error == Some(e) <==> exists i :: FirstUnfiled(walk, n, i, e)
  {
    if WalkTo(walk, n, entries).error.None? {
      NoneUnfiledBefore(walk, n, entries);
    } else {
      var i := UnfiledBefore(walk, n, entries);
      var error := WalkTo(walk, n, entries).error.value;
      assert AnyUnfiled(walk[i]);
      forall k: nat | FirstUnfiled(walk, n, k, e) ensures k == i && e == error {
        assert AnyUnfiled(walk[k]);
      }
    }
  }
}
