/** `CpioBuilder`: the map of entries that is filled from trees and tar streams and rendered in name order. */
module Builder {
  import opened Bytes
  import opened Wrappers
  import opened NameOrder
  import opened Cpio
  import opened TarStream
  import opened DirWalk

  /** Every entry is filed under its own name. */
  predicate KeyedByName(entries: map<Bytes, Entry>) {
    forall name :: name in entries ==> entries[name].name == name
  }

  /** The entries in the order a sorted map yields them. */
  ghost function Sorted(entries: map<Bytes, Entry>): (es: seq<Entry>)
    ensures |es| == |entries|
  {
    InOrderSorted(entries.Keys);
    var names := InOrder(entries.Keys);
    seq(|names|, i requires 0 <= i < |names| =>
      assert names[i] in names;
      entries[names[i]])
  }

  class CpioBuilder {
    var entries: map<Bytes, Entry>

    constructor ()
      ensures entries == map[]
    {
      entries := map[];
    }

    method Insert(e: Entry)
      modifies this
      ensures entries == old(entries)[e.name := e]
    {
      entries := entries[e.name := e];
    }

    method AddTar(stream: Stream) returns (error: Option<TarError>)
      modifies this
      ensures var result := IngestTo(stream, |stream|, old(entries));
        entries == result.entries && error == result.error
    {
      var fileData: FileData := map[];
      ghost var before := entries;
      assert IngestTo(stream, 0, before) == IngestStep(stream, 0, before);
      for i := 0 to |stream|
        invariant Ingest(entries, fileData, None) == IngestTo(stream, i, before)
      {
        assert IngestTo(stream, i + 1, before) == IngestStep(stream, i + 1, before);
        if stream[i].None? {
          StaysFailed(stream, i + 1, |stream|, before);
          return Some(ReadFailed);
        }
        var item := stream[i].value;
        match Normalize(item.path)
        case None =>
        case Some(name) =>
          var built := Built(item, name, fileData);
          if built.Err? {
            StaysFailed(stream, i + 1, |stream|, before);
            return Some(built.error);
          }
          if built.value.Some? {
            var entry := built.value.value;
            if item.kind.Regular? {
              fileData := fileData[name := entry.data];
            }
            Insert(entry);
          }
      }
      error := None;
    }

    method AddDir(walk: Walk) returns (error: Option<WalkError>)
      modifies this
      ensures var result := WalkTo(walk, |walk|, old(entries)); entries == result.entries && error == result.error
    {
      ghost var before := entries;
      assert WalkTo(walk, 0, before) == WalkStep(walk, 0, before);
      for i := 0 to |walk|
        invariant Walked(entries, None) == WalkTo(walk, i, before)
      {
        assert WalkTo(walk, i + 1, before) == WalkStep(walk, i + 1, before);
        if walk[i].None? {
          StaysStopped(walk, i + 1, |walk|, before);
          return Some(WalkFailed);
        }
        var item := walk[i].value;
        match Normalize(item.path)
        case None =>
        case Some(name) =>
          if item.meta.None? {
            StaysStopped(walk, i + 1, |walk|, before);
            return Some(NoMetadata);
          }
          var built := FileEntry(item.meta.value, name);
          if built.Err? {
            StaysStopped(walk, i + 1, |walk|, before);
            return Some(built.error);
          }
          if built.value.Some? {
            Insert(built.value.value);
          }
      }
      error := None;
    }

    /** Renders the archive, or fails on an empty root filesystem. */
    method Finish() returns (r: Option<Bytes>)
      requires KeyedByName(entries)
      ensures r == if entries == map[] then None else Some(Archive(Sorted(entries)))
    {
      if entries == map[] {
        return None;
      }
      var values := ValuesInOrder(entries);
      var archive := Render(values);
      return Some(archive);
    }
  }

  /** The entries in the order given, numbered from 1, and the trailer. */
  method Render(values: seq<Entry>) returns (archive: Bytes)
    ensures archive == Archive(values)
  {
    var out := new Buffer();
    assert WrittenTo(values, 0) == WrittenStep(values, 0);
    for i := 0 to |values|
      invariant fresh(out) && out.bytes == WrittenTo(values, i)
    {
      WriteEntry(out, values[i], Ino(i));
      assert WrittenTo(values, i + 1) == WrittenStep(values, i + 1);
    }
    WriteTrailer(out);
    assert WrittenTo(values, |values| + 1) == WrittenStep(values, |values| + 1);
    return out.bytes;
  }

  /** `BTreeMap::values`: repeatedly take the least remaining key. */
  method ValuesInOrder(entries: map<Bytes, Entry>) returns (values: seq<Entry>)
    ensures values == Sorted(entries)
  {
    values := [];
    var rest := entries.Keys;
    ghost var done: seq<Bytes> := [];
    while rest != {}
      invariant rest <= entries.Keys
      invariant done + InOrder(rest) == InOrder(entries.Keys)
      invariant ValuesOf(entries, done, values)
      decreases |rest|
    {
      LeastExists(rest);
      var name :| IsLeast(name, rest);
      LeastUnique(name, InOrder(rest)[0], rest);
      assert InOrder(rest) == [name] + InOrder(rest - {name});
      ValuesExtend(entries, done, values, name);
      values, done, rest := values + [entries[name]], done + [name], rest - {name};
    }
    assert done == InOrder(entries.Keys);
    SortedIsValues(entries, done, values);
  }

  /** The entries of these names, in the same order. */
  predicate ValuesOf(entries: map<Bytes, Entry>, names: seq<Bytes>, values: seq<Entry>) {
    |values| == |names| && forall i :: 0 <= i < |names| ==> names[i] in entries && values[i] == entries[names[i]]
  }

  lemma ValuesExtend(entries: map<Bytes, Entry>, names: seq<Bytes>, values: seq<Entry>, name: Bytes)
    requires ValuesOf(entries, names, values) && name in entries
    ensures ValuesOf(entries, names + [name], values + [entries[name]])
  {}

  lemma SortedIsValues(entries: map<Bytes, Entry>, names: seq<Bytes>, values: seq<Entry>)
    requires names == InOrder(entries.Keys) && ValuesOf(entries, names, values)
    ensures values == Sorted(entries)
  {}

  lemma LeastUnique(a: Bytes, b: Bytes, names: set<Bytes>)
    requires IsLeast(a, names) && IsLeast(b, names)
    ensures a == b
  {
    if a != b {
      BelowTransitive(a, b, a);
      BelowIrreflexive(a);
    }
  }

  lemma {:induction false} StaysFailed(stream: Stream, m: nat, n: nat, entries: map<Bytes, Entry>)
    requires m <= n <= |stream| && IngestTo(stream, m, entries).error.Some?
    ensures IngestTo(stream, n, entries) == IngestTo(stream, m, entries)
    decreases n
  {
    if m < n {
      assert IngestTo(stream, n, entries) == IngestStep(stream, n, entries);
      StaysFailed(stream, m, n - 1, entries);
    }
  }
}
