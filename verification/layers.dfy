/** Layered initramfs: one independently compressed archive per layer, concatenated. */
module Layers {
  import opened Bytes
  import opened Wrappers
  import opened NameOrder
  import opened Cpio
  import opened TarStream
  import opened DirWalk
  import opened Builder
  import opened TarTheorems
  import opened DirTheorems
  import opened CpioReader
  import opened Signing

  /** A layer is read from a tar stream or from a walk over a directory tree. */
  datatype Source = Tar(stream: Stream) | Dir(walk: Walk)

  datatype Layer = Layer(title: string, source: Source)

  datatype Initramfs = Initramfs(data: Bytes, layerHashes: seq<(string, string)>)

  datatype LayerError = BadTar(tar: TarError) | BadDir(dir: WalkError) | EmptyRootfs

  // ---- Building ----

  /** The entries of one layer's archive. */
  function LayerEntries(layer: Layer): map<Bytes, Entry> {
    match layer.source
    case Tar(stream) => IngestTo(stream, |stream|, map[]).entries
    case Dir(walk) => WalkTo(walk, |walk|, map[]).entries
  }

  predicate SourceReads(source: Source) {
    match source
    case Tar(stream) => Clean(stream, |stream|, map[])
    case Dir(walk) => WalkTo(walk, |walk|, map[]).error.None?
  }

  predicate LayerBuilds(layer: Layer) {
    SourceReads(layer.source) && LayerEntries(layer) != map[]
  }

  lemma LayerKeyed(layer: Layer)
    ensures KeyedByName(LayerEntries(layer))
  {
    match layer.source
    case Tar(stream) => IngestKeepsKeys(stream, |stream|, map[]);
    case Dir(walk) =>
      DirIsTar(walk, |walk|, map[]);
      IngestKeepsKeys(TarOf(walk), |walk|, map[]);
  }

  /** The tar stream of a directory tree makes the same layer as the tree itself. */
  lemma DirLayerIsTarLayer(title: string, walk: Walk)
    ensures LayerBuilds(Layer(title, Dir(walk))) <==> LayerBuilds(Layer(title, Tar(TarOf(walk))))
    ensures LayerEntries(Layer(title, Dir(walk))) == LayerEntries(Layer(title, Tar(TarOf(walk))))
  {
    DirIsTar(walk, |walk|, map[]);
  }

  ghost function TreeArchive(tree: map<Bytes, Entry>): Bytes {
    Archive(Sorted(tree))
  }

  method BuildLayer(layer: Layer, gzip: Bytes -> Bytes) returns (r: Result<Bytes, LayerError>)
    ensures r.Ok? <==> LayerBuilds(layer)
    ensures r.Ok? ==> r.value == gzip(TreeArchive(LayerEntries(layer)))
  {
    var b := new CpioBuilder();
    match layer.source {
      case Tar(stream) =>
        var error := b.AddTar(stream);
        if error.Some? {
          return Err(BadTar(error.value));
        }
      case Dir(walk) =>
        var error := b.AddDir(walk);
        if error.Some? {
          return Err(BadDir(error.value));
        }
    }
    LayerKeyed(layer);
    var archive := b.Finish();
    if archive.None? {
      return Err(EmptyRootfs);
    }
    return Ok(gzip(archive.value));
  }

  /** The entry maps of the layers, in order. */
  function Trees(layers: seq<Layer>): (trees: seq<map<Bytes, Entry>>)
    ensures |trees| == |layers|
  {
    seq(|layers|, i requires 0 <= i < |layers| => LayerEntries(layers[i]))
  }

  /** The compressed archives, in order. */
  ghost function Zipped(trees: seq<map<Bytes, Entry>>, gzip: Bytes -> Bytes): (parts: seq<Bytes>)
    ensures |parts| == |trees|
  {
    seq(|trees|, i requires 0 <= i < |trees| => gzip(TreeArchive(trees[i])))
  }

  lemma ZippedAt(layers: seq<Layer>, gzip: Bytes -> Bytes, i: nat)
    requires i < |layers|
    ensures Zipped(Trees(layers), gzip)[i] == gzip(TreeArchive(LayerEntries(layers[i])))
  {}

  ghost function HashesOf(layers: seq<Layer>, parts: seq<Bytes>, c: Scheme): (hashes: seq<(string, string)>)
    requires |layers| == |parts|
  {
    seq(|layers|, i requires 0 <= i < |layers| => (layers[i].title, Sha256Hex(c, parts[i])))
  }

  method BuildInitramfs(layers: seq<Layer>, gzip: Bytes -> Bytes, c: Scheme) returns (r: Result<Initramfs, LayerError>)
    ensures r.Ok? <==> forall i :: 0 <= i < |layers| ==> LayerBuilds(layers[i])
    ensures r.Ok? ==> r.value.data == Concat(Zipped(Trees(layers), gzip), |layers|)
    ensures r.Ok? ==> r.value.layerHashes == HashesOf(layers, Zipped(Trees(layers), gzip), c)
  {
    var data: Bytes := [];
    var hashes: seq<(string, string)> := [];
    ghost var parts := Zipped(Trees(layers), gzip);
    assert Concat(parts, 0) == ConcatStep(parts, 0);
    for i := 0 to |layers|
      invariant forall j :: 0 <= j < i ==> LayerBuilds(layers[j])
      invariant data == Concat(parts, i)
      invariant |hashes| == i
      invariant forall j {:trigger hashes[j]} :: 0 <= j < i ==> hashes[j] == (layers[j].title, Sha256Hex(c, parts[j]))
    {
      var gz := BuildLayer(layers[i], gzip);
      if gz.Err? {
        return Err(gz.error);
      }
      ZippedAt(layers, gzip, i);
      hashes := hashes + [(layers[i].title, Sha256Hex(c, gz.value))];
      data := data + gz.value;
      assert Concat(parts, i + 1) == ConcatStep(parts, i + 1);
    }
    return Ok(Initramfs(data, hashes));
  }

  // ---- Unpacking ----

  /** What the kernel keeps of an entry once it is unpacked under its name. */
  datatype Node = Node(mode: nat, nlink: nat, rdevmajor: nat, rdevminor: nat, data: Bytes)

  function NodeOf(r: Record): Node {
    Node(r.mode, r.nlink, r.rdevmajor, r.rdevminor, r.data)
  }

  /** Inserting the first `n` records, in order, into a file system. */
  function UnpackTo(rs: seq<Record>, n: nat, fs: map<Bytes, Node>): map<Bytes, Node>
    requires n <= |rs|
  {
    if n == 0 then fs else UnpackTo(rs, n - 1, fs)[rs[n - 1].name := NodeOf(rs[n - 1])]
  }

  /** All the archives in a buffer, one after the other. */
  function ReadAll(b: Bytes, pos: nat): Option<seq<Record>>
    requires pos <= |b|
    decreases |b| - pos, 1
  {
    ReadAllStep(b, pos)
  }

  function ReadAllStep(b: Bytes, pos: nat): Option<seq<Record>>
    requires pos <= |b|
    decreases |b| - pos, 0
  {
    if pos == |b| then Some([])
    else
      match ReadArchive(b, pos)
      case None => None
      case Some(l) =>
        match ReadAll(b, l.end)
        case None => None
        case Some(rest) => Some(l.records + rest)
  }

  /** A layer as a file system. */
  function Tree(entries: map<Bytes, Entry>): map<Bytes, Node> {
    map name | name in entries :: NodeOf(RecordOf(entries[name], 0))
  }

  /** The first `n` trees laid over each other: the later one wins. */
  function Overlay(trees: seq<map<Bytes, Entry>>, n: nat): map<Bytes, Node>
    requires n <= |trees|
    decreases n, 1
  {
    OverlayStep(trees, n)
  }

  function OverlayStep(trees: seq<map<Bytes, Entry>>, n: nat): map<Bytes, Node>
    requires n <= |trees|
    decreases n, 0
  {
    if n == 0 then map[] else Overlay(trees, n - 1) + Tree(trees[n - 1])
  }

  /** The tree's archive can be read back: sizes fit their fields, and no name ends it early. */
  predicate Readable(tree: map<Bytes, Entry>) {
    KeyedByName(tree) && FitsFormat(tree) && TrailerName() !in tree
  }

  predicate FitsFormat(tree: map<Bytes, Entry>) {
    |tree| <= U32_MAX && forall name :: name in tree ==> FitsU32(tree[name])
  }

  lemma SortedFits(tree: map<Bytes, Entry>)
    requires KeyedByName(tree) && FitsFormat(tree)
    ensures AllFit(Sorted(tree))
  {
    SortedNames(tree);
    assert forall k :: 0 <= k < |Sorted(tree)| ==> Sorted(tree)[k] in Sorted(tree);
  }

  lemma SortedHas(tree: map<Bytes, Entry>, name: Bytes)
    requires KeyedByName(tree)
    ensures name in tree <==> exists k :: 0 <= k < |Sorted(tree)| && Sorted(tree)[k].name == name
  {
    var es := Sorted(tree);
    SortedNames(tree);
    if name in tree {
      assert tree[name] in es;
      var k :| 0 <= k < |es| && es[k] == tree[name];
      assert es[k].name == name;
    }
    assert forall k :: 0 <= k < |es| ==> es[k] in es;
  }

  /**
    Archive round trip for a rendered builder: a reader gets back every entry, in ascending order of
    names and numbered from 1, and the whole buffer is consumed, exactly when no entry is named TRAILER!!!.
   */
  lemma BuilderRoundTripIff(tree: map<Bytes, Entry>)
    requires KeyedByName(tree) && FitsFormat(tree)
    ensures var es := Sorted(tree);
      ReadArchive(TreeArchive(tree), 0) == Some(Listing(RecordsOf(es, 0, |es|), |TreeArchive(tree)|))
      <==> TrailerName() !in tree
  {
    var es := Sorted(tree);
    SortedFits(tree);
    SortedNames(tree);
    ArchiveRoundTripIff(es);
    HasTrailerIff(es);
    SortedHas(tree, TrailerName());
  }

  /** The first `n` trees can be read back. */
  predicate ReadableTo(trees: seq<map<Bytes, Entry>>, n: nat)
    requires n <= |trees|
    decreases n, 1
  {
    ReadableStep(trees, n)
  }

  predicate ReadableStep(trees: seq<map<Bytes, Entry>>, n: nat)
    requires n <= |trees|
    decreases n, 0
  {
    n == 0 || (ReadableTo(trees, n - 1) && Readable(trees[n - 1]))
  }

  lemma {:induction false} ReadableToMeaning(trees: seq<map<Bytes, Entry>>, n: nat)
    requires n <= |trees|
    ensures ReadableTo(trees, n) <==> forall k :: 0 <= k < n ==> Readable(trees[k])
  {
    assert ReadableTo(trees, n) == ReadableStep(trees, n);
    if n > 0 {
      ReadableToMeaning(trees, n - 1);
    }
  }

  lemma {:induction false} UnpackAppends(a: seq<Record>, b: seq<Record>, n: nat, fs: map<Bytes, Node>)
    requires n <= |b|
    ensures UnpackTo(a + b, |a| + n, fs) == UnpackTo(b, n, UnpackTo(a, |a|, fs))
  {
    if n > 0 {
      UnpackAppends(a, b, n - 1, fs);
    } else {
      UnpackFront(a, b, |a|, fs);
    }
  }

  lemma {:induction false} UnpackFront(a: seq<Record>, b: seq<Record>, n: nat, fs: map<Bytes, Node>)
    requires n <= |a|
    ensures UnpackTo(a + b, n, fs) == UnpackTo(a, n, fs)
  {
    if n > 0 {
      UnpackFront(a, b, n - 1, fs);
    }
  }

  /** Unpacking distinctly named records overwrites exactly their names. */
  lemma {:induction false} UnpackAt(rs: seq<Record>, n: nat, fs: map<Bytes, Node>, name: Bytes)
    requires n <= |rs|
    requires forall i, j :: 0 <= i < j < |rs| ==> rs[i].name != rs[j].name
    ensures (exists k :: 0 <= k < n && rs[k].name == name) || name in fs <==> name in UnpackTo(rs, n, fs)
    ensures forall k :: 0 <= k < n && rs[k].name == name ==>
      name in UnpackTo(rs, n, fs) && UnpackTo(rs, n, fs)[name] == NodeOf(rs[k])
    ensures (forall k :: 0 <= k < n ==> rs[k].name != name) && name in fs ==>
      name in UnpackTo(rs, n, fs) && UnpackTo(rs, n, fs)[name] == fs[name]
  {
    if n > 0 {
      UnpackAt(rs, n - 1, fs, name);
    }
  }

  lemma RecordNames(tree: map<Bytes, Entry>)
    requires KeyedByName(tree)
    ensures var es := Sorted(tree); var rs := RecordsOf(es, 0, |es|);
      && (forall i, j :: 0 <= i < j < |rs| ==> rs[i].name != rs[j].name)
      && (forall k :: 0 <= k < |rs| ==> rs[k].name in tree && NodeOf(rs[k]) == Tree(tree)[rs[k].name])
      && (forall name :: name in tree ==> exists k :: 0 <= k < |rs| && rs[k].name == name)
  {
    var es := Sorted(tree);
    var rs := RecordsOf(es, 0, |es|);
    SortedNames(tree);
    forall i, j | 0 <= i < j < |rs|
      ensures rs[i].name != rs[j].name
    {
      BelowIrreflexive(es[i].name);
    }
    forall k | 0 <= k < |rs|
      ensures rs[k].name in tree && NodeOf(rs[k]) == Tree(tree)[rs[k].name]
    {
      assert es[k] in es;
    }
    forall name | name in tree
      ensures exists k :: 0 <= k < |rs| && rs[k].name == name
    {
      assert tree[name] in es;
      var k :| 0 <= k < |es| && es[k] == tree[name];
      assert rs[k].name == name;
    }
  }

  /** Unpacking distinctly named records that hold exactly `tree` lays `tree` over the file system. */
  lemma {:induction false} UnpackDistinct(rs: seq<Record>, tree: map<Bytes, Node>, fs: map<Bytes, Node>)
    requires forall i, j :: 0 <= i < j < |rs| ==> rs[i].name != rs[j].name
    requires forall k :: 0 <= k < |rs| ==> rs[k].name in tree && NodeOf(rs[k]) == tree[rs[k].name]
    requires forall name :: name in tree ==> exists k :: 0 <= k < |rs| && rs[k].name == name
    ensures UnpackTo(rs, |rs|, fs) == fs + tree
  {
    forall name: Bytes
      ensures var got, want := UnpackTo(rs, |rs|, fs), fs + tree;
        (name in got <==> name in want) && (name in got ==> got[name] == want[name])
    {
      UnpackAt(rs, |rs|, fs, name);
    }
  }

  /** Unpacking one archive lays its tree over the file system. */
  lemma {:induction false} UnpackTree(tree: map<Bytes, Entry>, fs: map<Bytes, Node>)
    requires KeyedByName(tree)
    ensures var es := Sorted(tree); UnpackTo(RecordsOf(es, 0, |es|), |es|, fs) == fs + Tree(tree)
  {
    RecordNames(tree);
    UnpackDistinct(RecordsOf(Sorted(tree), 0, |Sorted(tree)|), Tree(tree), fs);
  }

  /** The uncompressed archives, in order. */
  ghost function Archives(trees: seq<map<Bytes, Entry>>): (parts: seq<Bytes>)
    ensures |parts| == |trees|
  {
    seq(|trees|, i requires 0 <= i < |trees| => TreeArchive(trees[i]))
  }

  lemma NoTrailerName(tree: map<Bytes, Entry>)
    requires KeyedByName(tree) && TrailerName() !in tree
    ensures FirstTrailer(Sorted(tree), 0) == |Sorted(tree)|
  {
    SortedNames(tree);
    var j := FirstTrailer(Sorted(tree), 0);
    assert j < |Sorted(tree)| ==> Sorted(tree)[j] in Sorted(tree);
  }

  lemma {:induction false} TreeReads(tree: map<Bytes, Entry>, b: Bytes, pos: nat)
    requires Readable(tree) && pos % 4 == 0 && HoldsAt(b, pos, TreeArchive(tree))
    ensures var es := Sorted(tree);
      ReadArchive(b, pos) == Some(Listing(RecordsOf(es, 0, |es|), pos + |TreeArchive(tree)|))
    ensures |TreeArchive(tree)| % 4 == 0
  {
    NoTrailerName(tree);
    SortedFits(tree);
    ArchiveReads(Sorted(tree), b, pos);
  }

  lemma {:induction false} ArchiveReads(es: seq<Entry>, b: Bytes, pos: nat)
    requires AllFit(es) && FirstTrailer(es, 0) == |es| && pos % 4 == 0 && HoldsAt(b, pos, Archive(es))
    ensures ReadArchive(b, pos) == Some(Listing(RecordsOf(es, 0, |es|), pos + |Archive(es)|))
    ensures |Archive(es)| % 4 == 0
  {
    ArchiveIsConcat(es);
    ReadsFromStart(es, b, pos);
    ListingComplete(es, pos);
  }

  lemma {:induction false} ListingComplete(es: seq<Entry>, pos: nat)
    requires FirstTrailer(es, 0) == |es|
    ensures ListingFrom(es, 0, pos) == Listing(RecordsOf(es, 0, |es|), pos + Offset(es, |es| + 1))
  {
    ListingMeaning(es, 0, pos);
  }

  lemma {:induction false} ReadsFromStart(es: seq<Entry>, b: Bytes, pos: nat)
    requires AllFit(es) && pos % 4 == 0 && HoldsAt(b, pos, Concat(Chunks(es), |es| + 1))
    ensures ReadArchive(b, pos) == Some(ListingFrom(es, 0, pos))
  {
    ReadFrom(b, pos, es, 0);
    assert PartOffset(Chunks(es), 0) == PartOffsetStep(Chunks(es), 0);
  }

  lemma {:induction false} OffsetsAligned(parts: seq<Bytes>, i: nat)
    requires i <= |parts| && forall k :: 0 <= k < |parts| ==> |parts[k]| % 4 == 0
    ensures PartOffset(parts, i) % 4 == 0
    ensures i < |parts| ==> PartOffset(parts, i + 1) == PartOffset(parts, i) + |parts[i]|
  {
    assert PartOffset(parts, i) == PartOffsetStep(parts, i);
    if i < |parts| {
      assert PartOffset(parts, i + 1) == PartOffsetStep(parts, i + 1);
    }
    if i > 0 {
      OffsetsAligned(parts, i - 1);
    }
  }

  lemma TreeOffset(trees: seq<map<Bytes, Entry>>, i: nat)
    requires i <= |trees|
    ensures PartOffset(Archives(trees), i) % 4 == 0
    ensures i < |trees| ==>
      PartOffset(Archives(trees), i + 1) == PartOffset(Archives(trees), i) + |TreeArchive(trees[i])|
  {
    forall k | 0 <= k < |trees|
      ensures |Archives(trees)[k]| % 4 == 0
    {
      ArchiveIsConcat(Sorted(trees[k]));
    }
    OffsetsAligned(Archives(trees), i);
  }

  /** The records of the `i`-th archive, read from the buffer that holds them all. */
  lemma {:induction false} ReadTree(trees: seq<map<Bytes, Entry>>, b: Bytes, i: nat)
    requires b == Concat(Archives(trees), |trees|) && i < |trees| && Readable(trees[i])
    ensures var es := Sorted(trees[i]);
      && PartOffset(Archives(trees), i) < PartOffset(Archives(trees), i + 1) <= |b|
      && ReadArchive(b, PartOffset(Archives(trees), i))
         == Some(Listing(RecordsOf(es, 0, |es|), PartOffset(Archives(trees), i + 1)))
  {
    TreeOffset(trees, i);
    TreeHeld(trees, b, i);
    TreeReads(trees[i], b, PartOffset(Archives(trees), i));
  }

  lemma {:induction false} TreeHeld(trees: seq<map<Bytes, Entry>>, b: Bytes, i: nat)
    requires b == Concat(Archives(trees), |trees|) && i < |trees|
    ensures HoldsAt(b, PartOffset(Archives(trees), i), TreeArchive(trees[i]))
  {
    assert b[0..|b|] == b;
    HoldsConcat(b, 0, Archives(trees), i);
  }

  lemma {:induction false} UnpackJoin(
    a: seq<Record>, b: seq<Record>, fs: map<Bytes, Node>, mid: map<Bytes, Node>, end: map<Bytes, Node>)
    requires UnpackTo(a, |a|, fs) == mid && UnpackTo(b, |b|, mid) == end
    ensures UnpackTo(a + b, |a + b|, fs) == end
  {
    UnpackAppends(a, b, |b|, fs);
  }

  /** The records of the `i`-th archive come first, and unpacking them lays its tree over those before. */
  lemma ReadAllOne(trees: seq<map<Bytes, Entry>>, b: Bytes, i: nat) returns (rs: seq<Record>)
    requires b == Concat(Archives(trees), |trees|) && i < |trees| && ReadableTo(trees, |trees|)
    ensures PartOffset(Archives(trees), i) < PartOffset(Archives(trees), i + 1) <= |b|
    ensures var rest := ReadAll(b, PartOffset(Archives(trees), i + 1));
      ReadAll(b, PartOffset(Archives(trees), i)) == if rest.None? then None else Some(rs + rest.value)
    ensures UnpackTo(rs, |rs|, Overlay(trees, i)) == Overlay(trees, i + 1)
  {
    ReadableToMeaning(trees, |trees|);
    ReadTree(trees, b, i);
    var pos := PartOffset(Archives(trees), i);
    assert ReadAll(b, pos) == ReadAllStep(b, pos);
    rs := ReadArchive(b, pos).value.records;
    UnpackTree(trees[i], Overlay(trees, i));
    assert Overlay(trees, i + 1) == OverlayStep(trees, i + 1);
  }

  /** Reading everything from `pos` on and unpacking it over `before` gives `after`. */
  predicate Unpacks(b: Bytes, pos: nat, before: map<Bytes, Node>, after: map<Bytes, Node>) {
    pos <= |b| &&
    var r := ReadAll(b, pos);
    r.Some? && UnpackTo(r.value, |r.value|, before) == after
  }

  lemma UnpacksEnd(b: Bytes, fs: map<Bytes, Node>)
    ensures Unpacks(b, |b|, fs, fs)
  {
    assert ReadAll(b, |b|) == ReadAllStep(b, |b|);
  }

  /** Reading from the `i`-th archive on and unpacking lays the remaining trees over the ones before. */
  lemma {:induction false} ReadTrees(trees: seq<map<Bytes, Entry>>, b: Bytes, i: nat)
    requires b == Concat(Archives(trees), |trees|) && i <= |trees| && ReadableTo(trees, |trees|)
    ensures Unpacks(b, PartOffset(Archives(trees), i), Overlay(trees, i), Overlay(trees, |trees|))
    decreases |trees| - i
  {
    if i == |trees| {
      ConcatLength(Archives(trees), |trees|);
      UnpacksEnd(b, Overlay(trees, |trees|));
    } else {
      ReadTrees(trees, b, i + 1);
      UnpacksOne(trees, b, i, Overlay(trees, |trees|));
    }
  }

  /** The concatenated archives of any number of trees unpack to the trees laid over each other in order. */
  lemma {:induction false} TreesOverlay(trees: seq<map<Bytes, Entry>>, b: Bytes)
    requires b == Concat(Archives(trees), |trees|) && ReadableTo(trees, |trees|)
    ensures Unpacks(b, 0, map[], Overlay(trees, |trees|))
  {
    assert Overlay(trees, 0) == OverlayStep(trees, 0);
    assert PartOffset(Archives(trees), 0) == PartOffsetStep(Archives(trees), 0);
    ReadTrees(trees, b, 0);
  }

  lemma UnpacksOne(trees: seq<map<Bytes, Entry>>, b: Bytes, i: nat, after: map<Bytes, Node>)
    requires b == Concat(Archives(trees), |trees|) && i < |trees| && ReadableTo(trees, |trees|)
    requires Unpacks(b, PartOffset(Archives(trees), i + 1), Overlay(trees, i + 1), after)
    ensures Unpacks(b, PartOffset(Archives(trees), i), Overlay(trees, i), after)
  {
    var rs := ReadAllOne(trees, b, i);
    var rest := ReadAll(b, PartOffset(Archives(trees), i + 1)).value;
    UnpackJoin(rs, rest, Overlay(trees, i), Overlay(trees, i + 1), after);
  }

  /** The compressed members of a stream, one for each content. */
  ghost function Members(gzip: Bytes -> Bytes, contents: seq<Bytes>): (members: seq<Bytes>)
    ensures |members| == |contents|
  {
    seq(|contents|, i requires 0 <= i < |contents| => gzip(contents[i]))
  }

  /** Decompressing a stream of one or more compressed members gives their contents, one after the other. */
  ghost predicate MultiMember(gzip: Bytes -> Bytes, gunzip: Bytes -> Bytes) {
    forall contents: seq<Bytes> :: contents != [] ==>
      gunzip(Concat(Members(gzip, contents), |contents|)) == Concat(contents, |contents|)
  }

  /** What the kernel finds in an initramfs image of so many members; no member is no archive. */
  function Unzipped(gunzip: Bytes -> Bytes, data: Bytes, members: nat): Bytes {
    if members == 0 then [] else gunzip(data)
  }

  lemma {:induction false} UnzippedTrees(
    trees: seq<map<Bytes, Entry>>, gzip: Bytes -> Bytes, gunzip: Bytes -> Bytes, data: Bytes)
    requires MultiMember(gzip, gunzip) && data == Concat(Zipped(trees, gzip), |trees|)
    ensures Unzipped(gunzip, data, |trees|) == Concat(Archives(trees), |trees|)
  {
    var contents := Archives(trees);
    assert Members(gzip, contents) == Zipped(trees, gzip);
    assert Concat(contents, 0) == ConcatStep(contents, 0);
  }

  /** What the format demands of a layer: sizes fit their fields, and no name ends the archive early. */
  predicate LayerReadable(layer: Layer) {
    FitsFormat(LayerEntries(layer)) && TrailerName() !in LayerEntries(layer)
  }

  lemma {:induction false} LayersReadable(layers: seq<Layer>)
    requires forall k :: 0 <= k < |layers| ==> LayerReadable(layers[k])
    ensures ReadableTo(Trees(layers), |layers|)
  {
    ReadableToMeaning(Trees(layers), |layers|);
    forall k | 0 <= k < |layers| ensures Readable(Trees(layers)[k]) {
      LayerKeyed(layers[k]);
    }
  }

  /**
    Overlay: unpacking the decompressed initramfs, archive after archive, gives the layers laid over
    each other in order, for any number of layers.
   */
  lemma {:induction false} InitramfsOverlays(
    layers: seq<Layer>, gzip: Bytes -> Bytes, gunzip: Bytes -> Bytes, data: Bytes)
    requires MultiMember(gzip, gunzip) && data == Concat(Zipped(Trees(layers), gzip), |layers|)
    requires forall k :: 0 <= k < |layers| ==> LayerReadable(layers[k])
    ensures Unpacks(Unzipped(gunzip, data, |layers|), 0, map[], Overlay(Trees(layers), |layers|))
  {
    var trees := Trees(layers);
    UnzippedTrees(trees, gzip, gunzip, data);
    LayersReadable(layers);
    TreesOverlay(trees, Unzipped(gunzip, data, |layers|));
  }

  predicate LastHolder(trees: seq<map<Bytes, Entry>>, k: nat, n: nat, name: Bytes)
    requires k < n <= |trees|
  {
    name in trees[k] && forall j :: k < j < n ==> name !in trees[j]
  }

  /** The file has all that the entry says of it. */
  predicate IsNode(node: Node, e: Entry) {
    && node.mode == e.mode && node.nlink == e.nlink && node.data == e.data
    && node.rdevmajor == e.rdevmajor && node.rdevminor == e.rdevminor
  }

  /** The overlay, name by name: the last tree that has the name decides. */
  lemma {:induction false} OverlayAt(trees: seq<map<Bytes, Entry>>, n: nat, name: Bytes)
    requires n <= |trees|
    ensures name in Overlay(trees, n) <==> exists k :: 0 <= k < n && name in trees[k]
    ensures forall k :: 0 <= k < n && LastHolder(trees, k, n, name) ==>
      name in Overlay(trees, n) && IsNode(Overlay(trees, n)[name], trees[k][name])
  {
    assert Overlay(trees, n) == OverlayStep(trees, n);
    if n > 0 {
      OverlayAt(trees, n - 1, name);
      forall k | 0 <= k < n && LastHolder(trees, k, n, name)
        ensures name in Overlay(trees, n) && IsNode(Overlay(trees, n)[name], trees[k][name])
      {
        if k < n - 1 {
          assert name !in trees[n - 1];
          assert LastHolder(trees, k, n - 1, name);
        }
      }
    }
  }
}
