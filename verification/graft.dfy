/** Grafting sections onto a stub: the layout, the image it denotes, and the imperative builder. */
module Graft {
  import opened Bytes
  import opened Wrappers
  import opened Alignment
  import opened PeImage

  datatype Section = Section(name: Bytes, data: Bytes)

  /** Where one appended section goes: what its header records. */
  datatype Placement = Placement(name: Bytes, size: nat, vma: nat, rawSize: nat, rawPtr: nat)

  predicate NamesFit(ss: seq<Section>) {
    forall i :: 0 <= i < |ss| ==> |ss[i].name| <= 8
  }

  // ---- Layout ----

  /** `out` after the raw data of one section has been appended at an aligned offset. */
  function Padded(out: Bytes, data: Bytes, fileAlign: nat): Bytes {
    var rawPtr := AlignUp(|out|, fileAlign);
    Resize(Resize(out, rawPtr) + data, rawPtr + AlignUp(|data|, fileAlign))
  }

  /** `out` followed by the raw data of the first `n` sections. */
  function PaddedTo(out: Bytes, ss: seq<Section>, n: nat, fileAlign: nat): (r: Bytes)
    requires n <= |ss|
    ensures |r| == FileEnd(|out|, ss, n, fileAlign)
    decreases n, 1
  {
    PaddedStep(out, ss, n, fileAlign)
  }

  function PaddedStep(out: Bytes, ss: seq<Section>, n: nat, fileAlign: nat): (r: Bytes)
    requires n <= |ss|
    ensures |r| == FileEnd(|out|, ss, n, fileAlign)
    decreases n, 0
  {
    if n == 0 then out else Padded(PaddedTo(out, ss, n - 1, fileAlign), ss[n - 1].data, fileAlign)
  }

  function FileEnd(len: nat, ss: seq<Section>, n: nat, fileAlign: nat): nat
    requires n <= |ss|
  {
    if n == 0 then len
    else AlignUp(FileEnd(len, ss, n - 1, fileAlign), fileAlign) + AlignUp(|ss[n - 1].data|, fileAlign)
  }

  /** The address after the first `n` sections: each starts at the aligned end of its predecessor. */
  function EndVma(vma: nat, ss: seq<Section>, n: nat, sectionAlign: nat): nat
    requires n <= |ss|
  {
    if n == 0 then vma else AlignUp(EndVma(vma, ss, n - 1, sectionAlign) + |ss[n - 1].data|, sectionAlign)
  }

  /** The placement of section `i` when the file was `len` bytes long and the first address is `vma`. */
  function PlaceAt(len: nat, vma: nat, ss: seq<Section>, i: nat, fileAlign: nat, sectionAlign: nat): Placement
    requires i < |ss|
  {
    Placement(ss[i].name, |ss[i].data|, EndVma(vma, ss, i, sectionAlign),
              AlignUp(|ss[i].data|, fileAlign), AlignUp(FileEnd(len, ss, i, fileAlign), fileAlign))
  }

  // ---- Headers ----

  function HeaderParts(p: Placement): (parts: seq<Bytes>)
    requires |p.name| <= 8
  {
    [p.name + Zeros(8 - |p.name|), Le32(p.size), Le32(p.vma), Le32(p.rawSize), Le32(p.rawPtr),
     Zeros(12) + Le32(CHARACTERISTICS)]
  }

  function HeaderBytes(p: Placement): (h: Bytes)
    requires |p.name| <= 8
    ensures |h| == HEADER_SIZE
  {
    HeaderUnfolds(p);
    Concat(HeaderParts(p), |HeaderParts(p)|)
  }

  lemma HeaderUnfolds(p: Placement)
    requires |p.name| <= 8
    ensures Concat(HeaderParts(p), |HeaderParts(p)|)
      == p.name + Zeros(8 - |p.name|) + Le32(p.size) + Le32(p.vma) + Le32(p.rawSize) + Le32(p.rawPtr)
         + (Zeros(12) + Le32(CHARACTERISTICS))
  {
    var parts := HeaderParts(p);
    assert ConcatStep(parts, 0) == [];
    assert ConcatStep(parts, 1) == parts[0];
    assert ConcatStep(parts, 2) == parts[0] + parts[1];
    assert ConcatStep(parts, 3) == parts[0] + parts[1] + parts[2];
    assert ConcatStep(parts, 4) == parts[0] + parts[1] + parts[2] + parts[3];
    assert ConcatStep(parts, 5) == parts[0] + parts[1] + parts[2] + parts[3] + parts[4];
    assert ConcatStep(parts, 6) == parts[0] + parts[1] + parts[2] + parts[3] + parts[4] + parts[5];
  }

  /** The headers of all sections of `ss`, in order. */
  function HeadersOf(len: nat, vma: nat, ss: seq<Section>, fileAlign: nat, sectionAlign: nat): (hs: seq<Bytes>)
    requires NamesFit(ss)
    ensures |hs| == |ss| && AllHeaders(hs)
  {
    seq(|ss|, i requires 0 <= i < |ss| => HeaderBytes(PlaceAt(len, vma, ss, i, fileAlign, sectionAlign)))
  }

  predicate AllHeaders(hs: seq<Bytes>) {
    forall i :: 0 <= i < |hs| ==> |hs[i]| == HEADER_SIZE
  }

  /** The first `n` headers, one after the other. */
  function Table(hs: seq<Bytes>, n: nat): (t: Bytes)
    requires AllHeaders(hs) && n <= |hs|
    ensures |t| == 40 * n
  {
    if n == 0 then [] else Table(hs, n - 1) + hs[n - 1]
  }

  // ---- The image ----

  /** The three patched fields: section count, SizeOfImage, CheckSum. */
  function FieldPatches(pe: PeView, count: nat, vma: nat): seq<Patch> {
    [Patch(pe.peOff + 6, Le16(count)), Patch(pe.optOff + 56, Le32(vma)), Patch(pe.optOff + 64, Le32(0))]
  }

  function PatchFields(out: Bytes, pe: PeView, count: nat, vma: nat): (r: Bytes)
    requires pe.peOff + 24 == pe.optOff && pe.optOff + 68 <= |out|
    ensures |r| == |out|
  {
    var patches := FieldPatches(pe, count, vma);
    Patched(out, patches, |patches|)
  }

  lemma PatchFieldsUnfolds(out: Bytes, pe: PeView, count: nat, vma: nat)
    requires pe.peOff + 24 == pe.optOff && pe.optOff + 68 <= |out|
    ensures PatchFields(out, pe, count, vma)
      == WriteAt(WriteAt(WriteAt(out, pe.peOff + 6, Le16(count)), pe.optOff + 56, Le32(vma)), pe.optOff + 64, Le32(0))
  {
    var patches := FieldPatches(pe, count, vma);
    assert Patched(out, patches, 0) == PatchedStep(out, patches, 0);
    assert Patched(out, patches, 1) == PatchedStep(out, patches, 1);
    assert Patched(out, patches, 2) == PatchedStep(out, patches, 2);
    assert Patched(out, patches, 3) == PatchedStep(out, patches, 3);
  }

  function Finalized(out: Bytes, pe: PeView, count: nat, vma: nat): Result<Bytes, PeError>
    requires pe.peOff + 24 == pe.optOff
  {
    if count > U16_MAX then Err(TooManySections)
    else if pe.optOff + 68 > |out| then Err(OutOfBounds)
    else if |out| > U32_MAX then Err(Exceeds4GiB)
    else Ok(PatchFields(out, pe, count, vma))
  }

  function FirstVma(stub: Bytes, pe: PeView): nat
    requires TableEnd(pe) <= |stub|
  {
    AlignUp(MaxVaEnd(stub, pe, pe.numSections), pe.sectionAlign)
  }

  /** What `build` returns, error by error in the order the code meets them. */
  function Grafted(stub: Bytes, ss: seq<Section>): Result<Bytes, PeError> {
    match Parse(stub)
    case Err(e) => Err(e)
    case Ok(pe) => GraftedFrom(stub, pe, ss, FirstVma(stub, pe), HeaderCeiling(stub, pe))
  }

  /** The part after the walk, which found where addresses start and where the header area ends. */
  function GraftedFrom(stub: Bytes, pe: PeView, ss: seq<Section>, firstVma: nat, ceiling: nat): Result<Bytes, PeError>
    requires pe.peOff + 24 == pe.optOff && TableEnd(pe) <= |stub|
  {
    var count := pe.numSections + |ss|;
    if Slot(pe, count) > ceiling then Err(NoHeaderRoom)
    else if !NamesFit(ss) then Err(NameTooLong)
    else if ss != [] && Slot(pe, count) > FileEnd(|stub|, ss, |ss|, pe.fileAlign) then Err(OutOfBounds)
    else Finalized(WithHeaders(stub, pe, ss, firstVma), pe, count, EndVma(firstVma, ss, |ss|, pe.sectionAlign))
  }

  /** The stub followed by the raw data, with the new headers in their slots. */
  function WithHeaders(stub: Bytes, pe: PeView, ss: seq<Section>, firstVma: nat): (r: Bytes)
    requires TableEnd(pe) <= |stub| && NamesFit(ss)
    requires ss != [] ==> Slot(pe, pe.numSections + |ss|) <= FileEnd(|stub|, ss, |ss|, pe.fileAlign)
    ensures |r| == FileEnd(|stub|, ss, |ss|, pe.fileAlign)
  {
    var out := PaddedTo(stub, ss, |ss|, pe.fileAlign);
    if ss == [] then out
    else WriteAt(out, TableEnd(pe), Table(HeadersOf(|stub|, firstVma, ss, pe.fileAlign, pe.sectionAlign), |ss|))
  }

  // ---- The builder ----

  /** One section header, filled field by field into a zeroed buffer. */
  method FillHeader(p: Placement) returns (sh: Bytes)
    requires |p.name| <= 8
    ensures sh == HeaderBytes(p)
  {
    sh := Zeros(HEADER_SIZE);
    sh := Set(sh, 0, p.name);
    sh := Set(sh, 8, Le32(p.size));
    sh := Set(sh, 12, Le32(p.vma));
    sh := Set(sh, 16, Le32(p.rawSize));
    sh := Set(sh, 20, Le32(p.rawPtr));
    sh := Set(sh, 36, Le32(CHARACTERISTICS));
    HeaderUnfolds(p);
  }

  /** `wr_u32` and `copy_from_slice`: overwrite a range. */
  method Set(b: Bytes, off: nat, d: Bytes) returns (r: Bytes)
    requires off + |d| <= |b|
    ensures |r| == |b| && r == WriteAt(b, off, d)
    ensures forall k :: 0 <= k < |b| ==> r[k] == if off <= k < off + |d| then d[k - off] else b[k]
  {
    WriteAtIndex(b, off, d);
    r := WriteAt(b, off, d);
  }

  /** The walk over the existing section headers. */
  method ScanSections(stub: Bytes, pe: PeView) returns (maxVaEnd: nat, minRawPtr: nat)
    requires TableEnd(pe) <= |stub|
    ensures maxVaEnd == MaxVaEnd(stub, pe, pe.numSections)
    ensures minRawPtr == MinRawPointer(stub, pe, pe.numSections)
  {
    maxVaEnd, minRawPtr := 0, 0xFFFF_FFFF_FFFF_FFFF;
    for i := 0 to pe.numSections
      invariant maxVaEnd == MaxVaEnd(stub, pe, i)
      invariant minRawPtr == MinRawPointer(stub, pe, i)
    {
      var sh := Slot(pe, i);
      maxVaEnd := Max(maxVaEnd, VirtualEnd(stub, sh));
      if RawPointer(stub, sh) > 0 {
        minRawPtr := Min(minRawPtr, RawPointer(stub, sh));
      }
    }
  }

  /** The body of the appending loop: raw data at an aligned offset, and the header recording it. */
  method AppendSection(image: Bytes, vma: nat, s: Section, fileAlign: nat) returns (out: Bytes, sh: Bytes)
    requires |s.name| <= 8
    ensures out == Padded(image, s.data, fileAlign)
    ensures sh
      == HeaderBytes(Placement(s.name, |s.data|, vma, AlignUp(|s.data|, fileAlign), AlignUp(|image|, fileAlign)))
  {
    out := image;
    var rawPtr := AlignUp(|out|, fileAlign);
    out := Resize(out, rawPtr);
    out := out + s.data;
    var rawSize := AlignUp(|s.data|, fileAlign);
    out := Resize(out, rawPtr + rawSize);
    sh := FillHeader(Placement(s.name, |s.data|, vma, rawSize, rawPtr));
  }

  /** The loop that appends raw data and collects headers; fails at the first over-long name. */
  method AppendSections(stub: Bytes, firstVma: nat, sections: seq<Section>, fileAlign: nat, sectionAlign: nat)
    returns (ok: bool, out: Bytes, headers: seq<Bytes>, vma: nat)
    ensures ok <==> NamesFit(sections)
    ensures ok ==>
      && out == PaddedTo(stub, sections, |sections|, fileAlign)
      && vma == EndVma(firstVma, sections, |sections|, sectionAlign)
      && headers == HeadersOf(|stub|, firstVma, sections, fileAlign, sectionAlign)
  {
    ok, out, headers, vma := true, stub, [], firstVma;
    assert PaddedTo(stub, sections, 0, fileAlign) == PaddedStep(stub, sections, 0, fileAlign);
    for i := 0 to |sections|
      invariant ok && |headers| == i
      invariant out == PaddedTo(stub, sections, i, fileAlign)
      invariant vma == EndVma(firstVma, sections, i, sectionAlign)
      invariant forall j :: 0 <= j < i ==> |sections[j].name| <= 8
      invariant forall j {:trigger headers[j]} :: 0 <= j < i ==>
        headers[j] == HeaderBytes(PlaceAt(|stub|, firstVma, sections, j, fileAlign, sectionAlign))
    {
      var s := sections[i];
      if |s.name| > 8 {
        ok := false;
        return;
      }
      var sh;
      out, sh := AppendSection(out, vma, s, fileAlign);
      assert PaddedTo(stub, sections, i + 1, fileAlign) == PaddedStep(stub, sections, i + 1, fileAlign);
      headers := headers + [sh];
      vma := AlignUp(vma + |s.data|, sectionAlign);
    }
  }

  /** The loop that copies the collected headers into their slots. */
  method WriteHeaders(padded: Bytes, pe: PeView, headers: seq<Bytes>) returns (ok: bool, out: Bytes)
    requires AllHeaders(headers)
    ensures ok <==> headers == [] || Slot(pe, pe.numSections + |headers|) <= |padded|
    ensures ok ==> out == if headers == [] then padded else WriteAt(padded, TableEnd(pe), Table(headers, |headers|))
  {
    ok, out := true, padded;
    for i := 0 to |headers|
      invariant ok && |out| == |padded|
      invariant i > 0 ==> Slot(pe, pe.numSections + i) <= |out|
      invariant out == if i == 0 then padded else WriteAt(padded, TableEnd(pe), Table(headers, i))
    {
      var off := Slot(pe, pe.numSections + i);
      if off + HEADER_SIZE > |out| {
        ok := false;
        return;
      }
      if i > 0 {
        WriteAdjacent(padded, TableEnd(pe), Table(headers, i), headers[i]);
      } else {
        assert Table(headers, 1) == headers[0];
      }
      out := WriteAt(out, off, headers[i]);
    }
  }

  method PatchAndCheck(image: Bytes, pe: PeView, newCount: nat, vma: nat) returns (r: Result<Bytes, PeError>)
    requires pe.peOff + 24 == pe.optOff
    ensures r == Finalized(image, pe, newCount, vma)
  {
    var out := image;
    if pe.optOff + 68 <= |out| {
      PatchFieldsUnfolds(out, pe, newCount, vma);
    }
    if newCount > U16_MAX {
      return Err(TooManySections);
    }
    if pe.optOff + 68 > |out| {
      return Err(OutOfBounds);
    }
    out := WriteAt(out, pe.peOff + 6, Le16(newCount));
    out := WriteAt(out, pe.optOff + 56, Le32(vma));
    out := WriteAt(out, pe.optOff + 64, Le32(0));
    if |out| > U32_MAX {
      return Err(Exceeds4GiB);
    }
    return Ok(out);
  }

  method BuildFrom(stub: Bytes, pe: PeView, sections: seq<Section>, firstVma: nat, headerCeiling: nat)
    returns (r: Result<Bytes, PeError>)
    requires pe.peOff + 24 == pe.optOff && TableEnd(pe) <= |stub|
    ensures r == GraftedFrom(stub, pe, sections, firstVma, headerCeiling)
  {
    var newHeadersEnd := Slot(pe, pe.numSections + |sections|);
    if newHeadersEnd > headerCeiling {
      return Err(NoHeaderRoom);
    }
    var named, out, headers, vma := AppendSections(stub, firstVma, sections, pe.fileAlign, pe.sectionAlign);
    if !named {
      return Err(NameTooLong);
    }
    var written;
    written, out := WriteHeaders(out, pe, headers);
    if !written {
      return Err(OutOfBounds);
    }
    r := PatchAndCheck(out, pe, pe.numSections + |sections|, vma);
  }

  method Build(stub: Bytes, sections: seq<Section>) returns (r: Result<Bytes, PeError>)
    ensures r == Grafted(stub, sections)
  {
    var parsed := Parse(stub);
    if parsed.Err? {
      return Err(parsed.error);
    }
    var pe := parsed.value;
    var maxVaEnd, minRawPtr := ScanSections(stub, pe);
    r := BuildFrom(stub, pe, sections, AlignUp(maxVaEnd, pe.sectionAlign), Min(pe.sizeOfHeaders, minRawPtr));
  }
}
