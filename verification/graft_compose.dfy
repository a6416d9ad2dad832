/** Grafting in two steps is grafting once: `build(build(stub, A), B) == build(stub, A ++ B)`. */
module GraftCompose {
  import opened Bytes
  import opened Wrappers
  import opened Alignment
  import opened PeImage
  import opened Graft
  import opened GraftTheorems

  // ---- The layout of a concatenation ----

  lemma {:induction false} EndVmaSplit(vma: nat, a: seq<Section>, b: seq<Section>, n: nat, sectionAlign: nat)
    requires n <= |a| + |b|
    ensures n <= |a| ==> EndVma(vma, a + b, n, sectionAlign) == EndVma(vma, a, n, sectionAlign)
    ensures n >= |a| ==>
      EndVma(vma, a + b, n, sectionAlign) == EndVma(EndVma(vma, a, |a|, sectionAlign), b, n - |a|, sectionAlign)
    decreases n
  {
    if n > 0 {
      EndVmaSplit(vma, a, b, n - 1, sectionAlign);
    }
  }

  lemma {:induction false} FileEndSplit(len: nat, a: seq<Section>, b: seq<Section>, n: nat, fileAlign: nat)
    requires n <= |a| + |b|
    ensures n <= |a| ==> FileEnd(len, a + b, n, fileAlign) == FileEnd(len, a, n, fileAlign)
    ensures n >= |a| ==>
      FileEnd(len, a + b, n, fileAlign) == FileEnd(FileEnd(len, a, |a|, fileAlign), b, n - |a|, fileAlign)
    decreases n
  {
    if n > 0 {
      FileEndSplit(len, a, b, n - 1, fileAlign);
    }
  }

  lemma {:induction false} PaddedToSplit(out: Bytes, a: seq<Section>, b: seq<Section>, n: nat, fileAlign: nat)
    requires n <= |a| + |b|
    ensures n <= |a| ==> PaddedTo(out, a + b, n, fileAlign) == PaddedTo(out, a, n, fileAlign)
    ensures n >= |a| ==>
      PaddedTo(out, a + b, n, fileAlign) == PaddedTo(PaddedTo(out, a, |a|, fileAlign), b, n - |a|, fileAlign)
    decreases n
  {
    assert PaddedTo(out, a + b, n, fileAlign) == PaddedStep(out, a + b, n, fileAlign);
    if n <= |a| {
      assert PaddedTo(out, a, n, fileAlign) == PaddedStep(out, a, n, fileAlign);
    }
    if n >= |a| {
      var padded := PaddedTo(out, a, |a|, fileAlign);
      assert PaddedTo(padded, b, n - |a|, fileAlign) == PaddedStep(padded, b, n - |a|, fileAlign);
    }
    if n > 0 {
      PaddedToSplit(out, a, b, n - 1, fileAlign);
    }
  }

  /** What is appended depends on the length of the file only. */
  lemma {:induction false} PaddedTail(x: Bytes, y: Bytes, ss: seq<Section>, n: nat, fileAlign: nat, k: nat)
    requires IsPow2(fileAlign) && |x| == |y| && n <= |ss| && |x| <= k < FileEnd(|x|, ss, n, fileAlign)
    ensures PaddedTo(x, ss, n, fileAlign)[k] == PaddedTo(y, ss, n, fileAlign)[k]
    decreases n
  {
    if n > 0 {
      assert PaddedTo(x, ss, n, fileAlign) == PaddedStep(x, ss, n, fileAlign);
      assert PaddedTo(y, ss, n, fileAlign) == PaddedStep(y, ss, n, fileAlign);
      var x', y' := PaddedTo(x, ss, n - 1, fileAlign), PaddedTo(y, ss, n - 1, fileAlign);
      PaddedTailStep(x', y', ss[n - 1].data, fileAlign, k);
      if k < |x'| {
        PaddedTail(x, y, ss, n - 1, fileAlign, k);
      }
    }
  }

  lemma {:induction false} PaddedTailStep(x: Bytes, y: Bytes, data: Bytes, fileAlign: nat, k: nat)
    requires IsPow2(fileAlign) && |x| == |y| && k < |Padded(x, data, fileAlign)|
    ensures k < |Padded(y, data, fileAlign)|
    ensures k >= |x| ==> Padded(x, data, fileAlign)[k] == Padded(y, data, fileAlign)[k]
    ensures k < |x| ==> Padded(x, data, fileAlign)[k] == x[k] && Padded(y, data, fileAlign)[k] == y[k]
  {
    AlignUpIsLeastMultiple(|x|, fileAlign);
    AlignUpIsLeastMultiple(|data|, fileAlign);
  }

  lemma {:induction false} PlacementSplit(
      len: nat, vma: nat, a: seq<Section>, b: seq<Section>, i: nat, fileAlign: nat, sectionAlign: nat)
    requires i < |a| + |b|
    ensures PlaceAt(len, vma, a + b, i, fileAlign, sectionAlign) ==
      if i < |a| then PlaceAt(len, vma, a, i, fileAlign, sectionAlign)
      else PlaceAt(FileEnd(len, a, |a|, fileAlign), EndVma(vma, a, |a|, sectionAlign), b, i - |a|,
                   fileAlign, sectionAlign)
  {
    EndVmaSplit(vma, a, b, i, sectionAlign);
    FileEndSplit(len, a, b, i, fileAlign);
  }

  // ---- Walking the sections of a built image ----

  /** The `i`-th new section of `x` reads as its placement. */
  predicate ReadsAsPlaced(x: Bytes, len: nat, pe: PeView, a: seq<Section>, vma: nat, i: nat)
    requires i < |a|
  {
    var sh, p := Slot(pe, pe.numSections + i), PlaceAt(len, vma, a, i, pe.fileAlign, pe.sectionAlign);
    && sh + HEADER_SIZE <= |x|
    && VirtualSize(x, sh) == p.size && RawPointer(x, sh) == p.rawPtr && RawSize(x, sh) == p.rawSize
    && VirtualAddress(x, sh) == p.vma
    && p.rawPtr >= len > 0
  }

  /** The walk over a built image finds the address at which its own layout ended. */
  lemma {:induction false} WalkFindsEnd(x: Bytes, len: nat, pe: PeView, a: seq<Section>, vma: nat, m: nat)
    requires IsPow2(pe.fileAlign) && IsPow2(pe.sectionAlign) && pe.fileAlign <= pe.sectionAlign
    requires vma % pe.sectionAlign == 0 && m <= |a| && Slot(pe, pe.numSections + m) <= |x|
    requires AlignUp(MaxVaEnd(x, pe, pe.numSections), pe.sectionAlign) == vma
    requires forall i: nat :: i < m ==> ReadsAsPlaced(x, len, pe, a, vma, i)
    ensures AlignUp(MaxVaEnd(x, pe, pe.numSections + m), pe.sectionAlign) == EndVma(vma, a, m, pe.sectionAlign)
    decreases m
  {
    if m > 0 {
      WalkFindsEnd(x, len, pe, a, vma, m - 1);
      assert ReadsAsPlaced(x, len, pe, a, vma, m - 1);
      EndVmaGrows(vma, a, m - 1, m, pe.sectionAlign);
      EndVmaGrows(vma, a, 0, m - 1, pe.sectionAlign);
      WalkOneMore(MaxVaEnd(x, pe, pe.numSections + m - 1), EndVma(vma, a, m - 1, pe.sectionAlign), |a[m - 1].data|,
                  pe.fileAlign, pe.sectionAlign);
    }
  }

  /** A section placed at the end found so far moves it to the running address. */
  lemma {:induction false} WalkOneMore(walked: nat, vma: nat, size: nat, fileAlign: nat, sectionAlign: nat)
    requires IsPow2(fileAlign) && IsPow2(sectionAlign) && fileAlign <= sectionAlign
    requires AlignUp(walked, sectionAlign) == vma && vma % sectionAlign == 0
    ensures AlignUp(Max(walked, vma + Max(size, AlignUp(size, fileAlign))), sectionAlign)
      == AlignUp(vma + size, sectionAlign)
  {
    LastSectionEnd(vma, size, fileAlign, sectionAlign);
    MaxAligned(walked, vma + AlignUp(size, fileAlign), sectionAlign);
    AlignUpFixed(vma, sectionAlign);
    AlignUpMonotone(vma, vma + size, sectionAlign);
  }

  lemma {:induction false} LastSectionEnd(vma: nat, len: nat, fileAlign: nat, sectionAlign: nat)
    requires IsPow2(fileAlign) && IsPow2(sectionAlign) && fileAlign <= sectionAlign && vma % sectionAlign == 0
    ensures AlignUp(vma + AlignUp(len, fileAlign), sectionAlign) == AlignUp(vma + len, sectionAlign)
    ensures len <= AlignUp(len, fileAlign)
  {
    AlignUpOffset(vma, AlignUp(len, fileAlign), sectionAlign);
    AlignUpOffset(vma, len, sectionAlign);
    AlignUpTwice(len, fileAlign, sectionAlign);
    AlignUpIsLeastMultiple(len, fileAlign);
  }

  lemma {:induction false} MaxAligned(x: nat, y: nat, a: nat)
    requires IsPow2(a)
    ensures AlignUp(Max(x, y), a) == Max(AlignUp(x, a), AlignUp(y, a))
  {
    if x <= y {
      AlignUpMonotone(x, y, a);
    } else {
      AlignUpMonotone(y, x, a);
    }
  }

  /** The header area does not move: appended raw data starts above it. */
  lemma {:induction false} CeilingStays(x: Bytes, len: nat, pe: PeView, a: seq<Section>, vma: nat, m: nat)
    requires m <= |a| && Slot(pe, pe.numSections + m) <= |x|
    requires Min(pe.sizeOfHeaders, MinRawPointer(x, pe, pe.numSections)) <= len
    requires forall i: nat :: i < m ==> ReadsAsPlaced(x, len, pe, a, vma, i)
    ensures Min(pe.sizeOfHeaders, MinRawPointer(x, pe, pe.numSections + m))
      == Min(pe.sizeOfHeaders, MinRawPointer(x, pe, pe.numSections))
    decreases m
  {
    if m > 0 {
      CeilingStays(x, len, pe, a, vma, m - 1);
      assert ReadsAsPlaced(x, len, pe, a, vma, m - 1);
    }
  }

  function Counted(pe: PeView, a: seq<Section>): PeView {
    pe.(numSections := pe.numSections + |a|)
  }

  lemma ImageReadsAsPlaced(stub: Bytes, pe: PeView, a: seq<Section>, i: nat)
    requires Laid(|stub|, pe, a) && FinalVma(stub, pe, a) <= U32_MAX && i < |a|
    ensures ReadsAsPlaced(Image(stub, pe, a, FirstVma(stub, pe)), |stub|, pe, a, FirstVma(stub, pe), i)
  {
    PlacementRange(stub, pe, a, i);
    PlacementBounds(stub, pe, a, FirstVma(stub, pe), i);
    ImageFields(stub, pe, a, FirstVma(stub, pe), i);
  }

  /** Walking a built image gives the address after its last section and the stub's own header area. */
  lemma BuiltImageWalk(stub: Bytes, pe: PeView, a: seq<Section>)
    requires Laid(|stub|, pe, a) && FinalVma(stub, pe, a) <= U32_MAX && HeaderCeiling(stub, pe) <= |stub|
    ensures var x := Image(stub, pe, a, FirstVma(stub, pe));
      && FirstVma(x, Counted(pe, a)) == FinalVma(stub, pe, a)
      && HeaderCeiling(x, Counted(pe, a)) == HeaderCeiling(stub, pe)
  {
    var vma := FirstVma(stub, pe);
    var x := Image(stub, pe, a, vma);
    StubKept(stub, pe, a, vma);
    ScanFrame(stub, pe, x, pe, pe.numSections);
    forall i: nat | i < |a|
      ensures ReadsAsPlaced(x, |stub|, pe, a, vma, i)
    {
      ImageReadsAsPlaced(stub, pe, a, i);
    }
    AlignUpIsLeastMultiple(MaxVaEnd(stub, pe, pe.numSections), pe.sectionAlign);
    WalkOfPlaced(x, |stub|, pe, a, vma);
  }

  /** Walking the larger table finds the running address and the old ceiling. */
  lemma {:induction false} WalkOfPlaced(x: Bytes, len: nat, pe: PeView, a: seq<Section>, vma: nat)
    requires IsPow2(pe.fileAlign) && IsPow2(pe.sectionAlign) && pe.fileAlign <= pe.sectionAlign
    requires vma % pe.sectionAlign == 0 && TableEnd(Counted(pe, a)) <= |x|
    requires AlignUp(MaxVaEnd(x, pe, pe.numSections), pe.sectionAlign) == vma
    requires Min(pe.sizeOfHeaders, MinRawPointer(x, pe, pe.numSections)) <= len
    requires forall i: nat :: i < |a| ==> ReadsAsPlaced(x, len, pe, a, vma, i)
    ensures FirstVma(x, Counted(pe, a)) == EndVma(vma, a, |a|, pe.sectionAlign)
    ensures HeaderCeiling(x, Counted(pe, a)) == Min(pe.sizeOfHeaders, MinRawPointer(x, pe, pe.numSections))
  {
    WalkFindsEnd(x, len, pe, a, vma, |a|);
    CeilingStays(x, len, pe, a, vma, |a|);
    ScanFrame(x, pe, x, Counted(pe, a), pe.numSections + |a|);
  }

  // ---- The two images are equal ----

  /** Byte `k` of the image. */
  function ImageByte(stub: Bytes, pe: PeView, ss: seq<Section>, vma: nat, k: nat): Byte
    requires Laid(|stub|, pe, ss) && k < FileEnd(|stub|, ss, |ss|, pe.fileAlign)
  {
    if pe.peOff + 6 <= k < pe.peOff + 8 then Digit(pe.numSections + |ss|, k - (pe.peOff + 6))
    else if pe.optOff + 56 <= k < pe.optOff + 60 then
      Digit(EndVma(vma, ss, |ss|, pe.sectionAlign), k - (pe.optOff + 56))
    else if pe.optOff + 64 <= k < pe.optOff + 68 then Digit(0, k - (pe.optOff + 64))
    else if InNewSlots(pe, ss, k) then
      var i := (k - TableEnd(pe)) / 40;
      HeaderBytes(PlaceAt(|stub|, vma, ss, i, pe.fileAlign, pe.sectionAlign))[k - TableEnd(pe) - 40 * i]
    else PaddedTo(stub, ss, |ss|, pe.fileAlign)[k]
  }

  lemma {:induction false} ImageAt(stub: Bytes, pe: PeView, ss: seq<Section>, vma: nat, k: nat)
    requires Laid(|stub|, pe, ss) && k < FileEnd(|stub|, ss, |ss|, pe.fileAlign)
    ensures Image(stub, pe, ss, vma)[k] == ImageByte(stub, pe, ss, vma, k)
  {
    if IsPatched(pe, k) {
      PatchFrame(WithHeaders(stub, pe, ss, vma), pe, pe.numSections + |ss|, EndVma(vma, ss, |ss|, pe.sectionAlign));
    } else if InNewSlots(pe, ss, k) {
      ImageSlots(stub, pe, ss, vma, (k - TableEnd(pe)) / 40);
    } else {
      ImageFrame(stub, pe, ss, vma);
    }
  }

  lemma NamesSplit(a: seq<Section>, b: seq<Section>)
    ensures NamesFit(a + b) <==> NamesFit(a) && NamesFit(b)
  {
    assert forall i :: 0 <= i < |a| ==> a[i] == (a + b)[i];
    assert forall i :: 0 <= i < |b| ==> b[i] == (a + b)[|a| + i];
  }

  lemma {:induction false} LaidSplit(len: nat, pe: PeView, a: seq<Section>, b: seq<Section>)
    requires Laid(len, pe, a + b)
    ensures Laid(len, pe, a)
    ensures Laid(FileEnd(len, a, |a|, pe.fileAlign), Counted(pe, a), b)
    ensures FileEnd(FileEnd(len, a, |a|, pe.fileAlign), b, |b|, pe.fileAlign)
      == FileEnd(len, a + b, |a + b|, pe.fileAlign)
  {
    NamesSplit(a, b);
    FileEndSplit(len, a, b, |a|, pe.fileAlign);
    FileEndSplit(len, a, b, |a| + |b|, pe.fileAlign);
    FileEndGrows(len, a, 0, |a|, pe.fileAlign);
    FileEndGrows(FileEnd(len, a, |a|, pe.fileAlign), b, 0, |b|, pe.fileAlign);
  }

  /** Byte by byte, grafting `b` onto an image `x` of `a` writes what grafting `a + b` at once writes. */
  lemma {:induction false} ByteAgrees(
      stub: Bytes, pe: PeView, a: seq<Section>, b: seq<Section>, vma: nat, x: Bytes, k: nat)
    requires Laid(|stub|, pe, a + b) && Laid(|stub|, pe, a) && Laid(|x|, Counted(pe, a), b)
    requires |x| == FileEnd(|stub|, a, |a|, pe.fileAlign)
    requires k < FileEnd(|stub|, a + b, |a + b|, pe.fileAlign) == FileEnd(|x|, b, |b|, pe.fileAlign)
    requires k < |x| ==> x[k] == ImageByte(stub, pe, a, vma, k)
    ensures ImageByte(x, Counted(pe, a), b, EndVma(vma, a, |a|, pe.sectionAlign), k)
      == ImageByte(stub, pe, a + b, vma, k)
  {
    EndVmaSplit(vma, a, b, |a| + |b|, pe.sectionAlign);
    if IsPatched(pe, k) {
    } else if InNewSlots(pe, a + b, k) {
      SlotByteAgrees(stub, pe, a, b, vma, x, k);
    } else {
      PaddedAgrees(stub, a, b, x, pe.fileAlign, k);
    }
  }

  lemma {:induction false} SlotByteAgrees(
    stub: Bytes, pe: PeView, a: seq<Section>, b: seq<Section>, vma: nat, x: Bytes, k: nat)
    requires Laid(|stub|, pe, a + b) && Laid(|stub|, pe, a) && Laid(|x|, Counted(pe, a), b)
    requires |x| == FileEnd(|stub|, a, |a|, pe.fileAlign) && k < FileEnd(|x|, b, |b|, pe.fileAlign)
    requires k < FileEnd(|stub|, a + b, |a + b|, pe.fileAlign)
    requires !IsPatched(pe, k) && InNewSlots(pe, a + b, k)
    requires k < |x| ==> x[k] == ImageByte(stub, pe, a, vma, k)
    ensures ImageByte(x, Counted(pe, a), b, EndVma(vma, a, |a|, pe.sectionAlign), k)
      == ImageByte(stub, pe, a + b, vma, k)
  {
    var i := (k - TableEnd(pe)) / 40;
    PlacementSplit(|stub|, vma, a, b, i, pe.fileAlign, pe.sectionAlign);
    if InNewSlots(Counted(pe, a), b, k) {
      assert (k - TableEnd(Counted(pe, a))) / 40 == i - |a|;
    } else {
      PaddedToKeeps(x, b, 0, |b|, pe.fileAlign, k);
      assert PaddedTo(x, b, 0, pe.fileAlign) == PaddedStep(x, b, 0, pe.fileAlign);
    }
  }

  lemma {:induction false} PaddedAgrees(stub: Bytes, a: seq<Section>, b: seq<Section>, x: Bytes, fileAlign: nat, k: nat)
    requires IsPow2(fileAlign) && |x| == FileEnd(|stub|, a, |a|, fileAlign)
    requires k < FileEnd(|stub|, a + b, |a + b|, fileAlign) == FileEnd(|x|, b, |b|, fileAlign)
    requires k < |x| ==> x[k] == PaddedTo(stub, a, |a|, fileAlign)[k]
    ensures PaddedTo(x, b, |b|, fileAlign)[k] == PaddedTo(stub, a + b, |a + b|, fileAlign)[k]
  {
    PaddedToSplit(stub, a, b, |a| + |b|, fileAlign);
    PaddedOnto(x, PaddedTo(stub, a, |a|, fileAlign), b, fileAlign, k);
  }

  lemma {:induction false} PaddedOnto(x: Bytes, y: Bytes, b: seq<Section>, fileAlign: nat, k: nat)
    requires IsPow2(fileAlign) && |x| == |y| && k < FileEnd(|x|, b, |b|, fileAlign)
    requires k < |x| ==> x[k] == y[k]
    ensures PaddedTo(x, b, |b|, fileAlign)[k] == PaddedTo(y, b, |b|, fileAlign)[k]
  {
    if k < |x| {
      PaddedToKeeps(x, b, 0, |b|, fileAlign, k);
      PaddedToKeeps(y, b, 0, |b|, fileAlign, k);
      NothingPadded(x, b, fileAlign);
      NothingPadded(y, b, fileAlign);
    } else {
      PaddedTail(x, y, b, |b|, fileAlign, k);
    }
  }

  lemma {:induction false} NothingPadded(x: Bytes, b: seq<Section>, fileAlign: nat)
    ensures PaddedTo(x, b, 0, fileAlign) == x
  {
    assert PaddedTo(x, b, 0, fileAlign) == PaddedStep(x, b, 0, fileAlign);
  }

  lemma {:induction false} ImagesAgree(stub: Bytes, pe: PeView, a: seq<Section>, b: seq<Section>, vma: nat)
    requires Laid(|stub|, pe, a + b)
    ensures Laid(|stub|, pe, a) && Laid(|Image(stub, pe, a, vma)|, Counted(pe, a), b)
    ensures Image(Image(stub, pe, a, vma), Counted(pe, a), b, EndVma(vma, a, |a|, pe.sectionAlign))
      == Image(stub, pe, a + b, vma)
  {
    LaidSplit(|stub|, pe, a, b);
    var x, pe', vma' := Image(stub, pe, a, vma), Counted(pe, a), EndVma(vma, a, |a|, pe.sectionAlign);
    var y, z := Image(x, pe', b, vma'), Image(stub, pe, a + b, vma);
    assert |y| == |z|;
    forall k: nat | k < |z|
      ensures y[k] == z[k]
    {
      ImageAt(x, pe', b, vma', k);
      ImageAt(stub, pe, a + b, vma, k);
      if k < |x| {
        ImageAt(stub, pe, a, vma, k);
      }
      ByteAgrees(stub, pe, a, b, vma, x, k);
    }
  }

  // ---- Compositionality ----

  lemma {:induction false} FitsSplit(stub: Bytes, pe: PeView, a: seq<Section>, b: seq<Section>, x: Bytes)
    requires IsPow2(pe.fileAlign) && TableEnd(pe) <= |stub| && Slot(pe, pe.numSections + |a|) <= |x|
    requires |x| == FileEnd(|stub|, a, |a|, pe.fileAlign)
    requires HeaderCeiling(x, Counted(pe, a)) == HeaderCeiling(stub, pe)
    ensures Fits(stub, pe, a + b) <==> Fits(stub, pe, a) && Fits(x, Counted(pe, a), b)
  {
    NamesSplit(a, b);
    FileEndSplit(|stub|, a, b, |a| + |b|, pe.fileAlign);
    FileEndGrows(|x|, b, 0, |b|, pe.fileAlign);
  }

  /** A built image is again a well-formed stub, as long as its addresses fit 32 bits. */
  lemma BuiltImageIsWellFormed(stub: Bytes, a: seq<Section>, x: Bytes)
    requires WellFormedStub(stub) && Grafted(stub, a) == Ok(x)
    requires FinalVma(stub, Parse(stub).value, a) <= U32_MAX
    ensures WellFormedStub(x)
  {
    var pe := Parse(stub).value;
    GraftReparses(stub, a, x);
    GraftSucceedsIff(stub, a);
    BuiltImageWalk(stub, pe, a);
  }

  lemma FinalVmaSplit(stub: Bytes, pe: PeView, a: seq<Section>, b: seq<Section>)
    requires TableEnd(pe) <= |stub| && IsPow2(pe.sectionAlign)
    ensures FinalVma(stub, pe, a) <= FinalVma(stub, pe, a + b)
  {
    var vma := FirstVma(stub, pe);
    EndVmaSplit(vma, a, b, |a|, pe.sectionAlign);
    AlignUpIsLeastMultiple(MaxVaEnd(stub, pe, pe.numSections), pe.sectionAlign);
    EndVmaGrows(vma, a + b, |a|, |a| + |b|, pe.sectionAlign);
  }

  /**
    Grafting is compositional: when the final address fits 32 bits, grafting `a + b` succeeds exactly
    when grafting `a` and then `b` onto the result does, and then the two images are equal byte for byte.
   */
  lemma GraftComposes(stub: Bytes, a: seq<Section>, b: seq<Section>)
    requires WellFormedStub(stub)
    requires FinalVma(stub, Parse(stub).value, a + b) <= U32_MAX
    ensures Grafted(stub, a + b).Ok? <==> Grafted(stub, a).Ok? && Grafted(Grafted(stub, a).value, b).Ok?
    ensures Grafted(stub, a + b).Ok? ==> Grafted(Grafted(stub, a).value, b) == Grafted(stub, a + b)
  {
    var pe := Parse(stub).value;
    GraftSucceedsIff(stub, a);
    GraftSucceedsIff(stub, a + b);
    FinalVmaSplit(stub, pe, a, b);
    FirstStepFits(stub, pe, a, b);
    if Grafted(stub, a).Ok? {
      SecondStep(stub, pe, a, b, Grafted(stub, a).value);
    }
  }

  lemma FirstStepFits(stub: Bytes, pe: PeView, a: seq<Section>, b: seq<Section>)
    requires IsPow2(pe.fileAlign) && TableEnd(pe) <= |stub|
    ensures Fits(stub, pe, a + b) ==> Fits(stub, pe, a)
  {
    NamesSplit(a, b);
    FileEndSplit(|stub|, a, b, |a|, pe.fileAlign);
    FileEndGrows(|stub|, a + b, |a|, |a| + |b|, pe.fileAlign);
  }

  /** The second graft, seen from the images: it fits exactly when the whole fits, and writes the whole. */
  lemma SecondImage(stub: Bytes, pe: PeView, a: seq<Section>, b: seq<Section>, x: Bytes)
    requires Laid(|stub|, pe, a) && FinalVma(stub, pe, a) <= U32_MAX && HeaderCeiling(stub, pe) <= |stub|
    requires Fits(stub, pe, a) && x == Image(stub, pe, a, FirstVma(stub, pe))
    ensures Fits(stub, pe, a + b) <==> Fits(x, Counted(pe, a), b)
    ensures Laid(|stub|, pe, a + b) ==>
      && Laid(|x|, Counted(pe, a), b)
      && Image(x, Counted(pe, a), b, FirstVma(x, Counted(pe, a))) == Image(stub, pe, a + b, FirstVma(stub, pe))
  {
    BuiltImageWalk(stub, pe, a);
    FitsSplit(stub, pe, a, b, x);
    if Laid(|stub|, pe, a + b) {
      ImagesAgree(stub, pe, a, b, FirstVma(stub, pe));
    }
  }

  /** What is known of the first image once grafting `a` succeeded. */
  lemma FirstImage(stub: Bytes, pe: PeView, a: seq<Section>, x: Bytes)
    requires WellFormedStub(stub) && Parse(stub) == Ok(pe) && Grafted(stub, a) == Ok(x)
    ensures Laid(|stub|, pe, a) && Fits(stub, pe, a) && HeaderCeiling(stub, pe) <= |stub|
    ensures x == Image(stub, pe, a, FirstVma(stub, pe))
  {
    GraftSucceedsIff(stub, a);
  }

  lemma SecondStepFits(stub: Bytes, pe: PeView, a: seq<Section>, b: seq<Section>, x: Bytes)
    requires WellFormedStub(stub) && Parse(stub) == Ok(pe) && Grafted(stub, a) == Ok(x)
    requires FinalVma(stub, pe, a) <= U32_MAX
    ensures WellFormedStub(x) && Parse(x) == Ok(Counted(pe, a))
    ensures Fits(stub, pe, a + b) <==> Fits(x, Counted(pe, a), b)
  {
    GraftReparses(stub, a, x);
    BuiltImageIsWellFormed(stub, a, x);
    FirstImage(stub, pe, a, x);
    SecondImage(stub, pe, a, b, x);
  }

  lemma SecondStep(stub: Bytes, pe: PeView, a: seq<Section>, b: seq<Section>, x: Bytes)
    requires WellFormedStub(stub) && Parse(stub) == Ok(pe) && Grafted(stub, a) == Ok(x)
    requires FinalVma(stub, pe, a) <= U32_MAX
    ensures Grafted(stub, a + b).Ok? <==> Grafted(x, b).Ok?
    ensures Grafted(stub, a + b).Ok? ==> Grafted(x, b) == Grafted(stub, a + b)
  {
    SecondStepFits(stub, pe, a, b, x);
    GraftSucceedsIff(stub, a + b);
    GraftSucceedsIff(x, b);
    if Grafted(stub, a + b).Ok? {
      SecondValue(stub, pe, a, b, x, Grafted(stub, a + b).value, Grafted(x, b).value);
    }
  }

  lemma SecondValue(
    stub: Bytes, pe: PeView, a: seq<Section>, b: seq<Section>, x: Bytes, whole: Bytes, y: Bytes)
    requires WellFormedStub(stub) && Parse(stub) == Ok(pe) && Grafted(stub, a) == Ok(x)
    requires FinalVma(stub, pe, a) <= U32_MAX
    requires Laid(|stub|, pe, a + b) && whole == Image(stub, pe, a + b, FirstVma(stub, pe))
    requires Laid(|x|, Counted(pe, a), b) && y == Image(x, Counted(pe, a), b, FirstVma(x, Counted(pe, a)))
    ensures whole == y
  {
    FirstImage(stub, pe, a, x);
    SecondImage(stub, pe, a, b, x);
  }
}
